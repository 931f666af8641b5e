/** Who refers to whom: reference counts, forwarding and membership, kept by every operation. */
module AliasSetRefs {
  import opened Basics
  import opened AliasSets

  /** The pointers whose records name set `i`. */
  ghost function RecsOf(t: Tracker, i: SetId): set<Ptr> { set p | p in t.recs && t.recs[p].set_ == i }

  /** The sets that forward to set `i`. */
  ghost function FwdsOf(t: Tracker, i: SetId): set<SetId> { set j | j in t.sets && t.sets[j].forward == Some(i) }

  predicate Full(s: ASet) { s.ptrs != [] || s.unknown != [] }

  function Held(s: ASet): nat { if s.unknown != [] then 1 else 0 }

  ghost predicate NoDup(s: seq<Ptr>) { forall i, j :: 0 <= i < j < |s| ==> s[i] != s[j] }

  /** `R` gives every set the live set at the end of its forwarding chain. */
  type Roots = map<SetId, SetId>

  /** A set either is live, or forwards along a chain that goes down in rank (so there are no
      cycles) to a set that is still there, and holds nothing itself. */
  ghost predicate SetOK(t: Tracker, R: Roots, i: SetId)
    requires i in t.sets && t.sets.Keys <= R.Keys
  {
    var s := t.sets[i];
    && i < t.next && s.size == |s.ptrs|
    && (!s.may ==> s.unknown == [])
    && (s.any <==> t.any == Some(i))
    && match s.forward
       case None => R[i] == i && (Full(s) || t.any == Some(i))
       case Some(f) => Forwards(t, i, f) && R[i] == R[f] && !Full(s) && Live(t, R[i])
  }

  /** A pointer's record leads to the live set that lists it. */
  ghost predicate RecOK(t: Tracker, R: Roots, p: Ptr)
    requires p in t.recs && t.sets.Keys <= R.Keys
  {
    var i := t.recs[p].set_;
    i in t.sets && R[i] in t.sets && p in t.sets[R[i]].ptrs
  }

  /** A set lists pointers once, and only those whose records lead to it. */
  ghost predicate ListOK(t: Tracker, R: Roots, i: SetId)
    requires i in t.sets && t.sets.Keys <= R.Keys
  {
    && NoDup(t.sets[i].ptrs)
    && forall p :: p in t.sets[i].ptrs ==> p in t.recs && t.recs[p].set_ in t.sets && R[t.recs[p].set_] == i
  }

  /** A count is the number of records, of forwarding sets, one for unknown instructions, and
      the references `extra` that an operation under way still holds. */
  ghost predicate CountOK(t: Tracker, extra: multiset<SetId>, i: SetId)
    requires i in t.sets
  {
    t.sets[i].refs == |RecsOf(t, i)| + |FwdsOf(t, i)| + Held(t.sets[i]) + extra[i]
  }

  /** Forwarding and membership. */
  ghost predicate Linked(t: Tracker, R: Roots) {
    && t.sets.Keys <= R.Keys && (forall i {:trigger i in R} :: i in R ==> i < t.next)
    && (forall i {:trigger SetOK(t, R, i)} :: i in t.sets ==> SetOK(t, R, i))
    && (forall p {:trigger RecOK(t, R, p)} :: p in t.recs ==> RecOK(t, R, p))
    && (forall i {:trigger ListOK(t, R, i)} :: i in t.sets ==> ListOK(t, R, i))
    && (t.any.Some? ==> Live(t, t.any.value) && t.sets[t.any.value].may)
  }

  ghost predicate Counted(t: Tracker, extra: multiset<SetId>) {
    && (forall i {:trigger CountOK(t, extra, i)} :: i in t.sets ==> CountOK(t, extra, i))
    && (forall i {:trigger extra[i]} :: extra[i] > 0 ==> i in t.sets)
  }

  ghost predicate Inv(t: Tracker, R: Roots, extra: multiset<SetId>) {
    Linked(t, R) && Counted(t, extra)
  }

  ghost predicate AnyFull(t: Tracker) {
    t.any.Some? ==> t.any.value in t.sets && Full(t.sets[t.any.value])
  }

  // ------------------------------------------------------------- dropping references

  /** A set at the end of somebody else's chain is forwarded to directly by some set. */
  lemma {:induction false} ChainEnds(t: Tracker, R: Roots, extra: multiset<SetId>, j: SetId) returns (k: SetId)
    requires Linked(t, R) && j in t.sets && R[j] != j
    ensures k in FwdsOf(t, R[j])
    decreases Rank(t, j)
  {
    assert SetOK(t, R, j);
    var f := t.sets[j].forward.value;
    assert SetOK(t, R, f);
    if R[f] == f {
      k := j;
    } else {
      k := ChainEnds(t, R, extra, f);
    }
  }

  /** A live set that holds something is referred to by somebody. */
  lemma FullIsReferred(t: Tracker, R: Roots, extra: multiset<SetId>, i: SetId)
    requires Inv(t, R, extra) && Live(t, i) && Full(t.sets[i])
    ensures |RecsOf(t, i)| + |FwdsOf(t, i)| + Held(t.sets[i]) > 0
  {
    if t.sets[i].unknown == [] {
      var p := t.sets[i].ptrs[0];
      assert ListOK(t, R, i);
      assert p in t.sets[i].ptrs;
      var j := t.recs[p].set_;
      if j == i {
        assert p in RecsOf(t, i);
      } else {
        var k := ChainEnds(t, R, extra, j);
        assert k in FwdsOf(t, i);
      }
    }
  }

  /** Only a forwarding set can lose its last reference. */
  lemma LastReference(t: Tracker, R: Roots, extra: multiset<SetId>, i: SetId)
    requires Inv(t, R, extra) && AnyFull(t)
    requires i in t.sets && t.sets[i].refs == 1 && extra[i] > 0
    ensures t.sets[i].forward.Some? && Forwards(t, i, t.sets[i].forward.value) && t.sets[i].size == 0
    ensures RecsOf(t, i) == {} && FwdsOf(t, i) == {} && extra[i] == 1
  {
    assert SetOK(t, R, i) && CountOK(t, extra, i);
    if t.sets[i].forward.None? {
      FullIsReferred(t, R, extra, i);
    }
  }

  lemma SameRecs(t: Tracker, t1: Tracker, j: SetId)
    requires t1.recs == t.recs
    ensures RecsOf(t1, j) == RecsOf(t, j)
  {
  }

  lemma SameFwds(t: Tracker, t1: Tracker, j: SetId)
    requires t1.sets.Keys == t.sets.Keys
    requires forall k {:trigger t1.sets[k]} :: k in t.sets ==> t1.sets[k].forward == t.sets[k].forward
    ensures FwdsOf(t1, j) == FwdsOf(t, j)
  {
  }

  lemma RemovedFwds(t: Tracker, i: SetId, f: SetId, t1: Tracker, j: SetId)
    requires i in t.sets && t.sets[i].forward == Some(f) && t1 == t.(sets := t.sets - {i})
    ensures |FwdsOf(t1, j)| == |FwdsOf(t, j)| - (if j == f then 1 else 0)
  {
    assert FwdsOf(t1, j) == FwdsOf(t, j) - {i};
    assert i in FwdsOf(t, f);
  }

  /** Removing a set that nothing refers to any more. */
  lemma RemoveKeeps(t: Tracker, R: Roots, extra: multiset<SetId>, i: SetId, f: SetId, t1: Tracker)
    requires Inv(t, R, extra) && AnyFull(t)
    requires Forwards(t, i, f) && RecsOf(t, i) == {} && FwdsOf(t, i) == {} && extra[i] == 1
    requires t1 == t.(sets := t.sets - {i})
    ensures Inv(t1, R, extra - multiset{i} + multiset{f}) && AnyFull(t1)
  {
    RemoveLinked(t, R, i, t1);
    RemoveCounted(t, extra, i, f, t1);
    assert SetOK(t, R, i);
  }

  lemma RemoveCounted(t: Tracker, extra: multiset<SetId>, i: SetId, f: SetId, t1: Tracker)
    requires Counted(t, extra) && Forwards(t, i, f) && i != f && extra[i] == 1
    requires t1 == t.(sets := t.sets - {i})
    ensures Counted(t1, extra - multiset{i} + multiset{f})
  {
    var extra1 := extra - multiset{i} + multiset{f};
    forall j | j in t1.sets ensures CountOK(t1, extra1, j) {
      assert CountOK(t, extra, j);
      SameRecs(t, t1, j);
      RemovedFwds(t, i, f, t1, j);
    }
  }

  lemma RemoveLinked(t: Tracker, R: Roots, i: SetId, t1: Tracker)
    requires Linked(t, R) && i in t.sets && t.sets[i].forward.Some? && RecsOf(t, i) == {} && FwdsOf(t, i) == {}
    requires t1 == t.(sets := t.sets - {i})
    ensures Linked(t1, R)
  {
    forall j | j in t.sets ensures t.sets[j].forward != Some(i) {
      assert j !in FwdsOf(t, i);
    }
    forall p | p in t.recs ensures t.recs[p].set_ != i {
      assert p !in RecsOf(t, i);
    }
    RemoveSets(t, R, i, t1);
    RemoveMembers(t, R, i, t1);
    assert SetOK(t, R, i);
  }

  lemma RemoveSets(t: Tracker, R: Roots, i: SetId, t1: Tracker)
    requires t.sets.Keys <= R.Keys && i in t.sets && t.sets[i].forward.Some?
    requires forall j {:trigger SetOK(t, R, j)} :: j in t.sets ==> SetOK(t, R, j)
    requires forall j {:trigger t.sets[j]} :: j in t.sets ==> t.sets[j].forward != Some(i)
    requires t1 == t.(sets := t.sets - {i})
    ensures forall j {:trigger SetOK(t1, R, j)} :: j in t1.sets ==> SetOK(t1, R, j)
  {
    assert t1.sets.Keys == t.sets.Keys - {i};
    forall j | j in t1.sets ensures SetOK(t1, R, j) {
      assert SetOK(t, R, j);
    }
  }

  lemma RemoveMembers(t: Tracker, R: Roots, i: SetId, t1: Tracker)
    requires Linked(t, R) && i in t.sets && t.sets[i].forward.Some?
    requires forall p {:trigger t.recs[p]} :: p in t.recs ==> t.recs[p].set_ != i
    requires t1 == t.(sets := t.sets - {i})
    ensures (forall p {:trigger RecOK(t1, R, p)} :: p in t1.recs ==> RecOK(t1, R, p))
      && (forall j {:trigger ListOK(t1, R, j)} :: j in t1.sets ==> ListOK(t1, R, j))
  {
    forall p | p in t1.recs ensures RecOK(t1, R, p) {
      assert RecOK(t, R, p);
      assert SetOK(t, R, R[t.recs[p].set_]) && SetOK(t, R, i);
    }
    forall j | j in t1.sets ensures ListOK(t1, R, j) {
      assert ListOK(t, R, j);
    }
  }

  /** Counts matter only to counting. */
  lemma LinkedIgnoresRefs(t: Tracker, R: Roots, i: SetId, refs: int)
    requires Linked(t, R) && i in t.sets
    ensures Linked(t.(sets := t.sets[i := t.sets[i].(refs := refs)]), R)
  {
    var t1 := t.(sets := t.sets[i := t.sets[i].(refs := refs)]);
    assert t1.sets.Keys == t.sets.Keys;
    forall j | j in t1.sets ensures SetOK(t1, R, j) {
      assert SetOK(t, R, j);
    }
    forall p | p in t1.recs ensures RecOK(t1, R, p) {
      assert RecOK(t, R, p);
    }
    forall j | j in t1.sets ensures ListOK(t1, R, j) {
      assert ListOK(t, R, j);
    }
  }

  lemma Recounted(t: Tracker, extra: multiset<SetId>, i: SetId, refs: int, extra': multiset<SetId>)
    requires Counted(t, extra) && i in t.sets
    requires refs + extra[i] == t.sets[i].refs + extra'[i]
    requires forall j :: j != i ==> extra'[j] == extra[j]
    ensures Counted(t.(sets := t.sets[i := t.sets[i].(refs := refs)]), extra')
  {
    var t1 := t.(sets := t.sets[i := t.sets[i].(refs := refs)]);
    assert t1.sets.Keys == t.sets.Keys;
    forall j | j in t1.sets ensures CountOK(t1, extra', j) {
      assert CountOK(t, extra, j);
      SameRecs(t, t1, j);
      SameFwds(t, t1, j);
    }
  }

  /** What dropping a reference leaves alone: everything but counts and dead forwarders. */
  ghost predicate OnlyDropped(t: Tracker, t': Tracker) {
    && t'.recs == t.recs && t'.any == t.any && t'.next == t.next && t'.total == t.total
    && (forall j {:trigger j in t'.sets} ::
           j in t'.sets ==> j in t.sets && t'.sets[j] == t.sets[j].(refs := t'.sets[j].refs))
    && (forall j {:trigger j in t'.sets} ::
           j in t.sets && j !in t'.sets ==> t.sets[j].forward.Some? && t.sets[j].size == 0)
  }

  /** Dropping a reference to `i` removes no set that ranks higher. */
  lemma {:induction false} DropRank(t: Tracker, R: Roots, extra: multiset<SetId>, i: SetId, j: SetId)
    requires Inv(t, R, extra) && AnyFull(t) && i in t.sets && extra[i] > 0
    requires j in t.sets && Rank(t, j) > Rank(t, i)
    ensures j in DropRef(t, i).sets
    decreases |t.sets|
  {
    if t.sets[i].refs == 1 {
      LastReference(t, R, extra, i);
      var f := t.sets[i].forward.value;
      var t1, extra1 := t.(sets := t.sets - {i}), extra - multiset{i} + multiset{f};
      RemoveKeeps(t, R, extra, i, f, t1);
      DropLast(t, i, f);
      DropRank(t1, R, extra1, f, j);
    }
  }

  lemma RemovedOnlyDrops(t: Tracker, i: SetId, t1: Tracker)
    requires i in t.sets && t.sets[i].forward.Some? && t.sets[i].size == 0 && t1 == t.(sets := t.sets - {i})
    ensures OnlyDropped(t, t1)
  {
  }

  lemma OnlyDroppedTrans(a: Tracker, b: Tracker, c: Tracker)
    requires OnlyDropped(a, b) && OnlyDropped(b, c)
    ensures OnlyDropped(a, c)
  {
    forall j | j in c.sets ensures j in a.sets && c.sets[j] == a.sets[j].(refs := c.sets[j].refs) {
      assert j in b.sets;
    }
    forall j | j in a.sets && j !in c.sets ensures a.sets[j].forward.Some? && a.sets[j].size == 0 {
      if j in b.sets {
        assert b.sets[j] == a.sets[j].(refs := b.sets[j].refs);
      }
    }
  }

  lemma DropLast(t: Tracker, i: SetId, f: SetId)
    requires i in t.sets && t.sets[i].refs == 1 && t.sets[i].size == 0 && t.sets[i].forward == Some(f)
    requires f in t.sets && f != i
    ensures DropRef(t, i) == DropRef(t.(sets := t.sets - {i}), f)
    ensures |t.sets - {i}| < |t.sets|
  {
    assert (t.sets - {i}).Keys == t.sets.Keys - {i};
    assert |t.sets - {i}| == |(t.sets - {i}).Keys| && |t.sets| == |t.sets.Keys|;
    assert t.(sets := t.sets - {i}, total := if t.sets[i].may then t.total - t.sets[i].size else t.total) ==
      t.(sets := t.sets - {i});
  }

  /** Dropping a reference that is not the last one. */
  lemma DropOne(t: Tracker, R: Roots, extra: multiset<SetId>, i: SetId)
    requires Inv(t, R, extra) && AnyFull(t) && i in t.sets && extra[i] > 0 && t.sets[i].refs != 1
    ensures var t' := DropRef(t, i);
      && Inv(t', R, extra - multiset{i}) && AnyFull(t')
      && OnlyDropped(t, t') && t'.sets.Keys == t.sets.Keys
  {
    var refs := t.sets[i].refs - 1;
    LinkedIgnoresRefs(t, R, i, refs);
    Recounted(t, extra, i, refs, extra - multiset{i});
    var t' := DropRef(t, i);
    assert t'.sets.Keys == t.sets.Keys;
  }

  lemma {:induction false} DropRefKeeps(t: Tracker, R: Roots, extra: multiset<SetId>, i: SetId)
    requires Inv(t, R, extra) && AnyFull(t) && extra[i] > 0
    ensures i in t.sets
    ensures var t' := DropRef(t, i);
      && Inv(t', R, extra - multiset{i}) && AnyFull(t')
      && OnlyDropped(t, t') && (t.sets[i].refs != 1 ==> t'.sets.Keys == t.sets.Keys)
    decreases |t.sets|
  {
    if t.sets[i].refs != 1 {
      DropOne(t, R, extra, i);
    } else {
      LastReference(t, R, extra, i);
      var f := t.sets[i].forward.value;
      var t1, extra1 := t.(sets := t.sets - {i}), extra - multiset{i} + multiset{f};
      RemoveKeeps(t, R, extra, i, f, t1);
      DropLast(t, i, f);
      DropRefKeeps(t1, R, extra1, f);
      RemovedOnlyDrops(t, i, t1);
      var t' := DropRef(t1, f);
      OnlyDroppedTrans(t, t1, t');
      assert extra1 - multiset{f} == extra - multiset{i};
      }
  }

  // ---------------------------------------------------------------------- merging

  /** Everybody who ended at `s` now ends at `d`. */
  function Rerouted(R: Roots, s: SetId, d: SetId): Roots { map i | i in R :: if R[i] == s then d else R[i] }

  /** The two sets after a merge, before `s` gives up the reference of its instructions. */
  function Joined(o: Oracle, t: Tracker, d: SetId, s: SetId): Tracker
    requires d in t.sets && s in t.sets && d != s
  {
    var D, S := t.sets[d], t.sets[s];
    var may := !StaysMust(o, t, d, s);
    var grow := (if may && !D.may then D.size else 0) + (if may && !S.may then S.size else 0);
    var refs := D.refs + 1 + (if D.unknown == [] && S.unknown != [] then 1 else 0);
    var D' := D.(may := may, refs := refs, ptrs := D.ptrs + S.ptrs, size := D.size + S.size,
      unknown := D.unknown + S.unknown);
    var S' := S.(forward := Some(d), ptrs := [], size := 0, unknown := []);
    t.(sets := t.sets[d := D'][s := S'], total := t.total + grow)
  }

  lemma JoinedSets(o: Oracle, t: Tracker, R: Roots, d: SetId, s: SetId)
    requires Linked(t, R) && Live(t, d) && Live(t, s) && d != s && Rank(t, d) < Rank(t, s)
    ensures var t1, R1 := Joined(o, t, d, s), Rerouted(R, s, d);
      && t1.sets.Keys <= R1.Keys
      && (forall i {:trigger SetOK(t1, R1, i)} :: i in t1.sets ==> SetOK(t1, R1, i))
      && (t1.any.Some? ==> Live(t1, t1.any.value) && t1.sets[t1.any.value].may)
  {
    var t1, R1 := Joined(o, t, d, s), Rerouted(R, s, d);
    assert t1.sets.Keys == t.sets.Keys;
    assert SetOK(t, R, d) && SetOK(t, R, s);
    forall i | i in t1.sets ensures SetOK(t1, R1, i) {
      assert SetOK(t, R, i);
    }
  }

  lemma NoDupJoin(a: seq<Ptr>, b: seq<Ptr>)
    requires NoDup(a) && NoDup(b) && forall p :: p in a ==> p !in b
    ensures NoDup(a + b)
  {
    forall i, j | 0 <= i < j < |a + b| ensures (a + b)[i] != (a + b)[j] {
      if i < |a| <= j {
        assert a[i] in a && b[j - |a|] in b;
      }
    }
  }

  lemma JoinedMembers(o: Oracle, t: Tracker, R: Roots, d: SetId, s: SetId)
    requires Linked(t, R) && Live(t, d) && Live(t, s) && d != s
    ensures var t1, R1 := Joined(o, t, d, s), Rerouted(R, s, d);
      && t1.sets.Keys <= R1.Keys
      && (forall p {:trigger RecOK(t1, R1, p)} :: p in t1.recs ==> RecOK(t1, R1, p))
      && (forall i {:trigger ListOK(t1, R1, i)} :: i in t1.sets ==> ListOK(t1, R1, i))
  {
    var t1, R1 := Joined(o, t, d, s), Rerouted(R, s, d);
    assert t1.sets.Keys == t.sets.Keys;
    forall p | p in t1.recs ensures RecOK(t1, R1, p) {
      assert RecOK(t, R, p);
    }
    assert ListOK(t, R, d) && ListOK(t, R, s);
    NoDupJoin(t.sets[d].ptrs, t.sets[s].ptrs);
    forall i | i in t1.sets ensures ListOK(t1, R1, i) {
      assert ListOK(t, R, i);
    }
  }

  /** Only `s` forwards anew, to `d`. */
  ghost predicate ForwardsAnew(t: Tracker, t': Tracker, d: SetId, s: SetId) {
    && t'.sets.Keys == t.sets.Keys && s in t.sets && t.sets[s].forward.None?
    && forall x :: x in t.sets ==> t'.sets[x].forward == if x == s then Some(d) else t.sets[x].forward
  }

  lemma AnewFwds(t: Tracker, t': Tracker, d: SetId, s: SetId, j: SetId)
    requires ForwardsAnew(t, t', d, s)
    ensures |FwdsOf(t', j)| == |FwdsOf(t, j)| + (if j == d then 1 else 0)
  {
    if j == d {
      assert FwdsOf(t', j) == FwdsOf(t, j) + {s};
    } else {
      assert FwdsOf(t', j) == FwdsOf(t, j);
    }
  }

  lemma JoinedForwards(o: Oracle, t: Tracker, d: SetId, s: SetId)
    requires Live(t, d) && Live(t, s) && d != s
    ensures ForwardsAnew(t, Joined(o, t, d, s), d, s)
  {
    assert Joined(o, t, d, s).sets.Keys == t.sets.Keys;
  }

  lemma JoinedFwds(o: Oracle, t: Tracker, d: SetId, s: SetId, j: SetId)
    requires Live(t, d) && Live(t, s) && d != s
    ensures |FwdsOf(Joined(o, t, d, s), j)| == |FwdsOf(t, j)| + (if j == d then 1 else 0)
  {
    JoinedForwards(o, t, d, s);
    AnewFwds(t, Joined(o, t, d, s), d, s, j);
  }

  function HeldBy(t: Tracker, s: SetId): multiset<SetId>
    requires s in t.sets
  {
    if t.sets[s].unknown != [] then multiset{s} else multiset{}
  }

  lemma JoinedCounted(o: Oracle, t: Tracker, d: SetId, s: SetId)
    requires Counted(t, multiset{}) && Live(t, d) && Live(t, s) && d != s
    ensures Counted(Joined(o, t, d, s), HeldBy(t, s))
  {
    var t1, extra := Joined(o, t, d, s), HeldBy(t, s);
    assert t1.sets.Keys == t.sets.Keys;
    forall j | j in t1.sets ensures CountOK(t1, extra, j) {
      assert CountOK(t, multiset{}, j);
      SameRecs(t, t1, j);
      JoinedFwds(o, t, d, s, j);
    }
  }

  /** What a merge does to the live sets. */
  ghost predicate MergeEffect(o: Oracle, t: Tracker, d: SetId, s: SetId, t': Tracker)
    requires d in t.sets && s in t.sets
  {
    && t'.recs == t.recs && t'.any == t.any && t'.next == t.next
    && Live(t', d) && !Live(t', s)
    && t'.sets[d].ptrs == t.sets[d].ptrs + t.sets[s].ptrs
    && t'.sets[d].unknown == t.sets[d].unknown + t.sets[s].unknown
    && t'.sets[d].may == !StaysMust(o, t, d, s) && t'.sets[d].any == t.sets[d].any
    && (forall j: SetId {:trigger Live(t', j)} :: j != d && j != s ==> SameLive(t, t', j))
    && (forall j {:trigger j in t'.sets} :: j in t'.sets ==>
          j in t.sets && t'.sets[j].forward == (if j == s then Some(d) else t.sets[j].forward))
    && (forall j {:trigger j in t'.sets} :: j in t.sets && Rank(t, j) > Rank(t, s) ==> j in t'.sets)
  }

  /** Set `j` is live in both and holds the same, or is live in neither. */
  ghost predicate SameLive(t: Tracker, t': Tracker, j: SetId) {
    && (Live(t', j) <==> Live(t, j))
    && (Live(t, j) ==> t'.sets[j] == t.sets[j].(refs := t'.sets[j].refs))
  }

  lemma MergeKeeps(o: Oracle, t: Tracker, R: Roots, d: SetId, s: SetId)
    requires Inv(t, R, multiset{}) && Live(t, d) && Live(t, s) && d != s && Rank(t, d) < Rank(t, s)
    requires AnyFull(t) || t.any == Some(d)
    ensures var t' := MergeSetIn(o, t, d, s);
      && Inv(t', Rerouted(R, s, d), multiset{}) && AnyFull(t') && MergeEffect(o, t, d, s, t')
      && OnlyDropped(Joined(o, t, d, s), t')
  {
    JoinedKeeps(o, t, R, d, s);
    Settles(Joined(o, t, d, s), Rerouted(R, s, d), s, t.sets[s].unknown != []);
    JoinedRanks(o, t, d, s);
    MergeEffectHolds(o, t, d, s, MergeSetIn(o, t, d, s));
  }

  lemma JoinedRanks(o: Oracle, t: Tracker, d: SetId, s: SetId)
    requires d in t.sets && s in t.sets && d != s
    ensures Joined(o, t, d, s).sets.Keys == t.sets.Keys && Joined(o, t, d, s).any == t.any
    ensures MergeSetIn(o, t, d, s) == Settled(Joined(o, t, d, s), s, t.sets[s].unknown != [])
  {
  }

  function Settled(t: Tracker, s: SetId, held: bool): Tracker
    requires s in t.sets
  {
    if held then DropRef(t, s) else t
  }

  lemma Settles(t: Tracker, R: Roots, s: SetId, held: bool)
    requires Inv(t, R, if held then multiset{s} else multiset{}) && AnyFull(t) && s in t.sets
    ensures var t' := Settled(t, s, held);
      && Inv(t', R, multiset{}) && AnyFull(t') && OnlyDropped(t, t')
      && forall j {:trigger j in t'.sets} :: j in t.sets && Rank(t, j) > Rank(t, s) ==> j in t'.sets
  {
    if held {
      LetGo(t, R, s);
    }
  }

  /** Joined, with the reference for unknown instructions still held. */
  lemma JoinedKeeps(o: Oracle, t: Tracker, R: Roots, d: SetId, s: SetId)
    requires Inv(t, R, multiset{}) && Live(t, d) && Live(t, s) && d != s && Rank(t, d) < Rank(t, s)
    requires AnyFull(t) || t.any == Some(d)
    ensures Inv(Joined(o, t, d, s), Rerouted(R, s, d), HeldBy(t, s)) && AnyFull(Joined(o, t, d, s))
  {
    JoinedSets(o, t, R, d, s);
    JoinedMembers(o, t, R, d, s);
    JoinedCounted(o, t, d, s);
    assert SetOK(t, R, s);
  }

  /** The one reference still held is dropped: nothing that ranks higher goes. */
  lemma LetGo(t: Tracker, R: Roots, s: SetId)
    requires Inv(t, R, multiset{s}) && AnyFull(t) && s in t.sets
    ensures var t' := DropRef(t, s);
      && Inv(t', R, multiset{}) && AnyFull(t') && OnlyDropped(t, t')
      && forall j {:trigger j in t'.sets} :: j in t.sets && Rank(t, j) > Rank(t, s) ==> j in t'.sets
  {
    DropRefKeeps(t, R, multiset{s}, s);
    assert multiset{s} - multiset{s} == multiset{};
    forall j | j in t.sets && Rank(t, j) > Rank(t, s) ensures j in DropRef(t, s).sets {
      DropRank(t, R, multiset{s}, s, j);
    }
  }

  lemma MergeEffectHolds(o: Oracle, t: Tracker, d: SetId, s: SetId, t': Tracker)
    requires Live(t, d) && Live(t, s) && d != s
    requires OnlyDropped(Joined(o, t, d, s), t')
    requires forall j {:trigger j in t'.sets} :: j in t.sets && Rank(t, j) > Rank(t, s) ==> j in t'.sets
    ensures MergeEffect(o, t, d, s, t')
  {
    var t1 := Joined(o, t, d, s);
    assert d in t1.sets && d in t'.sets;
    forall j | j != d && j != s ensures SameLive(t, t', j) {
      if j in t'.sets {
        assert t1.sets[j] == t.sets[j];
      } else if j in t.sets {
        assert t1.sets[j] == t.sets[j];
      }
    }
  }

  // ------------------------------------------------------ merging everything a query hits

  /** Sets that ended in one place still do. */
  ghost predicate Coarser(R: Roots, R': Roots) {
    && R.Keys <= R'.Keys
    && forall x, y {:trigger R'[x], R'[y]} :: x in R && y in R && R[x] == R[y] ==> R'[x] == R'[y]
  }

  lemma CoarserTrans(A: Roots, B: Roots, C: Roots)
    requires Coarser(A, B) && Coarser(B, C)
    ensures Coarser(A, C)
  {
  }

  /** In a saturated tracker there is one live set. */
  ghost predicate Saturated(t: Tracker) {
    t.any.Some? ==> forall i: SetId {:trigger Live(t, i)} :: Live(t, i) ==> t.any == Some(i)
  }

  lemma HitsSame(o: Oracle, t: Tracker, t': Tracker, j: SetId, q: Query)
    requires SameLive(t, t', j) && t'.recs == t.recs
    ensures Hits(o, t', j, q) == Hits(o, t, j, q)
  {
    if Live(t, j) {
      var s, s' := t.sets[j], t'.sets[j];
      assert s'.ptrs == s.ptrs && s'.unknown == s.unknown && s'.may == s.may && s'.any == s.any;
    }
  }

  /** What merging all hits does: the hits from `i` to `n` are gone into `found'`. */
  ghost predicate HitEffect(o: Oracle, t: Tracker, q: Query, i: SetId, n: SetId, t': Tracker, found: Option<SetId>) {
    && t'.recs == t.recs && t'.any == t.any && t'.next == t.next
    && (found.Some? ==> Live(t', found.value))
    && (forall j: SetId {:trigger Live(t', j)} ::
         Live(t', j) && found != Some(j) ==> SameLive(t, t', j) && !(i <= j < n && Hits(o, t, j, q)))
    && (forall j :: j in t'.sets ==> j in t.sets)
    && (found.None? ==> t' == t)
  }

  lemma HitEffectStep(o: Oracle, t: Tracker, q: Query, i: SetId, n: SetId, t1: Tracker, t': Tracker,
                      found: Option<SetId>)
    requires t1.recs == t.recs && t1.any == t.any && t1.next == t.next && (forall j :: j in t1.sets ==> j in t.sets)
    requires HitEffect(o, t1, q, i + 1, n, t', found)
    requires forall j: SetId {:trigger Live(t1, j)} ::
      Live(t1, j) && found != Some(j) ==> SameLive(t, t1, j) && !(j == i && Hits(o, t, j, q))
    requires found.None? ==> t1 == t
    ensures HitEffect(o, t, q, i, n, t', found)
  {
    forall j: SetId | Live(t', j) && found != Some(j)
      ensures SameLive(t, t', j) && !(i <= j < n && Hits(o, t, j, q))
    {
      assert SameLive(t1, t', j);
      assert Live(t1, j);
      HitsSame(o, t, t1, j, q);
    }
  }

  ghost predicate Good(t: Tracker, R: Roots) {
    Inv(t, R, multiset{}) && AnyFull(t) && Saturated(t)
  }

  /** What merging the set `i` into `f` leaves as it was. */
  ghost predicate HitLeaves(t: Tracker, t1: Tracker, f: SetId, i: SetId) {
    && t1.recs == t.recs && t1.any == t.any && t1.next == t.next && (forall j :: j in t1.sets ==> j in t.sets)
    && (forall j: SetId {:trigger Live(t1, j)} :: Live(t1, j) && j != f ==> SameLive(t, t1, j) && j != i)
  }

  lemma HitMerged(o: Oracle, t: Tracker, R: Roots, f: SetId, i: SetId)
    requires Good(t, R) && t.any.None? && Live(t, f) && Live(t, i) && f < i
    ensures var t1, R1 := MergeSetIn(o, t, f, i), Rerouted(R, i, f);
      && Good(t1, R1) && Coarser(R, R1) && Live(t1, f) && OnlyDropped(Joined(o, t, f, i), t1)
      && HitLeaves(t, t1, f, i)
  {
    MergeKeeps(o, t, R, f, i);
    var t1 := MergeSetIn(o, t, f, i);
    forall j: SetId | Live(t1, j) && j != f ensures SameLive(t, t1, j) && j != i {
      assert MergeEffect(o, t, f, i, t1);
    }
  }

  /** What merging all hits keeps and does. */
  ghost predicate HitsMerged(o: Oracle, t: Tracker, R: Roots, q: Query, i: SetId, n: SetId, found: Option<SetId>,
    R': Roots) {
    var r := MergeHits(o, t, q, i, n, found);
    && Good(r.0, R') && Coarser(R, R')
    && HitEffect(o, t, q, i, n, r.0, r.1)
    && (found.Some? ==> r.1 == found)
  }

  lemma {:induction false} MergeHitsKeeps(o: Oracle, t: Tracker, R: Roots, q: Query, i: SetId, n: SetId,
                                          found: Option<SetId>)
    returns (R': Roots)
    requires Good(t, R)
    requires found.Some? ==> Live(t, found.value) && found.value < i
    ensures HitsMerged(o, t, R, q, i, n, found, R')
    decreases n - i, 2
  {
    if i >= n {
      R' := R;
      NoMoreHits(o, t, R, q, i, n, found);
    } else if !Hits(o, t, i, q) || found.None? {
      R' := SkipKeeps(o, t, R, q, i, n, found);
    } else {
      R' := HitKeeps(o, t, R, q, i, n, found.value);
    }
  }

  lemma {:induction false} SkipKeeps(o: Oracle, t: Tracker, R: Roots, q: Query, i: SetId, n: SetId,
                                     found: Option<SetId>)
    returns (R': Roots)
    requires i < n && Good(t, R) && (Hits(o, t, i, q) ==> found.None?)
    requires found.Some? ==> Live(t, found.value) && found.value < i
    ensures HitsMerged(o, t, R, q, i, n, found, R')
    decreases n - i, 0
  {
    var found1 := if Hits(o, t, i, q) then Some(i) else found;
    R' := MergeHitsKeeps(o, t, R, q, i + 1, n, found1);
    SkipHit(o, t, R, q, i, n, found, found1, R');
  }

  lemma {:induction false} HitKeeps(o: Oracle, t: Tracker, R: Roots, q: Query, i: SetId, n: SetId, f: SetId)
    returns (R': Roots)
    requires i < n && Good(t, R) && Hits(o, t, i, q) && Live(t, f) && f < i
    ensures HitsMerged(o, t, R, q, i, n, Some(f), R')
    decreases n - i, 1
  {
    HitMerged(o, t, R, f, i);
    R' := HitThenKeeps(o, t, R, q, i, n, f, MergeSetIn(o, t, f, i), Rerouted(R, i, f));
  }

  lemma {:induction false} HitThenKeeps(o: Oracle, t: Tracker, R: Roots, q: Query, i: SetId, n: SetId, f: SetId,
                                        t1: Tracker, R1: Roots)
    returns (R': Roots)
    requires i < n && Hits(o, t, i, q) && f in t.sets && f < i && Coarser(R, R1) && t1 == MergeSetIn(o, t, f, i)
    requires Good(t1, R1) && Live(t1, f) && HitLeaves(t, t1, f, i)
    ensures HitsMerged(o, t, R, q, i, n, Some(f), R')
    decreases n - i, 0
  {
    R' := MergeHitsKeeps(o, t1, R1, q, i + 1, n, Some(f));
    MergeHit(o, t, R, q, i, n, f, t1, R1, R');
  }

  lemma NoMoreHits(o: Oracle, t: Tracker, R: Roots, q: Query, i: SetId, n: SetId, found: Option<SetId>)
    requires i >= n && Good(t, R) && (found.Some? ==> Live(t, found.value))
    ensures HitsMerged(o, t, R, q, i, n, found, R)
  {
    assert MergeHits(o, t, q, i, n, found) == (t, found);
  }

  lemma SkipHit(o: Oracle, t: Tracker, R: Roots, q: Query, i: SetId, n: SetId, found: Option<SetId>,
                found1: Option<SetId>, R': Roots)
    requires i < n && found1 == (if Hits(o, t, i, q) then Some(i) else found) && (Hits(o, t, i, q) ==> found.None?)
    requires HitsMerged(o, t, R, q, i + 1, n, found1, R')
    ensures HitsMerged(o, t, R, q, i, n, found, R')
  {
    var r := MergeHits(o, t, q, i + 1, n, found1);
    assert MergeHits(o, t, q, i, n, found) == r;
    HitEffectStep(o, t, q, i, n, t, r.0, r.1);
  }

  lemma MergeHit(o: Oracle, t: Tracker, R: Roots, q: Query, i: SetId, n: SetId, f: SetId, t1: Tracker, R1: Roots,
                 R': Roots)
    requires i < n && Hits(o, t, i, q) && f in t.sets && f != i && Coarser(R, R1) && t1 == MergeSetIn(o, t, f, i)
    requires HitLeaves(t, t1, f, i) && HitsMerged(o, t1, R1, q, i + 1, n, Some(f), R')
    ensures HitsMerged(o, t, R, q, i, n, Some(f), R')
  {
    var r := MergeHits(o, t1, q, i + 1, n, Some(f));
    assert MergeHits(o, t, q, i, n, Some(f)) == r;
    CoarserTrans(R, R1, R');
    HitEffectStep(o, t, q, i, n, t1, r.0, r.1);
  }
}
