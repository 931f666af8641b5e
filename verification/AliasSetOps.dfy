/** Every operation of the tracker keeps who-refers-to-whom in order. */
module AliasSetOps {
  import opened Basics
  import opened AliasSets
  import opened AliasSetRefs

  // ------------------------------------------------------------------- adding members

  /** As `SetOK` for a live set, but the set may still be empty. */
  ghost predicate SetBase(t: Tracker, R: Roots, i: SetId)
    requires i in t.sets && t.sets.Keys <= R.Keys
  {
    var s := t.sets[i];
    && i < t.next && s.size == |s.ptrs|
    && (!s.may ==> s.unknown == [])
    && (s.any <==> t.any == Some(i))
    && s.forward.None? && R[i] == i
  }

  ghost predicate LinkedBut(t: Tracker, R: Roots, i: SetId) {
    && t.sets.Keys <= R.Keys && i in t.sets && SetBase(t, R, i)
    && (forall j {:trigger j in R} :: j in R ==> j < t.next)
    && (forall j {:trigger SetOK(t, R, j)} :: j in t.sets && j != i ==> SetOK(t, R, j))
    && (forall p {:trigger RecOK(t, R, p)} :: p in t.recs ==> RecOK(t, R, p))
    && (forall j {:trigger ListOK(t, R, j)} :: j in t.sets ==> ListOK(t, R, j))
    && (t.any.Some? ==> Live(t, t.any.value) && t.sets[t.any.value].may)
  }

  lemma LiveIsBut(t: Tracker, R: Roots, i: SetId)
    requires Linked(t, R) && Live(t, i)
    ensures LinkedBut(t, R, i)
  {
    assert SetOK(t, R, i);
  }

  lemma NewSetBut(t: Tracker, R: Roots)
    requires Linked(t, R) && Counted(t, multiset{})
    ensures LinkedBut(NewSet(t), R[t.next := t.next], t.next) && Counted(NewSet(t), multiset{})
  {
    var t1, R1 := NewSet(t), R[t.next := t.next];
    forall j | j in t.sets ensures j < t.next {
      assert SetOK(t, R, j);
    }
    forall j | j in t1.sets && j != t.next ensures SetOK(t1, R1, j) {
      assert SetOK(t, R, j);
    }
    forall p | p in t1.recs ensures RecOK(t1, R1, p) {
      assert RecOK(t, R, p);
    }
    forall j | j in t1.sets ensures ListOK(t1, R1, j) {
      if j != t.next {
        assert ListOK(t, R, j);
      }
    }
    NewSetCounted(t, R);
  }

  lemma NewSetCounted(t: Tracker, R: Roots)
    requires Linked(t, R) && Counted(t, multiset{}) && t.next !in t.sets
    ensures Counted(NewSet(t), multiset{})
  {
    var t1 := NewSet(t);
    forall j | j in t1.sets ensures CountOK(t1, multiset{}, j) {
      SameRecs(t, t1, j);
      assert FwdsOf(t1, j) == FwdsOf(t, j);
      if j != t.next {
        assert CountOK(t, multiset{}, j);
      } else {
        forall k | k in t.sets ensures t.sets[k].forward != Some(j) {
          assert SetOK(t, R, k);
        }
        forall p | p in t.recs ensures t.recs[p].set_ != j {
          assert RecOK(t, R, p);
        }
        assert RecsOf(t, j) == {} && FwdsOf(t, j) == {};
      }
    }
  }

  lemma AddedSets(o: Oracle, t: Tracker, R: Roots, i: SetId, p: Ptr, size: nat)
    requires LinkedBut(t, R, i) && p !in t.recs
    ensures var t' := AddToSet(o, t, i, p, size);
      && (forall j {:trigger SetOK(t', R, j)} :: j in t'.sets ==> SetOK(t', R, j))
      && (t'.any.Some? ==> Live(t', t'.any.value) && t'.sets[t'.any.value].may)
  {
    var t' := AddToSet(o, t, i, p, size);
    assert t'.sets.Keys == t.sets.Keys;
    forall j | j in t'.sets ensures SetOK(t', R, j) {
      if j != i {
        assert SetOK(t, R, j);
      }
    }
  }

  lemma AddedMembers(o: Oracle, t: Tracker, R: Roots, i: SetId, p: Ptr, size: nat)
    requires LinkedBut(t, R, i) && p !in t.recs
    ensures var t' := AddToSet(o, t, i, p, size);
      && (forall q {:trigger RecOK(t', R, q)} :: q in t'.recs ==> RecOK(t', R, q))
      && (forall j {:trigger ListOK(t', R, j)} :: j in t'.sets ==> ListOK(t', R, j))
  {
    var t' := AddToSet(o, t, i, p, size);
    assert t'.sets.Keys == t.sets.Keys;
    forall q | q in t'.recs ensures RecOK(t', R, q) {
      if q != p {
        assert RecOK(t, R, q);
      } else {
        assert t'.sets[i].ptrs[|t.sets[i].ptrs|] == p;
      }
    }
    assert ListOK(t, R, i);
    NoDupJoin(t.sets[i].ptrs, [p]);
    forall j | j in t'.sets ensures ListOK(t', R, j) {
      assert ListOK(t, R, j);
    }
  }

  lemma AddedCounted(o: Oracle, t: Tracker, i: SetId, p: Ptr, size: nat)
    requires Counted(t, multiset{}) && i in t.sets && p !in t.recs
    ensures Counted(AddToSet(o, t, i, p, size), multiset{})
  {
    var t' := AddToSet(o, t, i, p, size);
    assert t'.sets.Keys == t.sets.Keys && t'.recs.Keys == t.recs.Keys + {p};
    forall j | j in t'.sets ensures CountOK(t', multiset{}, j) {
      assert CountOK(t, multiset{}, j);
      SameFwds(t, t', j);
      AddedRecs(t, t', i, p, j);
    }
  }

  lemma AddedRecs(t: Tracker, t': Tracker, i: SetId, p: Ptr, j: SetId)
    requires p !in t.recs && t'.recs.Keys == t.recs.Keys + {p} && t'.recs[p].set_ == i
    requires forall q {:trigger t'.recs[q]} :: q in t.recs ==> t'.recs[q].set_ == t.recs[q].set_
    ensures |RecsOf(t', j)| == |RecsOf(t, j)| + (if j == i then 1 else 0)
  {
    if j == i {
      assert RecsOf(t', j) == RecsOf(t, j) + {p};
    } else {
      assert RecsOf(t', j) == RecsOf(t, j);
    }
  }

  /** A new member, in a live set or in a new one. */
  lemma AddToSetKeeps(o: Oracle, t: Tracker, R: Roots, i: SetId, p: Ptr, size: nat)
    requires LinkedBut(t, R, i) && Counted(t, multiset{}) && p !in t.recs
    requires (AnyFull(t) || t.any == Some(i)) && (t.any.Some? ==> t.any == Some(i)) && Saturated(t)
    ensures Good(AddToSet(o, t, i, p, size), R)
  {
    AddedSets(o, t, R, i, p, size);
    AddedMembers(o, t, R, i, p, size);
    AddedCounted(o, t, i, p, size);
    var t' := AddToSet(o, t, i, p, size);
    assert t'.sets.Keys == t.sets.Keys;
    forall j: SetId | Live(t', j) && t'.any.Some? ensures t'.any == Some(j) {
      assert Live(t, j);
    }
  }

  lemma AddInstLinked(t: Tracker, R: Roots, i: SetId, inst: Inst)
    requires LinkedBut(t, R, i)
    ensures Linked(AddInstTo(t, i, inst), R)
  {
    var t' := AddInstTo(t, i, inst);
    assert t'.sets.Keys == t.sets.Keys;
    forall j | j in t'.sets ensures SetOK(t', R, j) {
      if j != i {
        assert SetOK(t, R, j);
      }
    }
    forall q | q in t'.recs ensures RecOK(t', R, q) {
      assert RecOK(t, R, q);
    }
    forall j | j in t'.sets ensures ListOK(t', R, j) {
      assert ListOK(t, R, j);
    }
  }

  lemma AddInstCounted(t: Tracker, i: SetId, inst: Inst)
    requires Counted(t, multiset{}) && i in t.sets
    ensures Counted(AddInstTo(t, i, inst), multiset{})
  {
    var t' := AddInstTo(t, i, inst);
    assert t'.sets.Keys == t.sets.Keys;
    forall j | j in t'.sets ensures CountOK(t', multiset{}, j) {
      assert CountOK(t, multiset{}, j);
      SameRecs(t, t', j);
      SameFwds(t, t', j);
    }
  }

  lemma AddInstKeeps(t: Tracker, R: Roots, i: SetId, inst: Inst)
    requires LinkedBut(t, R, i) && Counted(t, multiset{})
    requires (AnyFull(t) || t.any == Some(i)) && (t.any.Some? ==> t.any == Some(i)) && Saturated(t)
    ensures Good(AddInstTo(t, i, inst), R)
  {
    AddInstLinked(t, R, i, inst);
    AddInstCounted(t, i, inst);
    var t' := AddInstTo(t, i, inst);
    assert t'.sets.Keys == t.sets.Keys;
    forall j: SetId | Live(t', j) && t'.any.Some? ensures t'.any == Some(j) {
      assert Live(t, j);
    }
  }

  lemma GrowLinked(t: Tracker, R: Roots, p: Ptr, size: nat)
    requires Linked(t, R) && p in t.recs
    ensures Linked(Grow(t, p, size), R)
  {
    var t' := Grow(t, p, size);
    forall j | j in t'.sets ensures SetOK(t', R, j) {
      assert SetOK(t, R, j);
    }
    forall q | q in t'.recs ensures RecOK(t', R, q) {
      assert RecOK(t, R, q);
    }
    forall j | j in t'.sets ensures ListOK(t', R, j) {
      assert ListOK(t, R, j);
    }
  }

  lemma GrowKeeps(t: Tracker, R: Roots, p: Ptr, size: nat)
    requires Good(t, R) && p in t.recs
    ensures Good(Grow(t, p, size), R)
  {
    var t' := Grow(t, p, size);
    GrowLinked(t, R, p, size);
    forall j | j in t'.sets ensures CountOK(t', multiset{}, j) {
      assert CountOK(t, multiset{}, j);
      SameFwds(t, t', j);
      assert RecsOf(t', j) == RecsOf(t, j);
    }
    forall j: SetId | Live(t', j) && t'.any.Some? ensures t'.any == Some(j) {
      assert Live(t, j);
    }
  }

  // ---------------------------------------------------------------- shortening chains

  /** Set `i` forwards to the end `d` of its chain instead of to `f`. */
  function Redirected(t: Tracker, i: SetId, d: SetId): Tracker
    requires i in t.sets && d in t.sets
  {
    var t2 := AddRef(t, d);
    t2.(sets := t2.sets[i := t2.sets[i].(forward := Some(d))])
  }

  lemma RedirectLinked(t: Tracker, R: Roots, i: SetId, f: SetId, d: SetId)
    requires Linked(t, R) && Forwards(t, i, f) && R[i] == d && d != f
    ensures d in t.sets && d != i && Linked(Redirected(t, i, d), R)
  {
    assert SetOK(t, R, i) && SetOK(t, R, f);
    RootRanks(t, R, f);
    var t' := Redirected(t, i, d);
    assert t'.sets.Keys == t.sets.Keys;
    forall j | j in t'.sets ensures SetOK(t', R, j) {
      RedirectSetOK(t, R, i, f, d, j);
    }
    RedirectMembers(t, R, i, d);
  }

  lemma RedirectSetOK(t: Tracker, R: Roots, i: SetId, f: SetId, d: SetId, j: SetId)
    requires Linked(t, R) && Forwards(t, i, f) && R[i] == d && d != f && d in t.sets && Live(t, d)
    requires Rank(t, d) <= Rank(t, f) && j in t.sets
    ensures SetOK(Redirected(t, i, d), R, j)
  {
    assert SetOK(t, R, j) && SetOK(t, R, d) && SetOK(t, R, i);
    assert Redirected(t, i, d).sets.Keys == t.sets.Keys;
  }

  lemma RedirectMembers(t: Tracker, R: Roots, i: SetId, d: SetId)
    requires Linked(t, R) && i in t.sets && d in t.sets
    ensures var t' := Redirected(t, i, d);
      && (forall q {:trigger RecOK(t', R, q)} :: q in t'.recs ==> RecOK(t', R, q))
      && (forall j {:trigger ListOK(t', R, j)} :: j in t'.sets ==> ListOK(t', R, j))
  {
    var t' := Redirected(t, i, d);
    assert t'.sets.Keys == t.sets.Keys;
    forall q | q in t'.recs ensures RecOK(t', R, q) {
      assert RecOK(t, R, q);
    }
    forall j | j in t'.sets ensures ListOK(t', R, j) {
      assert ListOK(t, R, j);
    }
  }

  /** A chain goes down in rank to its end. */
  lemma {:induction false} RootRanks(t: Tracker, R: Roots, i: SetId)
    requires Linked(t, R) && i in t.sets
    ensures R[i] in t.sets && Rank(t, R[i]) <= Rank(t, i) && Live(t, R[i])
    decreases Rank(t, i)
  {
    assert SetOK(t, R, i);
    if t.sets[i].forward.Some? {
      RootRanks(t, R, t.sets[i].forward.value);
    }
  }

  lemma RedirectCounted(t: Tracker, extra: multiset<SetId>, i: SetId, f: SetId, d: SetId)
    requires Counted(t, extra) && i in t.sets && d in t.sets && f in t.sets && t.sets[i].forward == Some(f)
    requires d != f && d != i
    ensures Counted(Redirected(t, i, d), extra + multiset{f})
  {
    var t' := Redirected(t, i, d);
    assert t'.sets.Keys == t.sets.Keys;
    forall j | j in t'.sets ensures CountOK(t', extra + multiset{f}, j) {
      assert CountOK(t, extra, j);
      SameRecs(t, t', j);
      RedirectFwds(t, t', i, f, d, j);
    }
  }

  lemma RedirectFwds(t: Tracker, t': Tracker, i: SetId, f: SetId, d: SetId, j: SetId)
    requires i in t.sets && t.sets[i].forward == Some(f) && d != f
    requires t'.sets.Keys == t.sets.Keys && t'.sets[i].forward == Some(d)
    requires forall k {:trigger t'.sets[k]} :: k in t.sets && k != i ==> t'.sets[k].forward == t.sets[k].forward
    ensures |FwdsOf(t', j)| == |FwdsOf(t, j)| + (if j == d then 1 else 0) - (if j == f then 1 else 0)
  {
    if j == d {
      assert FwdsOf(t', j) == FwdsOf(t, j) + {i};
    } else if j == f {
      assert FwdsOf(t', j) == FwdsOf(t, j) - {i};
      assert i in FwdsOf(t, j);
    } else {
      assert FwdsOf(t', j) == FwdsOf(t, j);
    }
  }

  lemma RedirectKeeps(t: Tracker, R: Roots, extra: multiset<SetId>, i: SetId, f: SetId, d: SetId)
    requires Inv(t, R, extra) && AnyFull(t) && Forwards(t, i, f) && R[i] == d && d != f
    ensures d in t.sets && d != i && Inv(Redirected(t, i, d), R, extra + multiset{f}) && AnyFull(Redirected(t, i, d))
  {
    RedirectLinked(t, R, i, f, d);
    RedirectCounted(t, extra, i, f, d);
  }

  /** Live sets are as before, and no set ranking at least `r` is gone. */
  ghost predicate OnlyShortened(t: Tracker, t': Tracker, r: nat) {
    && t'.recs == t.recs && t'.any == t.any && t'.next == t.next && t'.total == t.total
    && (forall j: SetId {:trigger Live(t', j)} :: SameLive(t, t', j))
    && (forall j {:trigger j in t'.sets} ::
           j in t'.sets ==> j in t.sets && t'.sets[j].may == t.sets[j].may && t'.sets[j].size == t.sets[j].size)
    && (forall j {:trigger j in t'.sets} :: j in t.sets && j !in t'.sets ==> t.sets[j].size == 0)
    && (forall j {:trigger j in t'.sets} :: j in t.sets && Rank(t, j) >= r ==> j in t'.sets)
    && (forall j {:trigger j in t'.sets} ::
           j in t.sets && Rank(t, j) > r && j in t'.sets ==> t'.sets[j].forward == t.sets[j].forward)
  }

  /** Shortening the chain behind `f`, then redirecting `i`. */
  lemma ShortenStep(t: Tracker, R: Roots, extra: multiset<SetId>, t1: Tracker, i: SetId, f: SetId, d: SetId)
    requires Inv(t1, R, extra) && AnyFull(t1) && OnlyShortened(t, t1, Rank(t, f))
    requires Forwards(t, i, f) && f in t1.sets && i in t1.sets && R[i] == d && R[f] == d && d != f
    ensures d in t1.sets && d != i
    ensures var t' := DropRef(Redirected(t1, i, d), f);
      && Inv(t', R, extra) && AnyFull(t') && OnlyShortened(t, t', Rank(t, i))
      && i in t'.sets && t'.sets[i].forward == Some(d)
  {
    assert t1.sets[i].forward == Some(f);
    RedirectDropped(t1, R, extra, i, f, d);
    ShortenEffect(t, t1, i, f, d, DropRef(Redirected(t1, i, d), f));
  }

  /** Redirecting `i` and letting go of `f`. */
  lemma RedirectDropped(t: Tracker, R: Roots, extra: multiset<SetId>, i: SetId, f: SetId, d: SetId)
    requires Inv(t, R, extra) && AnyFull(t) && Forwards(t, i, f) && R[i] == d && d != f
    ensures d in t.sets && d != i
    ensures var t' := DropRef(Redirected(t, i, d), f);
      && Inv(t', R, extra) && AnyFull(t') && OnlyDropped(Redirected(t, i, d), t')
      && forall j {:trigger j in t'.sets} :: j in t.sets && Rank(t, j) > Rank(t, f) ==> j in t'.sets
  {
    RedirectKeeps(t, R, extra, i, f, d);
    var t2, extra2 := Redirected(t, i, d), extra + multiset{f};
    DropRefKeeps(t2, R, extra2, f);
    assert extra2 - multiset{f} == extra;
    forall j | j in t2.sets && Rank(t2, j) > Rank(t2, f) ensures j in DropRef(t2, f).sets {
      DropRank(t2, R, extra2, f, j);
    }
  }

  lemma ShortenEffect(t: Tracker, t1: Tracker, i: SetId, f: SetId, d: SetId, t': Tracker)
    requires OnlyShortened(t, t1, Rank(t, f)) && Forwards(t, i, f) && i in t1.sets && d in t1.sets && d != i
    requires OnlyDropped(Redirected(t1, i, d), t')
    requires forall j {:trigger j in t'.sets} :: j in t1.sets && Rank(t1, j) > Rank(t1, f) ==> j in t'.sets
    ensures OnlyShortened(t, t', Rank(t, i))
  {
    forall j: SetId ensures SameLive(t, t', j) {
      ShortenLive(t, t1, i, f, d, t', j);
    }
    ShortenSets(t, t1, i, f, d, t');
    ShortenRanks(t, t1, i, f, d, t');
  }

  lemma ShortenSets(t: Tracker, t1: Tracker, i: SetId, f: SetId, d: SetId, t': Tracker)
    requires OnlyShortened(t, t1, Rank(t, f)) && i in t1.sets && d in t1.sets && OnlyDropped(Redirected(t1, i, d), t')
    ensures t'.recs == t.recs && t'.any == t.any && t'.next == t.next && t'.total == t.total
    ensures forall j {:trigger j in t'.sets} ::
      j in t'.sets ==> j in t.sets && t'.sets[j].may == t.sets[j].may && t'.sets[j].size == t.sets[j].size
    ensures forall j {:trigger j in t'.sets} :: j in t.sets && j !in t'.sets ==> t.sets[j].size == 0
  {
    var t2 := Redirected(t1, i, d);
    assert t2.sets.Keys == t1.sets.Keys;
    forall j | j in t'.sets
      ensures j in t.sets && t'.sets[j].may == t.sets[j].may && t'.sets[j].size == t.sets[j].size
    {
      assert j in t1.sets;
    }
    forall j | j in t.sets && j !in t'.sets ensures t.sets[j].size == 0 {
      if j in t1.sets {
        assert t2.sets[j].size == 0;
      }
    }
  }

  lemma ShortenRanks(t: Tracker, t1: Tracker, i: SetId, f: SetId, d: SetId, t': Tracker)
    requires OnlyShortened(t, t1, Rank(t, f)) && Forwards(t, i, f) && i in t1.sets && d in t1.sets
    requires OnlyDropped(Redirected(t1, i, d), t')
    requires forall j {:trigger j in t'.sets} :: j in t1.sets && Rank(t1, j) > Rank(t1, f) ==> j in t'.sets
    ensures forall j {:trigger j in t'.sets} :: j in t.sets && Rank(t, j) >= Rank(t, i) ==> j in t'.sets
    ensures forall j {:trigger j in t'.sets} ::
      j in t.sets && Rank(t, j) > Rank(t, i) && j in t'.sets ==> t'.sets[j].forward == t.sets[j].forward
  {
    assert Redirected(t1, i, d).sets.Keys == t1.sets.Keys;
    forall j | j in t.sets && Rank(t, j) >= Rank(t, i) ensures j in t'.sets {
      assert j in t1.sets;
    }
    forall j | j in t.sets && Rank(t, j) > Rank(t, i) && j in t'.sets ensures t'.sets[j].forward == t.sets[j].forward {
      assert j in t1.sets && j != i;
    }
  }

  lemma ShortenLive(t: Tracker, t1: Tracker, i: SetId, f: SetId, d: SetId, t': Tracker, j: SetId)
    requires OnlyShortened(t, t1, Rank(t, f)) && Forwards(t, i, f) && i in t1.sets && d in t1.sets && d != i
    requires OnlyDropped(Redirected(t1, i, d), t')
    ensures SameLive(t, t', j)
  {
    var t2 := Redirected(t1, i, d);
    assert t2.sets.Keys == t1.sets.Keys;
    assert t1.sets[i].forward.Some?;
    assert SameLive(t, t1, j);
    if j in t'.sets {
      assert t2.sets[j].forward.None? <==> t1.sets[j].forward.None?;
    } else if j in t2.sets {
      assert t2.sets[j].forward.Some?;
    }
  }

  lemma {:induction false} ForwardedKeeps(t: Tracker, R: Roots, extra: multiset<SetId>, i: SetId)
    requires Inv(t, R, extra) && AnyFull(t) && i in t.sets
    ensures var r := Forwarded(t, i);
      && r.1 == R[i] && Inv(r.0, R, extra) && AnyFull(r.0) && OnlyShortened(t, r.0, Rank(t, i))
      && i in r.0.sets && (t.sets[i].forward.Some? ==> r.0.sets[i].forward == Some(r.1))
    decreases Rank(t, i)
  {
    assert SetOK(t, R, i);
    if t.sets[i].forward.Some? {
      var f := t.sets[i].forward.value;
      ForwardedKeeps(t, R, extra, f);
      var r := Forwarded(t, f);
      assert f in r.0.sets && i in r.0.sets;
      if r.1 != f {
        ShortenStep(t, R, extra, r.0, i, f, r.1);
      } else {
        ShortenedAbove(t, r.0, Rank(t, f), Rank(t, i));
      }
    } else {
      ShortenedAbove(t, t, Rank(t, i), Rank(t, i));
    }
  }

  lemma ShortenedAbove(t: Tracker, t': Tracker, r: nat, r': nat)
    requires r <= r' && (t == t' || OnlyShortened(t, t', r))
    ensures OnlyShortened(t, t', r')
  {
    forall j: SetId ensures SameLive(t, t', j) {
      assert t != t' ==> (Live(t', j) <==> Live(t, j));
    }
  }

  // ------------------------------------------------------------------ looking up a set

  /** The record of `p` names set `d` instead of `old_`. */
  function Repointed(t: Tracker, p: Ptr, d: SetId): Tracker
    requires p in t.recs && d in t.sets
  {
    var t2 := AddRef(t, d);
    t2.(recs := t2.recs[p := t2.recs[p].(set_ := d)])
  }

  lemma RepointLinked(t: Tracker, R: Roots, p: Ptr, d: SetId)
    requires Linked(t, R) && p in t.recs && d in t.sets && t.recs[p].set_ in t.sets && R[t.recs[p].set_] == d
    ensures Linked(Repointed(t, p, d), R)
  {
    var t' := Repointed(t, p, d);
    assert t'.sets.Keys == t.sets.Keys;
    RootRanks(t, R, t.recs[p].set_);
    assert SetOK(t, R, d) && RecOK(t, R, p);
    forall j | j in t'.sets ensures SetOK(t', R, j) {
      assert SetOK(t, R, j);
    }
    forall q | q in t'.recs ensures RecOK(t', R, q) {
      assert RecOK(t, R, q);
    }
    forall j | j in t'.sets ensures ListOK(t', R, j) {
      assert ListOK(t, R, j);
    }
  }

  lemma RepointRecs(t: Tracker, t': Tracker, p: Ptr, old_: SetId, d: SetId, j: SetId)
    requires p in t.recs && t.recs[p].set_ == old_ && d != old_
    requires t'.recs.Keys == t.recs.Keys && t'.recs[p].set_ == d
    requires forall q {:trigger t'.recs[q]} :: q in t.recs && q != p ==> t'.recs[q].set_ == t.recs[q].set_
    ensures |RecsOf(t', j)| == |RecsOf(t, j)| + (if j == d then 1 else 0) - (if j == old_ then 1 else 0)
  {
    if j == d {
      assert RecsOf(t', j) == RecsOf(t, j) + {p};
    } else if j == old_ {
      assert RecsOf(t', j) == RecsOf(t, j) - {p};
      assert p in RecsOf(t, j);
    } else {
      assert RecsOf(t', j) == RecsOf(t, j);
    }
  }

  lemma RepointCounted(t: Tracker, p: Ptr, old_: SetId, d: SetId)
    requires Counted(t, multiset{}) && p in t.recs && d in t.sets && old_ in t.sets && t.recs[p].set_ == old_
    requires d != old_
    ensures Counted(Repointed(t, p, d), multiset{old_})
  {
    var t' := Repointed(t, p, d);
    assert t'.sets.Keys == t.sets.Keys && t'.recs.Keys == t.recs.Keys;
    forall j | j in t'.sets ensures CountOK(t', multiset{old_}, j) {
      assert CountOK(t, multiset{}, j);
      SameFwds(t, t', j);
      RepointRecs(t, t', p, old_, d, j);
    }
  }

  /** Looking up a pointer's set changes neither the live sets nor the sizes. */
  ghost predicate OnlyLookedUp(t: Tracker, t': Tracker) {
    && t'.any == t.any && t'.next == t.next && t'.total == t.total
    && t'.recs.Keys == t.recs.Keys
    && (forall q {:trigger t'.recs[q]} :: q in t.recs ==> t'.recs[q].size == t.recs[q].size)
    && (forall j: SetId {:trigger Live(t', j)} :: SameLive(t, t', j))
    && (forall j {:trigger j in t'.sets} ::
           j in t'.sets ==> j in t.sets && t'.sets[j].may == t.sets[j].may && t'.sets[j].size == t.sets[j].size)
    && (forall j {:trigger j in t'.sets} :: j in t.sets && j !in t'.sets ==> t.sets[j].size == 0)
  }

  lemma ResolveEffect(t: Tracker, t1: Tracker, p: Ptr, d: SetId, r: nat, t': Tracker)
    requires OnlyShortened(t, t1, r) && p in t1.recs && d in t1.sets && OnlyDropped(Repointed(t1, p, d), t')
    ensures OnlyLookedUp(t, t') && p in t'.recs && t'.recs[p].set_ == d
  {
    var t2 := Repointed(t1, p, d);
    assert t2.sets.Keys == t1.sets.Keys;
    forall j: SetId ensures SameLive(t, t', j) {
      assert SameLive(t, t1, j);
      if j in t'.sets {
        assert t2.sets[j].forward == t1.sets[j].forward;
      } else if j in t2.sets {
        assert t2.sets[j].forward.Some?;
      }
    }
    forall j | j in t.sets && j !in t'.sets ensures t.sets[j].size == 0 {
      if j in t1.sets {
        assert t2.sets[j].size == 0;
      }
    }
  }

  lemma ResolveKeeps(t: Tracker, R: Roots, p: Ptr)
    requires Good(t, R) && p in t.recs
    ensures t.recs[p].set_ in t.sets
    ensures var r := Resolve(t, p);
      && r.1 == R[t.recs[p].set_] && Good(r.0, R) && OnlyLookedUp(t, r.0)
      && p in r.0.recs && r.0.recs[p].set_ == r.1
  {
    assert RecOK(t, R, p);
    var old_ := t.recs[p].set_;
    assert SetOK(t, R, old_);
    if t.sets[old_].forward.None? {
      SameLookedUp(t);
    } else {
      ResolveForwarded(t, R, p, old_);
    }
  }

  lemma SameLookedUp(t: Tracker)
    ensures OnlyLookedUp(t, t)
  {
    forall j: SetId ensures SameLive(t, t, j) {
      assert Live(t, j) ==> t.sets[j] == t.sets[j].(refs := t.sets[j].refs);
    }
  }

  lemma ResolveForwarded(t: Tracker, R: Roots, p: Ptr, old_: SetId)
    requires Good(t, R) && p in t.recs && t.recs[p].set_ == old_ && old_ in t.sets && t.sets[old_].forward.Some?
    ensures var r := Resolve(t, p);
      && r.1 == R[old_] && Good(r.0, R) && OnlyLookedUp(t, r.0)
      && p in r.0.recs && r.0.recs[p].set_ == r.1
  {
    ForwardedKeeps(t, R, multiset{}, old_);
    var r := Forwarded(t, old_);
    var t1, d := r.0, r.1;
    assert old_ in t1.sets;
    RootRanks(t1, R, old_);
    assert SameLive(t, t1, old_);
    assert d != old_ by { assert SetOK(t1, R, d); }
    RepointLinked(t1, R, p, d);
    RepointCounted(t1, p, old_, d);
    var t2 := Repointed(t1, p, d);
    DropRefKeeps(t2, R, multiset{old_}, old_);
    assert multiset{old_} - multiset{old_} == multiset{};
    var t' := DropRef(t2, old_);
    ResolveEffect(t, t1, p, d, Rank(t, old_), t');
    SaturatedSame(t, t');
  }

  lemma SaturatedSame(t: Tracker, t': Tracker)
    requires Saturated(t) && OnlyLookedUp(t, t')
    ensures Saturated(t')
  {
    forall j: SetId | Live(t', j) && t'.any.Some? ensures t'.any == Some(j) {
      assert Live(t, j);
    }
  }

  // -------------------------------------------------------------------- saturation

  /** All sets below `i` forward to the saturated set `a`; it is empty only at the start. */
  ghost predicate Absorbing(t: Tracker, R: Roots, i: SetId, a: SetId) {
    && Inv(t, R, multiset{}) && t.any == Some(a) && i <= a
    && (forall j {:trigger j in t.sets} :: j in t.sets ==> j <= a)
    && (forall j {:trigger t.sets[j]} :: j in t.sets ==> (j < i <==> t.sets[j].forward == Some(a)))
    && (Full(t.sets[a]) || forall j {:trigger j in t.sets} :: j in t.sets ==> j >= i)
  }

  /** Visiting set `i` removes nothing that is still to be visited. */
  ghost predicate LaterKept(t: Tracker, t': Tracker, i: SetId) {
    && (forall j {:trigger j in t'.sets} :: j in t'.sets ==> j in t.sets)
    && (forall j {:trigger j in t'.sets} :: j in t.sets && j > i ==> j in t'.sets)
  }

  lemma AbsorbLive(o: Oracle, t: Tracker, R: Roots, i: SetId, a: SetId)
    requires Absorbing(t, R, i, a) && i < a && Live(t, i)
    ensures var t' := MergeSetIn(o, t, a, i);
      Absorbing(t', Rerouted(R, i, a), i + 1, a) && LaterKept(t, t', i)
      && t'.recs == t.recs && t'.next == t.next && OnlyDropped(Joined(o, t, a, i), t')
  {
    assert SetOK(t, R, i);
    MergeKeeps(o, t, R, a, i);
    var t' := MergeSetIn(o, t, a, i);
    assert MergeEffect(o, t, a, i, t');
    forall j | j in t'.sets ensures j < i + 1 <==> t'.sets[j].forward == Some(a) {
      assert j in t.sets && t.sets[j].forward == t.sets[j].forward;
    }
    forall j | j in t.sets && j > i ensures j in t'.sets {
      if j == a {
        assert Live(t', a);
      } else {
        assert Rank(t, j) > Rank(t, i);
      }
    }
  }

  lemma AbsorbForwarding(o: Oracle, t: Tracker, R: Roots, i: SetId, a: SetId)
    requires Absorbing(t, R, i, a) && i < a && i in t.sets && t.sets[i].forward.Some?
    ensures a in t.sets
    ensures var t' := Absorb(o, t, i, a);
      Absorbing(t', R, i + 1, a) && LaterKept(t, t', i) && t'.recs == t.recs && t'.next == t.next
      && OnlyDropped(Redirected(t, i, a), t')
  {
    var f := t.sets[i].forward.value;
    assert SetOK(t, R, i) && SetOK(t, R, f) && SetOK(t, R, a);
    assert f in t.sets && f < i;
    RedirectDropped(t, R, multiset{}, i, f, a);
    var t2 := Redirected(t, i, a);
    var t' := DropRef(t2, f);
    assert t2.sets.Keys == t.sets.Keys;
    assert AddRef(t.(sets := t.sets[i := t.sets[i].(forward := Some(a))]), a) == t2;
    assert Absorb(o, t, i, a) == t';
    RedirectedForwards(t, t2, t', R, i, a);
    forall j | j in t.sets && j > i ensures j in t'.sets {
      if j == a {
        assert Live(t2, a);
      } else {
        assert Rank(t, j) > Rank(t, f);
      }
    }
  }

  lemma RedirectedForwards(t: Tracker, t2: Tracker, t': Tracker, R: Roots, i: SetId, a: SetId)
    requires Absorbing(t, R, i, a) && i in t.sets && a in t.sets && t2 == Redirected(t, i, a) && OnlyDropped(t2, t')
    ensures forall j {:trigger t'.sets[j]} :: j in t'.sets ==> (j < i + 1 <==> t'.sets[j].forward == Some(a))
  {
    forall j | j in t'.sets ensures j < i + 1 <==> t'.sets[j].forward == Some(a) {
      assert j in t2.sets && t2.sets[j].forward == if j == i then Some(a) else t.sets[j].forward;
    }
  }

  lemma {:induction false} AbsorbFromKeeps(o: Oracle, t: Tracker, R: Roots, i: SetId, a: SetId) returns (R': Roots)
    requires Absorbing(t, R, i, a)
    ensures var t' := AbsorbFrom(o, t, i, a);
      Absorbing(t', R', a, a) && t'.recs == t.recs && t'.next == t.next
    decreases a - i
  {
    if i == a {
      R' := R;
    } else if i !in t.sets {
      R' := AbsorbFromKeeps(o, t, R, i + 1, a);
    } else {
      var R1 := AbsorbOne(o, t, R, i, a);
      R' := AbsorbFromKeeps(o, Absorb(o, t, i, a), R1, i + 1, a);
    }
  }

  lemma AbsorbOne(o: Oracle, t: Tracker, R: Roots, i: SetId, a: SetId) returns (R': Roots)
    requires Absorbing(t, R, i, a) && i < a && i in t.sets
    ensures a in t.sets
    ensures var t' := Absorb(o, t, i, a);
      Absorbing(t', R', i + 1, a) && t'.recs == t.recs && t'.next == t.next
  {
    if Live(t, i) {
      AbsorbLive(o, t, R, i, a);
      R' := Rerouted(R, i, a);
    } else {
      AbsorbForwarding(o, t, R, i, a);
      R' := R;
    }
  }

  /** Saturation never comes back to a set that it has removed: from set to set, all sets still
      to be visited are there. */
  lemma AbsorbVisitsWhatIsThere(o: Oracle, t: Tracker, R: Roots, i: SetId, a: SetId, j: SetId)
    requires Absorbing(t, R, i, a) && i < a && i in t.sets && j in t.sets && j > i
    ensures a in t.sets && j in Absorb(o, t, i, a).sets
  {
    assert Live(t, a);
    if Live(t, i) {
      AbsorbLive(o, t, R, i, a);
    } else {
      AbsorbForwarding(o, t, R, i, a);
    }
  }

  /** The tracker with its new, empty, saturated set. */
  function Saturating(t: Tracker): Tracker {
    var a := t.next;
    var t1 := NewSet(t);
    t1.(any := Some(a), sets := t1.sets[a := EMPTY_SET.(may := true, any := true)])
  }

  lemma SaturatingAbsorbs(t: Tracker, R: Roots)
    requires Good(t, R) && t.any.None?
    ensures Absorbing(Saturating(t), R[t.next := t.next], 0, t.next)
  {
    var a, t2, R2 := t.next, Saturating(t), R[t.next := t.next];
    NewSetBut(t, R);
    assert t2.sets.Keys == NewSet(t).sets.Keys;
    SaturatingLinked(t, R);
    forall j | j in t2.sets ensures CountOK(t2, multiset{}, j) {
      assert CountOK(NewSet(t), multiset{}, j);
      SameRecs(NewSet(t), t2, j);
      SameFwds(NewSet(t), t2, j);
    }
    forall j | j in t.sets ensures j < a && t.sets[j].forward != Some(a) {
      assert SetOK(t, R, j);
    }
  }

  lemma SaturatingLinked(t: Tracker, R: Roots)
    requires Good(t, R) && t.any.None? && LinkedBut(NewSet(t), R[t.next := t.next], t.next)
    ensures Linked(Saturating(t), R[t.next := t.next])
  {
    var a, t1, t2, R2 := t.next, NewSet(t), Saturating(t), R[t.next := t.next];
    assert t2.sets.Keys == t1.sets.Keys;
    forall j | j in t2.sets ensures SetOK(t2, R2, j) {
      if j != a {
        assert SetOK(t1, R2, j);
        assert SetOK(t, R, j);
      }
    }
    assert a !in R;
    forall q | q in t2.recs ensures RecOK(t2, R2, q) {
      assert RecOK(t, R, q);
    }
    forall j | j in t2.sets ensures ListOK(t2, R2, j) {
      assert ListOK(t1, R2, j);
    }
  }

  lemma MergeAllKeeps(o: Oracle, t: Tracker, R: Roots) returns (R': Roots)
    requires Good(t, R) && t.any.None? && t.recs.Keys != {}
    ensures var t' := MergeAll(o, t);
      Good(t', R') && t'.any == Some(t.next) && t'.recs == t.recs
  {
    SaturatingAbsorbs(t, R);
    var t2, a := Saturating(t), t.next;
    R' := AbsorbFromKeeps(o, t2, R[a := a], 0, a);
    var t' := AbsorbFrom(o, t2, 0, a);
    assert MergeAll(o, t) == t';
    forall j: SetId | Live(t', j) ensures j == a {
      assert j in t'.sets;
    }
    var p :| p in t.recs;
    assert RecOK(t', R', p);
    RootRanks(t', R', t'.recs[p].set_);
    assert Full(t'.sets[a]);
  }

  /** Sets are merged into the first of those hit. */
  lemma {:induction false} FoundIsFirst(o: Oracle, t: Tracker, R: Roots, q: Query, i: SetId, n: SetId)
    requires Good(t, R)
    ensures var found := MergeHits(o, t, q, i, n, None).1;
      && (forall j: SetId :: i <= j < (if found.None? then n else found.value) ==> !Hits(o, t, j, q))
      && (found.Some? ==> i <= found.value < n && Hits(o, t, found.value, q))
    decreases n - i
  {
    if i < n {
      if Hits(o, t, i, q) {
        var R' := MergeHitsKeeps(o, t, R, q, i + 1, n, Some(i));
      } else {
        FoundIsFirst(o, t, R, q, i + 1, n);
      }
    }
  }

  // ------------------------------------------------------------------------- whole runs

  lemma NewMemberKeeps(o: Oracle, t: Tracker, R: Roots, p: Ptr, size: nat) returns (R': Roots)
    requires Good(t, R) && t.any.None? && p !in t.recs
    ensures Good(AddToSet(o, NewSet(t), t.next, p, size), R') && Coarser(R, R') && t.next in R' && R'[t.next] == t.next
    ensures t.next !in t.sets
    ensures forall j :: j in t.sets ==> R'[j] == R[j]
  {
    R' := R[t.next := t.next];
    NewSetBut(t, R);
    forall j | j in t.sets ensures j < t.next {
      assert SetOK(t, R, j);
    }
    AddToSetKeeps(o, NewSet(t), R', t.next, p, size);
  }

  lemma AddPointerKeeps(o: Oracle, t: Tracker, R: Roots, p: Ptr, size: nat, threshold: nat) returns (R': Roots)
    requires Good(t, R)
    ensures Good(AddPointer(o, t, p, size, threshold), R')
    ensures AddPointer(o, t, p, size, threshold).recs.Keys == t.recs.Keys + {p}
  {
    R' := SetForPointerKeeps(o, t, R, p, size);
    var t1 := SetForPointer(o, t, p, size);
    if t1.any.None? && t1.total > threshold {
      R' := MergeAllKeeps(o, t1, R');
    }
  }

  lemma SetForPointerKeeps(o: Oracle, t: Tracker, R: Roots, p: Ptr, size: nat) returns (R': Roots)
    requires Good(t, R)
    ensures Good(SetForPointer(o, t, p, size), R')
    ensures SetForPointer(o, t, p, size).recs.Keys == t.recs.Keys + {p}
  {
    if t.any.Some? {
      R' := R;
      if p in t.recs {
        GrowKeeps(t, R, p, size);
      } else {
        LiveIsBut(t, R, t.any.value);
        AddToSetKeeps(o, t, R, t.any.value, p, size);
      }
    } else if p in t.recs {
      R' := KnownPointerKeeps(o, t, R, p, size);
    } else {
      R' := NewPointerKeeps(o, t, R, p, size);
    }
  }

  lemma KnownPointerKeeps(o: Oracle, t: Tracker, R: Roots, p: Ptr, size: nat) returns (R': Roots)
    requires Good(t, R) && t.any.None? && p in t.recs
    ensures Good(SetForPointer(o, t, p, size), R')
    ensures SetForPointer(o, t, p, size).recs.Keys == t.recs.Keys + {p}
  {
    var t1 := Grow(t, p, size);
    GrowKeeps(t, R, p, size);
    R' := R;
    var t2 := t1;
    if size > t.recs[p].size {
      R' := MergeHitsKeeps(o, t1, R, Location(p, size), 0, t.next, None);
      t2 := MergeHits(o, t1, Location(p, size), 0, t.next, None).0;
    }
    ResolveKeeps(t2, R', p);
  }

  lemma NewPointerKeeps(o: Oracle, t: Tracker, R: Roots, p: Ptr, size: nat) returns (R': Roots)
    requires Good(t, R) && t.any.None? && p !in t.recs
    ensures Good(SetForPointer(o, t, p, size), R')
    ensures SetForPointer(o, t, p, size).recs.Keys == t.recs.Keys + {p}
  {
    R' := MergeHitsKeeps(o, t, R, Location(p, size), 0, t.next, None);
    var r := MergeHits(o, t, Location(p, size), 0, t.next, None);
    var t1, found := r.0, r.1;
    if found.Some? {
      LiveIsBut(t1, R', found.value);
      AddToSetKeeps(o, t1, R', found.value, p, size);
    } else {
      R' := NewMemberKeeps(o, t1, R', p, size);
    }
  }

  lemma AddUnknownKeeps(o: Oracle, t: Tracker, R: Roots, inst: Inst) returns (R': Roots)
    requires Good(t, R)
    ensures Good(AddUnknown(o, t, inst), R') && AddUnknown(o, t, inst).recs == t.recs
  {
    R' := R;
    if o.accesses(inst) {
      R' := MergeHitsKeeps(o, t, R, Instruction(inst), 0, t.next, None);
      var r := MergeHits(o, t, Instruction(inst), 0, t.next, None);
      var t1, found := r.0, r.1;
      if found.Some? {
        LiveIsBut(t1, R', found.value);
        if t1.any.Some? {
          assert Live(t1, found.value);
        }
        AddInstKeeps(t1, R', found.value, inst);
      } else {
        AnyIsHit(o, t, R, Instruction(inst));
        NewSetBut(t1, R');
        R' := R'[t1.next := t1.next];
        AddInstKeeps(NewSet(t1), R', t1.next, inst);
      }
    }
  }

  /** The saturated set is always found. */
  lemma AnyIsHit(o: Oracle, t: Tracker, R: Roots, q: Query)
    requires Good(t, R) && MergeHits(o, t, q, 0, t.next, None).1.None?
    ensures t.any.None?
  {
    var R' := MergeHitsKeeps(o, t, R, q, 0, t.next, None);
    if t.any.Some? {
      var a := t.any.value;
      assert SetOK(t, R, a);
      assert Live(t, a) && Hits(o, t, a, q);
    }
  }

  /** The pointers a run has added. */
  ghost predicate Added(ops: seq<Op>, p: Ptr) { exists k :: 0 <= k < |ops| && ops[k].Pointer? && ops[k].p == p }

  /** In every reachable state the counts are right, chains end in live sets, nothing refers to
      a set that is gone, and the pointers tracked are those added. */
  lemma {:induction false} RunKeeps(o: Oracle, threshold: nat, ops: seq<Op>) returns (R: Roots)
    ensures Good(Run(o, threshold, ops), R)
    ensures forall p :: p in Run(o, threshold, ops).recs <==> Added(ops, p)
    decreases |ops|
  {
    if ops == [] {
      R := map[];
    } else {
      var before, op := ops[..|ops| - 1], ops[|ops| - 1];
      R := RunKeeps(o, threshold, before);
      var t := Run(o, threshold, before);
      match op {
        case Pointer(p, size) => R := AddPointerKeeps(o, t, R, p, size, threshold);
        case Unknown(inst) => R := AddUnknownKeeps(o, t, R, inst);
      }
      forall p ensures Added(ops, p) <==> (Added(before, p) || (op.Pointer? && op.p == p)) {
        if Added(before, p) {
          var k :| 0 <= k < |before| && before[k].Pointer? && before[k].p == p;
          assert ops[k] == before[k];
        }
        if Added(ops, p) && !(op.Pointer? && op.p == p) {
          var k :| 0 <= k < |ops| && ops[k].Pointer? && ops[k].p == p;
          assert before[k] == ops[k];
        }
      }
    }
  }
}
