/** When a tracked pointer grows: exactly which states are one location away from overlapping
    sets, and runs that reach them. */
module AliasSetGrowth {
  import opened Basics
  import opened AliasSets
  import opened AliasSetRefs
  import opened AliasSetOps
  import opened AliasSetDisjoint

  // ------------------------------------------------- oracles that differ on one pointer

  ghost predicate AgreesBut(o: Oracle, o': Oracle, z: Ptr) {
    && (forall p: Ptr, s: nat, q: Ptr, t: nat {:trigger o'.alias(p, s, q, t)} ::
         p != z && q != z ==> o'.alias(p, s, q, t) == o.alias(p, s, q, t))
    && (forall i: Inst, p: Ptr, s: nat {:trigger o'.touches(i, p, s)} ::
         p != z ==> o'.touches(i, p, s) == o.touches(i, p, s))
    && o'.interferes == o.interferes && o'.accesses == o.accesses
  }

  /** No set lists the pointer. */
  ghost predicate Unlisted(t: Tracker, z: Ptr) {
    forall i: SetId {:trigger t.sets[i]} :: i in t.sets ==> z !in t.sets[i].ptrs
  }

  lemma GoodUnlisted(t: Tracker, R: Roots, z: Ptr)
    requires Good(t, R) && z !in t.recs
    ensures Unlisted(t, z)
  {
    forall i: SetId | i in t.sets ensures z !in t.sets[i].ptrs {
      assert ListOK(t, R, i);
    }
  }

  lemma {:induction false} DropUnlisted(t: Tracker, i: SetId, z: Ptr)
    requires i in t.sets && Unlisted(t, z)
    ensures Unlisted(DropRef(t, i), z)
    decreases |t.sets|
  {
    var s := t.sets[i];
    if s.refs == 1 {
      var t1 := t.(sets := t.sets - {i}, total := if s.may then t.total - s.size else t.total);
      assert t1.sets.Keys == t.sets.Keys - {i};
      assert |t1.sets| == |t1.sets.Keys| && |t.sets| == |t.sets.Keys|;
      if s.forward.Some? && s.forward.value in t1.sets {
        DropUnlisted(t1, s.forward.value, z);
      }
    }
  }

  lemma MergeAgrees(o: Oracle, o': Oracle, z: Ptr, t: Tracker, d: SetId, s: SetId)
    requires AgreesBut(o, o', z) && Unlisted(t, z) && d in t.sets && s in t.sets && d != s
    ensures MergeSetIn(o', t, d, s) == MergeSetIn(o, t, d, s) && Unlisted(MergeSetIn(o, t, d, s), z)
  {
    var D, S := t.sets[d], t.sets[s];
    if D.ptrs != [] { assert D.ptrs[0] in D.ptrs; }
    if S.ptrs != [] { assert S.ptrs[0] in S.ptrs; }
    assert StaysMust(o', t, d, s) == StaysMust(o, t, d, s);
    var t1 := Joined(o, t, d, s);
    assert t1.sets[d].ptrs == D.ptrs + S.ptrs && t1.sets[s].ptrs == [];
    forall i: SetId | i in t1.sets ensures z !in t1.sets[i].ptrs {
      assert i != d && i != s ==> t1.sets[i] == t.sets[i];
    }
    if S.unknown != [] {
      DropUnlisted(t1, s, z);
    }
  }

  ghost predicate NotAbout(q: Query, z: Ptr) { q.Location? ==> q.p != z }

  lemma HitsAgree(o: Oracle, o': Oracle, z: Ptr, t: Tracker, i: SetId, q: Query)
    requires AgreesBut(o, o', z) && Unlisted(t, z) && NotAbout(q, z)
    ensures Hits(o', t, i, q) == Hits(o, t, i, q)
  {
    if Live(t, i) {
      var s := t.sets[i];
      assert forall k :: 0 <= k < |s.ptrs| ==> s.ptrs[k] in s.ptrs;
    }
  }

  lemma {:induction false} MergeHitsAgree(o: Oracle, o': Oracle, z: Ptr, t: Tracker, q: Query, i: SetId, n: SetId,
                                          found: Option<SetId>)
    requires AgreesBut(o, o', z) && Unlisted(t, z) && NotAbout(q, z)
    ensures MergeHits(o', t, q, i, n, found) == MergeHits(o, t, q, i, n, found)
    ensures Unlisted(MergeHits(o, t, q, i, n, found).0, z)
    decreases n - i
  {
    if i < n {
      HitsAgree(o, o', z, t, i, q);
      if !Hits(o, t, i, q) {
        MergeHitsAgree(o, o', z, t, q, i + 1, n, found);
      } else if found.None? {
        MergeHitsAgree(o, o', z, t, q, i + 1, n, Some(i));
      } else if found.value in t.sets && found.value != i {
        MergeAgrees(o, o', z, t, found.value, i);
        MergeHitsAgree(o, o', z, MergeSetIn(o, t, found.value, i), q, i + 1, n, found);
      }
    }
  }

  lemma AddToSetAgrees(o: Oracle, o': Oracle, z: Ptr, t: Tracker, i: SetId, p: Ptr, size: nat)
    requires AgreesBut(o, o', z) && Unlisted(t, z) && i in t.sets && p != z
    ensures AddToSet(o', t, i, p, size) == AddToSet(o, t, i, p, size)
  {
    var s := t.sets[i];
    if s.ptrs != [] { assert s.ptrs[0] in s.ptrs; }
  }

  lemma {:induction false} AbsorbAgrees(o: Oracle, o': Oracle, z: Ptr, t: Tracker, i: SetId, a: SetId)
    requires AgreesBut(o, o', z) && Unlisted(t, z)
    ensures AbsorbFrom(o', t, i, a) == AbsorbFrom(o, t, i, a)
    decreases a - i
  {
    if i < a {
      if i in t.sets && a in t.sets {
        AbsorbOneAgrees(o, o', z, t, i, a);
        AbsorbAgrees(o, o', z, Absorb(o, t, i, a), i + 1, a);
      } else {
        AbsorbAgrees(o, o', z, t, i + 1, a);
      }
    }
  }

  lemma AbsorbOneAgrees(o: Oracle, o': Oracle, z: Ptr, t: Tracker, i: SetId, a: SetId)
    requires AgreesBut(o, o', z) && Unlisted(t, z) && i in t.sets && a in t.sets && i != a
    ensures Absorb(o', t, i, a) == Absorb(o, t, i, a) && Unlisted(Absorb(o, t, i, a), z)
  {
    var s := t.sets[i];
    if s.forward.Some? {
      var t1 := AddRef(t.(sets := t.sets[i := s.(forward := Some(a))]), a);
      assert Unlisted(t1, z);
      if s.forward.value in t1.sets {
        DropUnlisted(t1, s.forward.value, z);
      }
    } else {
      MergeAgrees(o, o', z, t, a, i);
    }
  }

  lemma SetForPointerAgrees(o: Oracle, o': Oracle, z: Ptr, t: Tracker, p: Ptr, size: nat)
    requires AgreesBut(o, o', z) && Unlisted(t, z) && p != z
    ensures SetForPointer(o', t, p, size) == SetForPointer(o, t, p, size)
  {
    if t.any.Some? {
      if p !in t.recs && t.any.value in t.sets {
        AddToSetAgrees(o, o', z, t, t.any.value, p, size);
      }
    } else if p in t.recs {
      MergeHitsAgree(o, o', z, Grow(t, p, size), Location(p, size), 0, t.next, None);
    } else {
      MergeHitsAgree(o, o', z, t, Location(p, size), 0, t.next, None);
      var r := MergeHits(o, t, Location(p, size), 0, t.next, None);
      if r.1.Some? && r.1.value in r.0.sets {
        AddToSetAgrees(o, o', z, r.0, r.1.value, p, size);
      } else {
        AddToSetAgrees(o, o', z, NewSet(r.0), r.0.next, p, size);
      }
    }
  }

  lemma ApplyAgrees(o: Oracle, o': Oracle, z: Ptr, t: Tracker, R: Roots, op: Op, threshold: nat)
    requires AgreesBut(o, o', z) && Good(t, R) && z !in t.recs && (op.Pointer? ==> op.p != z)
    ensures Apply(o', threshold, t, op) == Apply(o, threshold, t, op)
  {
    GoodUnlisted(t, R, z);
    match op {
      case Pointer(p, size) =>
        SetForPointerAgrees(o, o', z, t, p, size);
        var t1 := SetForPointer(o, t, p, size);
        var R1 := SetForPointerKeeps(o, t, R, p, size);
        if t1.any.None? && t1.total > threshold {
          GoodUnlisted(t1, R1, z);
          var a := t1.next;
          var t2 := NewSet(t1);
          var t3 := t2.(any := Some(a), sets := t2.sets[a := EMPTY_SET.(may := true, any := true)]);
          assert Unlisted(t3, z);
          AbsorbAgrees(o, o', z, t3, 0, a);
        }
      case Unknown(inst) =>
        MergeHitsAgree(o, o', z, t, Instruction(inst), 0, t.next, None);
    }
  }

  /** A run that does not add the pointer does not notice the difference. */
  lemma {:induction false} RunAgrees(o: Oracle, o': Oracle, z: Ptr, threshold: nat, ops: seq<Op>)
    requires AgreesBut(o, o', z) && z !in Run(o, threshold, ops).recs
    ensures Run(o', threshold, ops) == Run(o, threshold, ops)
    decreases |ops|
  {
    if ops != [] {
      var before, op := ops[..|ops| - 1], ops[|ops| - 1];
      var R1 := RunKeeps(o, threshold, ops);
      var R := RunKeeps(o, threshold, before);
      NotAdded(before, op, ops, z);
      RunAgrees(o, o', z, threshold, before);
      ApplyAgrees(o, o', z, Run(o, threshold, before), R, op, threshold);
    }
  }

  lemma NotAdded(before: seq<Op>, op: Op, ops: seq<Op>, z: Ptr)
    requires ops == before + [op] && !Added(ops, z)
    ensures !Added(before, z) && (op.Pointer? ==> op.p != z)
  {
    assert forall k :: 0 <= k < |before| ==> ops[k] == before[k];
    assert ops[|before|] == op;
  }

  // ------------------------------------------------------------- one location away

  /** Whatever location comes next, and whatever a lawful oracle says of it, sets stay apart. */
  ghost predicate Robust(o: Oracle, threshold: nat, ops: seq<Op>) {
    forall o': Oracle, z: Ptr, size: nat {:trigger AgreesBut(o, o', z), Pointer(z, size)} ::
      Lawful(o') && AgreesBut(o, o', z) && z !in Run(o, threshold, ops).recs ==>
        Disjoint(o', Run(o', threshold, ops + [Pointer(z, size)]))
  }

  /** A pointer that is nowhere stays nowhere. */
  lemma NowhereAgrees(o: Oracle, o': Oracle, z: Ptr, p: Ptr)
    requires Lawful(o') && AgreesBut(o, o', z) && p != z && Nowhere(o, p)
    ensures Nowhere(o', p)
  {
    assert o.alias(p, 1, p, 1) == NoAlias;
    assert o'.alias(p, 1, p, 1) == NoAlias;
  }

  lemma LargestAgrees(o: Oracle, o': Oracle, z: Ptr, t: Tracker, R: Roots)
    requires Lawful(o') && AgreesBut(o, o', z) && Good(t, R) && z !in t.recs && FirstIsLargest(o, t)
    ensures FirstIsLargest(o', t)
  {
    forall i: SetId | Live(t, i) ensures Largest(o', t, i) {
      assert Largest(o, t, i) && ListOK(t, R, i);
      var s := t.sets[i];
      forall x | x in s.ptrs && Nowhere(o, x) ensures Nowhere(o', x) {
        NowhereAgrees(o, o', z, x);
      }
    }
  }

  lemma {:induction false} SafeAgrees(o: Oracle, o': Oracle, z: Ptr, threshold: nat, ops: seq<Op>)
    requires Lawful(o') && AgreesBut(o, o', z) && z !in Run(o, threshold, ops).recs && SafeRun(o, threshold, ops)
    ensures SafeRun(o', threshold, ops)
    decreases |ops|
  {
    var R := RunKeeps(o, threshold, ops);
    RunAgrees(o, o', z, threshold, ops);
    LargestAgrees(o, o', z, Run(o, threshold, ops), R);
    if ops != [] {
      var before, op := ops[..|ops| - 1], ops[|ops| - 1];
      var R0 := RunKeeps(o, threshold, before);
      NotAdded(before, op, ops, z);
      SafeAgrees(o, o', z, threshold, before);
    }
  }

  lemma SafeIsRobust(o: Oracle, threshold: nat, ops: seq<Op>)
    requires SafeRun(o, threshold, ops)
    ensures Robust(o, threshold, ops)
  {
    forall o': Oracle, z: Ptr, size: nat | Lawful(o') && AgreesBut(o, o', z) && z !in Run(o, threshold, ops).recs
      ensures Disjoint(o', Run(o', threshold, ops + [Pointer(z, size)]))
    {
      SafeAgrees(o, o', z, threshold, ops);
      RunAgrees(o, o', z, threshold, ops);
      StepIsSafe(o', threshold, ops, Pointer(z, size));
      RunIsDisjoint(o', threshold, ops + [Pointer(z, size)]);
    }
  }

  /** The same oracle, but pointer `z` aliases just the pointers of `near`, beyond `f` bytes. */
  ghost function Probe(o: Oracle, z: Ptr, near: iset<Ptr>, f: nat): Oracle {
    o.(alias := (p: Ptr, s: nat, q: Ptr, t: nat) =>
         if p != z && q != z then o.alias(p, s, q, t)
         else if s == 0 || t == 0 then NoAlias
         else if p == q then MustAlias
         else if (q == z && p in near && s > f) || (p == z && q in near && t > f) then MayAlias
         else NoAlias,
       touches := (i: Inst, p: Ptr, s: nat) => p != z && o.touches(i, p, s))
  }

  lemma ProbeIsLawful(o: Oracle, z: Ptr, near: iset<Ptr>, f: nat)
    requires Lawful(o)
    requires forall p, q {:trigger p in near, q in near} :: Same(o, p, q) && p in near ==> q in near
    requires forall p {:trigger p in near} :: p in near ==> !Nowhere(o, p)
    ensures Lawful(Probe(o, z, near, f)) && AgreesBut(o, Probe(o, z, near, f), z)
  {
    var o' := Probe(o, z, near, f);
    forall p: Ptr, s: nat, q: Ptr, t: nat | o'.alias(p, s, q, t) == MustAlias ensures Same(o', p, q) {
      if p != z && q != z {
        assert Same(o, p, q);
        ProbeSame(o, z, near, f, p, q);
      }
    }
    forall p: Ptr, s: nat, t: nat | s > 0 && t > 0 && o'.alias(p, s, p, t) == NoAlias ensures Nowhere(o', p) {
      assert p != z && Nowhere(o, p);
    }
  }

  lemma ProbeSame(o: Oracle, z: Ptr, near: iset<Ptr>, f: nat, p: Ptr, q: Ptr)
    requires p != z && q != z && Same(o, p, q) && (p in near <==> q in near)
    ensures Same(Probe(o, z, near, f), p, q)
  {
    var o' := Probe(o, z, near, f);
    forall v: nat, r: Ptr, u: nat ensures o'.alias(p, v, r, u) == NoAlias <==> o'.alias(q, v, r, u) == NoAlias {
      assert o.alias(p, v, r, u) == NoAlias <==> o.alias(q, v, r, u) == NoAlias;
    }
  }

  // ------------------------------------------------------ a state that is not largest first

  lemma {:induction false} FreshPointer(s: set<Ptr>) returns (z: Ptr)
    ensures forall p :: p in s ==> p < z
    decreases s
  {
    if s == {} {
      z := 0;
    } else {
      var q :| q in s;
      var y := FreshPointer(s - {q});
      z := if q < y then y else q + 1;
      assert forall p :: p in s ==> p == q || p in s - {q};
    }
  }

  lemma RunOne(o: Oracle, threshold: nat, ops: seq<Op>, op: Op)
    ensures Run(o, threshold, ops + [op]) == Apply(o, threshold, Run(o, threshold, ops), op)
  {
    assert (ops + [op])[..|ops|] == ops;
  }

  lemma {:induction false} NoHits(o: Oracle, t: Tracker, q: Query, i: SetId)
    requires forall j: SetId :: i <= j < t.next ==> !Hits(o, t, j, q)
    ensures MergeHits(o, t, q, i, t.next, None) == (t, None)
    decreases t.next - i
  {
    if i < t.next {
      NoHits(o, t, q, i + 1);
    }
  }

  function MustSet(ptrs: seq<Ptr>): ASet { ASet(None, |ptrs|, false, false, ptrs, |ptrs|, []) }

  /** A pointer that hits no set opens one. */
  lemma FirstPointer(o: Oracle, t: Tracker, p: Ptr, size: nat, threshold: nat)
    requires t.any.None? && p !in t.recs && t.total <= threshold
    requires forall i: SetId :: i < t.next ==> !Hits(o, t, i, Location(p, size))
    ensures AddPointer(o, t, p, size, threshold)
         == Tracker(t.sets[t.next := MustSet([p])], t.recs[p := Rec(t.next, size)], t.total, None, t.next + 1)
  {
    NoHits(o, t, Location(p, size), 0);
    var t1 := NewSet(t);
    assert [] + [p] == [p];
    assert AddToSet(o, t1, t.next, p, size).sets == t.sets[t.next := MustSet([p])];
  }

  /** The pointers that are the same as `q`. */
  ghost function Alike(o: Oracle, q: Ptr): iset<Ptr> { iset r: Ptr | Same(o, r, q) }

  /** Pointers that are the same overlap themselves. */
  lemma SameOverlap(o: Oracle, q: Ptr, v: nat, r: Ptr, u: nat)
    requires Lawful(o) && Same(o, r, q) && !Nowhere(o, q) && v > 0 && u > 0
    ensures o.alias(q, v, r, u) != NoAlias && o.alias(r, u, q, v) != NoAlias
  {
    assert o.alias(r, u, q, v) == NoAlias <==> o.alias(q, u, q, v) == NoAlias;
  }

  /** A location near the pointer that is larger than the first of its set, and beyond what the
      first one covers, misses every set. */
  lemma ProbeMisses(o: Oracle, t: Tracker, R: Roots, z: Ptr, near: iset<Ptr>, f: nat, j: SetId)
    requires Good(t, R) && t.any.None? && z !in t.recs
    requires forall i: SetId, x {:trigger x in t.sets[i].ptrs} ::
      Live(t, i) && x in t.sets[i].ptrs && x in near && SizeOf(t, x) > f ==>
      !t.sets[i].may && x != t.sets[i].ptrs[0]
    ensures !Hits(Probe(o, z, near, f), t, j, Location(z, 1))
  {
    var o' := Probe(o, z, near, f);
    if Live(t, j) {
      var s := t.sets[j];
      assert SetOK(t, R, j) && ListOK(t, R, j);
      assert forall k :: 0 <= k < |s.ptrs| ==> s.ptrs[k] in s.ptrs;
    }
  }

  /** A state of a run with a pointer larger than the first of its must-alias set is one location
      away from overlapping sets, if it does not overlap already. */
  lemma BrokenIsNotRobust(o: Oracle, threshold: nat, ops: seq<Op>)
    requires Lawful(o) && Run(o, threshold, ops).total <= threshold && !FirstIsLargest(o, Run(o, threshold, ops))
    ensures !Robust(o, threshold, ops)
  {
    var t := Run(o, threshold, ops);
    var R := RunKeeps(o, threshold, ops);
    var z := FreshPointer(t.recs.Keys);
    var i: SetId :| Live(t, i) && !Largest(o, t, i);
    var q :| q in t.sets[i].ptrs && SizeOf(t, q) > SizeOf(t, t.sets[i].ptrs[0]) && !Nowhere(o, q);
    assert t.any.None?;
    if Disjoint(o, t) {
      var near, f := Alike(o, q), SizeOf(t, t.sets[i].ptrs[0]);
      NearProbe(o, t, R, z, q, i);
      ProbeRun(o, threshold, ops, R, z, near, f);
      ProbeOverlaps(o, t, R, z, near, f, i, q);
    } else {
      ProbeIsLawful(o, z, iset{}, 0);
      ProbeRun(o, threshold, ops, R, z, iset{}, 0);
      StillOverlaps(o, t, R, z);
    }
  }

  function Opened(t: Tracker, z: Ptr): Tracker {
    Tracker(t.sets[t.next := MustSet([z])], t.recs[z := Rec(t.next, 1)], t.total, None, t.next + 1)
  }

  /** The probe's location opens a set. */
  lemma ProbeRun(o: Oracle, threshold: nat, ops: seq<Op>, R: Roots, z: Ptr, near: iset<Ptr>, f: nat)
    requires var t := Run(o, threshold, ops);
      && Good(t, R) && t.any.None? && z !in t.recs && t.total <= threshold
      && forall i: SetId, x {:trigger x in t.sets[i].ptrs} ::
         Live(t, i) && x in t.sets[i].ptrs && x in near && SizeOf(t, x) > f ==>
           !t.sets[i].may && x != t.sets[i].ptrs[0]
    requires AgreesBut(o, Probe(o, z, near, f), z)
    ensures Run(Probe(o, z, near, f), threshold, ops + [Pointer(z, 1)]) == Opened(Run(o, threshold, ops), z)
  {
    var o', t := Probe(o, z, near, f), Run(o, threshold, ops);
    RunAgrees(o, o', z, threshold, ops);
    RunOne(o', threshold, ops, Pointer(z, 1));
    forall j: SetId | j < t.next ensures !Hits(o', t, j, Location(z, 1)) {
      ProbeMisses(o, t, R, z, near, f, j);
    }
    FirstPointer(o', t, z, 1, threshold);
  }

  /** In disjoint sets the pointers near `q` and larger than `f` are all in its set `i`. */
  lemma NearProbe(o: Oracle, t: Tracker, R: Roots, z: Ptr, q: Ptr, i: SetId)
    requires Lawful(o) && Good(t, R) && Disjoint(o, t) && Live(t, i) && !t.sets[i].may && q in t.sets[i].ptrs
    requires !Nowhere(o, q)
    requires SizeOf(t, q) > SizeOf(t, t.sets[i].ptrs[0])
    ensures var near, f := Alike(o, q), SizeOf(t, t.sets[i].ptrs[0]);
      && Lawful(Probe(o, z, near, f)) && AgreesBut(o, Probe(o, z, near, f), z)
      && forall j: SetId, x {:trigger x in t.sets[j].ptrs} ::
         Live(t, j) && x in t.sets[j].ptrs && x in near && SizeOf(t, x) > f ==>
           !t.sets[j].may && x != t.sets[j].ptrs[0]
  {
    var near, f := Alike(o, q), SizeOf(t, t.sets[i].ptrs[0]);
    forall p, r | Same(o, p, r) && p in near ensures r in near {
      SameTrans(o, r, p, q);
    }
    forall p | p in near ensures !Nowhere(o, p) {
      SameOverlap(o, q, 1, p, 1);
      assert o.alias(p, 1, q, 1) != NoAlias;
    }
    ProbeIsLawful(o, z, near, f);
    forall j: SetId, x | Live(t, j) && x in t.sets[j].ptrs && x in near && SizeOf(t, x) > f
      ensures !t.sets[j].may && x != t.sets[j].ptrs[0]
    {
      SameOverlap(o, q, SizeOf(t, q), x, SizeOf(t, x));
      assert j == i;
    }
  }

  lemma ProbeOverlaps(o: Oracle, t: Tracker, R: Roots, z: Ptr, near: iset<Ptr>, f: nat, i: SetId, q: Ptr)
    requires Good(t, R) && z !in t.recs && Live(t, i) && q in t.sets[i].ptrs && q in near && SizeOf(t, q) > f
    ensures !Disjoint(Probe(o, z, near, f), Opened(t, z))
  {
    var o', t' := Probe(o, z, near, f), Opened(t, z);
    assert SetOK(t, R, i) && ListOK(t, R, i);
    assert Live(t', i) && Live(t', t.next) && i != t.next && q in t'.sets[i].ptrs && z in t'.sets[t.next].ptrs;
    assert o'.alias(q, SizeOf(t', q), z, SizeOf(t', z)) == MayAlias;
  }

  lemma StillOverlaps(o: Oracle, t: Tracker, R: Roots, z: Ptr)
    requires Good(t, R) && z !in t.recs && !Disjoint(o, t)
    ensures !Disjoint(Probe(o, z, iset{}, 0), Opened(t, z))
  {
    var o', t' := Probe(o, z, iset{}, 0), Opened(t, z);
    var i: SetId, j: SetId, x, y :| Live(t, i) && Live(t, j) && i != j && x in t.sets[i].ptrs && y in t.sets[j].ptrs
      && o.alias(x, SizeOf(t, x), y, SizeOf(t, y)) != NoAlias;
    assert SetOK(t, R, i) && ListOK(t, R, i) && SetOK(t, R, j) && ListOK(t, R, j);
    assert Live(t', i) && Live(t', j) && x in t'.sets[i].ptrs && y in t'.sets[j].ptrs;
  }

  /** Exactly when sets stay apart: after a run that was safe so far, whatever location comes next
      and whatever a lawful oracle says of it leaves sets that are apart if and only if no live
      must-alias set has a pointer, that is anywhere, larger than its first. */
  lemma SafeExactly(o: Oracle, threshold: nat, ops: seq<Op>)
    requires Lawful(o) && (ops == [] || SafeRun(o, threshold, ops[..|ops| - 1]))
    requires Run(o, threshold, ops).total <= threshold
    ensures Robust(o, threshold, ops) <==> FirstIsLargest(o, Run(o, threshold, ops))
  {
    if FirstIsLargest(o, Run(o, threshold, ops)) {
      SafeIsRobust(o, threshold, ops);
    } else {
      BrokenIsNotRobust(o, threshold, ops);
    }
  }

  // -------------------------------------------------------------- runs that break the sets

  /** What is so of `s` bytes at `a` and `t` bytes at `b`. */
  function AtBytes(a: nat, s: nat, b: nat, t: nat): Alias {
    if s == 0 || t == 0 || a + s <= b || b + t <= a then NoAlias else if a == b then MustAlias else PartialAlias
  }

  /** The exact oracle for pointers with known addresses. */
  function ByAddress(address: Ptr -> nat): Oracle {
    Oracle((p: Ptr, s: nat, q: Ptr, t: nat) => AtBytes(address(p), s, address(q), t),
           (inst, p, s) => false, (i, j) => false, i => true)
  }

  lemma ByAddressIsLawful(address: Ptr -> nat)
    ensures Lawful(ByAddress(address))
  {
    var o := ByAddress(address);
    forall p: Ptr, s: nat, q: Ptr, t: nat ensures o.alias(p, s, q, t) == AtBytes(address(p), s, address(q), t) { }
    forall p: Ptr, s: nat, q: Ptr, t: nat | o.alias(p, s, q, t) == MustAlias ensures Same(o, p, q) {
      AtOneAddress(address, p, q);
    }
    forall p: Ptr, s: nat, t: nat | s > 0 && t > 0 ensures o.alias(p, s, p, t) == MustAlias { }
  }

  lemma AtOneAddress(address: Ptr -> nat, p: Ptr, q: Ptr)
    requires address(p) == address(q)
    ensures Same(ByAddress(address), p, q)
  {
  }

  lemma RunFour(o: Oracle, threshold: nat, a: Op, b: Op, c: Op, d: Op)
    ensures Run(o, threshold, [a, b, c, d])
         == Apply(o, threshold, Apply(o, threshold, Apply(o, threshold, Apply(o, threshold, EMPTY, a), b), c), d)
  {
    NextRun(o, threshold, [], a, [a]);
    NextRun(o, threshold, [a], b, [a, b]);
    NextRun(o, threshold, [a, b], c, [a, b, c]);
    NextRun(o, threshold, [a, b, c], d, [a, b, c, d]);
    assert Run(o, threshold, []) == EMPTY;
  }

  lemma NextRun(o: Oracle, threshold: nat, ops: seq<Op>, op: Op, ops': seq<Op>)
    requires ops' == ops + [op]
    ensures Run(o, threshold, ops') == Apply(o, threshold, Run(o, threshold, ops), op)
  {
    RunOne(o, threshold, ops, op);
  }

  /** A pointer that must alias the only set's first pointer joins it. */
  lemma JoinsOnlySet(o: Oracle, t: Tracker, x: Ptr, p: Ptr)
    requires t == Tracker(map[0 := MustSet([x])], map[x := Rec(0, 4)], 0, None, 1) && p != x
    requires o.alias(x, 4, p, 4) == MustAlias
    ensures AddPointer(o, t, p, 4, 250) ==
      Tracker(map[0 := MustSet([x, p])], map[x := Rec(0, 4), p := Rec(0, 4)], 0, None, 1)
  {
    assert Hits(o, t, 0, Location(p, 4));
    assert MergeHits(o, t, Location(p, 4), 0, 1, None) == MergeHits(o, t, Location(p, 4), 1, 1, Some(0));
    assert [x] + [p] == [x, p];
    var t' := AddToSet(o, t, 0, p, 4);
    assert t'.sets == map[0 := MustSet([x, p])];
    assert t'.recs == map[x := Rec(0, 4), p := Rec(0, 4)];
  }

  /** Its growth changes nothing but its own size. */
  lemma GrowsInOnlySet(o: Oracle, t: Tracker, x: Ptr, p: Ptr)
    requires t == Tracker(map[0 := MustSet([x, p])], map[x := Rec(0, 4), p := Rec(0, 4)], 0, None, 1) && p != x
    requires o.alias(x, 4, p, 16) == MustAlias
    ensures AddPointer(o, t, p, 16, 250) == t.(recs := map[x := Rec(0, 4), p := Rec(0, 16)])
  {
    var t1 := Grow(t, p, 16);
    assert t1 == t.(recs := map[x := Rec(0, 4), p := Rec(0, 16)]);
    assert Hits(o, t1, 0, Location(p, 16));
    assert MergeHits(o, t1, Location(p, 16), 0, 1, None) == MergeHits(o, t1, Location(p, 16), 1, 1, Some(0));
    assert Resolve(t1, p).0 == t1;
  }

  function ExampleOracle(): Oracle { ByAddress(p => if p == 3 then 8 else 0) }

  ghost predicate AsExample(o: Oracle) {
    forall p: Ptr, s: nat, q: Ptr, t: nat {:trigger o.alias(p, s, q, t)} ::
      o.alias(p, s, q, t) == AtBytes(if p == 3 then 8 else 0, s, if q == 3 then 8 else 0, t)
  }

  const EXAMPLE_OPS := [Pointer(1, 4), Pointer(2, 4), Pointer(2, 16), Pointer(3, 4)]

  /** A later pointer of a must-alias set grows: pointers 1 and 2 must alias at address 0; 2 is added
      again with a larger size, but the set is still asked through the smaller 1, so pointer 3,
      inside what 2 accesses, gets a set of its own. */
  lemma GrowthOfLaterPointerBreaksSets()
    ensures Lawful(ExampleOracle()) && !Disjoint(ExampleOracle(), Run(ExampleOracle(), 250, EXAMPLE_OPS))
    ensures !SafeRun(ExampleOracle(), 250, EXAMPLE_OPS)
  {
    ByAddressIsLawful(p => if p == 3 then 8 else 0);
    GrowthExampleRun();
    OverlapIsUnsafe(ExampleOracle(), 250, EXAMPLE_OPS);
  }

  lemma OverlapIsUnsafe(o: Oracle, threshold: nat, ops: seq<Op>)
    requires Lawful(o) && !Disjoint(o, Run(o, threshold, ops))
    ensures !SafeRun(o, threshold, ops)
  {
    if SafeRun(o, threshold, ops) {
      RunIsDisjoint(o, threshold, ops);
    }
  }

  lemma GrowthExampleRun()
    ensures !Disjoint(ExampleOracle(), Run(ExampleOracle(), 250, EXAMPLE_OPS))
  {
    var o := ExampleOracle();
    assert AsExample(o);
    var t4 := GrowthExample(o);
    RunFour(o, 250, Pointer(1, 4), Pointer(2, 4), Pointer(2, 16), Pointer(3, 4));
  }

  lemma GrowthExample(o: Oracle) returns (t4: Tracker)
    requires AsExample(o)
    ensures t4 == AddPointer(o, AddPointer(o, AddPointer(o, AddPointer(o, EMPTY, 1, 4, 250), 2, 4, 250), 2, 16, 250),
      3, 4, 250)
    ensures !Disjoint(o, t4)
  {
    var t1 := AddPointer(o, EMPTY, 1, 4, 250);
    FirstPointer(o, EMPTY, 1, 4, 250);
    assert t1 == Tracker(map[0 := MustSet([1])], map[1 := Rec(0, 4)], 0, None, 1);
    JoinsOnlySet(o, t1, 1, 2);
    var t2 := AddPointer(o, t1, 2, 4, 250);
    GrowsInOnlySet(o, t2, 1, 2);
    var t3 := AddPointer(o, t2, 2, 16, 250);
    t4 := AddPointer(o, t3, 3, 4, 250);
    ThirdIsMissed(o, t3);
  }

  lemma ThirdIsMissed(o: Oracle, t: Tracker)
    requires AsExample(o)
    requires t == Tracker(map[0 := MustSet([1, 2])], map[1 := Rec(0, 4), 2 := Rec(0, 16)], 0, None, 1)
    ensures !Disjoint(o, AddPointer(o, t, 3, 4, 250))
  {
    FirstPointer(o, t, 3, 4, 250);
    var t4 := AddPointer(o, t, 3, 4, 250);
    assert t4.sets[0].ptrs[1] == 2 && t4.sets[1].ptrs[0] == 3;
    assert Live(t4, 0) && Live(t4, 1) && 2 in t4.sets[0].ptrs && 3 in t4.sets[1].ptrs;
    assert o.alias(2, SizeOf(t4, 2), 3, SizeOf(t4, 3)) == PartialAlias;
  }

  const EMPTY_ACCESS_OPS := [Pointer(1, 0), Pointer(2, 16), Pointer(1, 4), Pointer(3, 4)]

  /** The only pointer of a must-alias set grows from an empty access: 1 at size 0 aliases nothing,
      so 2 at the same address gets a set of its own; when 1 grows the two sets become one
      must-alias set with the smaller 1 first, and pointer 3, inside what 2 accesses, is missed. */
  lemma GrowthFromNothingBreaksSets()
    ensures Lawful(ExampleOracle()) && !Disjoint(ExampleOracle(), Run(ExampleOracle(), 250, EMPTY_ACCESS_OPS))
    ensures !SafeRun(ExampleOracle(), 250, EMPTY_ACCESS_OPS)
  {
    var o := ExampleOracle();
    ByAddressIsLawful(p => if p == 3 then 8 else 0);
    assert AsExample(o);
    var t4 := EmptyAccessExample(o);
    RunFour(o, 250, Pointer(1, 0), Pointer(2, 16), Pointer(1, 4), Pointer(3, 4));
    OverlapIsUnsafe(o, 250, EMPTY_ACCESS_OPS);
  }

  lemma EmptyAccessExample(o: Oracle) returns (t4: Tracker)
    requires AsExample(o)
    ensures t4 == AddPointer(o, AddPointer(o, AddPointer(o, AddPointer(o, EMPTY, 1, 0, 250), 2, 16, 250), 1, 4, 250),
      3, 4, 250)
    ensures !Disjoint(o, t4)
  {
    FirstPointer(o, EMPTY, 1, 0, 250);
    var t1 := AddPointer(o, EMPTY, 1, 0, 250);
    assert t1 == Tracker(map[0 := MustSet([1])], map[1 := Rec(0, 0)], 0, None, 1);
    FirstPointer(o, t1, 2, 16, 250);
    var t2 := AddPointer(o, t1, 2, 16, 250);
    assert t2 == Tracker(map[0 := MustSet([1]), 1 := MustSet([2])], map[1 := Rec(0, 0), 2 := Rec(1, 16)], 0, None, 2);
    GrowsIntoOneSet(o, t2);
    t4 := MissedByFirst(o, AddPointer(o, t2, 1, 4, 250));
  }

  lemma MissedByFirst(o: Oracle, t: Tracker) returns (t': Tracker)
    requires AsExample(o)
    requires t.sets == map[0 := ASet(None, 2, false, false, [1, 2], 2, []),
                           1 := ASet(Some(0), 1, false, false, [], 0, [])]
    requires t.recs == map[1 := Rec(0, 4), 2 := Rec(1, 16)] && t.total == 0 && t.any.None? && t.next == 2
    ensures t' == AddPointer(o, t, 3, 4, 250) && !Disjoint(o, t')
  {
    FirstPointer(o, t, 3, 4, 250);
    t' := AddPointer(o, t, 3, 4, 250);
    assert t'.sets[0].ptrs[1] == 2 && t'.sets[2].ptrs[0] == 3;
    assert Live(t', 0) && Live(t', 2) && 2 in t'.sets[0].ptrs && 3 in t'.sets[2].ptrs;
    assert o.alias(2, SizeOf(t', 2), 3, SizeOf(t', 3)) == PartialAlias;
  }

  /** Two sets of pointers that turn out to be the same become one. */
  lemma GrowsIntoOneSet(o: Oracle, t: Tracker)
    requires t == Tracker(map[0 := MustSet([1]), 1 := MustSet([2])], map[1 := Rec(0, 0), 2 := Rec(1, 16)], 0, None, 2)
    requires o.alias(1, 4, 1, 4) == MustAlias && o.alias(2, 16, 1, 4) == MustAlias && o.alias(1, 4, 2, 16) == MustAlias
    ensures AddPointer(o, t, 1, 4, 250)
         == Tracker(map[0 := ASet(None, 2, false, false, [1, 2], 2, []),
           1 := ASet(Some(0), 1, false, false, [], 0, [])],
                    map[1 := Rec(0, 4), 2 := Rec(1, 16)], 0, None, 2)
  {
    var q, t1 := Location(1, 4), Grow(t, 1, 4);
    assert t1 == t.(recs := map[1 := Rec(0, 4), 2 := Rec(1, 16)]);
    assert Hits(o, t1, 0, q) && Hits(o, t1, 1, q);
    var t2 := MergeSetIn(o, t1, 0, 1);
    assert StaysMust(o, t1, 0, 1);
    assert t1.sets[0].ptrs + t1.sets[1].ptrs == [1, 2] && t1.sets[0].unknown + t1.sets[1].unknown == [];
    assert t2.sets[0] == ASet(None, 2, false, false, [1, 2], 2, []);
    assert t2.sets == map[0 := ASet(None, 2, false, false, [1, 2], 2, []),
      1 := ASet(Some(0), 1, false, false, [], 0, [])];
    assert MergeHits(o, t1, q, 0, 2, None) == MergeHits(o, t1, q, 1, 2, Some(0)) ==
      MergeHits(o, t2, q, 2, 2, Some(0)) == (t2, Some(0));
    assert Resolve(t2, 1).0 == t2;
  }
}
