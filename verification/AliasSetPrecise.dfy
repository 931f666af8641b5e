/** Alias sets are no coarser than they must be: what has nothing to do with each other, not even
    through others, is never put together unless the tracker saturates. */
module AliasSetPrecise {
  import opened Basics
  import opened AliasSets
  import opened AliasSetRefs
  import opened AliasSetOps
  import opened AliasSetCounter

  /** Some pointers and some instructions. */
  datatype Part = Part(ptrs: iset<Ptr>, insts: iset<Inst>)

  /** Nothing in the part has to do with anything outside it, at any sizes. */
  ghost predicate Separate(o: Oracle, k: Part) {
    && (forall p: Ptr, s: nat, q: Ptr, t: nat {:trigger o.alias(p, s, q, t)} ::
         o.alias(p, s, q, t) != NoAlias ==> (p in k.ptrs <==> q in k.ptrs))
    && (forall u: Inst, p: Ptr, s: nat {:trigger o.touches(u, p, s)} ::
         o.touches(u, p, s) ==> (u in k.insts <==> p in k.ptrs))
    && (forall u: Inst, v: Inst {:trigger o.interferes(u, v)} ::
         o.interferes(u, v) ==> (u in k.insts <==> v in k.insts))
  }

  /** All members of the set are in the part, or all are outside. */
  ghost predicate OnSide(t: Tracker, k: Part, i: SetId, b: bool)
    requires i in t.sets
  {
    && (forall x {:trigger x in t.sets[i].ptrs} :: x in t.sets[i].ptrs ==> (x in k.ptrs) == b)
    && (forall u {:trigger u in t.sets[i].unknown} :: u in t.sets[i].unknown ==> (u in k.insts) == b)
  }

  ghost predicate Pure(t: Tracker, k: Part) {
    forall i: SetId {:trigger Live(t, i)} :: Live(t, i) ==> OnSide(t, k, i, true) || OnSide(t, k, i, false)
  }

  ghost predicate SideOf(k: Part, q: Query) {
    match q case Location(p, _) => p in k.ptrs case Instruction(u) => u in k.insts
  }

  /** A set that a query hits is on the query's side. */
  lemma HitSide(o: Oracle, t: Tracker, R: Roots, k: Part, i: SetId, q: Query)
    requires Separate(o, k) && Good(t, R) && t.any.None? && Pure(t, k) && Hits(o, t, i, q)
    ensures OnSide(t, k, i, SideOf(k, q))
  {
    assert SetOK(t, R, i);
    var s := t.sets[i];
    match q {
      case Location(p, size) =>
        if !s.may {
          assert s.ptrs[0] in s.ptrs && o.alias(s.ptrs[0], SizeOf(t, s.ptrs[0]), p, size) != NoAlias;
        } else if j :| 0 <= j < |s.ptrs| && o.alias(p, size, s.ptrs[j], SizeOf(t, s.ptrs[j])) != NoAlias {
          assert s.ptrs[j] in s.ptrs;
        } else {
          var j :| 0 <= j < |s.unknown| && o.touches(s.unknown[j], p, size);
          assert s.unknown[j] in s.unknown;
        }
      case Instruction(u) =>
        if j :| 0 <= j < |s.ptrs| && o.touches(u, s.ptrs[j], SizeOf(t, s.ptrs[j])) {
          assert s.ptrs[j] in s.ptrs;
        } else {
          var j :| 0 <= j < |s.unknown| && (o.interferes(s.unknown[j], u) || o.interferes(u, s.unknown[j]));
          assert s.unknown[j] in s.unknown;
        }
    }
  }

  lemma MergePure(o: Oracle, t: Tracker, k: Part, d: SetId, s: SetId, t': Tracker, b: bool)
    requires Live(t, d) && Live(t, s) && d != s && MergeEffect(o, t, d, s, t')
    requires Pure(t, k) && OnSide(t, k, d, b) && OnSide(t, k, s, b)
    ensures Pure(t', k) && OnSide(t', k, d, b)
  {
    forall i: SetId | Live(t', i) ensures OnSide(t', k, i, true) || OnSide(t', k, i, false) {
      if i != d {
        assert SameLive(t, t', i);
      }
    }
  }

  lemma {:induction false} HitsPure(o: Oracle, t: Tracker, R: Roots, k: Part, q: Query, i: SetId, n: SetId,
                                    found: Option<SetId>)
    requires Separate(o, k) && Good(t, R) && t.any.None? && Pure(t, k)
    requires found.Some? ==> Live(t, found.value) && found.value < i && OnSide(t, k, found.value, SideOf(k, q))
    ensures var r := MergeHits(o, t, q, i, n, found);
      Pure(r.0, k) && (r.1.Some? ==> r.1.value in r.0.sets && OnSide(r.0, k, r.1.value, SideOf(k, q)))
    decreases n - i, 1
  {
    if i < n {
      if Hits(o, t, i, q) { HitSide(o, t, R, k, i, q); }
      if !Hits(o, t, i, q) || found.None? {
        HitsPure(o, t, R, k, q, i + 1, n, if Hits(o, t, i, q) then Some(i) else found);
      } else {
        var t1 := MergeSetIn(o, t, found.value, i);
        HitPure(o, t, R, k, q, i, found.value, t1);
        ThenPure(o, t, k, q, i, n, found.value, t1, Rerouted(R, i, found.value));
      }
    }
  }

  lemma HitPure(o: Oracle, t: Tracker, R: Roots, k: Part, q: Query, i: SetId, f: SetId, t1: Tracker)
    requires Good(t, R) && t.any.None? && Pure(t, k) && Live(t, f) && Live(t, i) && f < i
    requires OnSide(t, k, f, SideOf(k, q)) && OnSide(t, k, i, SideOf(k, q)) && t1 == MergeSetIn(o, t, f, i)
    ensures Good(t1, Rerouted(R, i, f)) && t1.any.None? && Pure(t1, k) && Live(t1, f) && OnSide(t1, k, f, SideOf(k, q))
  {
    HitMerged(o, t, R, f, i);
    MergeKeeps(o, t, R, f, i);
    MergePure(o, t, k, f, i, t1, SideOf(k, q));
  }

  lemma {:induction false} ThenPure(o: Oracle, t: Tracker, k: Part, q: Query, i: SetId, n: SetId, f: SetId, t1: Tracker,
                                    R1: Roots)
    requires i < n && Hits(o, t, i, q) && f in t.sets && f < i && t1 == MergeSetIn(o, t, f, i)
    requires Separate(o, k) && Good(t1, R1) && t1.any.None? && Pure(t1, k) && Live(t1, f)
    requires OnSide(t1, k, f, SideOf(k, q))
    ensures var r := MergeHits(o, t, q, i, n, Some(f));
      Pure(r.0, k) && (r.1.Some? ==> r.1.value in r.0.sets && OnSide(r.0, k, r.1.value, SideOf(k, q)))
    decreases n - i, 0
  {
    HitsPure(o, t1, R1, k, q, i + 1, n, Some(f));
  }

  // --------------------------------------------------------------------------- operations

  lemma SetForPointerPure(o: Oracle, t: Tracker, R: Roots, k: Part, p: Ptr, size: nat)
    requires Separate(o, k) && Good(t, R) && t.any.None? && Pure(t, k)
    ensures Pure(SetForPointer(o, t, p, size), k)
  {
    if p in t.recs {
      KnownPure(o, t, R, k, p, size);
    } else {
      var R' := MergeHitsKeeps(o, t, R, Location(p, size), 0, t.next, None);
      var r := MergeHits(o, t, Location(p, size), 0, t.next, None);
      HitsPure(o, t, R, k, Location(p, size), 0, t.next, None);
      if r.1.Some? {
        MemberPure(o, r.0, k, r.1.value, p, size);
      } else {
        NewSetPure(r.0, R', k, p in k.ptrs);
        MemberPure(o, NewSet(r.0), k, r.0.next, p, size);
      }
    }
  }

  lemma NewSetPure(t: Tracker, R: Roots, k: Part, b: bool)
    requires Good(t, R) && Pure(t, k)
    ensures Pure(NewSet(t), k) && OnSide(NewSet(t), k, t.next, b)
  {
    assert t.next !in R;
    forall i: SetId | Live(NewSet(t), i) ensures OnSide(NewSet(t), k, i, true) || OnSide(NewSet(t), k, i, false) {
      assert i != t.next ==> Live(t, i);
    }
  }

  lemma MemberPure(o: Oracle, t: Tracker, k: Part, i: SetId, p: Ptr, size: nat)
    requires Pure(t, k) && i in t.sets && OnSide(t, k, i, p in k.ptrs)
    ensures Pure(AddToSet(o, t, i, p, size), k)
  {
    var t' := AddToSet(o, t, i, p, size);
    forall j: SetId | Live(t', j) ensures OnSide(t', k, j, true) || OnSide(t', k, j, false) {
      assert Live(t, j);
    }
  }

  lemma KnownPure(o: Oracle, t: Tracker, R: Roots, k: Part, p: Ptr, size: nat)
    requires Separate(o, k) && Good(t, R) && t.any.None? && Pure(t, k) && p in t.recs
    ensures Pure(SetForPointer(o, t, p, size), k)
  {
    var t1, t' := Grow(t, p, size), SetForPointer(o, t, p, size);
    GrowKeeps(t, R, p, size);
    assert Pure(t1, k) by { assert forall i: SetId {:trigger Live(t1, i)} :: Live(t1, i) ==> Live(t, i); }
    var t2, R' := t1, R;
    if size > t.recs[p].size {
      R' := MergeHitsKeeps(o, t1, R, Location(p, size), 0, t.next, None);
      HitsPure(o, t1, R, k, Location(p, size), 0, t.next, None);
      t2 := MergeHits(o, t1, Location(p, size), 0, t.next, None).0;
    }
    ResolveKeeps(t2, R', p);
    forall i: SetId | Live(t', i) ensures OnSide(t', k, i, true) || OnSide(t', k, i, false) {
      assert SameLive(t2, t', i);
      assert Live(t2, i);
    }
  }

  lemma AddUnknownPure(o: Oracle, t: Tracker, R: Roots, k: Part, u: Inst)
    requires Separate(o, k) && Good(t, R) && t.any.None? && Pure(t, k)
    ensures Pure(AddUnknown(o, t, u), k)
  {
    if o.accesses(u) {
      var R' := MergeHitsKeeps(o, t, R, Instruction(u), 0, t.next, None);
      var r := MergeHits(o, t, Instruction(u), 0, t.next, None);
      HitsPure(o, t, R, k, Instruction(u), 0, t.next, None);
      if r.1.Some? {
        InstPure(r.0, k, r.1.value, u);
      } else {
        NewSetPure(r.0, R', k, u in k.insts);
        InstPure(NewSet(r.0), k, r.0.next, u);
      }
    }
  }

  lemma InstPure(t: Tracker, k: Part, i: SetId, u: Inst)
    requires Pure(t, k) && i in t.sets && OnSide(t, k, i, u in k.insts)
    ensures Pure(AddInstTo(t, i, u), k)
  {
    var t' := AddInstTo(t, i, u);
    forall j: SetId | Live(t', j) ensures OnSide(t', k, j, true) || OnSide(t', k, j, false) {
      assert Live(t, j);
    }
  }

  /** No set of a tracker that is not saturated has members on both sides. */
  lemma {:induction false} RunIsPure(o: Oracle, threshold: nat, ops: seq<Op>, k: Part)
    requires Separate(o, k) && Run(o, threshold, ops).any.None?
    ensures Pure(Run(o, threshold, ops), k)
    decreases |ops|
  {
    if ops != [] {
      var before, op := ops[..|ops| - 1], ops[|ops| - 1];
      var t := Run(o, threshold, before);
      var R := RunKeeps(o, threshold, before);
      NotSaturatedBefore(o, t, R, op, threshold);
      RunIsPure(o, threshold, before, k);
      match op {
        case Pointer(p, size) => SetForPointerPure(o, t, R, k, p, size);
        case Unknown(u) => AddUnknownPure(o, t, R, k, u);
      }
    }
  }

  /** A saturated tracker stays saturated. */
  lemma NotSaturatedBefore(o: Oracle, t: Tracker, R: Roots, op: Op, threshold: nat)
    requires Good(t, R) && Apply(o, threshold, t, op).any.None?
    ensures t.any.None? && (op.Pointer? ==> Apply(o, threshold, t, op) == SetForPointer(o, t, op.p, op.size))
  {
    match op {
      case Pointer(p, size) =>
        var R1 := SetForPointerKeeps(o, t, R, p, size);
        if SetForPointer(o, t, p, size).any.None? && SetForPointer(o, t, p, size).total > threshold {
          var R2 := MergeAllKeeps(o, SetForPointer(o, t, p, size), R1);
        }
      case Unknown(u) =>
        var R1 := MergeHitsKeeps(o, t, R, Instruction(u), 0, t.next, None);
    }
  }

  // ------------------------------------------------------------------------- saturation

  ghost function Elements(s: seq<Ptr>): set<Ptr> { set x | x in s }

  /** The pointers of the sets below `n`. */
  ghost function Members(t: Tracker, n: nat): set<Ptr> {
    if n == 0 then {} else Members(t, n - 1) + (if n - 1 in t.sets then Elements(t.sets[n - 1].ptrs) else {})
  }

  lemma {:induction false} MembersAre(t: Tracker, n: nat, x: Ptr)
    requires x in Members(t, n)
    ensures exists i: SetId :: i < n && i in t.sets && x in t.sets[i].ptrs
    decreases n
  {
    if x in Members(t, n - 1) {
      MembersAre(t, n - 1, x);
    }
  }

  lemma {:induction false} NoDupSize(s: seq<Ptr>)
    requires NoDup(s)
    ensures |Elements(s)| == |s|
    decreases |s|
  {
    if s != [] {
      var init, last := s[..|s| - 1], s[|s| - 1];
      NoDupSize(init);
      assert s == init + [last];
      assert Elements(s) == Elements(init) + {last};
    }
  }

  /** The sizes of all may-alias sets are no more than the pointers they hold. */
  lemma {:induction false} SumIsMembers(t: Tracker, R: Roots, n: nat)
    requires Linked(t, R)
    ensures SumTo(t, n) <= |Members(t, n)|
    decreases n
  {
    if n > 0 {
      SumIsMembers(t, R, n - 1);
      OneMoreSet(t, R, n - 1);
    }
  }

  lemma OneMoreSet(t: Tracker, R: Roots, i: SetId)
    requires Linked(t, R)
    ensures |Members(t, i + 1)| >= |Members(t, i)| + Weight(t, i)
  {
    var before := Members(t, i);
    if i in t.sets {
      OwnMembers(t, R, i);
      assert Members(t, i + 1) == before + Elements(t.sets[i].ptrs);
      Together(before, Elements(t.sets[i].ptrs));
    } else {
      assert Members(t, i + 1) == before;
    }
  }

  lemma Together(a: set<Ptr>, b: set<Ptr>)
    requires a !! b
    ensures |a + b| == |a| + |b|
  {
  }

  lemma OwnMembers(t: Tracker, R: Roots, i: SetId)
    requires Linked(t, R) && i in t.sets
    ensures |Elements(t.sets[i].ptrs)| == t.sets[i].size && Members(t, i) !! Elements(t.sets[i].ptrs)
  {
    assert ListOK(t, R, i) && SetOK(t, R, i);
    NoDupSize(t.sets[i].ptrs);
    forall x | x in Members(t, i) ensures x !in t.sets[i].ptrs {
      MembersAre(t, i, x);
      var j: SetId :| j < i && j in t.sets && x in t.sets[j].ptrs;
      assert ListOK(t, R, j);
    }
  }

  lemma SumIsTracked(t: Tracker, R: Roots)
    requires Linked(t, R)
    ensures SumTo(t, t.next) <= |t.recs.Keys|
  {
    SumIsMembers(t, R, t.next);
    forall x | x in Members(t, t.next) ensures x in t.recs.Keys {
      MembersAre(t, t.next, x);
      var j: SetId :| j < t.next && j in t.sets && x in t.sets[j].ptrs;
      assert ListOK(t, R, j);
    }
    Subset(Members(t, t.next), t.recs.Keys);
  }

  lemma Subset(a: set<Ptr>, b: set<Ptr>)
    requires a <= b
    ensures |a| <= |b|
  {
    assert b == a + (b - a);
  }

  /** A tracker saturates only when it tracks more pointers than the threshold. */
  lemma {:induction false} SaturatesOnlyAbove(o: Oracle, threshold: nat, ops: seq<Op>)
    requires |Run(o, threshold, ops).recs.Keys| <= threshold
    ensures Run(o, threshold, ops).any.None?
    decreases |ops|
  {
    if ops != [] {
      var before, op := ops[..|ops| - 1], ops[|ops| - 1];
      var t := Run(o, threshold, before);
      var R := RunKeeps(o, threshold, before);
      FewerTracked(o, t, R, op, threshold);
      SaturatesOnlyAbove(o, threshold, before);
      TotalIsExact(o, threshold, before);
      match op {
        case Pointer(p, size) => PointerStays(o, t, R, p, size, threshold);
        case Unknown(u) => var R1 := MergeHitsKeeps(o, t, R, Instruction(u), 0, t.next, None);
      }
    }
  }

  lemma FewerTracked(o: Oracle, t: Tracker, R: Roots, op: Op, threshold: nat)
    requires Good(t, R)
    ensures |t.recs.Keys| <= |Apply(o, threshold, t, op).recs.Keys|
  {
    match op {
      case Pointer(p, size) => var R' := AddPointerKeeps(o, t, R, p, size, threshold);
      case Unknown(u) => var R' := AddUnknownKeeps(o, t, R, u);
    }
    Subset(t.recs.Keys, Apply(o, threshold, t, op).recs.Keys);
  }

  lemma PointerStays(o: Oracle, t: Tracker, R: Roots, p: Ptr, size: nat, threshold: nat)
    requires Good(t, R) && t.any.None? && t.total <= SumTo(t, t.next)
    requires |AddPointer(o, t, p, size, threshold).recs.Keys| <= threshold
    ensures AddPointer(o, t, p, size, threshold).any.None?
  {
    var t1 := SetForPointer(o, t, p, size);
    var R1 := SetForPointerKeeps(o, t, R, p, size);
    var R2 := AddPointerKeeps(o, t, R, p, size, threshold);
    SetForPointerGap(o, t, R, p, size);
    SumIsTracked(t1, R1);
    PointerSaturates(o, t, R, p, size);
  }

  lemma PointerSaturates(o: Oracle, t: Tracker, R: Roots, p: Ptr, size: nat)
    requires Good(t, R) && t.any.None?
    ensures SetForPointer(o, t, p, size).any.None?
  {
    if p in t.recs {
      GrowKeeps(t, R, p, size);
      var t1 := Grow(t, p, size);
      var t2, R' := t1, R;
      if size > t.recs[p].size {
        R' := MergeHitsKeeps(o, t1, R, Location(p, size), 0, t.next, None);
        t2 := MergeHits(o, t1, Location(p, size), 0, t.next, None).0;
      }
      ResolveKeeps(t2, R', p);
    } else {
      var R' := MergeHitsKeeps(o, t, R, Location(p, size), 0, t.next, None);
    }
  }
}
