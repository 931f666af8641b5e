/** Instructions without a location: an alias set holds all that they touch and interfere with. */
module AliasSetInsts {
  import opened Basics
  import opened AliasSets
  import opened AliasSetRefs
  import opened AliasSetOps
  import opened AliasSetDisjoint
  import opened AliasSetGrowth

  // ------------------------------------------------------------------- members of live sets

  predicate Lists(t: Tracker, i: SetId, u: Inst) { Live(t, i) && u in t.sets[i].unknown }

  predicate Has(t: Tracker, i: SetId, x: Ptr) { Live(t, i) && x in t.sets[i].ptrs }

  /** Instructions in different live sets do not interfere. */
  ghost predicate Quiet(o: Oracle, t: Tracker) {
    forall i: SetId, j: SetId, u: Inst, v: Inst {:trigger Lists(t, i, u), Lists(t, j, v)} ::
      Lists(t, i, u) && Lists(t, j, v) && i != j ==> !o.interferes(u, v)
  }

  /** No instruction touches a pointer of another live set, as if `p` had size `s0`. */
  ghost predicate Untouched(o: Oracle, t: Tracker, p: Ptr, s0: nat) {
    forall i: SetId, j: SetId, u: Inst, x: Ptr {:trigger Lists(t, i, u), Has(t, j, x)} ::
      Lists(t, i, u) && Has(t, j, x) && i != j ==> !o.touches(u, x, SizeAs(t, p, s0, x))
  }

  /** Pointers that must alias are touched alike. */
  ghost predicate TouchedAlike(o: Oracle) {
    forall p: Ptr, s: nat, q: Ptr, t: nat, u: Inst, v: nat {:trigger o.alias(p, s, q, t), o.touches(u, p, v)} ::
      o.alias(p, s, q, t) == MustAlias ==> o.touches(u, p, v) == o.touches(u, q, v)
  }

  /** A pointer that aliases nothing is not touched for being larger. */
  ghost predicate NowhereStays(o: Oracle) {
    forall p: Ptr, u: Inst, s: nat, v: nat {:trigger o.touches(u, p, s), o.touches(u, p, v)} ::
      Nowhere(o, p) && o.accesses(u) && s <= v && o.touches(u, p, v) ==> o.touches(u, p, s)
  }

  ghost predicate TouchesLawfully(o: Oracle) { TouchedAlike(o) && NowhereStays(o) }

  /** Only what accesses memory is listed. */
  ghost predicate Accessing(o: Oracle, t: Tracker) {
    forall i: SetId, u: Inst {:trigger Lists(t, i, u)} :: Lists(t, i, u) ==> o.accesses(u)
  }

  // ------------------------------------------------------------------------ merging

  /** Members of set `i` are in set `j` afterwards: it is the same, or `i` went into `j`. */
  predicate Into(t': Tracker, i: SetId, j: SetId, f: Option<SetId>) { i == j || (f == Some(j) && !Live(t', i)) }

  predicate Source(t: Tracker, t': Tracker, i: SetId, j: SetId, f: Option<SetId>, u: Inst) {
    Lists(t, i, u) && Into(t', i, j, f)
  }

  predicate PtrSource(t: Tracker, t': Tracker, i: SetId, j: SetId, f: Option<SetId>, x: Ptr) {
    Has(t, i, x) && Into(t', i, j, f)
  }

  /** Sets have gone into set `f`, with all their members, and nothing else has happened. */
  ghost predicate Gathered(t: Tracker, t': Tracker, f: Option<SetId>) {
    && (forall j: SetId, u: Inst {:trigger Lists(t', j, u)} :: Lists(t', j, u) ==>
         exists i :: Source(t, t', i, j, f, u))
    && (forall j: SetId, x: Ptr {:trigger Has(t', j, x)} :: Has(t', j, x) ==> exists i :: PtrSource(t, t', i, j, f, x))
    && (forall i: SetId, u: Inst {:trigger Lists(t, i, u)} :: Lists(t, i, u) ==> exists j :: Lists(t', j, u))
    && (forall i: SetId {:trigger Live(t', i)} :: Live(t', i) ==> Live(t, i))
    && (f.Some? ==> Live(t', f.value))
  }

  lemma NothingGathered(t: Tracker, f: Option<SetId>)
    requires f.Some? ==> Live(t, f.value)
    ensures Gathered(t, t, f)
  {
    forall j: SetId, u: Inst | Lists(t, j, u) ensures exists i :: Source(t, t, i, j, f, u) {
      assert Source(t, t, j, j, f, u);
    }
    forall j: SetId, x: Ptr | Has(t, j, x) ensures exists i :: PtrSource(t, t, i, j, f, x) {
      assert PtrSource(t, t, j, j, f, x);
    }
  }

  lemma MergeGathers(o: Oracle, t: Tracker, d: SetId, s: SetId, t': Tracker)
    requires Live(t, d) && Live(t, s) && d != s && MergeEffect(o, t, d, s, t')
    ensures Gathered(t, t', Some(d))
  {
    forall j: SetId, u: Inst | Lists(t', j, u) ensures exists i :: Source(t, t', i, j, Some(d), u) {
      if j != d {
        assert SameLive(t, t', j);
        assert Source(t, t', j, j, Some(d), u);
      } else {
        assert Source(t, t', if u in t.sets[d].unknown then d else s, j, Some(d), u);
      }
    }
    forall j: SetId, x: Ptr | Has(t', j, x) ensures exists i :: PtrSource(t, t', i, j, Some(d), x) {
      if j != d {
        assert SameLive(t, t', j);
        assert PtrSource(t, t', j, j, Some(d), x);
      } else {
        assert PtrSource(t, t', if x in t.sets[d].ptrs then d else s, j, Some(d), x);
      }
    }
    forall i: SetId, u: Inst | Lists(t, i, u) ensures exists j :: Lists(t', j, u) {
      if i == d || i == s {
        assert Lists(t', d, u);
      } else {
        assert SameLive(t, t', i);
        assert Live(t', i) && Lists(t', i, u);
      }
    }
    forall i: SetId | Live(t', i) ensures Live(t, i) {
      if i != d { assert SameLive(t, t', i); }
    }
  }

  lemma GatheredTwice(t: Tracker, t1: Tracker, t': Tracker, f: SetId)
    requires Gathered(t, t1, Some(f)) && Gathered(t1, t', Some(f))
    ensures Gathered(t, t', Some(f))
  {
    forall j: SetId, u: Inst | Lists(t', j, u) ensures exists i :: Source(t, t', i, j, Some(f), u) {
      var k :| Source(t1, t', k, j, Some(f), u);
      var i :| Source(t, t1, i, k, Some(f), u);
      assert Source(t, t', i, j, Some(f), u);
    }
    forall j: SetId, x: Ptr | Has(t', j, x) ensures exists i :: PtrSource(t, t', i, j, Some(f), x) {
      var k :| PtrSource(t1, t', k, j, Some(f), x);
      var i :| PtrSource(t, t1, i, k, Some(f), x);
      assert PtrSource(t, t', i, j, Some(f), x);
    }
    forall i: SetId, u: Inst | Lists(t, i, u) ensures exists j :: Lists(t', j, u) {
      var k :| Lists(t1, k, u);
    }
  }

  lemma {:induction false} HitsGather(o: Oracle, t: Tracker, R: Roots, q: Query, i: SetId, n: SetId,
                                      found: Option<SetId>)
    requires Good(t, R) && (found.Some? ==> Live(t, found.value) && found.value < i)
    ensures Gathered(t, MergeHits(o, t, q, i, n, found).0, MergeHits(o, t, q, i, n, found).1)
    decreases n - i, 1
  {
    if i >= n {
      NothingGathered(t, found);
    } else if !Hits(o, t, i, q) || found.None? {
      HitsGather(o, t, R, q, i + 1, n, if Hits(o, t, i, q) then Some(i) else found);
    } else {
      var t1 := MergeSetIn(o, t, found.value, i);
      OneHit(o, t, R, i, found.value, t1);
      HitGathers(o, t, q, i, n, found.value, t1, Rerouted(R, i, found.value));
    }
  }

  lemma OneHit(o: Oracle, t: Tracker, R: Roots, i: SetId, f: SetId, t1: Tracker)
    requires Good(t, R) && t.any.None? && Live(t, f) && Live(t, i) && f < i && t1 == MergeSetIn(o, t, f, i)
    ensures Good(t1, Rerouted(R, i, f)) && Live(t1, f) && Gathered(t, t1, Some(f))
  {
    HitMerged(o, t, R, f, i);
    MergeKeeps(o, t, R, f, i);
    MergeGathers(o, t, f, i, t1);
  }

  lemma {:induction false} HitGathers(o: Oracle, t: Tracker, q: Query, i: SetId, n: SetId, f: SetId, t1: Tracker,
                                      R1: Roots)
    requires i < n && Hits(o, t, i, q) && f in t.sets && f < i && t1 == MergeSetIn(o, t, f, i)
    requires Good(t1, R1) && Live(t1, f) && Gathered(t, t1, Some(f))
    ensures Gathered(t, MergeHits(o, t, q, i, n, Some(f)).0, MergeHits(o, t, q, i, n, Some(f)).1)
    decreases n - i, 0
  {
    var r := MergeHits(o, t1, q, i + 1, n, Some(f));
    assert r.1 == Some(f) by { var R' := MergeHitsKeeps(o, t1, R1, q, i + 1, n, Some(f)); }
    HitsGather(o, t1, R1, q, i + 1, n, Some(f));
    GatheredTwice(t, t1, r.0, f);
    assert MergeHits(o, t, q, i, n, Some(f)) == r;
  }

  /** Members of two sets come from two sets. */
  lemma GatheredQuiet(o: Oracle, t: Tracker, t': Tracker, f: Option<SetId>)
    requires Quiet(o, t) && Gathered(t, t', f)
    ensures Quiet(o, t')
  {
    forall a: SetId, b: SetId, u: Inst, v: Inst | Lists(t', a, u) && Lists(t', b, v) && a != b
      ensures !o.interferes(u, v)
    {
      var i :| Source(t, t', i, a, f, u);
      var j :| Source(t, t', j, b, f, v);
      assert Lists(t, i, u) && Lists(t, j, v) && i != j;
    }
  }

  lemma GatheredUntouched(o: Oracle, t: Tracker, t': Tracker, f: Option<SetId>, p: Ptr, s0: nat)
    requires Untouched(o, t, p, s0) && Gathered(t, t', f) && t'.recs == t.recs
    ensures Untouched(o, t', p, s0)
  {
    forall a: SetId, b: SetId, u: Inst, x: Ptr | Lists(t', a, u) && Has(t', b, x) && a != b
      ensures !o.touches(u, x, SizeAs(t', p, s0, x))
    {
      var i :| Source(t, t', i, a, f, u);
      var j :| PtrSource(t, t', j, b, f, x);
      assert Lists(t, i, u) && Has(t, j, x) && i != j;
    }
  }

  lemma UntouchedFor(o: Oracle, t: Tracker, p: Ptr, q: Ptr)
    requires Untouched(o, t, p, SizeOf(t, p))
    ensures Untouched(o, t, q, SizeOf(t, q))
  {
    forall i: SetId, j: SetId, u: Inst, x: Ptr | Lists(t, i, u) && Has(t, j, x) && i != j
      ensures !o.touches(u, x, SizeAs(t, q, SizeOf(t, q), x))
    {
      assert !o.touches(u, x, SizeAs(t, p, SizeOf(t, p), x));
    }
  }

  // ------------------------------------------------------------- adding an instruction

  /** Nothing outside set `f` has to do with the instruction. */
  ghost predicate InstClear(o: Oracle, t: Tracker, f: Option<SetId>, u: Inst) {
    && (forall j: SetId, v: Inst {:trigger Lists(t, j, v)} ::
         Lists(t, j, v) && f != Some(j) ==> !o.interferes(u, v) && !o.interferes(v, u))
    && (forall j: SetId, x: Ptr {:trigger Has(t, j, x)} ::
         Has(t, j, x) && f != Some(j) ==> !o.touches(u, x, SizeOf(t, x)))
  }

  lemma MissedByInst(o: Oracle, t: Tracker, j: SetId, u: Inst)
    requires Live(t, j) && !AliasesUnknownInst(o, t, j, u)
    ensures forall v :: v in t.sets[j].unknown ==> !o.interferes(u, v) && !o.interferes(v, u)
    ensures forall x :: x in t.sets[j].ptrs ==> !o.touches(u, x, SizeOf(t, x))
  {
    var s := t.sets[j];
    forall v | v in s.unknown ensures !o.interferes(u, v) && !o.interferes(v, u) {
      var k :| 0 <= k < |s.unknown| && s.unknown[k] == v;
    }
    forall x | x in s.ptrs ensures !o.touches(u, x, SizeOf(t, x)) {
      var k :| 0 <= k < |s.ptrs| && s.ptrs[k] == x;
    }
  }

  lemma HitsLeaveInstClear(o: Oracle, t: Tracker, R: Roots, u: Inst)
    requires Good(t, R)
    ensures var r := MergeHits(o, t, Instruction(u), 0, t.next, None); InstClear(o, r.0, r.1, u)
  {
    var R' := MergeHitsKeeps(o, t, R, Instruction(u), 0, t.next, None);
    var r := MergeHits(o, t, Instruction(u), 0, t.next, None);
    forall j: SetId | Live(r.0, j) && r.1 != Some(j)
      ensures forall v :: v in r.0.sets[j].unknown ==> !o.interferes(u, v) && !o.interferes(v, u)
      ensures forall x :: x in r.0.sets[j].ptrs ==> !o.touches(u, x, SizeOf(r.0, x))
    {
      assert SameLive(t, r.0, j);
      assert SetOK(t, R, j) && !Hits(o, t, j, Instruction(u));
      MissedByInst(o, t, j, u);
    }
  }

  /** Set `i` gets the instruction. */
  ghost predicate Joins(t: Tracker, t': Tracker, i: SetId, u: Inst) {
    && t'.recs == t.recs
    && (forall j: SetId, v: Inst {:trigger Lists(t', j, v)} ::
         Lists(t', j, v) <==> Lists(t, j, v) || (j == i && v == u))
    && (forall j: SetId, x: Ptr {:trigger Has(t', j, x)} :: Has(t', j, x) <==> Has(t, j, x))
  }

  lemma JoinsQuiet(o: Oracle, t: Tracker, t': Tracker, i: SetId, u: Inst)
    requires Quiet(o, t) && InstClear(o, t, Some(i), u) && Joins(t, t', i, u)
    ensures Quiet(o, t')
  {
    forall a: SetId, b: SetId, v: Inst, y: Inst | Lists(t', a, v) && Lists(t', b, y) && a != b
      ensures !o.interferes(v, y)
    {
      assert a != i || v != u ==> Lists(t, a, v);
      assert b != i || y != u ==> Lists(t, b, y);
    }
  }

  lemma JoinsApart(o: Oracle, t: Tracker, t': Tracker, i: SetId, u: Inst, p: Ptr, s0: nat)
    requires Quiet(o, t) && Untouched(o, t, p, s0) && s0 == SizeOf(t, p) && InstClear(o, t, Some(i), u)
    requires Joins(t, t', i, u)
    ensures Quiet(o, t') && Untouched(o, t', p, s0)
  {
    JoinsQuiet(o, t, t', i, u);
    forall a: SetId, b: SetId, v: Inst, x: Ptr | Lists(t', a, v) && Has(t', b, x) && a != b
      ensures !o.touches(v, x, SizeAs(t', p, s0, x))
    {
      assert Has(t, b, x);
      assert a != i || v != u ==> Lists(t, a, v);
    }
  }

  /** Where an instruction that accesses memory goes. */
  lemma AddUnknownJoins(o: Oracle, t: Tracker, R: Roots, u: Inst) returns (t1: Tracker, i: SetId, f: Option<SetId>)
    requires Good(t, R) && o.accesses(u)
    ensures Gathered(t, t1, f) && t1.recs == t.recs && Joins(t1, AddUnknown(o, t, u), i, u)
    ensures InstClear(o, t1, Some(i), u)
  {
    var r := MergeHits(o, t, Instruction(u), 0, t.next, None);
    var R' := MergeHitsKeeps(o, t, R, Instruction(u), 0, t.next, None);
    t1, f := r.0, r.1;
    HitsGather(o, t, R, Instruction(u), 0, t.next, None);
    HitsLeaveInstClear(o, t, R, u);
    if f.Some? {
      i := f.value;
    } else {
      i := t1.next;
      assert i !in R';
    }
  }

  lemma AddUnknownApart(o: Oracle, t: Tracker, R: Roots, u: Inst, p: Ptr)
    requires Good(t, R) && Quiet(o, t) && Untouched(o, t, p, SizeOf(t, p))
    ensures Quiet(o, AddUnknown(o, t, u)) && Untouched(o, AddUnknown(o, t, u), p, SizeOf(AddUnknown(o, t, u), p))
  {
    if o.accesses(u) {
      var t1, i, f := AddUnknownJoins(o, t, R, u);
      GatheredQuiet(o, t, t1, f);
      GatheredUntouched(o, t, t1, f, p, SizeOf(t, p));
      JoinsApart(o, t1, AddUnknown(o, t, u), i, u, p, SizeOf(t, p));
    }
  }

  lemma AddUnknownQuiet(o: Oracle, t: Tracker, R: Roots, u: Inst)
    requires Good(t, R) && Quiet(o, t)
    ensures Quiet(o, AddUnknown(o, t, u))
  {
    if o.accesses(u) {
      var t1, i, f := AddUnknownJoins(o, t, R, u);
      GatheredQuiet(o, t, t1, f);
      JoinsQuiet(o, t1, AddUnknown(o, t, u), i, u);
    }
  }

  // ------------------------------------------------------------------- adding a pointer

  /** No instruction outside set `f` touches the location. */
  ghost predicate PtrClear(o: Oracle, t: Tracker, f: Option<SetId>, p: Ptr, size: nat) {
    forall j: SetId, u: Inst {:trigger Lists(t, j, u)} :: Lists(t, j, u) && f != Some(j) ==> !o.touches(u, p, size)
  }

  lemma HitsLeavePtrClear(o: Oracle, t: Tracker, R: Roots, p: Ptr, size: nat)
    requires Good(t, R)
    ensures var r := MergeHits(o, t, Location(p, size), 0, t.next, None); PtrClear(o, r.0, r.1, p, size)
  {
    var R' := MergeHitsKeeps(o, t, R, Location(p, size), 0, t.next, None);
    var r := MergeHits(o, t, Location(p, size), 0, t.next, None);
    forall j: SetId, u: Inst | Lists(r.0, j, u) && r.1 != Some(j) ensures !o.touches(u, p, size) {
      assert SameLive(t, r.0, j);
      assert SetOK(t, R, j) && !Hits(o, t, j, Location(p, size));
      var s := t.sets[j];
      var k :| 0 <= k < |s.unknown| && s.unknown[k] == u;
    }
  }

  /** Set `i`, which has everything that touches the pointer, gets it. */
  lemma PointerJoins(o: Oracle, t: Tracker, R: Roots, i: SetId, p: Ptr, size: nat)
    requires TouchedAlike(o) && LinkedBut(t, R, i) && p !in t.recs && Quiet(o, t) && Untouched(o, t, p, 0)
    requires PtrClear(o, t, Some(i), p, size)
    ensures var t' := AddToSet(o, t, i, p, size); Quiet(o, t') && Untouched(o, t', p, size)
  {
    var t' := AddToSet(o, t, i, p, size);
    SameListed(o, t, i, p, size);
    assert Quiet(o, t');
    forall a: SetId, b: SetId, u: Inst, x: Ptr | Lists(t', a, u) && Has(t', b, x) && a != b
      ensures !o.touches(u, x, SizeAs(t', p, size, x))
    {
      assert Lists(t, a, u);
      PointerTouched(o, t, R, i, p, size, a, u, b, x);
    }
  }

  lemma SameListed(o: Oracle, t: Tracker, i: SetId, p: Ptr, size: nat)
    requires i in t.sets
    ensures forall j: SetId, u: Inst {:trigger Lists(AddToSet(o, t, i, p, size), j, u)} ::
      Lists(AddToSet(o, t, i, p, size), j, u) <==> Lists(t, j, u)
  {
  }

  lemma PointerTouched(o: Oracle, t: Tracker, R: Roots, i: SetId, p: Ptr, size: nat, a: SetId, u: Inst, b: SetId,
                       x: Ptr)
    requires TouchedAlike(o) && LinkedBut(t, R, i) && p !in t.recs && Untouched(o, t, p, 0)
    requires PtrClear(o, t, Some(i), p, size) && Lists(t, a, u) && a != b && Has(AddToSet(o, t, i, p, size), b, x)
    ensures !o.touches(u, x, SizeAs(AddToSet(o, t, i, p, size), p, size, x))
  {
    var s := t.sets[i];
    if b != i {
      assert Has(t, b, x);
      OthersSize(o, t, R, i, p, size, b, x);
    } else if x != p {
      assert x in s.ptrs && Has(t, i, x);
      assert ListOK(t, R, i);
      assert !o.touches(u, x, SizeAs(t, p, 0, x));
      if SizeOf(AddToSet(o, t, i, p, size), x) != SizeOf(t, x) {
        assert o.alias(x, SizeOf(t, x), p, size) == MustAlias;
        assert o.touches(u, x, size) == o.touches(u, p, size);
      }
    }
  }

  lemma NewPointerApart(o: Oracle, t: Tracker, R: Roots, p: Ptr, size: nat)
    requires TouchedAlike(o) && Good(t, R) && t.any.None? && p !in t.recs
    requires Quiet(o, t) && Untouched(o, t, p, SizeOf(t, p))
    ensures var t' := SetForPointer(o, t, p, size); Quiet(o, t') && Untouched(o, t', p, size)
  {
    var R' := MergeHitsKeeps(o, t, R, Location(p, size), 0, t.next, None);
    var r := MergeHits(o, t, Location(p, size), 0, t.next, None);
    HitsGather(o, t, R, Location(p, size), 0, t.next, None);
    HitsLeavePtrClear(o, t, R, p, size);
    GatheredQuiet(o, t, r.0, r.1);
    GatheredUntouched(o, t, r.0, r.1, p, 0);
    if r.1.Some? {
      LiveIsBut(r.0, R', r.1.value);
      PointerJoins(o, r.0, R', r.1.value, p, size);
    } else {
      NewSetBut(r.0, R');
      EmptySetApart(o, r.0, R', p, size);
      PointerJoins(o, NewSet(r.0), R'[r.0.next := r.0.next], r.0.next, p, size);
    }
  }

  lemma EmptySetApart(o: Oracle, t: Tracker, R: Roots, p: Ptr, size: nat)
    requires Good(t, R) && Quiet(o, t) && Untouched(o, t, p, 0) && PtrClear(o, t, None, p, size)
    ensures var t' := NewSet(t); Quiet(o, t') && Untouched(o, t', p, 0) && PtrClear(o, t', Some(t.next), p, size)
  {
    assert t.next !in R;
    assert forall j: SetId, u: Inst {:trigger Lists(NewSet(t), j, u)} :: Lists(NewSet(t), j, u) ==> Lists(t, j, u);
    assert forall j: SetId, x: Ptr {:trigger Has(NewSet(t), j, x)} :: Has(NewSet(t), j, x) ==> Has(t, j, x);
  }

  /** A pointer that grows is in the set of all that its new size meets, or is nowhere. */
  lemma GrownUntouched(o: Oracle, t: Tracker, R: Roots, p: Ptr, s0: nat, size: nat)
    requires Lawful(o) && NowhereStays(o) && Good(t, R) && Loose(o, t, p, s0) && Untouched(o, t, p, s0)
    requires Accessing(o, t) && SizeOf(t, p) == size && size > 0 && s0 <= size
    requires FirstIsLargest(o, MergeHits(o, t, Location(p, size), 0, t.next, None).0)
    ensures Untouched(o, MergeHits(o, t, Location(p, size), 0, t.next, None).0, p, size)
  {
    var R' := MergeHitsKeeps(o, t, R, Location(p, size), 0, t.next, None);
    var r := MergeHits(o, t, Location(p, size), 0, t.next, None);
    HitsGather(o, t, R, Location(p, size), 0, t.next, None);
    HitsLeavePtrClear(o, t, R, p, size);
    GatheredUntouched(o, t, r.0, r.1, p, s0);
    forall i: SetId, j: SetId, u: Inst, x: Ptr | Lists(r.0, i, u) && Has(r.0, j, x) && i != j
      ensures !o.touches(u, x, SizeAs(r.0, p, size, x))
    {
      assert !o.touches(u, x, SizeAs(r.0, p, s0, x));
      var k :| Source(t, r.0, k, i, r.1, u);
      if x == p && !Nowhere(o, p) {
        GrownIsFound(o, t, R, p, s0, size, j);
      }
    }
  }

  lemma KnownPointerApart(o: Oracle, t: Tracker, R: Roots, p: Ptr, size: nat)
    requires Lawful(o) && NowhereStays(o) && Good(t, R) && t.any.None? && p in t.recs && Accessing(o, t)
    requires Parted(o, t, p, SizeOf(t, p)) && Quiet(o, t) && Untouched(o, t, p, SizeOf(t, p))
    requires Grows(t, p, size) ==> FirstIsLargest(o, SetForPointer(o, t, p, size))
    ensures var t' := SetForPointer(o, t, p, size); Quiet(o, t') && Untouched(o, t', p, SizeOf(t', p))
  {
    var t1 := Grow(t, p, size);
    GrowKeeps(t, R, p, size);
    if size > t.recs[p].size {
      var R' := MergeHitsKeeps(o, t1, R, Location(p, size), 0, t.next, None);
      var t2 := MergeHits(o, t1, Location(p, size), 0, t.next, None).0;
      ResolveKeeps(t2, R', p);
      LookedUpLargest(o, t2, Resolve(t2, p).0);
      GrowLoose(o, t, p, size);
      GrownMembers(o, t, R, p, size);
      GrownUntouched(o, t1, R, p, t.recs[p].size, size);
      LookedUpApart(o, t2, Resolve(t2, p).0, p, size);
    } else {
      assert t1 == t;
      ResolveKeeps(t, R, p);
      LookedUpApart(o, t, Resolve(t, p).0, p, SizeOf(t, p));
    }
  }

  lemma GrownMembers(o: Oracle, t: Tracker, R: Roots, p: Ptr, size: nat)
    requires Good(t, R) && p in t.recs && Quiet(o, t) && Untouched(o, t, p, t.recs[p].size)
    ensures var t1 := Grow(t, p, size);
      && Untouched(o, t1, p, t.recs[p].size) && (Accessing(o, t) ==> Accessing(o, t1))
      && Quiet(o, MergeHits(o, t1, Location(p, size), 0, t.next, None).0)
  {
    var t1 := Grow(t, p, size);
    GrowKeeps(t, R, p, size);
    assert forall j: SetId, u: Inst {:trigger Lists(t1, j, u)} :: Lists(t1, j, u) <==> Lists(t, j, u);
    assert forall j: SetId, x: Ptr {:trigger Has(t1, j, x)} :: Has(t1, j, x) <==> Has(t, j, x);
    HitsGather(o, t1, R, Location(p, size), 0, t.next, None);
    var r := MergeHits(o, t1, Location(p, size), 0, t.next, None);
    GatheredQuiet(o, t1, r.0, r.1);
  }

  lemma LookedUpApart(o: Oracle, t: Tracker, t': Tracker, p: Ptr, s0: nat)
    requires Quiet(o, t) && Untouched(o, t, p, s0) && OnlyLookedUp(t, t')
    ensures Quiet(o, t') && Untouched(o, t', p, s0)
  {
    forall j: SetId, u: Inst | Lists(t', j, u) ensures Lists(t, j, u) {
      assert SameLive(t, t', j);
    }
    forall j: SetId, x: Ptr | Has(t', j, x) ensures Has(t, j, x) {
      assert SameLive(t, t', j);
    }
    forall x ensures SizeOf(t', x) == SizeOf(t, x) {
    }
  }

  lemma OneSetApart(o: Oracle, t: Tracker, R: Roots, p: Ptr)
    requires Good(t, R) && t.any.Some?
    ensures Quiet(o, t) && Untouched(o, t, p, SizeOf(t, p))
  {
  }

  lemma AddPointerApart(o: Oracle, t: Tracker, R: Roots, p: Ptr, size: nat, threshold: nat)
    requires Lawful(o) && TouchesLawfully(o) && Good(t, R) && Parted(o, t, p, SizeOf(t, p)) && Accessing(o, t)
    requires Quiet(o, t) && Untouched(o, t, p, SizeOf(t, p))
    requires Grows(t, p, size) ==> FirstIsLargest(o, AddPointer(o, t, p, size, threshold))
    ensures var t' := AddPointer(o, t, p, size, threshold); Quiet(o, t') && Untouched(o, t', p, SizeOf(t', p))
  {
    var t1 := SetForPointer(o, t, p, size);
    var R1 := SetForPointerKeeps(o, t, R, p, size);
    if t1.any.None? && t1.total > threshold {
      var R' := MergeAllKeeps(o, t1, R1);
      OneSetApart(o, MergeAll(o, t1), R', p);
    } else if t.any.Some? {
      OneSetApart(o, t1, R1, p);
    } else if p in t.recs {
      KnownPointerApart(o, t, R, p, size);
    } else {
      NewPointerApart(o, t, R, p, size);
      NewPointerSize(o, t, R, p, size);
    }
  }

  // ------------------------------------------------------------------ what is listed where

  ghost predicate Listed(t: Tracker, u: Inst) { exists i :: Lists(t, i, u) }

  /** No two live sets list the instruction. */
  ghost predicate Single(t: Tracker, u: Inst) {
    forall i, j {:trigger Lists(t, i, u), Lists(t, j, u)} :: Lists(t, i, u) && Lists(t, j, u) ==> i == j
  }

  ghost predicate SameLists(t: Tracker, t': Tracker) {
    forall i: SetId, u: Inst {:trigger Lists(t', i, u)} {:trigger Lists(t, i, u)} :: Lists(t', i, u) <==> Lists(t, i, u)
  }

  /** Instructions are where they were, but for sets that became one. */
  ghost predicate OnlyGathered(t: Tracker, t': Tracker) {
    exists a: Tracker, b: Tracker, f :: SameLists(t, a) && Gathered(a, b, f) && SameLists(b, t')
  }

  lemma OnlyGatheredKeeps(o: Oracle, t: Tracker, t': Tracker, u: Inst)
    requires OnlyGathered(t, t')
    ensures (Listed(t', u) <==> Listed(t, u)) && (Single(t, u) ==> Single(t', u)) && (Quiet(o, t) ==> Quiet(o, t'))
  {
    var a: Tracker, b: Tracker, f :| SameLists(t, a) && Gathered(a, b, f) && SameLists(b, t');
    SameListsKeep(o, t, a, u);
    GatheredKeeps(o, a, b, f, u);
    SameListsKeep(o, b, t', u);
  }

  lemma SameListsKeep(o: Oracle, t: Tracker, t': Tracker, u: Inst)
    requires SameLists(t, t')
    ensures (Listed(t', u) <==> Listed(t, u)) && (Single(t, u) ==> Single(t', u)) && (Quiet(o, t) ==> Quiet(o, t'))
  {
    if Listed(t', u) {
      var i :| Lists(t', i, u);
    }
    if Listed(t, u) {
      var i :| Lists(t, i, u);
      assert Lists(t', i, u);
    }
  }

  lemma GatheredKeeps(o: Oracle, t: Tracker, t': Tracker, f: Option<SetId>, u: Inst)
    requires Gathered(t, t', f)
    ensures (Listed(t', u) <==> Listed(t, u)) && (Single(t, u) ==> Single(t', u)) && (Quiet(o, t) ==> Quiet(o, t'))
  {
    if Quiet(o, t) { GatheredQuiet(o, t, t', f); }
    if Listed(t', u) {
      var j :| Lists(t', j, u);
      var i :| Source(t, t', i, j, f, u);
    }
    if Single(t, u) {
      forall a, b | Lists(t', a, u) && Lists(t', b, u) ensures a == b {
        var i :| Source(t, t', i, a, f, u);
        var j :| Source(t, t', j, b, f, u);
        assert Lists(t, i, u) && Lists(t, j, u);
      }
    }
  }

  lemma SetForPointerGathers(o: Oracle, t: Tracker, R: Roots, p: Ptr, size: nat)
    requires Good(t, R)
    ensures OnlyGathered(t, SetForPointer(o, t, p, size))
  {
    var t' := SetForPointer(o, t, p, size);
    if t.any.None? && p in t.recs {
      KnownGathers(o, t, R, p, size);
    } else if t.any.None? {
      HitsGather(o, t, R, Location(p, size), 0, t.next, None);
      var R' := MergeHitsKeeps(o, t, R, Location(p, size), 0, t.next, None);
      var r := MergeHits(o, t, Location(p, size), 0, t.next, None);
      assert r.0.next !in R';
      assert SameLists(t, t) && SameLists(r.0, t');
    } else {
      NothingGathered(t, None);
      assert SameLists(t, t) && SameLists(t, t');
    }
  }

  lemma KnownGathers(o: Oracle, t: Tracker, R: Roots, p: Ptr, size: nat)
    requires Good(t, R) && t.any.None? && p in t.recs
    ensures OnlyGathered(t, SetForPointer(o, t, p, size))
  {
    var t1, t' := Grow(t, p, size), SetForPointer(o, t, p, size);
    GrowKeeps(t, R, p, size);
    assert SameLists(t, t1);
    var t2, f, R' := t1, None, R;
    if size > t.recs[p].size {
      R' := MergeHitsKeeps(o, t1, R, Location(p, size), 0, t.next, None);
      HitsGather(o, t1, R, Location(p, size), 0, t.next, None);
      var r := MergeHits(o, t1, Location(p, size), 0, t.next, None);
      t2, f := r.0, r.1;
    } else {
      NothingGathered(t1, None);
    }
    ResolveKeeps(t2, R', p);
    forall i: SetId, u: Inst ensures Lists(t', i, u) <==> Lists(t2, i, u) {
      assert SameLive(t2, t', i);
    }
    assert SameLists(t2, t');
  }

  /** Saturation loses no instruction. */
  lemma {:induction false} AbsorbLists(o: Oracle, t: Tracker, R: Roots, i: SetId, a: SetId, u: Inst)
    requires Absorbing(t, R, i, a)
    ensures Listed(AbsorbFrom(o, t, i, a), u) <==> Listed(t, u)
    decreases a - i
  {
    if i < a {
      if i !in t.sets {
        AbsorbLists(o, t, R, i + 1, a, u);
      } else {
        AbsorbOneLists(o, t, R, i, a, u);
        var R1 := AbsorbOne(o, t, R, i, a);
        AbsorbLists(o, Absorb(o, t, i, a), R1, i + 1, a, u);
      }
    }
  }

  lemma AbsorbOneLists(o: Oracle, t: Tracker, R: Roots, i: SetId, a: SetId, u: Inst)
    requires Absorbing(t, R, i, a) && i < a && i in t.sets
    ensures a in t.sets && (Listed(Absorb(o, t, i, a), u) <==> Listed(t, u))
  {
    if Live(t, i) {
      AbsorbLive(o, t, R, i, a);
      assert SetOK(t, R, i);
      MergeKeeps(o, t, R, a, i);
      MergeGathers(o, t, a, i, MergeSetIn(o, t, a, i));
      GatheredKeeps(o, t, MergeSetIn(o, t, a, i), Some(a), u);
    } else {
      AbsorbForwarding(o, t, R, i, a);
      DroppedLists(t, Redirected(t, i, a), Absorb(o, t, i, a));
      SameListsKeep(o, t, Absorb(o, t, i, a), u);
    }
  }

  lemma DroppedLists(t: Tracker, t1: Tracker, t': Tracker)
    requires SameLists(t, t1) && OnlyDropped(t1, t')
    ensures SameLists(t, t')
  {
    forall i: SetId, u: Inst ensures Lists(t', i, u) <==> Lists(t, i, u) {
      assert Lists(t1, i, u) <==> Lists(t, i, u);
    }
  }

  lemma MergeAllLists(o: Oracle, t: Tracker, R: Roots, u: Inst)
    requires Good(t, R) && t.any.None?
    ensures Listed(MergeAll(o, t), u) <==> Listed(t, u)
  {
    SaturatingAbsorbs(t, R);
    AbsorbLists(o, Saturating(t), R[t.next := t.next], 0, t.next, u);
    assert t.next !in R;
    assert SameLists(t, Saturating(t));
    SameListsKeep(o, t, Saturating(t), u);
  }

  lemma AddPointerLists(o: Oracle, t: Tracker, R: Roots, p: Ptr, size: nat, threshold: nat, u: Inst)
    requires Good(t, R)
    ensures var t' := AddPointer(o, t, p, size, threshold);
      (Listed(t', u) <==> Listed(t, u)) && (Single(t, u) ==> Single(t', u)) && (Quiet(o, t) ==> Quiet(o, t'))
  {
    var t1 := SetForPointer(o, t, p, size);
    var R1 := SetForPointerKeeps(o, t, R, p, size);
    SetForPointerGathers(o, t, R, p, size);
    OnlyGatheredKeeps(o, t, t1, u);
    if t1.any.None? && t1.total > threshold {
      MergeAllLists(o, t1, R1, u);
      var R' := MergeAllKeeps(o, t1, R1);
      OneSetApart(o, MergeAll(o, t1), R', p);
    }
  }

  lemma AddUnknownLists(o: Oracle, t: Tracker, R: Roots, v: Inst, u: Inst)
    requires Good(t, R)
    ensures var t' := AddUnknown(o, t, v);
      && (Listed(t', u) <==> Listed(t, u) || (u == v && o.accesses(v)))
      && (Single(t, u) && (u == v ==> !Listed(t, u)) ==> Single(t', u))
  {
    if o.accesses(v) {
      var t1, i, f := AddUnknownJoins(o, t, R, v);
      GatheredKeeps(o, t, t1, f, u);
      var t' := AddUnknown(o, t, v);
      assert Lists(t', i, v);
      if Listed(t1, u) {
        var j :| Lists(t1, j, u);
        assert Lists(t', j, u);
      }
    }
  }

  // ------------------------------------------------------------------------ whole runs

  /** What alias sets are for, with instructions: what is in different live sets has nothing to do
      with each other. */
  ghost predicate InstsApart(o: Oracle, t: Tracker) {
    forall i: SetId, j: SetId, u: Inst {:trigger Lists(t, i, u), Live(t, j)} ::
      Lists(t, i, u) && Live(t, j) && i != j ==>
        && (forall v :: v in t.sets[j].unknown ==> !o.interferes(u, v) && !o.interferes(v, u))
        && (forall x :: x in t.sets[j].ptrs ==> !o.touches(u, x, SizeOf(t, x)))
  }

  ghost predicate AddedInst(ops: seq<Op>, u: Inst) { exists k :: 0 <= k < |ops| && ops[k] == Unknown(u) }

  /** The instruction is added at most once. */
  ghost predicate AddedOnce(ops: seq<Op>, u: Inst) {
    forall j, k :: 0 <= j < k < |ops| && ops[j] == Unknown(u) ==> ops[k] != Unknown(u)
  }

  /** An instruction is in some live set exactly if it was added and accesses memory; added once,
      it is in one only. */
  lemma {:induction false} InstIsListed(o: Oracle, threshold: nat, ops: seq<Op>, u: Inst)
    ensures var t := Run(o, threshold, ops);
      (Listed(t, u) <==> o.accesses(u) && AddedInst(ops, u)) && (AddedOnce(ops, u) ==> Single(t, u))
    decreases |ops|
  {
    if ops != [] {
      var before, op := ops[..|ops| - 1], ops[|ops| - 1];
      InstIsListed(o, threshold, before, u);
      var R := RunKeeps(o, threshold, before);
      match op {
        case Pointer(p, size) => AddPointerLists(o, Run(o, threshold, before), R, p, size, threshold, u);
        case Unknown(v) => AddUnknownLists(o, Run(o, threshold, before), R, v, u);
      }
      if AddedInst(before, u) {
        var k :| 0 <= k < |before| && before[k] == Unknown(u);
        assert ops[k] == Unknown(u);
      }
      assert AddedInst(ops, u) <==> AddedInst(before, u) || op == Unknown(u);
    }
  }

  lemma RunAccesses(o: Oracle, threshold: nat, ops: seq<Op>)
    ensures Accessing(o, Run(o, threshold, ops))
  {
    forall i: SetId, u: Inst | Lists(Run(o, threshold, ops), i, u) ensures o.accesses(u) {
      InstIsListed(o, threshold, ops, u);
    }
  }

  /** In every run, whatever the oracle. */
  lemma {:induction false} RunIsQuiet(o: Oracle, threshold: nat, ops: seq<Op>)
    ensures Quiet(o, Run(o, threshold, ops))
    decreases |ops|
  {
    if ops != [] {
      var before, op := ops[..|ops| - 1], ops[|ops| - 1];
      RunIsQuiet(o, threshold, before);
      var t := Run(o, threshold, before);
      var R := RunKeeps(o, threshold, before);
      match op {
        case Pointer(p, size) => AddPointerLists(o, t, R, p, size, threshold, 0);
        case Unknown(u) => AddUnknownQuiet(o, t, R, u);
      }
    }
  }

  lemma {:induction false} RunKeepsApart(o: Oracle, threshold: nat, ops: seq<Op>, q: Ptr)
    requires Lawful(o) && TouchesLawfully(o) && SafeRun(o, threshold, ops)
    ensures var t := Run(o, threshold, ops); Quiet(o, t) && Untouched(o, t, q, SizeOf(t, q))
    decreases |ops|
  {
    if ops != [] {
      var before, op := ops[..|ops| - 1], ops[|ops| - 1];
      var t := Run(o, threshold, before);
      var R := RunKeeps(o, threshold, before);
      match op {
        case Pointer(p, size) =>
          RunKeepsApart(o, threshold, before, p);
          RunParted(o, threshold, before, p);
          RunAccesses(o, threshold, before);
          AddPointerApart(o, t, R, p, size, threshold);
          UntouchedFor(o, Run(o, threshold, ops), p, q);
        case Unknown(u) =>
          RunKeepsApart(o, threshold, before, q);
          AddUnknownApart(o, t, R, u, q);
      }
    }
  }

  /** In every run whose states have the largest pointers first, an instruction touches no pointer
      of another live set and interferes with no instruction there. */
  lemma RunKeepsInstsApart(o: Oracle, threshold: nat, ops: seq<Op>)
    requires Lawful(o) && TouchesLawfully(o) && SafeRun(o, threshold, ops)
    ensures InstsApart(o, Run(o, threshold, ops))
  {
    var t := Run(o, threshold, ops);
    RunKeepsApart(o, threshold, ops, 0);
    forall i: SetId, j: SetId, u: Inst | Lists(t, i, u) && Live(t, j) && i != j
      ensures forall v :: v in t.sets[j].unknown ==> !o.interferes(u, v) && !o.interferes(v, u)
      ensures forall x :: x in t.sets[j].ptrs ==> !o.touches(u, x, SizeOf(t, x))
    {
      forall v | v in t.sets[j].unknown ensures !o.interferes(u, v) && !o.interferes(v, u) {
        assert Lists(t, j, v);
      }
      forall x | x in t.sets[j].ptrs ensures !o.touches(u, x, SizeOf(t, x)) {
        assert Has(t, j, x);
      }
    }
  }

  // ------------------------------------------------------------------- exactly when they are

  /** No run puts an instruction into two live sets exactly if it interferes with itself; one that
      does not can be added twice. */
  lemma SingleExactly(o: Oracle, u: Inst)
    requires o.accesses(u)
    ensures (forall threshold: nat, ops: seq<Op> {:trigger Run(o, threshold, ops)} :: Single(Run(o, threshold, ops), u))
       <==> o.interferes(u, u)
  {
    if o.interferes(u, u) {
      forall threshold: nat, ops: seq<Op> ensures Single(Run(o, threshold, ops), u) {
        RunIsQuiet(o, threshold, ops);
      }
    } else {
      AddedTwice(o, u);
    }
  }

  lemma AddedTwice(o: Oracle, u: Inst)
    requires o.accesses(u) && !o.interferes(u, u)
    ensures !Single(Run(o, 0, [Unknown(u), Unknown(u)]), u)
  {
    RunTwo(o, 0, Unknown(u), Unknown(u));
    UnknownMisses(o, EMPTY, u);
    SecondMisses(o, AddUnknown(o, EMPTY, u), u);
  }

  lemma RunTwo(o: Oracle, threshold: nat, a: Op, b: Op)
    ensures Run(o, threshold, [a, b]) == Apply(o, threshold, Apply(o, threshold, EMPTY, a), b)
  {
    NextRun(o, threshold, [], a, [a]);
    NextRun(o, threshold, [a], b, [a, b]);
    assert Run(o, threshold, []) == EMPTY;
  }

  lemma SecondMisses(o: Oracle, t: Tracker, u: Inst)
    requires o.accesses(u) && !o.interferes(u, u)
    requires t == Tracker(map[0 := ASet(None, 1, true, false, [], 0, [u])], map[], 0, None, 1)
    ensures !Single(AddUnknown(o, t, u), u)
  {
    UnknownMisses(o, t, u);
    var t' := AddUnknown(o, t, u);
    assert Lists(t', 0, u) && Lists(t', 1, u);
  }

  lemma UnknownMisses(o: Oracle, t: Tracker, u: Inst)
    requires o.accesses(u) && forall j: SetId :: j < t.next ==> !Hits(o, t, j, Instruction(u))
    ensures AddUnknown(o, t, u) == Tracker(t.sets[t.next := ASet(None, 1, true, false, [], 0, [u])], t.recs, t.total,
      t.any, t.next + 1)
  {
    NoHits(o, t, Instruction(u), 0);
    assert [] + [u] == [u];
    assert AddInstTo(NewSet(t), t.next, u).sets == t.sets[t.next := ASet(None, 1, true, false, [], 0, [u])];
  }

  /** With pointers that must alias touched alike: every safe run keeps instructions apart exactly
      if pointers that alias nothing are not touched for being larger. */
  lemma InstsApartExactly(o: Oracle)
    requires Lawful(o) && TouchedAlike(o)
    ensures (forall threshold: nat, ops: seq<Op> {:trigger Run(o, threshold, ops)} ::
              SafeRun(o, threshold, ops) ==> InstsApart(o, Run(o, threshold, ops)))
       <==> NowhereStays(o)
  {
    if NowhereStays(o) {
      forall threshold: nat, ops: seq<Op> | SafeRun(o, threshold, ops) ensures InstsApart(o, Run(o, threshold, ops)) {
        RunKeepsInstsApart(o, threshold, ops);
      }
    } else {
      var p: Ptr, u: Inst, s: nat, v: nat :|
        Nowhere(o, p) && o.accesses(u) && s <= v && o.touches(u, p, v) && !o.touches(u, p, s);
      TouchedBreaksSets(o, p, u, s, v);
    }
  }

  /** A pointer that aliases nothing grows into the reach of an instruction and stays where it is. */
  lemma TouchedBreaksSets(o: Oracle, p: Ptr, u: Inst, s: nat, v: nat)
    requires Lawful(o) && Nowhere(o, p) && o.accesses(u) && s < v && o.touches(u, p, v) && !o.touches(u, p, s)
    ensures var ops := [Pointer(p, s), Unknown(u), Pointer(p, v)];
      SafeRun(o, 0, ops) && !InstsApart(o, Run(o, 0, ops))
  {
    var ops := [Pointer(p, s), Unknown(u), Pointer(p, v)];
    NextRun(o, 0, [], Pointer(p, s), ops[..1]);
    NextRun(o, 0, ops[..1], Unknown(u), ops[..2]);
    NextRun(o, 0, ops[..2], Pointer(p, v), ops);
    assert ops[..2][..1] == ops[..1] && ops[..1][..0] == [];
    var t1, t2, t3 := Run(o, 0, ops[..1]), Run(o, 0, ops[..2]), Run(o, 0, ops);
    FirstPointer(o, EMPTY, p, s, 0);
    assert Run(o, 0, []) == EMPTY;
    UnknownMisses(o, t1, u);
    StaysPut(o, t2, p, u, s, v);
    assert Lists(t3, 1, u) && Live(t3, 0) && p in t3.sets[0].ptrs;
    SafeSteps(o, p, ops, t1, t2, t3);
  }

  lemma StaysPut(o: Oracle, t: Tracker, p: Ptr, u: Inst, s: nat, v: nat)
    requires Nowhere(o, p) && s < v && o.touches(u, p, v)
    requires t == Tracker(map[0 := MustSet([p]), 1 := ASet(None, 1, true, false, [], 0, [u])], map[p := Rec(0, s)], 0,
      None, 2)
    ensures AddPointer(o, t, p, v, 0) == t.(recs := map[p := Rec(0, v)])
  {
    var t1, q := Grow(t, p, v), Location(p, v);
    assert t1 == t.(recs := map[p := Rec(0, v)]);
    assert !Hits(o, t1, 0, q);
    assert t1.sets[1].unknown[0] == u && Hits(o, t1, 1, q);
    assert MergeHits(o, t1, q, 2, 2, Some(1)) == (t1, Some(1));
    assert MergeHits(o, t1, q, 1, 2, None) == (t1, Some(1));
    assert MergeHits(o, t1, q, 0, 2, None) == (t1, Some(1));
    assert Resolve(t1, p).0 == t1;
  }

  ghost predicate Alone(t: Tracker, p: Ptr) {
    forall i: SetId {:trigger Live(t, i)} :: Live(t, i) ==> t.sets[i].ptrs == [] || t.sets[i].ptrs == [p]
  }

  lemma SafeSteps(o: Oracle, p: Ptr, ops: seq<Op>, t1: Tracker, t2: Tracker, t3: Tracker)
    requires |ops| == 3 && t1 == Run(o, 0, ops[..1]) && t2 == Run(o, 0, ops[..2]) && t3 == Run(o, 0, ops)
    requires Alone(t1, p) && Alone(t2, p) && Alone(t3, p)
    ensures SafeRun(o, 0, ops)
  {
    assert ops[..2][..1] == ops[..1] && ops[..1][..0] == [];
    AloneIsSafe(o, t1, p);
    AloneIsSafe(o, t2, p);
    AloneIsSafe(o, t3, p);
    assert SafeRun(o, 0, []);
    assert SafeRun(o, 0, ops[..1]);
    assert SafeRun(o, 0, ops[..2]);
  }

  lemma AloneIsSafe(o: Oracle, t: Tracker, p: Ptr)
    requires Alone(t, p)
    ensures FirstIsLargest(o, t)
  {
  }
}
