/** What alias sets are for: pointers in different live sets do not alias. */
module AliasSetDisjoint {
  import opened Basics
  import opened AliasSets
  import opened AliasSetRefs
  import opened AliasSetOps

  // --------------------------------------------------------- what is asked of the oracle

  /** `p` and `q` can stand for each other where only non-aliasing matters. */
  ghost predicate Same(o: Oracle, p: Ptr, q: Ptr) {
    forall v: nat, r: Ptr, u: nat {:trigger o.alias(p, v, r, u)} {:trigger o.alias(q, v, r, u)} ::
      o.alias(p, v, r, u) == NoAlias <==> o.alias(q, v, r, u) == NoAlias
  }

  /** A pointer that aliases nothing, such as undef. */
  ghost predicate Nowhere(o: Oracle, p: Ptr) {
    forall v: nat, r: Ptr, u: nat {:trigger o.alias(p, v, r, u)} :: o.alias(p, v, r, u) == NoAlias
  }

  /** Order does not matter, a smaller access aliases less, an empty one nothing, pointers that
      must alias are the same, and a pointer aliases itself unless it is nowhere. */
  ghost predicate Lawful(o: Oracle) {
    && (forall p: Ptr, s: nat, q: Ptr, t: nat {:trigger o.alias(p, s, q, t)} ::
         o.alias(p, s, q, t) == o.alias(q, t, p, s))
    && (forall p: Ptr, s: nat, s': nat, q: Ptr, t: nat {:trigger o.alias(p, s, q, t), o.alias(p, s', q, t)} ::
          s' <= s && o.alias(p, s, q, t) == NoAlias ==> o.alias(p, s', q, t) == NoAlias)
    && (forall p: Ptr, q: Ptr, t: nat {:trigger o.alias(p, 0, q, t)} :: o.alias(p, 0, q, t) == NoAlias)
    && (forall p: Ptr, s: nat, q: Ptr, t: nat {:trigger Same(o, p, q), o.alias(p, s, q, t)} ::
          o.alias(p, s, q, t) == MustAlias ==> Same(o, p, q))
    && (forall p: Ptr, s: nat, t: nat {:trigger o.alias(p, s, p, t)} ::
          s > 0 && t > 0 && o.alias(p, s, p, t) == NoAlias ==> Nowhere(o, p))
  }

  // ------------------------------------------------------------------- the invariant

  /** The size of a pointer, with the size `s0` in place of its own for pointer `p`. */
  function SizeAs(t: Tracker, p: Ptr, s0: nat, q: Ptr): nat { if q == p then s0 else SizeOf(t, q) }

  /** No pointer of set `i` aliases one of set `j`. */
  ghost predicate Apart(o: Oracle, t: Tracker, p: Ptr, s0: nat, i: SetId, j: SetId)
    requires i in t.sets && j in t.sets
  {
    forall x, y {:trigger x in t.sets[i].ptrs, y in t.sets[j].ptrs} ::
      x in t.sets[i].ptrs && y in t.sets[j].ptrs ==>
        o.alias(x, SizeAs(t, p, s0, x), y, SizeAs(t, p, s0, y)) == NoAlias
  }

  /** In a must-alias set the first pointer stands for all. */
  ghost predicate Uniform(o: Oracle, t: Tracker, i: SetId)
    requires i in t.sets
  {
    var s := t.sets[i];
    !s.may && s.ptrs != [] ==> forall x {:trigger x in s.ptrs} :: x in s.ptrs ==> Same(o, s.ptrs[0], x)
  }

  /** In a must-alias set no pointer that is anywhere is larger than the first. */
  ghost predicate Largest(o: Oracle, t: Tracker, i: SetId)
    requires i in t.sets
  {
    var s := t.sets[i];
    !s.may && s.ptrs != [] ==>
      forall x {:trigger x in s.ptrs} :: x in s.ptrs ==> SizeOf(t, x) <= SizeOf(t, s.ptrs[0]) || Nowhere(o, x)
  }

  ghost predicate Represented(o: Oracle, t: Tracker, i: SetId)
    requires i in t.sets
  {
    Uniform(o, t, i) && Largest(o, t, i)
  }

  /** The condition under which sets stay apart, on states. */
  ghost predicate FirstIsLargest(o: Oracle, t: Tracker) {
    forall i: SetId {:trigger Live(t, i)} :: Live(t, i) ==> Largest(o, t, i)
  }

  /** Apart from each other as if `p` still had size `s0`. */
  ghost predicate Parted(o: Oracle, t: Tracker, p: Ptr, s0: nat) {
    && (forall i: SetId, j: SetId {:trigger Live(t, i), Live(t, j)} ::
         Live(t, i) && Live(t, j) && i != j ==> Apart(o, t, p, s0, i, j))
    && (forall i: SetId {:trigger Live(t, i)} :: Live(t, i) ==> Represented(o, t, i))
  }

  /** The same while `p` grows: of the set that has it, only that its pointers are the same. */
  ghost predicate Loose(o: Oracle, t: Tracker, p: Ptr, s0: nat) {
    && (forall i: SetId, j: SetId {:trigger Live(t, i), Live(t, j)} ::
         Live(t, i) && Live(t, j) && i != j ==> Apart(o, t, p, s0, i, j))
    && (forall i: SetId {:trigger Live(t, i)} ::
         Live(t, i) ==> Uniform(o, t, i) && (p !in t.sets[i].ptrs ==> Largest(o, t, i)))
  }

  /** Pointers in different live sets do not alias. */
  ghost predicate Disjoint(o: Oracle, t: Tracker) {
    forall i: SetId, j: SetId, x, y {:trigger x in t.sets[i].ptrs, y in t.sets[j].ptrs} ::
      Live(t, i) && Live(t, j) && i != j && x in t.sets[i].ptrs && y in t.sets[j].ptrs ==>
        o.alias(x, SizeOf(t, x), y, SizeOf(t, y)) == NoAlias
  }

  lemma PartedIsDisjoint(o: Oracle, t: Tracker, p: Ptr)
    requires Parted(o, t, p, SizeOf(t, p))
    ensures Disjoint(o, t)
  {
    forall i: SetId, j: SetId, x, y | Live(t, i) && Live(t, j) && i != j && x in t.sets[i].ptrs && y in t.sets[j].ptrs
      ensures o.alias(x, SizeOf(t, x), y, SizeOf(t, y)) == NoAlias
    {
      assert Apart(o, t, p, SizeOf(t, p), i, j);
    }
  }

  // ------------------------------------------------------------------------ merging

  /** Two sets that are apart never stay a must-alias set when merged. */
  lemma ApartIsNotMust(o: Oracle, t: Tracker, p: Ptr, s0: nat, d: SetId, s: SetId)
    requires Lawful(o) && d in t.sets && s in t.sets && Apart(o, t, p, s0, d, s)
    requires s0 > 0 || s0 == SizeOf(t, p) || (p !in t.sets[d].ptrs && p !in t.sets[s].ptrs)
    ensures !StaysMust(o, t, d, s)
  {
    if StaysMust(o, t, d, s) {
      var x, y := t.sets[d].ptrs[0], t.sets[s].ptrs[0];
      assert x in t.sets[d].ptrs && y in t.sets[s].ptrs;
      assert o.alias(x, SizeAs(t, p, s0, x), y, SizeAs(t, p, s0, y)) == NoAlias;
      assert o.alias(x, SizeOf(t, x), y, SizeOf(t, y)) == MustAlias;
      MustIsNotApart(o, x, SizeOf(t, x), SizeAs(t, p, s0, x), y, SizeOf(t, y), SizeAs(t, p, s0, y));
    }
  }

  lemma MustIsNotApart(o: Oracle, x: Ptr, v: nat, v0: nat, y: Ptr, u: nat, u0: nat)
    requires Lawful(o) && o.alias(x, v, y, u) == MustAlias && (v0 > 0 || v0 == v) && (u0 > 0 || u0 == u)
    ensures o.alias(x, v0, y, u0) != NoAlias
  {
    assert Same(o, x, y);
    assert o.alias(y, u, x, v) == MustAlias;
    assert v > 0 && u > 0;
    assert o.alias(x, v0, y, u0) == NoAlias <==> o.alias(y, v0, y, u0) == NoAlias;
  }

  lemma ApartSame(o: Oracle, t: Tracker, t': Tracker, p: Ptr, s0: nat, i: SetId, j: SetId)
    requires i in t.sets && j in t.sets && i in t'.sets && j in t'.sets
    requires t'.sets[i].ptrs == t.sets[i].ptrs && t'.sets[j].ptrs == t.sets[j].ptrs
    requires forall q {:trigger SizeOf(t', q)} :: SizeOf(t', q) == SizeOf(t, q)
    requires Apart(o, t, p, s0, i, j)
    ensures Apart(o, t', p, s0, i, j)
  {
  }

  lemma RepresentedSame(o: Oracle, t: Tracker, t': Tracker, i: SetId)
    requires i in t.sets && i in t'.sets
    requires t'.sets[i].ptrs == t.sets[i].ptrs && t'.sets[i].may == t.sets[i].may
    requires forall q {:trigger SizeOf(t', q)} :: SizeOf(t', q) == SizeOf(t, q)
    requires Represented(o, t, i)
    ensures Represented(o, t', i)
  {
  }

  lemma ApartJoined(o: Oracle, t: Tracker, t': Tracker, p: Ptr, s0: nat, d: SetId, s: SetId, j: SetId)
    requires d in t.sets && s in t.sets && j in t.sets && d in t'.sets && j in t'.sets && t'.recs == t.recs
    requires t'.sets[d].ptrs == t.sets[d].ptrs + t.sets[s].ptrs && t'.sets[j].ptrs == t.sets[j].ptrs
    requires Apart(o, t, p, s0, d, j) && Apart(o, t, p, s0, s, j) && Apart(o, t, p, s0, j, d)
    requires Apart(o, t, p, s0, j, s)
    ensures Apart(o, t', p, s0, d, j) && Apart(o, t', p, s0, j, d)
  {
    forall x, y | x in t'.sets[d].ptrs && y in t'.sets[j].ptrs
      ensures o.alias(x, SizeAs(t', p, s0, x), y, SizeAs(t', p, s0, y)) == NoAlias
      ensures o.alias(y, SizeAs(t', p, s0, y), x, SizeAs(t', p, s0, x)) == NoAlias
    {
      assert x in t.sets[d].ptrs || x in t.sets[s].ptrs;
    }
  }

  lemma MergeParted(o: Oracle, t: Tracker, p: Ptr, s0: nat, d: SetId, s: SetId, t': Tracker)
    requires Lawful(o) && Parted(o, t, p, s0) && Live(t, d) && Live(t, s) && d != s
    requires s0 > 0 || s0 == SizeOf(t, p)
    requires MergeEffect(o, t, d, s, t')
    ensures Parted(o, t', p, s0) && t'.sets[d].may
  {
    ApartIsNotMust(o, t, p, s0, d, s);
    forall i: SetId, j: SetId | Live(t', i) && Live(t', j) && i != j ensures Apart(o, t', p, s0, i, j) {
      assert i != d ==> SameLive(t, t', i);
      assert j != d ==> SameLive(t, t', j);
      if i == d {
        ApartJoined(o, t, t', p, s0, d, s, j);
      } else if j == d {
        ApartJoined(o, t, t', p, s0, d, s, i);
      } else {
        ApartSame(o, t, t', p, s0, i, j);
      }
    }
    forall i: SetId | Live(t', i) ensures Represented(o, t', i) {
      if i != d {
        assert SameLive(t, t', i);
        RepresentedSame(o, t, t', i);
      }
    }
  }

  lemma {:induction false} HitsParted(o: Oracle, t: Tracker, R: Roots, p: Ptr, s0: nat, q: Query, i: SetId, n: SetId,
                                      found: Option<SetId>)
    requires Lawful(o) && Good(t, R) && Parted(o, t, p, s0) && (s0 > 0 || s0 == SizeOf(t, p))
    requires found.Some? ==> Live(t, found.value) && found.value < i
    ensures Parted(o, MergeHits(o, t, q, i, n, found).0, p, s0)
    decreases n - i
  {
    if i < n {
      if !Hits(o, t, i, q) {
        HitsParted(o, t, R, p, s0, q, i + 1, n, found);
      } else if found.None? {
        HitsParted(o, t, R, p, s0, q, i + 1, n, Some(i));
      } else {
        HitParted(o, t, R, p, s0, i, found.value);
        HitsParted(o, MergeSetIn(o, t, found.value, i), Rerouted(R, i, found.value), p, s0, q, i + 1, n, found);
      }
    }
  }

  lemma HitParted(o: Oracle, t: Tracker, R: Roots, p: Ptr, s0: nat, i: SetId, f: SetId)
    requires Lawful(o) && Good(t, R) && Parted(o, t, p, s0) && (s0 > 0 || s0 == SizeOf(t, p))
    requires Live(t, f) && Live(t, i) && f < i
    ensures var t1 := MergeSetIn(o, t, f, i);
      Good(t1, Rerouted(R, i, f)) && Parted(o, t1, p, s0) && Live(t1, f) && SizeOf(t1, p) == SizeOf(t, p)
  {
    HitMerged(o, t, R, f, i);
    MergeKeeps(o, t, R, f, i);
    MergeParted(o, t, p, s0, f, i, MergeSetIn(o, t, f, i));
  }

  // ------------------------------------------------------------------ adding a pointer

  /** A set that a location does not hit has no pointer that aliases it. */
  lemma MissIsApart(o: Oracle, t: Tracker, R: Roots, i: SetId, p: Ptr, size: nat, x: Ptr)
    requires Lawful(o) && Good(t, R) && Live(t, i) && Represented(o, t, i)
    requires !AliasesPointer(o, t, i, p, size) && x in t.sets[i].ptrs
    ensures o.alias(x, SizeOf(t, x), p, size) == NoAlias
  {
    var s := t.sets[i];
    assert SetOK(t, R, i);
    if s.may {
      var k :| 0 <= k < |s.ptrs| && s.ptrs[k] == x;
      assert o.alias(p, size, s.ptrs[k], SizeOf(t, s.ptrs[k])) == NoAlias;
    } else {
      var P := s.ptrs[0];
      assert o.alias(P, SizeOf(t, P), p, size) == NoAlias;
      assert Same(o, P, x);
      assert o.alias(x, SizeOf(t, P), p, size) == NoAlias;
    }
  }

  /** Nothing outside set `f` aliases the location. */
  ghost predicate ClearOf(o: Oracle, t: Tracker, f: Option<SetId>, p: Ptr, size: nat) {
    forall i: SetId, x {:trigger x in t.sets[i].ptrs} ::
      Live(t, i) && f != Some(i) && x in t.sets[i].ptrs && p !in t.sets[i].ptrs ==>
        o.alias(x, SizeOf(t, x), p, size) == NoAlias
  }

  lemma HitsLeaveClear(o: Oracle, t: Tracker, R: Roots, p: Ptr, s0: nat, size: nat)
    requires Lawful(o) && Good(t, R) && Loose(o, t, p, s0)
    ensures var r := MergeHits(o, t, Location(p, size), 0, t.next, None);
      ClearOf(o, r.0, r.1, p, size)
  {
    var R' := MergeHitsKeeps(o, t, R, Location(p, size), 0, t.next, None);
    var r := MergeHits(o, t, Location(p, size), 0, t.next, None);
    forall i: SetId, x | Live(r.0, i) && r.1 != Some(i) && x in r.0.sets[i].ptrs && p !in r.0.sets[i].ptrs
      ensures o.alias(x, SizeOf(r.0, x), p, size) == NoAlias
    {
      assert SameLive(t, r.0, i);
      assert SetOK(t, R, i) && Represented(o, t, i);
      MissIsApart(o, t, R, i, p, size, x);
    }
  }

  /** After a pointer has joined a set that everything aliasing it is in. */
  lemma JoinParted(o: Oracle, t: Tracker, R: Roots, i: SetId, p: Ptr, size: nat)
    requires Lawful(o) && LinkedBut(t, R, i) && p !in t.recs && Parted(o, t, p, 0) && ClearOf(o, t, Some(i), p, size)
    ensures var t' := AddToSet(o, t, i, p, size);
      Parted(o, t', p, size)
  {
    var t' := AddToSet(o, t, i, p, size);
    assert t'.sets.Keys == t.sets.Keys;
    forall a: SetId, b: SetId | Live(t', a) && Live(t', b) && a != b ensures Apart(o, t', p, size, a, b) {
      assert Live(t, a) && Live(t, b);
      if a == i {
        JoinApart(o, t, R, i, p, size, b);
      } else if b == i {
        JoinApart(o, t, R, i, p, size, a);
      } else {
        OthersApart(o, t, R, i, p, size, a, b);
      }
    }
    forall a: SetId | Live(t', a) ensures Represented(o, t', a) {
      assert Live(t, a);
      if a == i {
        JoinRepresented(o, t, R, i, p, size);
      } else {
        OthersRepresented(o, t, R, i, p, size, a);
      }
    }
  }

  /** The first pointer of the set that is joined is in no other set. */
  lemma NotElsewhere(t: Tracker, R: Roots, i: SetId, x: Ptr, j: SetId)
    requires LinkedBut(t, R, i) && j in t.sets && j != i && x in t.sets[i].ptrs
    ensures x !in t.sets[j].ptrs
  {
    assert ListOK(t, R, i) && ListOK(t, R, j);
  }

  lemma OthersApart(o: Oracle, t: Tracker, R: Roots, i: SetId, p: Ptr, size: nat, a: SetId, b: SetId)
    requires LinkedBut(t, R, i) && p !in t.recs && a in t.sets && b in t.sets && a != i && b != i
    requires Apart(o, t, p, 0, a, b)
    ensures Apart(o, AddToSet(o, t, i, p, size), p, size, a, b)
  {
    var t' := AddToSet(o, t, i, p, size);
    forall x, y | x in t'.sets[a].ptrs && y in t'.sets[b].ptrs
      ensures o.alias(x, SizeAs(t', p, size, x), y, SizeAs(t', p, size, y)) == NoAlias
    {
      OthersSize(o, t, R, i, p, size, a, x);
      OthersSize(o, t, R, i, p, size, b, y);
    }
  }

  lemma OthersSize(o: Oracle, t: Tracker, R: Roots, i: SetId, p: Ptr, size: nat, a: SetId, x: Ptr)
    requires LinkedBut(t, R, i) && p !in t.recs && a in t.sets && a != i && x in t.sets[a].ptrs
    ensures x != p && SizeOf(AddToSet(o, t, i, p, size), x) == SizeOf(t, x)
  {
    assert ListOK(t, R, a);
    if t.sets[i].ptrs != [] {
      assert t.sets[i].ptrs[0] in t.sets[i].ptrs;
      NotElsewhere(t, R, i, t.sets[i].ptrs[0], a);
    }
  }

  lemma OthersRepresented(o: Oracle, t: Tracker, R: Roots, i: SetId, p: Ptr, size: nat, a: SetId)
    requires LinkedBut(t, R, i) && p !in t.recs && a in t.sets && a != i && Represented(o, t, a)
    ensures Represented(o, AddToSet(o, t, i, p, size), a)
  {
    var t' := AddToSet(o, t, i, p, size);
    var s := t.sets[a];
    forall x | x in s.ptrs ensures SizeOf(t', x) == SizeOf(t, x) {
      OthersSize(o, t, R, i, p, size, a, x);
    }
    if s.ptrs != [] {
      assert s.ptrs[0] in s.ptrs;
    }
  }

  lemma JoinRepresented(o: Oracle, t: Tracker, R: Roots, i: SetId, p: Ptr, size: nat)
    requires Lawful(o) && LinkedBut(t, R, i) && p !in t.recs && Represented(o, t, i)
    ensures Represented(o, AddToSet(o, t, i, p, size), i)
  {
    var t' := AddToSet(o, t, i, p, size);
    var s, s' := t.sets[i], t'.sets[i];
    assert ListOK(t, R, i);
    if !s'.may && s.ptrs != [] {
      var P := s.ptrs[0];
      assert P in s.ptrs && s'.ptrs[0] == P;
      assert o.alias(P, SizeOf(t, P), p, size) == MustAlias;
      assert Same(o, P, p);
      forall x | x in s'.ptrs ensures Same(o, P, x) && SizeOf(t', x) <= SizeOf(t', P) {
        assert x in s.ptrs || x == p;
      }
    }
  }

  lemma JoinApart(o: Oracle, t: Tracker, R: Roots, i: SetId, p: Ptr, size: nat, b: SetId)
    requires Lawful(o) && LinkedBut(t, R, i) && p !in t.recs && Live(t, b) && b != i
    requires Apart(o, t, p, 0, i, b) && ClearOf(o, t, Some(i), p, size)
    ensures var t' := AddToSet(o, t, i, p, size);
      Apart(o, t', p, size, i, b) && Apart(o, t', p, size, b, i)
  {
    var t' := AddToSet(o, t, i, p, size);
    assert ListOK(t, R, i) && ListOK(t, R, b);
    forall x, y | x in t'.sets[i].ptrs && y in t'.sets[b].ptrs
      ensures o.alias(x, SizeAs(t', p, size, x), y, SizeAs(t', p, size, y)) == NoAlias
      ensures o.alias(y, SizeAs(t', p, size, y), x, SizeAs(t', p, size, x)) == NoAlias
    {
      OthersSize(o, t, R, i, p, size, b, y);
      assert o.alias(y, SizeOf(t, y), p, size) == NoAlias;
      if x != p {
        assert x in t.sets[i].ptrs;
        assert o.alias(x, SizeOf(t, x), y, SizeOf(t, y)) == NoAlias;
        if SizeOf(t', x) != SizeOf(t, x) {
          assert o.alias(x, SizeOf(t, x), p, size) == MustAlias;
          assert Same(o, x, p);
          assert o.alias(p, size, y, SizeOf(t, y)) == NoAlias;
        }
      }
    }
  }

  /** Where sizes are the real ones it does not matter which pointer is singled out. */
  lemma PartedFor(o: Oracle, t: Tracker, p: Ptr, q: Ptr)
    requires Parted(o, t, p, SizeOf(t, p))
    ensures Parted(o, t, q, SizeOf(t, q))
  {
    forall i: SetId, j: SetId | Live(t, i) && Live(t, j) && i != j ensures Apart(o, t, q, SizeOf(t, q), i, j) {
      assert Apart(o, t, p, SizeOf(t, p), i, j);
    }
  }

  lemma NewPointerParted(o: Oracle, t: Tracker, R: Roots, p: Ptr, size: nat)
    requires Lawful(o) && Good(t, R) && t.any.None? && p !in t.recs && Parted(o, t, p, 0)
    ensures Parted(o, SetForPointer(o, t, p, size), p, size)
  {
    HitsParted(o, t, R, p, 0, Location(p, size), 0, t.next, None);
    HitsLeaveClear(o, t, R, p, 0, size);
    var R' := MergeHitsKeeps(o, t, R, Location(p, size), 0, t.next, None);
    var r := MergeHits(o, t, Location(p, size), 0, t.next, None);
    if r.1.Some? {
      LiveIsBut(r.0, R', r.1.value);
      JoinParted(o, r.0, R', r.1.value, p, size);
    } else {
      NewSetBut(t, R);
      FreshParted(o, t, R, p);
      FreshClear(o, t, R, p, size);
      JoinParted(o, NewSet(t), R[t.next := t.next], t.next, p, size);
    }
  }

  lemma FreshClear(o: Oracle, t: Tracker, R: Roots, p: Ptr, size: nat)
    requires Good(t, R) && ClearOf(o, t, None, p, size)
    ensures ClearOf(o, NewSet(t), Some(t.next), p, size)
  {
    var t1 := NewSet(t);
    forall i: SetId, x | Live(t1, i) && i != t.next && x in t1.sets[i].ptrs && p !in t1.sets[i].ptrs
      ensures o.alias(x, SizeOf(t1, x), p, size) == NoAlias
    {
      assert Live(t, i) && x in t.sets[i].ptrs;
    }
  }

  lemma FreshParted(o: Oracle, t: Tracker, R: Roots, p: Ptr)
    requires Good(t, R) && Parted(o, t, p, 0)
    ensures Parted(o, NewSet(t), p, 0)
  {
    var t1 := NewSet(t);
    assert t.next !in R;
    forall i: SetId, j: SetId | Live(t1, i) && Live(t1, j) && i != j ensures Apart(o, t1, p, 0, i, j) {
      if i != t.next && j != t.next {
        assert Live(t, i) && Live(t, j);
        ApartSame(o, t, t1, p, 0, i, j);
      }
    }
    forall i: SetId | Live(t1, i) ensures Represented(o, t1, i) {
      if i != t.next {
        assert Live(t, i);
        RepresentedSame(o, t, t1, i);
      }
    }
  }

  // --------------------------------------------------------- a tracked pointer grows

  /** A merge keeps sets loosely parted: without the growing pointer it makes a may-alias set, and
      with it at worst a must-alias set of pointers that are the same. */
  lemma MergeLoose(o: Oracle, t: Tracker, p: Ptr, s0: nat, d: SetId, s: SetId, t': Tracker)
    requires Lawful(o) && Loose(o, t, p, s0) && Live(t, d) && Live(t, s) && d != s
    requires MergeEffect(o, t, d, s, t')
    ensures Loose(o, t', p, s0)
  {
    forall i: SetId, j: SetId | Live(t', i) && Live(t', j) && i != j ensures Apart(o, t', p, s0, i, j) {
      assert i != d ==> SameLive(t, t', i);
      assert j != d ==> SameLive(t, t', j);
      if i == d {
        ApartJoined(o, t, t', p, s0, d, s, j);
      } else if j == d {
        ApartJoined(o, t, t', p, s0, d, s, i);
      } else {
        ApartSame(o, t, t', p, s0, i, j);
      }
    }
    forall i: SetId | Live(t', i) ensures Uniform(o, t', i) && (p !in t'.sets[i].ptrs ==> Largest(o, t', i)) {
      if i != d {
        assert SameLive(t, t', i);
      } else {
        JoinedLoose(o, t, p, s0, d, s, t');
      }
    }
  }

  lemma JoinedLoose(o: Oracle, t: Tracker, p: Ptr, s0: nat, d: SetId, s: SetId, t': Tracker)
    requires Lawful(o) && Loose(o, t, p, s0) && Live(t, d) && Live(t, s) && d != s
    requires MergeEffect(o, t, d, s, t')
    ensures Uniform(o, t', d) && (p !in t'.sets[d].ptrs ==> Largest(o, t', d))
  {
    if !t'.sets[d].may {
      assert StaysMust(o, t, d, s);
      var P, Q := t.sets[d].ptrs[0], t.sets[s].ptrs[0];
      assert Same(o, P, Q) && t'.sets[d].ptrs[0] == P;
      forall x | x in t'.sets[d].ptrs ensures Same(o, P, x) {
        assert x in t.sets[d].ptrs || x in t.sets[s].ptrs;
        SameTrans(o, P, Q, x);
      }
      if p !in t'.sets[d].ptrs {
        assert p !in t.sets[d].ptrs && p !in t.sets[s].ptrs;
        ApartIsNotMust(o, t, p, s0, d, s);
      }
    }
  }

  lemma SameTrans(o: Oracle, p: Ptr, q: Ptr, r: Ptr)
    ensures Same(o, p, q) && Same(o, q, r) ==> Same(o, p, r)
  {
  }

  lemma {:induction false} HitsLoose(o: Oracle, t: Tracker, R: Roots, p: Ptr, s0: nat, q: Query, i: SetId, n: SetId,
                                     found: Option<SetId>)
    requires Lawful(o) && Good(t, R) && Loose(o, t, p, s0)
    requires found.Some? ==> Live(t, found.value) && found.value < i
    ensures Loose(o, MergeHits(o, t, q, i, n, found).0, p, s0)
    decreases n - i, 1
  {
    if i < n {
      if !Hits(o, t, i, q) || found.None? {
        SkipLoose(o, t, R, p, s0, q, i, n, found);
      } else {
        HitLoose(o, t, R, p, s0, i, found.value);
        HitThenLoose(o, t, p, s0, q, i, n, found.value, MergeSetIn(o, t, found.value, i), Rerouted(R, i, found.value));
      }
    }
  }

  lemma {:induction false} SkipLoose(o: Oracle, t: Tracker, R: Roots, p: Ptr, s0: nat, q: Query, i: SetId, n: SetId,
                                     found: Option<SetId>)
    requires i < n && Lawful(o) && Good(t, R) && Loose(o, t, p, s0) && (Hits(o, t, i, q) ==> found.None?)
    requires found.Some? ==> Live(t, found.value) && found.value < i
    ensures Loose(o, MergeHits(o, t, q, i, n, found).0, p, s0)
    decreases n - i, 0
  {
    HitsLoose(o, t, R, p, s0, q, i + 1, n, if Hits(o, t, i, q) then Some(i) else found);
  }

  lemma {:induction false} HitThenLoose(o: Oracle, t: Tracker, p: Ptr, s0: nat, q: Query, i: SetId, n: SetId, f: SetId,
                                        t1: Tracker, R1: Roots)
    requires i < n && Hits(o, t, i, q) && f in t.sets && f < i && t1 == MergeSetIn(o, t, f, i)
    requires Lawful(o) && Good(t1, R1) && Loose(o, t1, p, s0) && Live(t1, f)
    ensures Loose(o, MergeHits(o, t, q, i, n, Some(f)).0, p, s0)
    decreases n - i, 0
  {
    HitsLoose(o, t1, R1, p, s0, q, i + 1, n, Some(f));
  }

  lemma HitLoose(o: Oracle, t: Tracker, R: Roots, p: Ptr, s0: nat, i: SetId, f: SetId)
    requires Lawful(o) && Good(t, R) && Loose(o, t, p, s0) && Live(t, f) && Live(t, i) && f < i
    ensures var t1 := MergeSetIn(o, t, f, i);
      Good(t1, Rerouted(R, i, f)) && Loose(o, t1, p, s0) && Live(t1, f)
  {
    HitMerged(o, t, R, f, i);
    MergeKeeps(o, t, R, f, i);
    MergeLoose(o, t, p, s0, f, i, MergeSetIn(o, t, f, i));
  }

  lemma GrowLoose(o: Oracle, t: Tracker, p: Ptr, size: nat)
    requires Parted(o, t, p, SizeOf(t, p)) && p in t.recs
    ensures Loose(o, Grow(t, p, size), p, t.recs[p].size)
  {
    var t1, s0 := Grow(t, p, size), t.recs[p].size;
    forall i: SetId, j: SetId | Live(t1, i) && Live(t1, j) && i != j ensures Apart(o, t1, p, s0, i, j) {
      assert Live(t, i) && Live(t, j);
      assert Apart(o, t, p, s0, i, j);
    }
    forall i: SetId | Live(t1, i) ensures Uniform(o, t1, i) && (p !in t1.sets[i].ptrs ==> Largest(o, t1, i)) {
      assert Live(t, i) && Represented(o, t, i);
    }
  }

  /** If the set of a grown pointer is not among those its new size hits, then either the pointer
      is nowhere or the set is asked through a first pointer that is smaller. */
  lemma GrownIsFound(o: Oracle, t: Tracker, R: Roots, p: Ptr, s0: nat, size: nat, i: SetId)
    requires Lawful(o) && Good(t, R) && Loose(o, t, p, s0) && !Nowhere(o, p) && SizeOf(t, p) == size && size > 0
    requires var r := MergeHits(o, t, Location(p, size), 0, t.next, None);
      Live(r.0, i) && p in r.0.sets[i].ptrs && Largest(o, r.0, i)
    ensures MergeHits(o, t, Location(p, size), 0, t.next, None).1 == Some(i)
  {
    var R' := MergeHitsKeeps(o, t, R, Location(p, size), 0, t.next, None);
    var r := MergeHits(o, t, Location(p, size), 0, t.next, None);
    if r.1 != Some(i) {
      assert SameLive(t, r.0, i);
      assert SetOK(t, R, i) && !Hits(o, t, i, Location(p, size));
      OwnSetMissed(o, t, p, size, i);
    }
  }

  lemma OwnSetMissed(o: Oracle, t: Tracker, p: Ptr, size: nat, i: SetId)
    requires Lawful(o) && Live(t, i) && Uniform(o, t, i) && Largest(o, t, i) && p in t.sets[i].ptrs
    requires SizeOf(t, p) == size && size > 0 && !AliasesPointer(o, t, i, p, size)
    ensures Nowhere(o, p)
  {
    var s := t.sets[i];
    if s.may {
      var k :| 0 <= k < |s.ptrs| && s.ptrs[k] == p;
      assert o.alias(p, size, s.ptrs[k], SizeOf(t, s.ptrs[k])) == NoAlias;
    } else {
      var P := s.ptrs[0];
      assert o.alias(P, SizeOf(t, P), p, size) == NoAlias && Same(o, P, p);
      assert o.alias(p, SizeOf(t, P), p, size) == NoAlias;
    }
  }

  /** After a growth the sets are apart again, provided the state it ends in has the largest
      pointers first. */
  lemma GrownParted(o: Oracle, t: Tracker, R: Roots, p: Ptr, s0: nat, size: nat)
    requires Lawful(o) && Good(t, R) && Loose(o, t, p, s0) && SizeOf(t, p) == size && size > 0 && p in t.recs
    requires FirstIsLargest(o, MergeHits(o, t, Location(p, size), 0, t.next, None).0)
    ensures Parted(o, MergeHits(o, t, Location(p, size), 0, t.next, None).0, p, size)
  {
    HitsLoose(o, t, R, p, s0, Location(p, size), 0, t.next, None);
    HitsLeaveClear(o, t, R, p, s0, size);
    var R' := MergeHitsKeeps(o, t, R, Location(p, size), 0, t.next, None);
    var r := MergeHits(o, t, Location(p, size), 0, t.next, None);
    var t' := r.0;
    forall i: SetId, j: SetId | Live(t', i) && Live(t', j) && i != j ensures Apart(o, t', p, size, i, j) {
      assert Apart(o, t', p, s0, i, j);
      forall x, y | x in t'.sets[i].ptrs && y in t'.sets[j].ptrs
        ensures o.alias(x, SizeAs(t', p, size, x), y, SizeAs(t', p, size, y)) == NoAlias
      {
        if x == p {
          GrownAlone(o, t, R, R', p, s0, size, i, j, y);
        } else if y == p {
          GrownAlone(o, t, R, R', p, s0, size, j, i, x);
        }
      }
    }
    forall i: SetId | Live(t', i) ensures Represented(o, t', i) {
    }
  }

  /** A pointer `y` outside the set `i` of the grown pointer does not alias it. */
  lemma GrownAlone(o: Oracle, t: Tracker, R: Roots, R': Roots, p: Ptr, s0: nat, size: nat, i: SetId, j: SetId, y: Ptr)
    requires Lawful(o) && Good(t, R) && Loose(o, t, p, s0) && SizeOf(t, p) == size && size > 0
    requires var r := MergeHits(o, t, Location(p, size), 0, t.next, None);
      && Good(r.0, R') && ClearOf(o, r.0, r.1, p, size) && SizeOf(r.0, p) == size && FirstIsLargest(o, r.0)
      && Live(r.0, i) && Live(r.0, j) && i != j && p in r.0.sets[i].ptrs && y in r.0.sets[j].ptrs
    ensures var t' := MergeHits(o, t, Location(p, size), 0, t.next, None).0;
      y != p && o.alias(p, size, y, SizeOf(t', y)) == NoAlias && o.alias(y, SizeOf(t', y), p, size) == NoAlias
  {
    var r := MergeHits(o, t, Location(p, size), 0, t.next, None);
    assert ListOK(r.0, R', i) && ListOK(r.0, R', j);
    if !Nowhere(o, p) {
      GrownIsFound(o, t, R, p, s0, size, i);
    }
  }

  lemma LookedUpParted(o: Oracle, t: Tracker, t': Tracker, p: Ptr, s0: nat)
    requires Parted(o, t, p, s0) && OnlyLookedUp(t, t')
    ensures Parted(o, t', p, s0)
  {
    forall q ensures SizeOf(t', q) == SizeOf(t, q) {
    }
    forall i: SetId, j: SetId | Live(t', i) && Live(t', j) && i != j ensures Apart(o, t', p, s0, i, j) {
      assert SameLive(t, t', i) && SameLive(t, t', j);
      ApartSame(o, t, t', p, s0, i, j);
    }
    forall i: SetId | Live(t', i) ensures Represented(o, t', i) {
      assert SameLive(t, t', i);
      RepresentedSame(o, t, t', i);
    }
  }

  /** Adding this location makes a tracked pointer larger. */
  predicate Grows(t: Tracker, p: Ptr, size: nat) { t.any.None? && p in t.recs && size > t.recs[p].size }

  lemma KnownPointerParted(o: Oracle, t: Tracker, R: Roots, p: Ptr, size: nat)
    requires Lawful(o) && Good(t, R) && t.any.None? && p in t.recs && Parted(o, t, p, SizeOf(t, p))
    requires Grows(t, p, size) ==> FirstIsLargest(o, SetForPointer(o, t, p, size))
    ensures var t' := SetForPointer(o, t, p, size);
      Parted(o, t', p, SizeOf(t', p))
  {
    var t1 := Grow(t, p, size);
    GrowKeeps(t, R, p, size);
    if size > t.recs[p].size {
      var R' := MergeHitsKeeps(o, t1, R, Location(p, size), 0, t.next, None);
      var t2 := MergeHits(o, t1, Location(p, size), 0, t.next, None).0;
      ResolveKeeps(t2, R', p);
      LookedUpLargest(o, t2, Resolve(t2, p).0);
      GrowLoose(o, t, p, size);
      GrownParted(o, t1, R, p, t.recs[p].size, size);
      LookedUpParted(o, t2, Resolve(t2, p).0, p, size);
    } else {
      assert t1 == t;
      ResolveKeeps(t, R, p);
      LookedUpParted(o, t, Resolve(t, p).0, p, SizeOf(t, p));
    }
  }

  lemma LookedUpLargest(o: Oracle, t: Tracker, t': Tracker)
    requires OnlyLookedUp(t, t') && FirstIsLargest(o, t')
    ensures FirstIsLargest(o, t)
  {
    forall q ensures SizeOf(t', q) == SizeOf(t, q) {
    }
    forall i: SetId | Live(t, i) ensures Largest(o, t, i) {
      assert SameLive(t, t', i);
      assert Live(t', i);
    }
  }

  // ------------------------------------------------------------------------ whole runs

  /** With one live set, a may-alias set, there is nothing to keep apart. */
  lemma SaturatedParted(o: Oracle, t: Tracker, R: Roots, p: Ptr)
    requires Good(t, R) && t.any.Some?
    ensures Parted(o, t, p, SizeOf(t, p))
  {
  }

  lemma AddPointerParted(o: Oracle, t: Tracker, R: Roots, p: Ptr, size: nat, threshold: nat)
    requires Lawful(o) && Good(t, R) && Parted(o, t, p, SizeOf(t, p))
    requires Grows(t, p, size) ==> FirstIsLargest(o, AddPointer(o, t, p, size, threshold))
    ensures var t' := AddPointer(o, t, p, size, threshold);
      Parted(o, t', p, SizeOf(t', p))
  {
    var t1 := SetForPointer(o, t, p, size);
    var R1 := SetForPointerKeeps(o, t, R, p, size);
    if t1.any.None? && t1.total > threshold {
      var R' := MergeAllKeeps(o, t1, R1);
      SaturatedParted(o, MergeAll(o, t1), R', p);
    } else if t.any.Some? {
      SaturatedParted(o, t1, R1, p);
    } else if p in t.recs {
      KnownPointerParted(o, t, R, p, size);
    } else {
      NewPointerParted(o, t, R, p, size);
      NewPointerSize(o, t, R, p, size);
    }
  }

  lemma NewPointerSize(o: Oracle, t: Tracker, R: Roots, p: Ptr, size: nat)
    requires Good(t, R) && t.any.None? && p !in t.recs
    ensures SizeOf(SetForPointer(o, t, p, size), p) == size
  {
  }

  lemma AddUnknownParted(o: Oracle, t: Tracker, R: Roots, p: Ptr, inst: Inst)
    requires Lawful(o) && Good(t, R) && Parted(o, t, p, SizeOf(t, p))
    ensures var t' := AddUnknown(o, t, inst);
      Parted(o, t', p, SizeOf(t', p))
  {
    if o.accesses(inst) {
      HitsParted(o, t, R, p, SizeOf(t, p), Instruction(inst), 0, t.next, None);
      var R' := MergeHitsKeeps(o, t, R, Instruction(inst), 0, t.next, None);
      var r := MergeHits(o, t, Instruction(inst), 0, t.next, None);
      if r.1.Some? {
        InstParted(o, r.0, p, SizeOf(t, p), r.1.value, inst);
      } else {
        NewInstParted(o, t, R, p, SizeOf(t, p), inst);
      }
    }
  }

  lemma InstParted(o: Oracle, t: Tracker, p: Ptr, s0: nat, i: SetId, inst: Inst)
    requires Parted(o, t, p, s0) && Live(t, i)
    ensures Parted(o, AddInstTo(t, i, inst), p, s0)
  {
    var t' := AddInstTo(t, i, inst);
    forall a: SetId, b: SetId | Live(t', a) && Live(t', b) && a != b ensures Apart(o, t', p, s0, a, b) {
      assert Live(t, a) && Live(t, b);
      ApartSame(o, t, t', p, s0, a, b);
    }
    forall a: SetId | Live(t', a) ensures Represented(o, t', a) {
      assert Live(t, a);
      if a != i {
        RepresentedSame(o, t, t', a);
      }
    }
  }

  lemma NewInstParted(o: Oracle, t: Tracker, R: Roots, p: Ptr, s0: nat, inst: Inst)
    requires Good(t, R) && Parted(o, t, p, s0)
    ensures Parted(o, AddInstTo(NewSet(t), t.next, inst), p, s0)
  {
    var t' := AddInstTo(NewSet(t), t.next, inst);
    assert t.next !in R;
    forall a: SetId, b: SetId | Live(t', a) && Live(t', b) && a != b ensures Apart(o, t', p, s0, a, b) {
      if a != t.next && b != t.next {
        assert Live(t, a) && Live(t, b);
        ApartSame(o, t, t', p, s0, a, b);
      }
    }
    forall a: SetId | Live(t', a) ensures Represented(o, t', a) {
      if a != t.next {
        assert Live(t, a);
        RepresentedSame(o, t, t', a);
      }
    }
  }

  /** Every state of the run has the largest pointers first. */
  ghost predicate SafeRun(o: Oracle, threshold: nat, ops: seq<Op>) {
    FirstIsLargest(o, Run(o, threshold, ops)) && (ops == [] || SafeRun(o, threshold, ops[..|ops| - 1]))
  }

  /** Pointers in different live sets never alias, in any run whose states have the largest
      pointers first. */
  lemma {:induction false} RunIsDisjoint(o: Oracle, threshold: nat, ops: seq<Op>)
    requires Lawful(o) && SafeRun(o, threshold, ops)
    ensures Disjoint(o, Run(o, threshold, ops))
  {
    RunParted(o, threshold, ops, 0);
    PartedIsDisjoint(o, Run(o, threshold, ops), 0);
  }

  lemma {:induction false} RunParted(o: Oracle, threshold: nat, ops: seq<Op>, q: Ptr)
    requires Lawful(o) && SafeRun(o, threshold, ops)
    ensures Parted(o, Run(o, threshold, ops), q, SizeOf(Run(o, threshold, ops), q))
    decreases |ops|
  {
    if ops != [] {
      var before, op := ops[..|ops| - 1], ops[|ops| - 1];
      var t := Run(o, threshold, before);
      var R := RunKeeps(o, threshold, before);
      match op {
        case Pointer(p, size) =>
          RunParted(o, threshold, before, p);
          AddPointerParted(o, t, R, p, size, threshold);
          PartedFor(o, Run(o, threshold, ops), p, q);
        case Unknown(inst) =>
          RunParted(o, threshold, before, q);
          AddUnknownParted(o, t, R, q, inst);
      }
    }
  }

  // ----------------------------------------------- locations that do not change are safe

  ghost predicate FixedSizes(ops: seq<Op>) {
    forall i, j :: 0 <= i < j < |ops| && ops[i].Pointer? && ops[j].Pointer? && ops[i].p == ops[j].p ==>
      ops[j].size == ops[i].size
  }

  /** Recorded sizes only grow. */
  lemma SizesGrow(o: Oracle, t: Tracker, R: Roots, op: Op, threshold: nat, q: Ptr)
    requires Good(t, R)
    ensures var t' := Apply(o, threshold, t, op);
      SizeOf(t', q) >= SizeOf(t, q) && (op.Pointer? && op.p == q ==> SizeOf(t', q) >= op.size)
  {
    match op {
      case Pointer(p, size) =>
        PointerSizesGrow(o, t, R, p, size, q);
        var t1 := SetForPointer(o, t, p, size);
        if t1.any.None? && t1.total > threshold {
          var R1 := SetForPointerKeeps(o, t, R, p, size);
          var R2 := MergeAllKeeps(o, t1, R1);
        }
      case Unknown(inst) =>
        var R1 := AddUnknownKeeps(o, t, R, inst);
    }
  }

  lemma PointerSizesGrow(o: Oracle, t: Tracker, R: Roots, p: Ptr, size: nat, q: Ptr)
    requires Good(t, R)
    ensures var t' := SetForPointer(o, t, p, size);
      SizeOf(t', q) >= SizeOf(t, q) && (p == q ==> SizeOf(t', q) >= size)
  {
    if t.any.None? {
      if p in t.recs {
        var t1 := Grow(t, p, size);
        GrowKeeps(t, R, p, size);
        var t2, R' := t1, R;
        if size > t.recs[p].size {
          R' := MergeHitsKeeps(o, t1, R, Location(p, size), 0, t.next, None);
          t2 := MergeHits(o, t1, Location(p, size), 0, t.next, None).0;
        }
        ResolveKeeps(t2, R', p);
        assert OnlyLookedUp(t2, Resolve(t2, p).0);
      } else {
        var R' := MergeHitsKeeps(o, t, R, Location(p, size), 0, t.next, None);
      }
    }
  }

  lemma {:induction false} SizesReached(o: Oracle, threshold: nat, ops: seq<Op>, k: nat)
    requires k < |ops| && ops[k].Pointer?
    ensures SizeOf(Run(o, threshold, ops), ops[k].p) >= ops[k].size
    decreases |ops|
  {
    var before := ops[..|ops| - 1];
    var R := RunKeeps(o, threshold, before);
    SizesGrow(o, Run(o, threshold, before), R, ops[|ops| - 1], threshold, ops[k].p);
    if k < |before| {
      SizesReached(o, threshold, before, k);
    }
  }

  lemma PartedIsLargest(o: Oracle, t: Tracker, p: Ptr, s0: nat)
    requires Parted(o, t, p, s0)
    ensures FirstIsLargest(o, t)
  {
    forall i: SetId | Live(t, i) ensures Largest(o, t, i) {
      assert Represented(o, t, i);
    }
  }

  /** Only a growth can end the safety of a run. */
  lemma StepIsSafe(o: Oracle, threshold: nat, ops: seq<Op>, op: Op)
    requires Lawful(o) && SafeRun(o, threshold, ops)
    requires op.Pointer? ==> !Grows(Run(o, threshold, ops), op.p, op.size)
    ensures SafeRun(o, threshold, ops + [op])
  {
    var t := Run(o, threshold, ops);
    var R := RunKeeps(o, threshold, ops);
    assert (ops + [op])[..|ops|] == ops;
    match op {
      case Pointer(p, size) =>
        RunParted(o, threshold, ops, p);
        AddPointerParted(o, t, R, p, size, threshold);
        PartedIsLargest(o, AddPointer(o, t, p, size, threshold), p, SizeOf(AddPointer(o, t, p, size, threshold), p));
      case Unknown(inst) =>
        RunParted(o, threshold, ops, 0);
        AddUnknownParted(o, t, R, 0, inst);
        PartedIsLargest(o, AddUnknown(o, t, inst), 0, SizeOf(AddUnknown(o, t, inst), 0));
    }
  }

  /** One fixed location per pointer: every such run is safe, hence disjoint. */
  lemma {:induction false} FixedIsSafe(o: Oracle, threshold: nat, ops: seq<Op>)
    requires Lawful(o) && FixedSizes(ops)
    ensures SafeRun(o, threshold, ops) && Disjoint(o, Run(o, threshold, ops))
    decreases |ops|
  {
    if ops != [] {
      var before, op := ops[..|ops| - 1], ops[|ops| - 1];
      FixedIsSafe(o, threshold, before);
      var t := Run(o, threshold, before);
      var R := RunKeeps(o, threshold, before);
      if op.Pointer? && op.p in t.recs {
        assert Added(before, op.p);
        var k :| 0 <= k < |before| && before[k].Pointer? && before[k].p == op.p;
        SizesReached(o, threshold, before, k);
        assert ops[k] == before[k] && ops[|ops| - 1] == op;
      }
      StepIsSafe(o, threshold, before, op);
      assert before + [op] == ops;
    }
    RunIsDisjoint(o, threshold, ops);
  }
}
