/** The tracker as it runs, updating its sets and records in place.  Every method does what the
    function of the same name says, and uses a set only while it is there. */
module AliasSetTracking {
  import opened Basics
  import opened AliasSets
  import opened AliasSetRefs
  import opened AliasSetOps

  class AliasSetTracker {
    const o: Oracle
    const threshold: nat
    var sets: map<SetId, ASet>
    var recs: map<Ptr, Rec>
    var total: int
    var any: Option<SetId>
    var next: SetId
    ghost var roots: Roots

    ghost predicate Valid()
      reads this
    {
      Good(T(), roots)
    }

    ghost function T(): Tracker
      reads this
    {
      Tracker(sets, recs, total, any, next)
    }

    constructor (o: Oracle, threshold: nat)
      ensures this.o == o && this.threshold == threshold && T() == EMPTY && Valid()
    {
      this.o, this.threshold := o, threshold;
      sets, recs, total, any, next, roots := map[], map[], 0, None, 0, map[];
    }

    method AddRef(i: SetId)
      requires i in sets
      modifies this`sets
      ensures T() == AliasSets.AddRef(old(T()), i)
    {
      sets := sets[i := sets[i].(refs := sets[i].refs + 1)];
    }

    method DropRef(i: SetId, ghost R: Roots, ghost extra: multiset<SetId>)
      requires Inv(T(), R, extra) && AnyFull(T()) && extra[i] > 0
      modifies this`sets, this`total
      ensures old(i in sets) && T() == AliasSets.DropRef(old(T()), i)
      decreases |sets|
    {
      ghost var t := T();
      var s := sets[i];
      if s.refs != 1 {
        sets := sets[i := s.(refs := s.refs - 1)];
      } else {
        LastReference(t, R, extra, i);
        var f := s.forward.value;
        RemoveKeeps(t, R, extra, i, f, t.(sets := t.sets - {i}));
        DropLast(t, i, f);
        if s.may {
          total := total - s.size;
        }
        sets := sets - {i};
        DropRef(f, R, extra - multiset{i} + multiset{f});
      }
    }

    /** The end of a forwarding chain, which is shortened on the way. */
    method GetForwardedTarget(i: SetId, ghost R: Roots) returns (d: SetId)
      requires Inv(T(), R, multiset{}) && AnyFull(T()) && i in sets
      modifies this`sets, this`total
      ensures old(i in sets) && (T(), d) == Forwarded(old(T()), i)
      decreases Rank(T(), i)
    {
      ghost var t := T();
      assert SetOK(t, R, i);
      if sets[i].forward.None? {
        return i;
      }
      var f := sets[i].forward.value;
      ForwardedKeeps(t, R, multiset{}, f);
      d := GetForwardedTarget(f, R);
      if d != f {
        ghost var t1 := T();
        assert f in t1.sets && i in t1.sets && t1.sets[i].forward == Some(f);
        RedirectKeeps(t1, R, multiset{}, i, f, d);
        AddRef(d);
        sets := sets[i := sets[i].(forward := Some(d))];
        DropRef(f, R, multiset{} + multiset{f});
      }
    }

    method GetAliasSet(p: Ptr, ghost R: Roots) returns (d: SetId)
      requires Good(T(), R) && p in recs
      modifies this`sets, this`total, this`recs
      ensures old(p in recs && recs[p].set_ in sets) && (T(), d) == Resolve(old(T()), p)
    {
      ghost var t := T();
      assert RecOK(t, R, p);
      var old_ := recs[p].set_;
      assert SetOK(t, R, old_);
      if sets[old_].forward.None? {
        return old_;
      }
      ForwardedKeeps(t, R, multiset{}, old_);
      d := GetForwardedTarget(old_, R);
      ghost var t1 := T();
      assert old_ in t1.sets;
      RootRanks(t1, R, old_);
      assert SameLive(t, t1, old_);
      assert SetOK(t1, R, d);
      RepointLinked(t1, R, p, d);
      RepointCounted(t1, p, old_, d);
      AddRef(d);
      recs := recs[p := recs[p].(set_ := d)];
      DropRef(old_, R, multiset{old_});
    }

    method MergeSetIn(d: SetId, s: SetId, ghost R: Roots)
      requires Inv(T(), R, multiset{}) && Live(T(), d) && Live(T(), s) && d != s && Rank(T(), d) < Rank(T(), s)
      requires AnyFull(T()) || any == Some(d)
      modifies this`sets, this`total
      ensures old(d in sets && s in sets) && T() == AliasSets.MergeSetIn(o, old(T()), d, s)
    {
      ghost var t := T();
      assert SetOK(t, R, d) && SetOK(t, R, s);
      var D, S := sets[d], sets[s];
      var may := D.may || S.may;
      if !may {
        assert ListOK(t, R, d) && ListOK(t, R, s);
        var L, r := D.ptrs[0], S.ptrs[0];
        assert L in D.ptrs && r in S.ptrs;
        may := o.alias(L, recs[L].size, r, recs[r].size) != MustAlias;
      }
      if may {
        total := total + (if !D.may then D.size else 0) + (if !S.may then S.size else 0);
      }
      var refs := D.refs + 1;
      if D.unknown == [] && S.unknown != [] {
        refs := refs + 1;
      }
      sets := sets[d := D.(may := may, refs := refs, ptrs := D.ptrs + S.ptrs, size := D.size + S.size,
        unknown := D.unknown + S.unknown)];
      sets := sets[s := S.(forward := Some(d), ptrs := [], size := 0, unknown := [])];
      assert T() == Joined(o, t, d, s);
      if S.unknown != [] {
        MergeKeepsJoined(o, t, R, d, s);
        DropRef(s, Rerouted(R, s, d), multiset{s});
      }
    }

    /** Does set `i` alias the location?  A must-alias set is asked through its first pointer. */
    method AliasesPointer(i: SetId, p: Ptr, size: nat, ghost R: Roots) returns (b: bool)
      requires Good(T(), R) && Live(T(), i)
      ensures b == AliasSets.AliasesPointer(o, T(), i, p, size)
    {
      ghost var t := T();
      assert SetOK(t, R, i) && ListOK(t, R, i);
      var s := sets[i];
      if s.any {
        return true;
      }
      if !s.may {
        assert s.ptrs[0] in s.ptrs;
        return o.alias(s.ptrs[0], recs[s.ptrs[0]].size, p, size) != NoAlias;
      }
      for k := 0 to |s.ptrs|
        invariant forall j :: 0 <= j < k ==> o.alias(p, size, s.ptrs[j], SizeOf(t, s.ptrs[j])) == NoAlias
      {
        assert s.ptrs[k] in s.ptrs;
        if o.alias(p, size, s.ptrs[k], recs[s.ptrs[k]].size) != NoAlias {
          return true;
        }
      }
      for k := 0 to |s.unknown|
        invariant forall j :: 0 <= j < k ==> !o.touches(s.unknown[j], p, size)
      {
        if o.touches(s.unknown[k], p, size) {
          return true;
        }
      }
      return false;
    }

    method AliasesUnknownInst(i: SetId, inst: Inst, ghost R: Roots) returns (b: bool)
      requires Good(T(), R) && Live(T(), i)
      ensures b == AliasSets.AliasesUnknownInst(o, T(), i, inst)
    {
      ghost var t := T();
      assert ListOK(t, R, i);
      var s := sets[i];
      if s.any {
        return true;
      }
      for k := 0 to |s.unknown|
        invariant forall j :: 0 <= j < k ==> !o.interferes(s.unknown[j], inst) && !o.interferes(inst, s.unknown[j])
      {
        if o.interferes(s.unknown[k], inst) || o.interferes(inst, s.unknown[k]) {
          return true;
        }
      }
      for k := 0 to |s.ptrs|
        invariant forall j :: 0 <= j < k ==> !o.touches(inst, s.ptrs[j], SizeOf(t, s.ptrs[j]))
      {
        assert s.ptrs[k] in s.ptrs;
        if o.touches(inst, s.ptrs[k], recs[s.ptrs[k]].size) {
          return true;
        }
      }
      return false;
    }

    method Aliases(i: SetId, q: Query, ghost R: Roots) returns (b: bool)
      requires Good(T(), R)
      ensures b == Hits(o, T(), i, q)
    {
      if i !in sets || sets[i].forward.Some? {
        return false;
      }
      match q {
        case Location(p, size) => b := AliasesPointer(i, p, size, R);
        case Instruction(inst) => b := AliasesUnknownInst(i, inst, R);
      }
    }

    /** Merge all sets that may alias a location, or an instruction, into the first of them. */
    method MergeAliasSets(q: Query, ghost R: Roots) returns (found: Option<SetId>, ghost R': Roots)
      requires Good(T(), R)
      modifies this`sets, this`total
      ensures (T(), found) == MergeHits(o, old(T()), q, 0, old(next), None)
      ensures HitsMerged(o, old(T()), R, q, 0, old(next), None, R')
    {
      ghost var t := T();
      R' := MergeHitsKeeps(o, t, R, q, 0, next, None);
      found := None;
      ghost var R1 := R;
      for i := 0 to next
        invariant Good(T(), R1) && next == t.next
        invariant found.Some? ==> Live(T(), found.value) && found.value < i
        invariant MergeHits(o, t, q, 0, t.next, None) == MergeHits(o, T(), q, i, t.next, found)
      {
        var hit := Aliases(i, q, R1);
        if hit {
          if found.None? {
            found := Some(i);
          } else {
            MergeHit(found.value, i, R1);
            R1 := Rerouted(R1, i, found.value);
          }
        }
      }
    }

    method MergeHit(f: SetId, i: SetId, ghost R: Roots)
      requires Good(T(), R) && any.None? && Live(T(), f) && Live(T(), i) && f < i
      modifies this`sets, this`total
      ensures T() == AliasSets.MergeSetIn(o, old(T()), f, i) && Good(T(), Rerouted(R, i, f)) && Live(T(), f)
    {
      HitMerged(o, T(), R, f, i);
      MergeSetIn(f, i, R);
    }

    /** Append a pointer that is not tracked yet to a live set. */
    method AddToSet(i: SetId, p: Ptr, size: nat, ghost R: Roots)
      requires LinkedBut(T(), R, i) && p !in recs
      modifies this`sets, this`total, this`recs
      ensures i in old(sets) && T() == AliasSets.AddToSet(o, old(T()), i, p, size)
    {
      assert ListOK(T(), R, i);
      var s := sets[i];
      var may := s.may;
      if !s.may && s.ptrs != [] {
        var P := s.ptrs[0];
        assert P in s.ptrs;
        if o.alias(P, recs[P].size, p, size) != MustAlias {
          may := true;
          total := total + s.size;
        } else {
          recs := recs[P := recs[P].(size := Max(recs[P].size, size))];
        }
      }
      recs := recs[p := Rec(i, size)];
      sets := sets[i := s.(may := may, ptrs := s.ptrs + [p], size := s.size + 1, refs := s.refs + 1)];
      if may {
        total := total + 1;
      }
    }

    method PushSet(s: ASet) returns (i: SetId)
      modifies this`sets, this`next
      ensures i == old(next) && next == i + 1 && sets == old(sets)[i := s]
    {
      i := next;
      sets := sets[i := s];
      next := next + 1;
    }

    /** The set of a pointer, which is added if it is not tracked yet. */
    method GetAliasSetForPointer(p: Ptr, size: nat)
      requires Valid()
      modifies this`sets, this`total, this`recs, this`next, this`roots
      ensures Valid() && T() == SetForPointer(o, old(T()), p, size)
    {
      ghost var t, R := T(), roots;
      roots := SetForPointerKeeps(o, t, R, p, size);
      if any.Some? {
        if p in recs {
          recs := recs[p := recs[p].(size := Max(recs[p].size, size))];
        } else {
          LiveIsBut(t, R, any.value);
          AddToSet(any.value, p, size, R);
        }
      } else if p in recs {
        var grew := size > recs[p].size;
        GrowKeeps(t, R, p, size);
        recs := recs[p := recs[p].(size := Max(recs[p].size, size))];
        ghost var R1 := R;
        if grew {
          var found;
          found, R1 := MergeAliasSets(Location(p, size), R);
        }
        assert RecOK(T(), R1, p);
        var d := GetAliasSet(p, R1);
      } else {
        AddNewPointer(p, size, R);
      }
    }

    method AddNewPointer(p: Ptr, size: nat, ghost R: Roots)
      requires Good(T(), R) && any.None? && p !in recs
      modifies this`sets, this`total, this`recs, this`next
      ensures T() == SetForPointer(o, old(T()), p, size)
    {
      var found;
      ghost var R1;
      found, R1 := MergeAliasSets(Location(p, size), R);
      if found.Some? {
        LiveIsBut(T(), R1, found.value);
        AddToSet(found.value, p, size, R1);
      } else {
        NewSetBut(T(), R1);
        ghost var n := next;
        var i := PushSet(EMPTY_SET);
        AddToSet(i, p, size, R1[n := n]);
      }
    }

    /** Saturation: every set is merged into a new one that is taken to alias anything. */
    method MergeAllAliasSets()
      requires Valid() && any.None? && recs.Keys != {}
      modifies this`sets, this`total, this`any, this`next, this`roots
      ensures Valid() && T() == MergeAll(o, old(T()))
    {
      ghost var t, R := T(), roots;
      ghost var R' := MergeAllKeeps(o, t, R);
      SaturatingAbsorbs(t, R);
      var a := PushSet(EMPTY_SET.(may := true, any := true));
      any := Some(a);
      ghost var R1 := R[a := a];
      assert T() == Saturating(t);
      for i := 0 to a
        invariant any == Some(a) && next == a + 1 && Absorbing(T(), R1, i, a)
        invariant AbsorbFrom(o, Saturating(t), 0, a) == AbsorbFrom(o, T(), i, a)
      {
        R1 := AbsorbNext(i, a, R1);
      }
      roots := R';
    }

    /** One round of saturation; a number without a set is passed over. */
    method AbsorbNext(i: SetId, a: SetId, ghost R: Roots) returns (ghost R': Roots)
      requires Absorbing(T(), R, i, a) && i < a
      modifies this`sets, this`total
      ensures Absorbing(T(), R', i + 1, a) && AbsorbFrom(o, old(T()), i, a) == AbsorbFrom(o, T(), i + 1, a)
    {
      R' := R;
      if i in sets {
        R' := AbsorbOne(o, T(), R, i, a);
        AbsorbSet(i, a, R);
      }
    }

    method AbsorbSet(i: SetId, a: SetId, ghost R: Roots)
      requires Absorbing(T(), R, i, a) && i < a && i in sets
      modifies this`sets, this`total
      ensures old(i in sets && a in sets) && T() == Absorb(o, old(T()), i, a)
    {
      ghost var t := T();
      assert SetOK(t, R, i) && SetOK(t, R, a);
      if sets[i].forward.Some? {
        var f := sets[i].forward.value;
        assert SetOK(t, R, f);
        RedirectKeeps(t, R, multiset{}, i, f, a);
        sets := sets[i := sets[i].(forward := Some(a))];
        AddRef(a);
        assert T() == Redirected(t, i, a);
        DropRef(f, R, multiset{} + multiset{f});
      } else {
        MergeSetIn(a, i, R);
      }
    }

    /** Add a location.  When the may-alias sets have grown too large, the tracker saturates. */
    method AddPointer(p: Ptr, size: nat)
      requires Valid()
      modifies this
      ensures Valid() && T() == AliasSets.AddPointer(o, old(T()), p, size, threshold)
    {
      ghost var R := SetForPointerKeeps(o, T(), roots, p, size);
      GetAliasSetForPointer(p, size);
      if any.None? && total > threshold {
        assert p in recs;
        MergeAllAliasSets();
      }
    }

    /** Add an instruction that has no location. */
    method AddUnknown(inst: Inst)
      requires Valid()
      modifies this
      ensures Valid() && T() == AliasSets.AddUnknown(o, old(T()), inst)
    {
      ghost var t := T();
      ghost var R0 := roots;
      roots := AddUnknownKeeps(o, t, R0, inst);
      if !o.accesses(inst) {
        return;
      }
      var i := SetForUnknown(inst, R0);
      AddUnknownInst(i, inst);
    }

    /** The sets that an instruction touches become one; without any there is a new one. */
    method SetForUnknown(inst: Inst, ghost R0: Roots) returns (i: SetId)
      requires Good(T(), R0) && o.accesses(inst)
      modifies this`sets, this`total, this`next
      ensures i in sets && AddInstTo(T(), i, inst) == AliasSets.AddUnknown(o, old(T()), inst)
    {
      var found;
      ghost var R1;
      found, R1 := MergeAliasSets(Instruction(inst), R0);
      if found.Some? {
        i := found.value;
      } else {
        i := PushSet(EMPTY_SET);
      }
    }

    method AddUnknownInst(i: SetId, inst: Inst)
      requires i in sets
      modifies this`sets
      ensures old(i in sets) && T() == AddInstTo(old(T()), i, inst)
    {
      var s := sets[i];
      sets := sets[i := s.(may := true, unknown := s.unknown + [inst],
        refs := s.refs + (if s.unknown == [] then 1 else 0))];
    }
  }

  lemma MergeKeepsJoined(o: Oracle, t: Tracker, R: Roots, d: SetId, s: SetId)
    requires Inv(t, R, multiset{}) && Live(t, d) && Live(t, s) && d != s && Rank(t, d) < Rank(t, s)
    requires (AnyFull(t) || t.any == Some(d)) && t.sets[s].unknown != []
    ensures Inv(Joined(o, t, d, s), Rerouted(R, s, d), multiset{s}) && AnyFull(Joined(o, t, d, s))
  {
    JoinedSets(o, t, R, d, s);
    JoinedMembers(o, t, R, d, s);
    JoinedCounted(o, t, d, s);
  }
}
