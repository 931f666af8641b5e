/** The tracker's running total of pointers in may-alias sets, and saturation. */
module AliasSetCounter {
  import opened Basics
  import opened AliasSets
  import opened AliasSetRefs
  import opened AliasSetOps

  /** What set `j` contributes: its size, if it is a may-alias set. */
  function Weight(t: Tracker, j: SetId): int { if j in t.sets && t.sets[j].may then t.sets[j].size else 0 }

  function SumTo(t: Tracker, n: nat): int { if n == 0 then 0 else SumTo(t, n - 1) + Weight(t, n - 1) }

  /** By how much the running total falls short of the sizes of all may-alias sets. */
  function Gap(t: Tracker): int { SumTo(t, t.next) - t.total }

  lemma {:induction false} SumSame(t: Tracker, t': Tracker, n: nat)
    requires forall j: SetId {:trigger Weight(t', j)} :: j < n ==> Weight(t', j) == Weight(t, j)
    ensures SumTo(t', n) == SumTo(t, n)
    decreases n
  {
    if n > 0 {
      SumSame(t, t', n - 1);
    }
  }

  lemma {:induction false} SumChanges(t: Tracker, t': Tracker, n: nat, d: SetId)
    requires d < n && forall j: SetId {:trigger Weight(t', j)} :: j < n && j != d ==> Weight(t', j) == Weight(t, j)
    ensures SumTo(t', n) == SumTo(t, n) + Weight(t', d) - Weight(t, d)
    decreases n
  {
    if n - 1 == d {
      SumSame(t, t', n - 1);
    } else {
      SumChanges(t, t', n - 1, d);
    }
  }

  lemma DroppedGap(t: Tracker, t': Tracker)
    requires OnlyDropped(t, t')
    ensures Gap(t') == Gap(t)
  {
    forall j: SetId ensures Weight(t', j) == Weight(t, j) {
      if j in t'.sets {
      } else if j in t.sets {
        assert t.sets[j].size == 0;
      }
    }
    SumSame(t, t', t.next);
  }

  lemma LookedUpGap(t: Tracker, t': Tracker)
    requires OnlyLookedUp(t, t')
    ensures Gap(t') == Gap(t)
  {
    forall j: SetId ensures Weight(t', j) == Weight(t, j) {
      if j in t'.sets {
      } else if j in t.sets {
        assert t.sets[j].size == 0;
      }
    }
    SumSame(t, t', t.next);
  }

  lemma MergeGap(o: Oracle, t: Tracker, d: SetId, s: SetId, t': Tracker)
    requires d in t.sets && s in t.sets && d != s && d < t.next && s < t.next
    requires OnlyDropped(Joined(o, t, d, s), t')
    ensures Gap(t') == Gap(t)
  {
    var t1 := Joined(o, t, d, s);
    var half := t.(sets := t.sets[d := t1.sets[d]]);
    SumChanges(t, half, t.next, d);
    SumChanges(half, t1, t.next, s);
    DroppedGap(t1, t');
  }

  lemma AddGap(o: Oracle, t: Tracker, i: SetId, p: Ptr, size: nat)
    requires i in t.sets && i < t.next
    ensures Gap(AddToSet(o, t, i, p, size)) == Gap(t)
  {
    SumChanges(t, AddToSet(o, t, i, p, size), t.next, i);
  }

  lemma NewSetGap(t: Tracker)
    requires t.next !in t.sets
    ensures Gap(NewSet(t)) == Gap(t) && Gap(Saturating(t)) == Gap(t)
  {
    SumSame(t, NewSet(t), t.next);
    SumSame(t, Saturating(t), t.next);
  }

  lemma InstGap(t: Tracker, i: SetId, inst: Inst)
    requires i in t.sets && i < t.next && t.sets[i].size >= 0
    ensures Gap(AddInstTo(t, i, inst)) >= Gap(t)
  {
    SumChanges(t, AddInstTo(t, i, inst), t.next, i);
  }

  lemma {:induction false} HitsGap(o: Oracle, t: Tracker, R: Roots, q: Query, i: SetId, n: SetId, found: Option<SetId>)
    requires Good(t, R)
    requires found.Some? ==> Live(t, found.value) && found.value < i
    ensures Gap(MergeHits(o, t, q, i, n, found).0) == Gap(t)
    decreases n - i
  {
    if i < n {
      if !Hits(o, t, i, q) {
        HitsGap(o, t, R, q, i + 1, n, found);
      } else if found.None? {
        HitsGap(o, t, R, q, i + 1, n, Some(i));
      } else {
        HitGap(o, t, R, q, i, n, found.value);
        HitMerged(o, t, R, found.value, i);
        HitsGap(o, MergeSetIn(o, t, found.value, i), Rerouted(R, i, found.value), q, i + 1, n, found);
      }
    }
  }

  lemma HitGap(o: Oracle, t: Tracker, R: Roots, q: Query, i: SetId, n: SetId, f: SetId)
    requires Good(t, R) && Hits(o, t, i, q) && Live(t, f) && f < i
    ensures t.any.None? && Gap(MergeSetIn(o, t, f, i)) == Gap(t)
  {
    HitMerged(o, t, R, f, i);
    assert SetOK(t, R, f) && SetOK(t, R, i);
    MergeGap(o, t, f, i, MergeSetIn(o, t, f, i));
  }

  lemma {:induction false} AbsorbGap(o: Oracle, t: Tracker, R: Roots, i: SetId, a: SetId)
    requires Absorbing(t, R, i, a)
    ensures Gap(AbsorbFrom(o, t, i, a)) == Gap(t)
    decreases a - i
  {
    if i < a {
      if i !in t.sets {
        AbsorbGap(o, t, R, i + 1, a);
      } else {
        AbsorbOneGap(o, t, R, i, a);
        var R1 := AbsorbOne(o, t, R, i, a);
        AbsorbGap(o, Absorb(o, t, i, a), R1, i + 1, a);
      }
    }
  }

  lemma AbsorbOneGap(o: Oracle, t: Tracker, R: Roots, i: SetId, a: SetId)
    requires Absorbing(t, R, i, a) && i < a && i in t.sets
    ensures a in t.sets && Gap(Absorb(o, t, i, a)) == Gap(t)
  {
    assert SetOK(t, R, i) && SetOK(t, R, a);
    if Live(t, i) {
      AbsorbLive(o, t, R, i, a);
      MergeGap(o, t, a, i, Absorb(o, t, i, a));
    } else {
      AbsorbForwarding(o, t, R, i, a);
      var t2 := Redirected(t, i, a);
      SumSame(t, t2, t.next);
      DroppedGap(t2, Absorb(o, t, i, a));
    }
  }

  /** Adding a pointer keeps the running total as exact as it was. */
  lemma AddPointerGap(o: Oracle, t: Tracker, R: Roots, p: Ptr, size: nat, threshold: nat)
    requires Good(t, R)
    ensures Gap(AddPointer(o, t, p, size, threshold)) == Gap(t)
  {
    SetForPointerGap(o, t, R, p, size);
    var t1 := SetForPointer(o, t, p, size);
    if t1.any.None? && t1.total > threshold {
      var R1 := SetForPointerKeeps(o, t, R, p, size);
      SaturatingAbsorbs(t1, R1);
      assert t1.next !in R1;
      NewSetGap(t1);
      AbsorbGap(o, Saturating(t1), R1[t1.next := t1.next], 0, t1.next);
    }
  }

  lemma SetForPointerGap(o: Oracle, t: Tracker, R: Roots, p: Ptr, size: nat)
    requires Good(t, R)
    ensures Gap(SetForPointer(o, t, p, size)) == Gap(t)
  {
    if p in t.recs {
      var t1 := Grow(t, p, size);
      SumSame(t, t1, t.next);
      if t.any.None? {
        GrowKeeps(t, R, p, size);
        var t2, R' := t1, R;
        if size > t.recs[p].size {
          R' := MergeHitsKeeps(o, t1, R, Location(p, size), 0, t.next, None);
          HitsGap(o, t1, R, Location(p, size), 0, t.next, None);
          t2 := MergeHits(o, t1, Location(p, size), 0, t.next, None).0;
        }
        ResolveKeeps(t2, R', p);
        LookedUpGap(t2, Resolve(t2, p).0);
      }
    } else if t.any.Some? {
      assert SetOK(t, R, t.any.value);
      AddGap(o, t, t.any.value, p, size);
    } else {
      NewPointerGap(o, t, R, p, size);
    }
  }

  lemma NewPointerGap(o: Oracle, t: Tracker, R: Roots, p: Ptr, size: nat)
    requires Good(t, R) && t.any.None? && p !in t.recs
    ensures Gap(SetForPointer(o, t, p, size)) == Gap(t)
  {
    var R' := MergeHitsKeeps(o, t, R, Location(p, size), 0, t.next, None);
    HitsGap(o, t, R, Location(p, size), 0, t.next, None);
    var r := MergeHits(o, t, Location(p, size), 0, t.next, None);
    if r.1.Some? {
      assert SetOK(r.0, R', r.1.value);
      AddGap(o, r.0, r.1.value, p, size);
    } else {
      assert t.next !in R;
      NewSetGap(t);
      AddGap(o, NewSet(t), t.next, p, size);
    }
  }

  lemma AddUnknownGap(o: Oracle, t: Tracker, R: Roots, inst: Inst)
    requires Good(t, R)
    ensures Gap(AddUnknown(o, t, inst)) >= Gap(t)
  {
    if o.accesses(inst) {
      var R' := MergeHitsKeeps(o, t, R, Instruction(inst), 0, t.next, None);
      HitsGap(o, t, R, Instruction(inst), 0, t.next, None);
      var r := MergeHits(o, t, Instruction(inst), 0, t.next, None);
      if r.1.Some? {
        assert SetOK(r.0, R', r.1.value);
        InstGap(r.0, r.1.value, inst);
      } else {
        assert t.next !in R;
        NewSetGap(t);
        InstGap(NewSet(t), t.next, inst);
      }
    }
  }

  ghost predicate PointersOnly(ops: seq<Op>) { forall k :: 0 <= k < |ops| ==> ops[k].Pointer? }

  /** The running total never exceeds the sizes of the may-alias sets; as long as only pointers
      are added it is exactly their sum. */
  lemma {:induction false} TotalIsExact(o: Oracle, threshold: nat, ops: seq<Op>)
    ensures var t := Run(o, threshold, ops);
      && t.total <= SumTo(t, t.next)
      && (PointersOnly(ops) ==> t.total == SumTo(t, t.next))
    decreases |ops|
  {
    if ops != [] {
      var before, op := ops[..|ops| - 1], ops[|ops| - 1];
      TotalIsExact(o, threshold, before);
      var R := RunKeeps(o, threshold, before);
      var t := Run(o, threshold, before);
      match op {
        case Pointer(p, size) => AddPointerGap(o, t, R, p, size, threshold);
        case Unknown(inst) => AddUnknownGap(o, t, R, inst);
      }
    }
  }

  /** Once the total has passed the threshold there is one live set, and it holds every pointer
      ever added; until then, a run of pointers stays within the threshold. */
  lemma SaturationIsTotal(o: Oracle, threshold: nat, ops: seq<Op>)
    ensures var t := Run(o, threshold, ops);
      && (t.any.Some? ==>
            && (forall i: SetId :: Live(t, i) <==> t.any == Some(i))
            && (forall p :: p in t.sets[t.any.value].ptrs <==> Added(ops, p)))
      && (t.any.None? && PointersOnly(ops) ==> t.total <= threshold)
  {
    var t := Run(o, threshold, ops);
    var R := RunKeeps(o, threshold, ops);
    if t.any.Some? {
      var a := t.any.value;
      assert ListOK(t, R, a);
      forall p | p in t.recs ensures p in t.sets[a].ptrs {
        assert RecOK(t, R, p);
        RootRanks(t, R, t.recs[p].set_);
      }
    } else if PointersOnly(ops) && ops != [] {
      var R0 := RunKeeps(o, threshold, ops[..|ops| - 1]);
      var t0, op := Run(o, threshold, ops[..|ops| - 1]), ops[|ops| - 1];
      if SetForPointer(o, t0, op.p, op.size).any.None? && SetForPointer(o, t0, op.p, op.size).total > threshold {
        var R1 := SetForPointerKeeps(o, t0, R0, op.p, op.size);
        var R2 := MergeAllKeeps(o, SetForPointer(o, t0, op.p, op.size), R1);
      }
    }
  }
}
