/** Alias sets: which pointers and instructions of a function may touch the same memory.
    The tracker's state and its operations, as functions. */
module AliasSets {
  import opened Basics

  type Ptr = nat
  type Inst = nat
  type SetId = nat

  /** The alias analysis the tracker asks: two locations, an instruction and a location, two
      instructions; and whether an instruction touches memory at all. */
  datatype Oracle = Oracle(
    alias: (Ptr, nat, Ptr, nat) -> Alias,
    touches: (Inst, Ptr, nat) -> bool,
    interferes: (Inst, Inst) -> bool,
    accesses: Inst -> bool)

  /** One alias set.  `refs` counts who refers to it; a set that has been merged away forwards. */
  datatype ASet = ASet(forward: Option<SetId>, refs: int, may: bool, any: bool,
                       ptrs: seq<Ptr>, size: int, unknown: seq<Inst>)

  /** A tracked pointer: the set it was put into and the largest size seen. */
  datatype Rec = Rec(set_: SetId, size: nat)

  /** `order` of sets is that of their numbers; `any` is the one set of a saturated tracker. */
  datatype Tracker = Tracker(sets: map<SetId, ASet>, recs: map<Ptr, Rec>, total: int, any: Option<SetId>, next: SetId)

  const EMPTY := Tracker(map[], map[], 0, None, 0)

  const EMPTY_SET := ASet(None, 0, false, false, [], 0, [])

  function SizeOf(t: Tracker, p: Ptr): nat { if p in t.recs then t.recs[p].size else 0 }

  function Max(a: nat, b: nat): nat { if a < b then b else a }

  predicate Live(t: Tracker, i: SetId) { i in t.sets && t.sets[i].forward.None? }

  // ------------------------------------------------------------------ references

  function AddRef(t: Tracker, i: SetId): Tracker
    requires i in t.sets
  {
    t.(sets := t.sets[i := t.sets[i].(refs := t.sets[i].refs + 1)])
  }

  /** Drop a reference; the last one removes the set, which drops its own reference in turn. */
  function DropRef(t: Tracker, i: SetId): Tracker
    requires i in t.sets
    decreases |t.sets|
  {
    var s := t.sets[i];
    if s.refs != 1 then t.(sets := t.sets[i := s.(refs := s.refs - 1)])
    else
      var t1 := t.(sets := t.sets - {i}, total := if s.may then t.total - s.size else t.total);
      assert t1.sets.Keys == t.sets.Keys - {i};
      assert |t1.sets| == |t1.sets.Keys| && |t.sets| == |t.sets.Keys|;
      if s.forward.Some? && s.forward.value in t1.sets then DropRef(t1, s.forward.value) else t1
  }

  /** How far a set can be from the end of its forwarding chain. */
  function Rank(t: Tracker, i: SetId): nat { if t.any == Some(i) then 0 else i + 1 }

  predicate Forwards(t: Tracker, i: SetId, f: SetId) {
    i in t.sets && t.sets[i].forward == Some(f) && f in t.sets && Rank(t, f) < Rank(t, i)
  }

  /** Follow the forwarding chain to its end, and make every set on it forward there directly. */
  function Forwarded(t: Tracker, i: SetId): (Tracker, SetId)
    requires i in t.sets
    decreases Rank(t, i)
  {
    var s := t.sets[i];
    if s.forward.None? || !Forwards(t, i, s.forward.value) then (t, i)
    else
      var f := s.forward.value;
      var (t1, d) := Forwarded(t, f);
      if d == f || d !in t1.sets || f !in t1.sets || i !in t1.sets then (t1, d)
      else
        var t2 := AddRef(t1, d);
        (DropRef(t2.(sets := t2.sets[i := t2.sets[i].(forward := Some(d))]), f), d)
  }

  /** The live set of a tracked pointer; its record is brought up to date. */
  function Resolve(t: Tracker, p: Ptr): (Tracker, SetId)
    requires p in t.recs && t.recs[p].set_ in t.sets
  {
    var old_ := t.recs[p].set_;
    if t.sets[old_].forward.None? then (t, old_)
    else
      var (t1, d) := Forwarded(t, old_);
      if d !in t1.sets || old_ !in t1.sets || p !in t1.recs then (t1, d)
      else
        var t2 := AddRef(t1, d);
        (DropRef(t2.(recs := t2.recs[p := t2.recs[p].(set_ := d)]), old_), d)
  }

  // ---------------------------------------------------------------------- merging

  /** Two must-alias sets stay one if their first pointers must alias. */
  predicate StaysMust(o: Oracle, t: Tracker, d: SetId, s: SetId)
    requires d in t.sets && s in t.sets
  {
    var D, S := t.sets[d], t.sets[s];
    && !D.may && !S.may && D.ptrs != [] && S.ptrs != []
    && o.alias(D.ptrs[0], SizeOf(t, D.ptrs[0]), S.ptrs[0], SizeOf(t, S.ptrs[0])) == MustAlias
  }

  /** Merge set `s` into set `d`; `s` then forwards to `d`. */
  function MergeSetIn(o: Oracle, t: Tracker, d: SetId, s: SetId): Tracker
    requires d in t.sets && s in t.sets && d != s
  {
    var D, S := t.sets[d], t.sets[s];
    var may := !StaysMust(o, t, d, s);
    var grow := (if may && !D.may then D.size else 0) + (if may && !S.may then S.size else 0);
    var refs := D.refs + 1 + (if D.unknown == [] && S.unknown != [] then 1 else 0);
    var D' := D.(may := may, refs := refs, ptrs := D.ptrs + S.ptrs, size := D.size + S.size,
      unknown := D.unknown + S.unknown);
    var S' := S.(forward := Some(d), ptrs := [], size := 0, unknown := []);
    var t' := t.(sets := t.sets[d := D'][s := S'], total := t.total + grow);
    if S.unknown != [] then DropRef(t', s) else t'
  }

  /** What is looked for among the sets: a location, or an instruction without one. */
  datatype Query = Location(p: Ptr, size: nat) | Instruction(inst: Inst)

  predicate AliasesPointer(o: Oracle, t: Tracker, i: SetId, p: Ptr, size: nat)
    requires i in t.sets
  {
    var s := t.sets[i];
    if s.any then true
    else if !s.may then s.ptrs != [] && o.alias(s.ptrs[0], SizeOf(t, s.ptrs[0]), p, size) != NoAlias
    else
      || (exists k :: 0 <= k < |s.ptrs| && o.alias(p, size, s.ptrs[k], SizeOf(t, s.ptrs[k])) != NoAlias)
      || (exists k :: 0 <= k < |s.unknown| && o.touches(s.unknown[k], p, size))
  }

  predicate AliasesUnknownInst(o: Oracle, t: Tracker, i: SetId, inst: Inst)
    requires i in t.sets
  {
    var s := t.sets[i];
    || s.any
    || (exists k :: 0 <= k < |s.unknown| && (o.interferes(s.unknown[k], inst) || o.interferes(inst, s.unknown[k])))
    || (exists k :: 0 <= k < |s.ptrs| && o.touches(inst, s.ptrs[k], SizeOf(t, s.ptrs[k])))
  }

  predicate Hits(o: Oracle, t: Tracker, i: SetId, q: Query) {
    && Live(t, i)
    && match q
       case Location(p, size) => AliasesPointer(o, t, i, p, size)
       case Instruction(inst) => AliasesUnknownInst(o, t, i, inst)
  }

  /** Merge all sets numbered from `i` to `n` that the query hits into the first of them. */
  function MergeHits(o: Oracle, t: Tracker, q: Query, i: SetId, n: SetId, found: Option<SetId>): (Tracker,
                     Option<SetId>)
    decreases n - i
  {
    if i >= n then (t, found)
    else if !Hits(o, t, i, q) then MergeHits(o, t, q, i + 1, n, found)
    else
      match found
      case None => MergeHits(o, t, q, i + 1, n, Some(i))
      case Some(f) =>
        if f !in t.sets || f == i then (t, found)
        else MergeHits(o, MergeSetIn(o, t, f, i), q, i + 1, n, found)
  }

  // ----------------------------------------------------------------------- adding

  function NewSet(t: Tracker): Tracker {
    t.(sets := t.sets[t.next := EMPTY_SET], next := t.next + 1)
  }

  /** Put pointer `p`, not tracked yet, into set `i`. */
  function AddToSet(o: Oracle, t: Tracker, i: SetId, p: Ptr, size: nat): Tracker
    requires i in t.sets
  {
    var s := t.sets[i];
    var checked := !s.may && s.ptrs != [];
    var must := checked && o.alias(s.ptrs[0], SizeOf(t, s.ptrs[0]), p, size) == MustAlias;
    var may := s.may || (checked && !must);
    // the first pointer of a must-alias set keeps the largest size
    var recs := if must && s.ptrs[0] in t.recs
                then t.recs[s.ptrs[0] := t.recs[s.ptrs[0]].(size := Max(t.recs[s.ptrs[0]].size, size))] else t.recs;
    t.(recs := recs[p := Rec(i, size)],
       sets := t.sets[i := s.(may := may, ptrs := s.ptrs + [p], size := s.size + 1, refs := s.refs + 1)],
       total := t.total + (if may && !s.may then s.size else 0) + (if may then 1 else 0))
  }

  function Grow(t: Tracker, p: Ptr, size: nat): Tracker
    requires p in t.recs
  {
    t.(recs := t.recs[p := t.recs[p].(size := Max(t.recs[p].size, size))])
  }

  /** The set a pointer belongs to; the pointer is added if it is new. */
  function SetForPointer(o: Oracle, t: Tracker, p: Ptr, size: nat): Tracker {
    if t.any.Some? then
      if p in t.recs then Grow(t, p, size)
      else if t.any.value in t.sets then AddToSet(o, t, t.any.value, p, size)
      else t
    else if p in t.recs then
      var t1 := Grow(t, p, size);
      var t2 := if size > t.recs[p].size then MergeHits(o, t1, Location(p, size), 0, t.next, None).0 else t1;
      if p in t2.recs && t2.recs[p].set_ in t2.sets then Resolve(t2, p).0 else t2
    else
      var (t1, found) := MergeHits(o, t, Location(p, size), 0, t.next, None);
      if found.Some? && found.value in t1.sets then AddToSet(o, t1, found.value, p, size)
      else AddToSet(o, NewSet(t1), t1.next, p, size)
  }

  /** One step of merging everything into the saturated set `a`. */
  function Absorb(o: Oracle, t: Tracker, i: SetId, a: SetId): Tracker
    requires i in t.sets && a in t.sets && i != a
  {
    var s := t.sets[i];
    if s.forward.Some? then
      var f := s.forward.value;
      var t1 := AddRef(t.(sets := t.sets[i := s.(forward := Some(a))]), a);
      if f in t1.sets then DropRef(t1, f) else t1
    else MergeSetIn(o, t, a, i)
  }

  function AbsorbFrom(o: Oracle, t: Tracker, i: SetId, a: SetId): Tracker
    decreases a - i
  {
    if i >= a then t
    else if i in t.sets && a in t.sets then AbsorbFrom(o, Absorb(o, t, i, a), i + 1, a)
    else AbsorbFrom(o, t, i + 1, a)
  }

  /** Saturation: a new set that is taken to alias anything absorbs all others. */
  function MergeAll(o: Oracle, t: Tracker): Tracker {
    var a := t.next;
    var t1 := NewSet(t);
    var t2 := t1.(any := Some(a), sets := t1.sets[a := EMPTY_SET.(may := true, any := true)]);
    AbsorbFrom(o, t2, 0, a)
  }

  function AddPointer(o: Oracle, t: Tracker, p: Ptr, size: nat, threshold: nat): Tracker {
    var t1 := SetForPointer(o, t, p, size);
    if t1.any.None? && t1.total > threshold then MergeAll(o, t1) else t1
  }

  function AddInstTo(t: Tracker, i: SetId, inst: Inst): Tracker
    requires i in t.sets
  {
    var s := t.sets[i];
    t.(sets := t.sets[i := s.(may := true, unknown := s.unknown + [inst],
      refs := s.refs + (if s.unknown == [] then 1 else 0))])
  }

  function AddUnknown(o: Oracle, t: Tracker, inst: Inst): Tracker {
    if !o.accesses(inst) then t
    else
      var (t1, found) := MergeHits(o, t, Instruction(inst), 0, t.next, None);
      if found.Some? && found.value in t1.sets then AddInstTo(t1, found.value, inst)
      else AddInstTo(NewSet(t1), t1.next, inst)
  }

  /** A run of the tracker. */
  datatype Op = Pointer(p: Ptr, size: nat) | Unknown(inst: Inst)

  function Apply(o: Oracle, threshold: nat, t: Tracker, op: Op): Tracker {
    match op
    case Pointer(p, size) => AddPointer(o, t, p, size, threshold)
    case Unknown(inst) => AddUnknown(o, t, inst)
  }

  function Run(o: Oracle, threshold: nat, ops: seq<Op>): Tracker {
    if ops == [] then EMPTY else Apply(o, threshold, Run(o, threshold, ops[..|ops| - 1]), ops[|ops| - 1])
  }
}
