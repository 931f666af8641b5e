/** A chain of address computations as a base, constant offsets and scaled variables. */
module GepPointers {
  import opened Modular
  import opened GepDecomposition

  // ---------------------------------------------------------------------- addresses

  /** One step into an aggregate: a member at an offset, or an element of some size. */
  datatype Index = Field(offset: nat) | Element(size: nat, index: Expr)

  /** `Same` is whatever has the address of its operand: a cast, an alias, a call that returns
      its argument.  An element computation over an unsized type is not looked into. */
  datatype Ptr = Root(id: nat) | Same(p: Ptr) | Gep(base: Ptr, sized: bool, indices: seq<Index>)

  /** Indices are signed. */
  function Signed(e: Expr, w: nat, env: Env): int
    requires w > 0
  {
    Wrap(Eval(e, w, env), w)
  }

  function IndexOffset(x: Index, w: nat, env: Env): int
    requires w > 0
  {
    match x case Field(o) => o case Element(size, e) => size * Signed(e, w, env)
  }

  function Offsets(xs: seq<Index>, w: nat, env: Env): int
    requires w > 0
  {
    if xs == [] then 0 else IndexOffset(xs[0], w, env) + Offsets(xs[1..], w, env)
  }

  /** The address before it is cut to the width of a pointer. */
  function Address(p: Ptr, w: nat, env: Env, at: nat -> int): int
    requires w > 0
  {
    match p
    case Root(id) => at(id)
    case Same(q) => Address(q, w, env, at)
    case Gep(b, _, xs) => Address(b, w, env, at) + Offsets(xs, w, env)
  }

  const MAX_LOOKUP: nat := 6

  predicate LooksThrough(p: Ptr) { p.Same? || (p.Gep? && p.sized) }

  /** What a pointer is built on, after at most `n` steps. */
  function Underlying(p: Ptr, n: nat): Ptr {
    if n == 0 || !LooksThrough(p) then p else Underlying(if p.Same? then p.p else p.base, n - 1)
  }

  function Depth(p: Ptr): nat {
    if !LooksThrough(p) then 0 else 1 + Depth(if p.Same? then p.p else p.base)
  }

  // ------------------------------------------------------------------- decomposition

  /** A variable, the extension that makes it as wide as a pointer, and its factor. */
  datatype Variable = Variable(v: Expr, zext: nat, sext: nat, scale: int)

  datatype Decomposed = Decomposed(base: Ptr, structOffset: int, otherOffset: int, vars: seq<Variable>)

  /** A number of `n` bits, first sign extended by `sext` bits and then zero extended: what it
      counts as in a signed address computation. */
  function Extend(u: int, n: nat, zext: nat, sext: nat): int
    requires n > 0
  {
    if zext == 0 then Wrap(u, n) else CongMod(Wrap(u, n), Pow2(n + sext)); Wrap(u, n) % Pow2(n + sext)
  }

  function ValueOf(v: Expr, zext: nat, sext: nat, w: nat, env: Env): int {
    if w <= zext + sext then 0 else Extend(Eval(v, w - zext - sext, env), w - zext - sext, zext, sext)
  }

  function Sum(vs: seq<Variable>, w: nat, env: Env): int {
    if vs == [] then 0
    else
      var x := vs[|vs| - 1];
      Sum(vs[..|vs| - 1], w, env) + x.scale * ValueOf(x.v, x.zext, x.sext, w, env)
  }

  /** No variable has to be extended. */
  predicate PointerWide(vs: seq<Variable>) { forall i :: 0 <= i < |vs| ==> vs[i].zext == 0 && vs[i].sext == 0 }

  /** Some entry is of this value. */
  ghost predicate Entry(vs: seq<Variable>, v: Expr) { exists j :: 0 <= j < |vs| && vs[j].v == v }

  /** The value is what the walk into some index stops at. */
  ghost predicate Walked(known: KnownZero, xs: seq<Index>, v: Expr, w: nat) {
    exists k :: 0 <= k < |xs| && xs[k].Element? && GetLinear(known, xs[k].index, w, 0).v == v
  }

  /** So it is with an index of one of the first `n` steps of the chain. */
  ghost predicate Reached(known: KnownZero, p: Ptr, v: Expr, w: nat, n: nat) {
    && n > 0 && LooksThrough(p)
    && ((p.Gep? && Walked(known, p.indices, v, w)) || Reached(known, if p.Same? then p.p else p.base, v, w, n - 1))
  }

  predicate SameKey(x: Variable, y: Variable) { x.v == y.v && x.zext == y.zext && x.sext == y.sext }

  /** No variable has two entries. */
  predicate OneEntryEach(vs: seq<Variable>) { forall i, j :: 0 <= i < j < |vs| ==> !SameKey(vs[i], vs[j]) }

  function Erase(vs: seq<Variable>, i: nat): seq<Variable>
    requires i < |vs|
  {
    vs[..i] + vs[i + 1..]
  }

  lemma SumPush(vs: seq<Variable>, x: Variable, w: nat, env: Env)
    ensures Sum(vs + [x], w, env) == Sum(vs, w, env) + x.scale * ValueOf(x.v, x.zext, x.sext, w, env)
  {
    assert (vs + [x])[..|vs|] == vs;
  }

  lemma {:induction false} SumErase(vs: seq<Variable>, i: nat, w: nat, env: Env)
    requires i < |vs|
    ensures Sum(Erase(vs, i), w, env) ==
      Sum(vs, w, env) - vs[i].scale * ValueOf(vs[i].v, vs[i].zext, vs[i].sext, w, env)
    decreases |vs|
  {
    var n := |vs| - 1;
    if i == n {
      assert Erase(vs, i) == vs[..n];
    } else {
      SumErase(vs[..n], i, w, env);
      assert Erase(vs, i)[..n - 1] == Erase(vs[..n], i);
    }
  }

  lemma {:induction false} SumReplace(vs: seq<Variable>, i: nat, x: Variable, w: nat, env: Env)
    requires i < |vs|
    ensures Sum(vs[i := x], w, env)
         == Sum(vs, w, env) + x.scale * ValueOf(x.v, x.zext, x.sext, w, env)
            - vs[i].scale * ValueOf(vs[i].v, vs[i].zext, vs[i].sext, w, env)
    decreases |vs|
  {
    var n, us := |vs| - 1, vs[i := x];
    if i == n {
      assert us[..n] == vs[..n];
    } else {
      SumReplace(vs[..n], i, x, w, env);
      assert us[..n] == vs[..n][i := x];
    }
  }

  // ----------------------------------------------------------- cutting to pointer width

  /** Shift the unused bits out at the top and back in, in 64-bit arithmetic. */
  function AdjustToPointerSize(x: int, w: nat): int
    requires 0 < w <= 64
  {
    Wrap(x * Pow2(64 - w), 64) / Pow2(64 - w)
  }

  lemma AdjustIsWrap(x: int, w: nat)
    requires 0 < w <= 64
    ensures AdjustToPointerSize(x, w) == Wrap(x, w)
  {
    var s := Pow2(64 - w);
    Pow2Add(64 - w, w);
    Pow2Add(64 - w, w - 1);
    WrapCong(x * s, 64);
    var q := ShiftBack(x, Wrap(x * s, 64), s, Pow2(w - 1));
    WrapCong(x, w);
    CongSym(q, x, Pow2(w));
    CongTrans(Wrap(x, w), x, q, Pow2(w));
    CongClose(Wrap(x, w), q, Pow2(w));
  }

  /** A number of `h * s` values each way, shifted down by `s`. */
  lemma ShiftBack(x: int, y: int, s: int, h: int) returns (q: int)
    requires s > 0 && h > 0 && Cong(y, x * s, s * (2 * h)) && -(s * h) <= y < s * h
    ensures y / s == q && Cong(q, x, 2 * h) && -h <= q < h
  {
    var k :| Times(k, s * (2 * h)) == y - x * s;
    q := x + k * (2 * h);
    assert k * (s * (2 * h)) == s * (k * (2 * h));
    assert y == s * q;
    CongBy(q, x, 2 * h, k);
    DivExact(q, s);
    assert q >= h ==> s * q >= s * h;
    assert q < -h ==> s * q < s * (-h);
  }

  lemma DivExact(q: int, s: int)
    requires s > 0
    ensures (s * q) / s == q
  {
    var d := (s * q) / s - q;
    assert d * s == -((s * q) % s);
    assert d >= 1 ==> d * s >= s;
    assert d <= -1 ==> d * s <= -s;
  }

  // ------------------------------------------------------------------- what is kept

  /** No scale is zero or too wide for a pointer, and no variable has two entries. */
  ghost predicate Distinct(vs: seq<Variable>, w: nat)
    requires w > 0
  {
    && (forall i :: 0 <= i < |vs| ==> vs[i].scale != 0 && -Pow2(w - 1) <= vs[i].scale < Pow2(w - 1))
    && OneEntryEach(vs)
  }

  /** The pointer's address is the address of `v`, plus the indices `xs` still to be walked,
      plus what is collected; for every valuation that the facts are true of, in pointers of `w`
      bits. */
  ghost predicate Means(known: KnownZero, p: Ptr, v: Ptr, xs: seq<Index>, d: Decomposed, w: nat)
    requires w > 0
  {
    forall env: Env, at: nat -> int {:trigger Collected(p, v, xs, d, w, env, at)} ::
      TrueBits(known, env) ==> Collected(p, v, xs, d, w, env, at)
  }

  function Total(v: Ptr, xs: seq<Index>, d: Decomposed, w: nat, env: Env, at: nat -> int): int
    requires w > 0
  {
    Address(v, w, env, at) + Offsets(xs, w, env) + d.structOffset + d.otherOffset + Sum(d.vars, w, env)
  }

  ghost predicate Collected(p: Ptr, v: Ptr, xs: seq<Index>, d: Decomposed, w: nat, env: Env, at: nat -> int)
    requires w > 0
  {
    Cong(Address(p, w, env, at), Total(v, xs, d, w, env, at), Pow2(w))
  }

  /** Enough for a step: the total is the same for every such valuation. */
  ghost predicate Steps(known: KnownZero, v: Ptr, xs: seq<Index>, d: Decomposed, v': Ptr, xs': seq<Index>,
                        d': Decomposed, w: nat)
    requires w > 0
  {
    forall env: Env, at: nat -> int {:trigger Total(v', xs', d', w, env, at)} :: TrueBits(known, env) ==>
      Cong(Total(v, xs, d, w, env, at), Total(v', xs', d', w, env, at), Pow2(w))
  }

  lemma MeansStep(known: KnownZero, p: Ptr, v: Ptr, xs: seq<Index>, d: Decomposed, v': Ptr, xs': seq<Index>,
                  d': Decomposed, w: nat)
    requires w > 0 && Means(known, p, v, xs, d, w) && Steps(known, v, xs, d, v', xs', d', w)
    ensures Means(known, p, v', xs', d', w)
  {
    forall env: Env, at: nat -> int | TrueBits(known, env) ensures Collected(p, v', xs', d', w, env, at) {
      assert Collected(p, v, xs, d, w, env, at);
      CongTrans(Address(p, w, env, at), Total(v, xs, d, w, env, at), Total(v', xs', d', w, env, at), Pow2(w));
    }
  }

  // ---------------------------------------------------------------------- the walk

  /** `r` is the sum of `vars` and a scaled variable. */
  ghost predicate Adds(vars: seq<Variable>, v: Expr, scale: int, r: seq<Variable>, w: nat, env: Env)
    requires w > 0
  {
    Cong(Sum(vars, w, env) + scale * Signed(v, w, env), Sum(r, w, env), Pow2(w))
  }

  /** Add a scaled variable: it joins the entry it already has, if any, and an entry that comes
      to zero is dropped. */
  method AddVariable(vars: seq<Variable>, v: Expr, scale: int, w: nat) returns (r: seq<Variable>)
    requires 0 < w <= 64 && Distinct(vars, w)
    ensures Distinct(r, w) && (PointerWide(vars) ==> PointerWide(r))
    ensures forall i :: 0 <= i < |r| ==> r[i].v == v || Entry(vars, r[i].v)
    ensures forall env: Env :: Adds(vars, v, scale, r, w, env)
  {
    var i := FindVariable(vars, v);
    r := vars;
    var total := scale;
    if i < |vars| {
      total := Wrap(total + vars[i].scale, 64);
      r := Erase(vars, i);
    }
    AdjustIsWrap(total, w);
    total := AdjustToPointerSize(total, w);
    ghost var erased := r;
    if total != 0 {
      r := r + [Variable(v, 0, 0, total)];
    }
    AddedSum(vars, v, scale, i, erased, total, r, w);
    AddedDistinct(vars, v, i, erased, total, r, w);
  }

  method FindVariable(vars: seq<Variable>, v: Expr) returns (i: nat)
    ensures i <= |vars| && Missing(vars[..i], v) && (i < |vars| ==> SameKey(vars[i], Variable(v, 0, 0, 0)))
  {
    i := 0;
    while i < |vars|
      invariant 0 <= i <= |vars| && Missing(vars[..i], v)
    {
      if vars[i].v == v && vars[i].zext == 0 && vars[i].sext == 0 { return; }
      i := i + 1;
    }
  }

  /** The variable has no entry. */
  ghost predicate Missing(vs: seq<Variable>, v: Expr) {
    forall j :: 0 <= j < |vs| ==> !SameKey(vs[j], Variable(v, 0, 0, 0))
  }

  lemma AddedDistinct(vars: seq<Variable>, v: Expr, i: nat, erased: seq<Variable>, total: int, r: seq<Variable>, w: nat)
    requires w > 0 && Distinct(vars, w) && i <= |vars| && Missing(vars[..i], v)
    requires erased == if i < |vars| then Erase(vars, i) else vars
    requires i < |vars| ==> SameKey(vars[i], Variable(v, 0, 0, 0))
    requires -Pow2(w - 1) <= total < Pow2(w - 1) && r == if total == 0 then erased
      else erased + [Variable(v, 0, 0, total)]
    ensures Distinct(r, w)
  {
    if i < |vars| {
      ErasedDistinct(vars, v, i, w);
    } else {
      assert vars[..i] == vars;
    }
    if total != 0 {
      PushedDistinct(erased, v, total, w);
    }
  }

  lemma ErasedDistinct(vars: seq<Variable>, v: Expr, i: nat, w: nat)
    requires w > 0 && Distinct(vars, w) && i < |vars| && SameKey(vars[i], Variable(v, 0, 0, 0))
    ensures Distinct(Erase(vars, i), w) && Missing(Erase(vars, i), v)
  {
    var r := Erase(vars, i);
    forall j | 0 <= j < |r| ensures r[j] == vars[if j < i then j else j + 1] && !SameKey(r[j], Variable(v, 0, 0, 0)) {
      assert !SameKey(vars[if j < i then j else i], vars[if j < i then i else j + 1]);
    }
  }

  lemma PushedDistinct(vs: seq<Variable>, v: Expr, total: int, w: nat)
    requires w > 0 && Distinct(vs, w) && Missing(vs, v) && total != 0 && -Pow2(w - 1) <= total < Pow2(w - 1)
    ensures Distinct(vs + [Variable(v, 0, 0, total)], w)
  {
  }

  lemma AddedSum(vars: seq<Variable>, v: Expr, scale: int, i: nat, erased: seq<Variable>, total: int,
                 r: seq<Variable>, w: nat)
    requires 0 < w <= 64 && i <= |vars|
    requires erased == if i < |vars| then Erase(vars, i) else vars
    requires i < |vars| ==> SameKey(vars[i], Variable(v, 0, 0, 0))
    requires total == AdjustToPointerSize(if i < |vars| then Wrap(scale + vars[i].scale, 64) else scale, w)
    requires r == if total == 0 then erased else erased + [Variable(v, 0, 0, total)]
    ensures forall env: Env :: Adds(vars, v, scale, r, w, env)
  {
    forall env: Env ensures Adds(vars, v, scale, r, w, env) {
      AddedSumAt(vars, v, scale, i, erased, total, r, w, env);
    }
  }

  lemma AddedSumAt(vars: seq<Variable>, v: Expr, scale: int, i: nat, erased: seq<Variable>, total: int,
                   r: seq<Variable>, w: nat, env: Env)
    requires 0 < w <= 64 && i <= |vars|
    requires erased == if i < |vars| then Erase(vars, i) else vars
    requires i < |vars| ==> SameKey(vars[i], Variable(v, 0, 0, 0))
    requires total == AdjustToPointerSize(if i < |vars| then Wrap(scale + vars[i].scale, 64) else scale, w)
    requires r == if total == 0 then erased else erased + [Variable(v, 0, 0, total)]
    ensures Adds(vars, v, scale, r, w, env)
  {
    var prev, x := if i < |vars| then vars[i].scale else 0, Signed(v, w, env);
    MergedScale(scale, prev, i < |vars|, w);
    assert Sum(vars, w, env) == Sum(erased, w, env) + prev * x by {
      if i < |vars| { SumErase(vars, i, w, env); }
    }
    assert Sum(r, w, env) == Sum(erased, w, env) + total * x by { SumPush(erased, Variable(v, 0, 0, total), w, env); }
    MergedSum(Sum(erased, w, env), scale, prev, total, x, Pow2(w));
  }

  lemma MergedScale(scale: int, prev: int, found: bool, w: nat)
    requires 0 < w <= 64 && (!found ==> prev == 0)
    ensures Cong(AdjustToPointerSize(if found then Wrap(scale + prev, 64) else scale, w), scale + prev, Pow2(w))
  {
    var t := if found then Wrap(scale + prev, 64) else scale;
    AdjustIsWrap(t, w);
    WrapCong(t, w);
    if found {
      WordCong(scale + prev, w);
      CongTrans(Wrap(t, w), t, scale + prev, Pow2(w));
    }
  }

  lemma MergedSum(sum: int, scale: int, prev: int, total: int, x: int, m: int)
    requires Cong(total, scale + prev, m)
    ensures Cong(sum + prev * x + scale * x, sum + total * x, m)
  {
    CongSym(total, scale + prev, m);
    CongMul(scale + prev, total, x, m);
    CongRefl(sum, m);
    CongAdd(sum, sum, (scale + prev) * x, total * x, m);
    assert (scale + prev) * x == prev * x + scale * x;
  }

  /** Walk the indices of one address computation. */
  method WalkIndices(known: KnownZero, p: Ptr, v: Ptr, d: Decomposed, w: nat) returns (r: Decomposed)
    requires 0 < w <= 64 && v.Gep?
    requires Means(known, p, v, [], d, w) && Distinct(d.vars, w)
    ensures Means(known, p, v.base, [], r, w) && Distinct(r.vars, w) && r.base == d.base
    ensures PointerWide(d.vars) ==> PointerWide(r.vars)
    ensures forall i :: 0 <= i < |r.vars| ==> Entry(d.vars, r.vars[i].v) || Walked(known, v.indices, r.vars[i].v, w)
  {
    var xs, constant := v.indices, true;
    r := d;
    BeginWalk(known, v, r, w);
    MeansStep(known, p, v, [], d, v.base, xs, r, w);
    var k := 0;
    assert xs[0..] == xs;
    while k < |xs|
      invariant 0 <= k <= |xs| && Means(known, p, v.base, xs[k..], r, w) && Distinct(r.vars, w) && r.base == d.base
      invariant PointerWide(d.vars) ==> PointerWide(r.vars)
      invariant forall i :: 0 <= i < |r.vars| ==> Entry(d.vars, r.vars[i].v) || Walked(known, xs, r.vars[i].v, w)
    {
      var was := r;
      r := WalkIndex(known, v.base, xs[k..], r, w);
      constant := constant && (xs[k].Field? || xs[k].index.Const?);
      Walking(known, xs, k, d.vars, was.vars, r.vars, w);
      assert xs[k..][1..] == xs[k + 1..];
      MeansStep(known, p, v.base, xs[k..], was, v.base, xs[k + 1..], r, w);
      k := k + 1;
    }
    assert xs[k..] == [];
    if constant {
      var was := r;
      r := r.(structOffset := AdjustToPointerSize(r.structOffset, w),
        otherOffset := AdjustToPointerSize(r.otherOffset, w));
      AdjustStep(known, v.base, was, w);
      MeansStep(known, p, v.base, [], was, v.base, [], r, w);
    }
  }

  /** The next index is moved into what is collected. */
  method WalkIndex(known: KnownZero, ghost v: Ptr, xs: seq<Index>, d: Decomposed, w: nat) returns (r: Decomposed)
    requires 0 < w <= 64 && xs != [] && Distinct(d.vars, w)
    ensures Steps(known, v, xs, d, v, xs[1..], r, w) && Distinct(r.vars, w) && r.base == d.base
    ensures PointerWide(d.vars) ==> PointerWide(r.vars)
    ensures Stepped(known, xs[0], d.vars, r.vars, w)
  {
    var x := xs[0];
    if x.Field? {
      r := d.(structOffset := Wrap(d.structOffset + x.offset, 64));
      FieldStep(known, v, xs, d, w);
    } else if x.index.Const? {
      r := d.(otherOffset := Wrap(d.otherOffset + x.size * Wrap(x.index.c % Pow2(w), w), 64));
      ConstantStep(known, v, xs, d, w);
    } else {
      var l := GetLinear(known, x.index, w, 0);
      var scale := Wrap(x.size * Wrap(l.scale, w), 64);
      var vars := AddVariable(d.vars, l.v, scale, w);
      r := d.(otherOffset := Wrap(d.otherOffset + Wrap(l.offset, w) * x.size, 64), vars := vars);
      VariableStep(known, v, xs, d, r, w);
    }
  }

  /** Every entry was there, or is of the value that the walk into the index stops at. */
  ghost predicate Stepped(known: KnownZero, x: Index, before: seq<Variable>, after: seq<Variable>, w: nat) {
    forall i :: 0 <= i < |after| ==>
      Entry(before, after[i].v) || (x.Element? && GetLinear(known, x.index, w, 0).v == after[i].v)
  }

  lemma Walking(known: KnownZero, xs: seq<Index>, k: nat, start: seq<Variable>, before: seq<Variable>,
                after: seq<Variable>, w: nat)
    requires k < |xs| && Stepped(known, xs[k], before, after, w)
    requires forall i :: 0 <= i < |before| ==> Entry(start, before[i].v) || Walked(known, xs, before[i].v, w)
    ensures forall i :: 0 <= i < |after| ==> Entry(start, after[i].v) || Walked(known, xs, after[i].v, w)
  {
  }

  lemma BeginWalk(known: KnownZero, v: Ptr, d: Decomposed, w: nat)
    requires w > 0 && v.Gep?
    ensures Steps(known, v, [], d, v.base, v.indices, d, w)
  {
    forall env: Env, at: nat -> int
      ensures Cong(Total(v, [], d, w, env, at), Total(v.base, v.indices, d, w, env, at), Pow2(w)) {
      CongRefl(Total(v, [], d, w, env, at), Pow2(w));
    }
  }

  /** The index is moved into what is collected. */
  ghost predicate Absorbs(x: Index, d: Decomposed, d': Decomposed, w: nat, env: Env)
    requires w > 0
  {
    Cong(IndexOffset(x, w, env) + d.structOffset + d.otherOffset + Sum(d.vars, w, env),
      d'.structOffset + d'.otherOffset + Sum(d'.vars, w, env), Pow2(w))
  }

  lemma IndexStep(known: KnownZero, v: Ptr, xs: seq<Index>, d: Decomposed, d': Decomposed, w: nat)
    requires w > 0 && xs != [] && forall env: Env :: TrueBits(known, env) ==> Absorbs(xs[0], d, d', w, env)
    ensures Steps(known, v, xs, d, v, xs[1..], d', w)
  {
    forall env: Env, at: nat -> int | TrueBits(known, env)
      ensures Cong(Total(v, xs, d, w, env, at), Total(v, xs[1..], d', w, env, at), Pow2(w))
    {
      assert Absorbs(xs[0], d, d', w, env);
      var rest := Address(v, w, env, at) + Offsets(xs[1..], w, env);
      CongRefl(rest, Pow2(w));
      CongAdd(rest, rest, IndexOffset(xs[0], w, env) + d.structOffset + d.otherOffset + Sum(d.vars, w, env),
              d'.structOffset + d'.otherOffset + Sum(d'.vars, w, env), Pow2(w));
    }
  }

  /** A constant is added to one of the offsets in 64 bits. */
  lemma OffsetAbsorbs(i: int, a: int, b: int, w: nat)
    requires 0 < w <= 64
    ensures Cong(i + a + b, Wrap(a + i, 64) + b, Pow2(w))
  {
    WordCong(a + i, w);
    CongSym(Wrap(a + i, 64), a + i, Pow2(w));
    CongRefl(b, Pow2(w));
    CongAdd(a + i, Wrap(a + i, 64), b, b, Pow2(w));
  }

  lemma FieldStep(known: KnownZero, v: Ptr, xs: seq<Index>, d: Decomposed, w: nat)
    requires 0 < w <= 64 && xs != [] && xs[0].Field?
    ensures Steps(known, v, xs, d, v, xs[1..], d.(structOffset := Wrap(d.structOffset + xs[0].offset, 64)), w)
  {
    var d' := d.(structOffset := Wrap(d.structOffset + xs[0].offset, 64));
    forall env: Env ensures Absorbs(xs[0], d, d', w, env) {
      OffsetAbsorbs(xs[0].offset, d.structOffset, d.otherOffset + Sum(d.vars, w, env), w);
    }
    IndexStep(known, v, xs, d, d', w);
  }

  lemma ConstantStep(known: KnownZero, v: Ptr, xs: seq<Index>, d: Decomposed, w: nat)
    requires 0 < w <= 64 && xs != [] && xs[0].Element? && xs[0].index.Const?
    ensures Steps(known, v, xs, d, v, xs[1..],
      d.(otherOffset := Wrap(d.otherOffset + xs[0].size * Wrap(xs[0].index.c % Pow2(w), w), 64)), w)
  {
    var i := xs[0].size * Wrap(xs[0].index.c % Pow2(w), w);
    var d' := d.(otherOffset := Wrap(d.otherOffset + i, 64));
    forall env: Env ensures Absorbs(xs[0], d, d', w, env) {
      assert IndexOffset(xs[0], w, env) == i;
      OffsetAbsorbs(i, d.otherOffset, d.structOffset + Sum(d.vars, w, env), w);
    }
    IndexStep(known, v, xs, d, d', w);
  }

  /** A linear index multiplied out by the size of an element. */
  lemma ScaledIndex(known: KnownZero, e: Expr, size: nat, w: nat, env: Env)
    requires 0 < w <= 64 && TrueBits(known, env)
    ensures var l := GetLinear(known, e, w, 0);
      Cong(size * Signed(e, w, env),
        Wrap(size * Wrap(l.scale, w), 64) * Signed(l.v, w, env) + Wrap(l.offset, w) * size, Pow2(w))
  {
    var l := GetLinear(known, e, w, 0);
    var x, y, s := Eval(e, w, env), Eval(l.v, w, env), Wrap(l.scale, w);
    LinearIsExact(known, e, w, 0, env);
    WrapCong(x, w);
    CongTrans(Wrap(x, w), x, l.scale * y + l.offset, Pow2(w));
    WrapCong(y, w);
    WrapCong(l.scale, w);
    WrapCong(l.offset, w);
    SignedLinear(Wrap(x, w), l.scale, y, l.offset, s, Wrap(y, w), Wrap(l.offset, w), Pow2(w));
    WordCong(size * s, w);
    ScaledLinear(Wrap(x, w), s, Wrap(y, w), Wrap(l.offset, w), size, Wrap(size * s, 64), Pow2(w));
  }

  lemma SignedLinear(x: int, s: int, y: int, o: int, s': int, y': int, o': int, m: int)
    requires Cong(x, s * y + o, m) && Cong(s', s, m) && Cong(y', y, m) && Cong(o', o, m)
    ensures Cong(x, s' * y' + o', m)
  {
    CongMul2(s', s, y', y, m);
    CongAdd(s' * y', s * y, o', o, m);
    CongSym(s' * y' + o', s * y + o, m);
    CongTrans(x, s * y + o, s' * y' + o', m);
  }

  lemma ScaledLinear(x: int, s: int, y: int, o: int, size: int, sc: int, m: int)
    requires Cong(x, s * y + o, m) && Cong(sc, size * s, m)
    ensures Cong(size * x, sc * y + o * size, m)
  {
    CongMul(x, s * y + o, size, m);
    CongSym(sc, size * s, m);
    CongMul(size * s, sc, y, m);
    CongRefl(o * size, m);
    CongAdd(size * s * y, sc * y, o * size, o * size, m);
    assert (s * y + o) * size == size * s * y + o * size;
    CongTrans(size * x, size * s * y + o * size, sc * y + o * size, m);
  }

  lemma VariableStep(known: KnownZero, v: Ptr, xs: seq<Index>, d: Decomposed, d': Decomposed, w: nat)
    requires 0 < w <= 64 && xs != [] && xs[0].Element? && d'.structOffset == d.structOffset
    requires var l := GetLinear(known, xs[0].index, w, 0);
      && d'.otherOffset == Wrap(d.otherOffset + Wrap(l.offset, w) * xs[0].size, 64)
      && forall env: Env :: Adds(d.vars, l.v, Wrap(xs[0].size * Wrap(l.scale, w), 64), d'.vars, w, env)
    ensures Steps(known, v, xs, d, v, xs[1..], d', w)
  {
    var size, l := xs[0].size, GetLinear(known, xs[0].index, w, 0);
    var sc, o := Wrap(size * Wrap(l.scale, w), 64), Wrap(l.offset, w) * size;
    WordCong(d.otherOffset + o, w);
    forall env: Env | TrueBits(known, env) ensures Absorbs(xs[0], d, d', w, env) {
      assert Adds(d.vars, l.v, sc, d'.vars, w, env);
      ScaledIndex(known, xs[0].index, size, w, env);
      VariableAbsorbs(IndexOffset(xs[0], w, env), sc * Signed(l.v, w, env), o, d.otherOffset, d'.otherOffset,
                      Sum(d.vars, w, env), Sum(d'.vars, w, env), d.structOffset, Pow2(w));
    }
    IndexStep(known, v, xs, d, d', w);
  }

  lemma VariableAbsorbs(i: int, sv: int, o: int, off: int, off': int, sum: int, sum': int, rest: int, m: int)
    requires Cong(i, sv + o, m) && Cong(off', off + o, m) && Cong(sum + sv, sum', m)
    ensures Cong(i + rest + off + sum, rest + off' + sum', m)
  {
    CongRefl(rest + off + sum, m);
    CongAdd(i, sv + o, rest + off + sum, rest + off + sum, m);
    CongSym(off', off + o, m);
    CongAdd(off + o, off', sum + sv, sum', m);
    CongRefl(rest, m);
    CongAdd(off + o + (sum + sv), off' + sum', rest, rest, m);
    CongTrans(i + rest + off + sum, off + o + (sum + sv) + rest, rest + off' + sum', m);
  }

  lemma AdjustStep(known: KnownZero, v: Ptr, d: Decomposed, w: nat)
    requires 0 < w <= 64
    ensures Steps(known, v, [], d, v, [],
      d.(structOffset := AdjustToPointerSize(d.structOffset, w),
        otherOffset := AdjustToPointerSize(d.otherOffset, w)), w)
  {
    var m, s, o := Pow2(w), d.structOffset, d.otherOffset;
    var d' := d.(structOffset := AdjustToPointerSize(s, w), otherOffset := AdjustToPointerSize(o, w));
    AdjustIsWrap(s, w);
    AdjustIsWrap(o, w);
    WrapCong(s, w);
    WrapCong(o, w);
    CongSym(d'.structOffset, s, m);
    CongSym(d'.otherOffset, o, m);
    CongAdd(s, d'.structOffset, o, d'.otherOffset, m);
    forall env: Env, at: nat -> int ensures Cong(Total(v, [], d, w, env, at), Total(v, [], d', w, env, at), m) {
      var rest := Address(v, w, env, at) + Sum(d.vars, w, env);
      CongRefl(rest, m);
      CongAdd(rest, rest, s + o, d'.structOffset + d'.otherOffset, m);
    }
  }

  /** Take a pointer apart, looking through at most six casts and address computations.  What
      comes out has the address of the pointer for every valuation that the facts are true of, also
      when the walk was cut short, and `limit` says exactly when it was. */
  method Decompose(known: KnownZero, p: Ptr, w: nat) returns (d: Decomposed, limit: bool)
    requires 0 < w <= 64
    ensures Means(known, p, d.base, [], d, w) && Distinct(d.vars, w) && PointerWide(d.vars)
    ensures d.base == Underlying(p, MAX_LOOKUP)
    ensures limit <==> Depth(p) >= MAX_LOOKUP
    ensures forall i :: 0 <= i < |d.vars| ==> Reached(known, p, d.vars[i].v, w, MAX_LOOKUP)
  {
    var v := p;
    var lookup: nat := MAX_LOOKUP;
    d := Decomposed(p, 0, 0, []);
    forall env: Env, at: nat -> int ensures Collected(p, v, [], d, w, env, at) {
      CongRefl(Address(p, w, env, at), Pow2(w));
    }
    while lookup > 0 && LooksThrough(v)
      invariant lookup <= MAX_LOOKUP && Means(known, p, v, [], d, w) && Distinct(d.vars, w) && PointerWide(d.vars)
      invariant forall i :: 0 <= i < |d.vars| ==> Reached(known, p, d.vars[i].v, w, MAX_LOOKUP)
      invariant forall e :: Reached(known, v, e, w, lookup) ==> Reached(known, p, e, w, MAX_LOOKUP)
      invariant Underlying(p, MAX_LOOKUP) == Underlying(v, lookup) && Depth(p) == MAX_LOOKUP - lookup + Depth(v)
    {
      if v.Same? {
        forall env: Env, at: nat -> int | TrueBits(known, env) ensures Collected(p, v.p, [], d, w, env, at) {
          assert Collected(p, v, [], d, w, env, at);
        }
        v := v.p;
      } else {
        ghost var was := d.vars;
        d := WalkIndices(known, p, v, d, w);
        forall i | 0 <= i < |d.vars| ensures Reached(known, p, d.vars[i].v, w, MAX_LOOKUP) {
          if !Entry(was, d.vars[i].v) {
            assert Reached(known, v, d.vars[i].v, w, lookup);
          }
        }
        v := v.base;
      }
      lookup := lookup - 1;
    }
    limit := lookup == 0;
    forall env: Env, at: nat -> int | TrueBits(known, env) ensures Collected(p, v, [], d.(base := v), w, env, at) {
      assert Collected(p, v, [], d, w, env, at);
    }
    d := d.(base := v);
  }
}
