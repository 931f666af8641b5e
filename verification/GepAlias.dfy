/** Deciding whether accesses through two computed addresses with a common base overlap. */
module GepAlias {
  import opened Basics
  import opened Modular
  import opened GepDecomposition
  import opened GepPointers
  import opened GepDifference
  import opened GepVerdict
  import opened GepAnswers

  // ---------------------------------------------------------------------- the answer

  /** The first two rules hold wherever addresses wrap around; the others need a difference that
      does not go around memory.  `BoundedIsWithin` says when no valuation makes it. */
  ghost predicate Reliable(vs: seq<Variable>, d: int, s: Size, t: Size, n: nat, m: nat, w: nat, env: Env)
    requires w > 0
  {
    || (vs == [] && -Pow2(w - 1) <= d < Pow2(w - 1))
    || (vs != [] && ModuloRule(vs, d, s, t))
    || (vs != [] && Within(d + Sum(vs, w, env), n, m, w))
  }

  /** Every answer is right about every pair of accesses, for every valuation that the facts are
      true of. */
  lemma VerdictIsRight(f: Facts, vs: seq<Variable>, d: int, s: Size, t: Size, a: int, n: nat, b: int, m: nat, w: nat,
                       env: Env)
    requires OnlySame(f) && TrueOf(f, env) && 0 < w <= 64 && Usable(vs, w) && Abs(d) <= WORD / 2
    requires Fits(s, n, w) && Fits(t, m, w) && Cong(a, b + d + Sum(vs, w, env), Pow2(w))
    requires Reliable(vs, d, s, t, n, m, w, env)
    ensures Right(Verdict(f, vs, d, s, t, w), a, n, b, m, w)
  {
    if vs == [] {
      ConstantIsRight(f, d, s, t, a, n, b, m, w);
    } else if ModuloRule(vs, d, s, t) {
      ModuloIsRight(vs, d, s, t, a, n, b, m, w, env);
    } else if AllPositive(f, vs, w) && d > 0 && t.Known? && t.n <= d {
      PositiveIsRight(f, vs, d, a, n, b, m, w, env);
    } else if ConstantOffsetRule(f, vs, d, s, t, w) {
      HalfWord(w);
      ConstantOffsetIsRight(f, vs, d, s, t, a, n, b, m, w, env);
    }
  }

  /** The same, with a bound that a caller can check beforehand; for variables narrower than a
      pointer, or for few that are as wide. */
  lemma BoundedVerdictIsRight(f: Facts, vs: seq<Variable>, d: int, s: Size, t: Size, a: int, n: nat, b: int, m: nat,
                              w: nat, env: Env)
    requires OnlySame(f) && TrueOf(f, env) && 0 < w <= 64 && Usable(vs, w) && vs != []
    requires Fits(s, n, w) && Fits(t, m, w) && Cong(a, b + d + Sum(vs, w, env), Pow2(w))
    requires Abs(d) <= WORD / 2 && Abs(d) + Span(vs, w) + n <= Pow2(w) && Abs(d) + Span(vs, w) + m <= Pow2(w)
    ensures Right(Verdict(f, vs, d, s, t, w), a, n, b, m, w)
  {
    BoundedIsWithin(vs, d, n, m, w, env);
    VerdictIsRight(f, vs, d, s, t, a, n, b, m, w, env);
  }

  lemma HalfWord(w: nat)
    requires 0 < w <= 64
    ensures Pow2(w - 1) <= WORD / 2
  {
    WordIsPow2();
    Pow2Grows(w - 1, 63);
  }

  // ------------------------------------------------------------ offsets wider than a pointer

  /** Without variables and with known sizes, the answer is right exactly when the offset fits a
      pointer, or cut to a pointer still keeps the accesses apart. */
  lemma ConstantIsRightExactly(f: Facts, d: int, a: int, n: nat, b: int, m: nat, w: nat)
    requires w > 0 && Fits(Known(n), n, w) && Fits(Known(m), m, w) && Cong(a, b + d, Pow2(w))
    ensures Right(Verdict(f, [], d, Known(n), Known(m), w), a, n, b, m, w)
       <==> (-Pow2(w - 1) <= d < Pow2(w - 1) || FarApart(Wrap(d, w), n, m))
  {
    var e := Wrap(d, w);
    if -Pow2(w - 1) <= d < Pow2(w - 1) {
      ConstantIsRight(f, d, Known(n), Known(m), a, n, b, m, w);
    } else {
      WrapCong(d, w);
      CongSym(e, d, Pow2(w));
      CongRefl(b, Pow2(w));
      CongAdd(b, b, d, e, Pow2(w));
      CongTrans(a, b + d, b + e, Pow2(w));
      ConstantIsRight(f, e, Known(n), Known(m), a, n, b, m, w);
      assert Verdict(f, [], d, Known(n), Known(m), w) == NoAlias;
      if e == 0 {
        assert Meet(a, 0, b, 0, w);
        assert Overlap(a, n, b, m, w);
      }
    }
  }

  /** A member half the memory away, and an element half the memory back. */
  const EXAMPLE_HALVES := [Field(0x8000_0000), Element(1, Const(0x8000_0000))]

  /** Member and element offsets are cut to a pointer one by one but not their sum: with 32-bit
      pointers two offsets of half the memory each cancel out, and the access is answered to be
      apart from itself. */
  lemma SumOfOffsetsIsNotCut(f: Facts, env: Env, at: nat -> int)
    ensures var p, q := Gep(Root(0), true, EXAMPLE_HALVES), Root(0);
      var d := AdjustToPointerSize(0x8000_0000, 32) + AdjustToPointerSize(-0x8000_0000, 32);
      && DifferBy(f, p, q, d, [], 32)
      && Verdict(f, [], d, Known(4), Known(4), 32) == NoAlias
      && Address(p, 32, env, at) == Address(q, 32, env, at)
      && !Right(NoAlias, Address(p, 32, env, at), 4, Address(q, 32, env, at), 4, 32)
  {
    var p, q, g := Gep(Root(0), true, EXAMPLE_HALVES), Root(0), Pow2(32);
    HalfMemoryAdjusted();
    forall env: Env, at: nat -> int
      ensures Address(p, 32, env, at) == Address(q, 32, env, at)
      ensures Cong(Address(p, 32, env, at), Address(q, 32, env, at) - 0x1_0000_0000 + Sum([], 32, env), g)
    {
      HalvesCancel(env);
      CongBy(at(0), at(0) - 0x1_0000_0000, g, 1);
    }
    CongRefl(at(0), g);
    assert Meet(at(0), 0, at(0), 0, 32);
  }

  lemma HalvesCancel(env: Env)
    ensures Offsets(EXAMPLE_HALVES, 32, env) == 0
  {
    HalfMemoryAdjusted();
    AdjustIsWrap(0x8000_0000, 32);
    assert Signed(Const(0x8000_0000), 32, env) == -0x8000_0000;
    assert EXAMPLE_HALVES[1..] == [Element(1, Const(0x8000_0000))];
  }

  lemma HalfMemoryAdjusted()
    ensures Pow2(32) == 0x1_0000_0000
    ensures AdjustToPointerSize(0x8000_0000, 32) == -0x8000_0000 == AdjustToPointerSize(-0x8000_0000, 32)
  {
    assert Pow2(8) == 256;
    Pow2Add(8, 8);
    Pow2Add(16, 16);
    assert Pow2(31) == 0x8000_0000 by { assert 2 * Pow2(31) == Pow2(32); }
    HalfAdjusted(32);
  }

  lemma HalfAdjusted(w: nat)
    requires 0 < w <= 64
    ensures AdjustToPointerSize(Pow2(w - 1), w) == -Pow2(w - 1) == AdjustToPointerSize(-Pow2(w - 1), w)
  {
    AdjustIsWrap(Pow2(w - 1), w);
    AdjustIsWrap(-Pow2(w - 1), w);
    HalfWraps(Pow2(w - 1));
  }

  lemma HalfWraps(h: int)
    requires h > 0
    ensures WrapBy(h, h) == -h == WrapBy(-h, h)
  {
    assert (h + h) % (2 * h) == 0 && (-h + h) % (2 * h) == 0;
  }

  // ---------------------------------------------------------- differences that go around memory

  /** `2 * x + 8` for a variable `x`. */
  const EXAMPLE_INDEX := Bin(2, Add, Bin(1, Mul, Leaf(0), Const(2)), Const(8))

  const EXAMPLE_VARS := [Variable(Leaf(0), 0, 0, 2)]

  /** It is known that `x`, in 64 bits, is not negative. */
  function ExampleFacts(): Facts {
    Facts((e, n, c) => false, (a, b) => a == b, (v, n) => v == Leaf(0) && n == 64, (v, n) => false)
  }

  /** The rule for positive variables answers no alias about an element `2 * x + 8` bytes after a
      pointer and the pointer itself.  It is known that `x` is not negative and that is true, and
      neither access wraps around; but the index does, and the accesses are the same. */
  lemma IndexWrapBreaksPositive(env: Env, at: nat -> int)
    requires env(0) == 0x7fff_ffff_ffff_fffc && at(0) == 0
    ensures var p, q := Gep(Root(0), true, [Element(1, EXAMPLE_INDEX)]), Root(0);
      && TrueOf(ExampleFacts(), env) && OnlySame(ExampleFacts())
      && DifferBy(ExampleFacts(), p, q, 8, EXAMPLE_VARS, 64)
      && AllPositive(ExampleFacts(), EXAMPLE_VARS, 64)
      && Verdict(ExampleFacts(), EXAMPLE_VARS, 8, Known(8), Known(8), 64) == NoAlias
      && Address(p, 64, env, at) == Address(q, 64, env, at) == 0 && Flat(0, 8, 0, 8, 64)
      && !Right(NoAlias, 0, 8, 0, 8, 64)
  {
    var p := Gep(Root(0), true, [Element(1, EXAMPLE_INDEX)]);
    WordIsPow2();
    ExampleValues(env);
    assert Offsets([Element(1, EXAMPLE_INDEX)], 64, env) == 0;
    ExampleDiffers(p);
    CongRefl(0, Pow2(64));
    assert Meet(0, 0, 0, 0, 64);
  }

  lemma ExampleValues(env: Env)
    requires env(0) == 0x7fff_ffff_ffff_fffc
    ensures Signed(Leaf(0), 64, env) == 0x7fff_ffff_ffff_fffc && Signed(EXAMPLE_INDEX, 64, env) == 0
  {
    WordIsPow2();
    assert Eval(Leaf(0), 64, env) == 0x7fff_ffff_ffff_fffc;
    assert Eval(Bin(1, Mul, Leaf(0), Const(2)), 64, env) == 2 * 0x7fff_ffff_ffff_fffc;
    assert Eval(EXAMPLE_INDEX, 64, env) == 0;
    WrapId(0x7fff_ffff_ffff_fffc, 64);
    WrapId(0, 64);
  }

  lemma ExampleDiffers(p: Ptr)
    requires p == Gep(Root(0), true, [Element(1, EXAMPLE_INDEX)])
    ensures DifferBy(ExampleFacts(), p, Root(0), 8, EXAMPLE_VARS, 64)
  {
    forall env: Env, at: nat -> int | TrueOf(ExampleFacts(), env) && SameBase(p, Root(0), 64, env, at)
      ensures Cong(Address(p, 64, env, at), Address(Root(0), 64, env, at) + 8 + Sum(EXAMPLE_VARS, 64, env), Pow2(64))
    {
      ExampleSum(env);
      CongRefl(at(0), Pow2(64));
      CongAdd(at(0), at(0), Signed(EXAMPLE_INDEX, 64, env), 8 + Sum(EXAMPLE_VARS, 64, env), Pow2(64));
      assert Offsets([Element(1, EXAMPLE_INDEX)], 64, env) == Signed(EXAMPLE_INDEX, 64, env);
    }
  }

  lemma ExampleSum(env: Env)
    requires TrueOf(ExampleFacts(), env)
    ensures Cong(Signed(EXAMPLE_INDEX, 64, env), 8 + Sum(EXAMPLE_VARS, 64, env), Pow2(64))
  {
    var known := ExampleFacts().known;
    WordIsPow2();
    assert GetLinear(known, EXAMPLE_INDEX, 64, 0) == Linear(Leaf(0), 2, 8);
    WrapId(2, 64);
    WrapId(8, 64);
    ScaledIndex(known, EXAMPLE_INDEX, 1, 64, env);
    SumPush([], EXAMPLE_VARS[0], 64, env);
    assert [] + [EXAMPLE_VARS[0]] == EXAMPLE_VARS;
  }

  // ------------------------------------------------------------------- the computation

  /** The rules in the order they are tried. */
  method Judge(f: Facts, vs: seq<Variable>, d: int, s: Size, t: Size, w: nat) returns (r: Alias)
    requires 0 < w <= 64 && Usable(vs, w)
    ensures r == Verdict(f, vs, d, s, t, w) && Answers(r, f, vs, d, s, t, w)
  {
    VerdictAnswers(f, vs, d, s, t, w);
    if vs == [] {
      if d == 0 { return MustAlias; }
      if d > 0 {
        if t.Known? { return if d < t.n then PartialAlias else NoAlias; }
      } else if s.Known? && t.Known? {
        return if -d < s.n then PartialAlias else NoAlias;
      }
      return MayAlias;
    }
    var modulo, positive := Scan(f, vs, w);
    var offset := BitAnd(Unsigned(d), modulo - 1);
    if s.Known? && t.Known? && offset >= t.n && s.n <= modulo - offset { return NoAlias; }
    if positive && d > 0 && t.Known? && t.n <= d { return NoAlias; }
    if ConstantOffsetRule(f, vs, d, s, t, w) { return NoAlias; }
    r := MayAlias;
  }

  /** One pass over the scaled variables for the modulus and the signs. */
  method Scan(f: Facts, vs: seq<Variable>, w: nat) returns (modulo: nat, positive: bool)
    requires 0 < w <= 64 && Usable(vs, w) && vs != []
    ensures modulo == Modulo(vs) > 0 && positive == AllPositive(f, vs, w)
  {
    var bits, i := 0, 0;
    positive := true;
    while i < |vs|
      invariant 0 <= i <= |vs| && bits == OrScales(vs[..i]) && positive == AllPositive(f, vs[..i], w)
    {
      bits := BitOr(bits, Unsigned(vs[i].scale));
      assert vs[..i + 1][..i] == vs[..i];
      if positive {
        positive := Positive(f, vs[i], w);
      }
      assert vs[..i + 1] == vs[..i] + [vs[i]];
      i := i + 1;
    }
    assert vs[..i] == vs;
    SomeBit(vs, w);
    LowBitTrick(bits);
    modulo := BitXor(bits, BitAnd(bits, bits - 1));
  }

  /** What the second pointer is compared from: its own base, or itself when it is no address
      computation. */
  function Anchor(p: Ptr): Ptr { if p.Gep? then Underlying(p, MAX_LOOKUP) else p }

  ghost predicate SameBase(p: Ptr, q: Ptr, w: nat, env: Env, at: nat -> int)
    requires w > 0
  {
    Cong(Address(Underlying(p, MAX_LOOKUP), w, env, at), Address(Anchor(q), w, env, at), Pow2(w))
  }

  /** The addresses differ by `d` and the variables, for every valuation that the facts are true of,
      whenever the bases are the same. */
  ghost predicate DifferBy(f: Facts, p: Ptr, q: Ptr, d: int, vs: seq<Variable>, w: nat)
    requires w > 0
  {
    forall env: Env, at: nat -> int {:trigger Address(p, w, env, at)} ::
      TrueOf(f, env) && SameBase(p, q, w, env, at) ==>
      Cong(Address(p, w, env, at), Address(q, w, env, at) + d + Sum(vs, w, env), Pow2(w))
  }

  /** The answer is right about any two accesses of the given sizes, for every valuation that the
      facts are true of and every placement of the bases that makes them the same. */
  ghost predicate Justified(f: Facts, r: Alias, p: Ptr, q: Ptr, d: int, vs: seq<Variable>, s: Size, t: Size, w: nat)
    requires w > 0
  {
    forall env: Env, at: nat -> int, n: nat, m: nat
      {:trigger Address(p, w, env, at), Fits(s, n, w), Fits(t, m, w)} ::
      && TrueOf(f, env) && SameBase(p, q, w, env, at) && Fits(s, n, w) && Fits(t, m, w)
      && Reliable(vs, d, s, t, n, m, w, env)
      ==> Right(r, Address(p, w, env, at), n, Address(q, w, env, at), m, w)
  }

  /** Compare an address computation with another pointer whose base is the same; the offset and
      the variables of the difference are returned with the answer. */
  method AliasGep(f: Facts, p: Ptr, s: Size, q: Ptr, t: Size, w: nat) returns (r: Alias, d: int, vs: seq<Variable>)
    requires 0 < w <= 64 && OnlySame(f) && p.Gep?
    ensures Justified(f, r, p, q, d, vs, s, t, w)
    ensures Depth(p) < MAX_LOOKUP && (q.Gep? ==> Depth(q) < MAX_LOOKUP) ==> DifferBy(f, p, q, d, vs, w)
    ensures Depth(p) < MAX_LOOKUP && (q.Gep? ==> Depth(q) < MAX_LOOKUP) && (q.Gep? || s.Known? || t.Known?) ==>
      r == Verdict(f, vs, d, s, t, w) && Answers(r, f, vs, d, s, t, w)
    ensures Usable(vs, w) && PointerWide(vs) && Abs(d) <= WORD / 2 && (KnowsItself(f) ==> OneEntryEach(vs))
    ensures forall i :: 0 <= i < |vs| ==>
      Reached(f.known, p, vs[i].v, w, MAX_LOOKUP) || Reached(f.known, q, vs[i].v, w, MAX_LOOKUP)
    ensures !r.MayAlias? ==> Depth(p) < MAX_LOOKUP && (q.Gep? ==> Depth(q) < MAX_LOOKUP)
    ensures !r.MayAlias? ==> r == Verdict(f, vs, d, s, t, w)
  {
    WordIsPow2();
    var one, limit1 := Decompose(f.known, p, w);
    d, vs := Wrap(one.structOffset + one.otherOffset, 64), one.vars;
    if q.Gep? {
      var two, limit2 := Decompose(f.known, q, w);
      if limit1 || limit2 { return MayAlias, d, vs; }
      d := Wrap(d - Wrap(two.structOffset + two.otherOffset, 64), 64);
      vs := GetIndexDifference(f, one.vars, two.vars, w);
      WrapDifference(one.structOffset + one.otherOffset, two.structOffset + two.otherOffset, d, w);
      TwoDiffer(f, p, q, one, two, d, vs, w);
    } else {
      if s.Unknown? && t.Unknown? && !limit1 {
        OneDiffers(f, p, q, one, d, w);
        return MayAlias, d, vs;
      }
      if limit1 { return MayAlias, d, vs; }
      OneDiffers(f, p, q, one, d, w);
    }
    r := Judge(f, vs, d, s, t, w);
    JudgedIsJustified(f, p, q, d, vs, s, t, w);
  }

  lemma JudgedIsJustified(f: Facts, p: Ptr, q: Ptr, d: int, vs: seq<Variable>, s: Size, t: Size, w: nat)
    requires 0 < w <= 64 && OnlySame(f) && Usable(vs, w) && DifferBy(f, p, q, d, vs, w) && -Pow2(63) <= d <= Pow2(63)
    ensures Justified(f, Verdict(f, vs, d, s, t, w), p, q, d, vs, s, t, w)
  {
    WordIsPow2();
    forall env: Env, at: nat -> int, n: nat, m: nat |
      && TrueOf(f, env) && SameBase(p, q, w, env, at) && Fits(s, n, w) && Fits(t, m, w)
      && Reliable(vs, d, s, t, n, m, w, env)
      ensures Right(Verdict(f, vs, d, s, t, w), Address(p, w, env, at), n, Address(q, w, env, at), m, w)
    {
      VerdictIsRight(f, vs, d, s, t, Address(p, w, env, at), n, Address(q, w, env, at), m, w, env);
    }
  }

  lemma CollectedIs(known: KnownZero, p: Ptr, one: Decomposed, w: nat, env: Env, at: nat -> int)
    requires w > 0 && Means(known, p, one.base, [], one, w) && TrueBits(known, env)
    ensures Cong(Address(p, w, env, at),
      Address(one.base, w, env, at) + (one.structOffset + one.otherOffset) + Sum(one.vars, w, env), Pow2(w))
  {
    assert Collected(p, one.base, [], one, w, env, at);
  }

  lemma OneDiffers(f: Facts, p: Ptr, q: Ptr, one: Decomposed, d: int, w: nat)
    requires 0 < w <= 64 && !q.Gep? && Means(f.known, p, one.base, [], one, w) && one.base == Underlying(p, MAX_LOOKUP)
    requires d == Wrap(one.structOffset + one.otherOffset, 64)
    ensures DifferBy(f, p, q, d, one.vars, w)
  {
    var c := one.structOffset + one.otherOffset;
    WordCong(c, w);
    forall env: Env, at: nat -> int | TrueOf(f, env) && SameBase(p, q, w, env, at)
      ensures Cong(Address(p, w, env, at), Address(q, w, env, at) + d + Sum(one.vars, w, env), Pow2(w))
    {
      CollectedIs(f.known, p, one, w, env, at);
      CongRefl(Sum(one.vars, w, env), Pow2(w));
      Recombine(Address(p, w, env, at), Address(one.base, w, env, at), c, Sum(one.vars, w, env),
                Address(q, w, env, at), d, Sum(one.vars, w, env), Pow2(w));
    }
  }

  /** Replace base, offset and sum by congruent ones. */
  lemma Recombine(a: int, base: int, c: int, sum: int, base': int, c': int, sum': int, m: int)
    requires Cong(a, base + c + sum, m) && Cong(base, base', m) && Cong(c', c, m) && Cong(sum, sum', m)
    ensures Cong(a, base' + c' + sum', m)
  {
    CongSym(c', c, m);
    CongAdd(base, base', c, c', m);
    CongAdd(base + c, base' + c', sum, sum', m);
    CongTrans(a, base + c + sum, base' + c' + sum', m);
  }

  lemma TwoDiffer(f: Facts, p: Ptr, q: Ptr, one: Decomposed, two: Decomposed, d: int, vs: seq<Variable>, w: nat)
    requires w > 0 && q.Gep? && Means(f.known, p, one.base, [], one, w) && Means(f.known, q, two.base, [], two, w)
    requires one.base == Underlying(p, MAX_LOOKUP) && two.base == Underlying(q, MAX_LOOKUP)
    requires Cong(d, (one.structOffset + one.otherOffset) - (two.structOffset + two.otherOffset), Pow2(w))
    requires Differs(one.vars, two.vars, vs, w)
    ensures DifferBy(f, p, q, d, vs, w)
  {
    forall env: Env, at: nat -> int | TrueOf(f, env) && SameBase(p, q, w, env, at)
      ensures Cong(Address(p, w, env, at), Address(q, w, env, at) + d + Sum(vs, w, env), Pow2(w))
    {
      TwoDifferAt(f, p, q, one, two, d, vs, w, env, at);
    }
  }

  lemma TwoDifferAt(f: Facts, p: Ptr, q: Ptr, one: Decomposed, two: Decomposed, d: int, vs: seq<Variable>, w: nat,
                    env: Env, at: nat -> int)
    requires w > 0 && q.Gep? && Means(f.known, p, one.base, [], one, w) && Means(f.known, q, two.base, [], two, w)
    requires one.base == Underlying(p, MAX_LOOKUP) && two.base == Underlying(q, MAX_LOOKUP)
    requires Cong(d, (one.structOffset + one.otherOffset) - (two.structOffset + two.otherOffset), Pow2(w))
    requires Differs(one.vars, two.vars, vs, w) && TrueOf(f, env) && SameBase(p, q, w, env, at)
    ensures Cong(Address(p, w, env, at), Address(q, w, env, at) + d + Sum(vs, w, env), Pow2(w))
  {
    CollectedIs(f.known, p, one, w, env, at);
    CollectedIs(f.known, q, two, w, env, at);
    Subtract(Address(p, w, env, at), Address(one.base, w, env, at), one.structOffset + one.otherOffset,
      Sum(one.vars, w, env), Address(q, w, env, at), Address(two.base, w, env, at),
      two.structOffset + two.otherOffset, Sum(two.vars, w, env), d, Sum(vs, w, env), Pow2(w));
  }

  lemma WrapDifference(x: int, y: int, d: int, w: nat)
    requires 0 < w <= 64 && d == Wrap(Wrap(x, 64) - Wrap(y, 64), 64)
    ensures Cong(d, x - y, Pow2(w))
  {
    var x', y' := Wrap(x, 64), Wrap(y, 64);
    WordCong(x, w);
    WordCong(y, w);
    CongNeg(y', y, Pow2(w));
    CongAdd(x', x, -y', -y, Pow2(w));
    WordCong(x' - y', w);
    CongTrans(Wrap(x' - y', 64), x' - y', x - y, Pow2(w));
  }

  lemma Subtract(a: int, base: int, c: int, sum: int, b: int, base': int, c': int, sum': int, d: int, left: int, m: int)
    requires Cong(a, base + c + sum, m) && Cong(b, base' + c' + sum', m) && Cong(base, base', m)
    requires Cong(d, c - c', m) && Cong(sum - sum', left, m)
    ensures Cong(a, b + d + left, m)
  {
    CongRefl(c + sum, m);
    CongAdd(base, base', c + sum, c + sum, m);
    CongTrans(a, base + c + sum, base' + c + sum, m);
    CongSym(b, base' + c' + sum', m);
    CongRefl(c - c' + sum - sum', m);
    CongAdd(base' + c' + sum', b, c - c' + sum - sum', c - c' + sum - sum', m);
    CongTrans(a, base' + c + sum, b + (c - c') + (sum - sum'), m);
    CongRefl(b, m);
    Recombine(a, b, c - c', sum - sum', b, d, left, m);
  }
}
