/** What the symbolic difference of two addresses says about the accesses made through them. */
module GepVerdict {
  import opened Basics
  import opened Modular
  import opened GepDecomposition
  import opened GepPointers
  import opened GepDifference

  // ------------------------------------------------------------------ accesses and answers

  datatype Size = Known(n: nat) | Unknown

  /** An access of `n` bytes is one that `s` describes; objects take less than half of memory. */
  ghost predicate Fits(s: Size, n: nat, w: nat)
    requires w > 0
  {
    0 < n < Pow2(w - 1) && (s.Known? ==> s.n == n)
  }

  /** Some byte is in both accesses; addresses wrap around in `w` bits. */
  ghost predicate Overlap(a: int, n: nat, b: int, m: nat, w: nat) {
    exists i, j :: 0 <= i < n && 0 <= j < m && Meet(a, i, b, j, w)
  }

  ghost predicate Meet(a: int, i: int, b: int, j: int, w: nat) { Cong(a + i, b + j, Pow2(w)) }

  ghost predicate Right(r: Alias, a: int, n: nat, b: int, m: nat, w: nat) {
    match r
    case NoAlias => !Overlap(a, n, b, m, w)
    case MayAlias => true
    case PartialAlias => Overlap(a, n, b, m, w)
    case MustAlias => Meet(a, 0, b, 0, w)
  }

  // ------------------------------------------------------------------------- the rules

  function Unsigned(x: int): nat { CongMod(x, WORD); x % WORD }

  function OrScales(vs: seq<Variable>): nat {
    if vs == [] then 0 else BitOr(OrScales(vs[..|vs| - 1]), Unsigned(vs[|vs| - 1].scale))
  }

  /** The lowest bit set in any of the scales. */
  function Modulo(vs: seq<Variable>): nat {
    var x := OrScales(vs);
    if x == 0 then 0 else BitXor(x, BitAnd(x, x - 1))
  }

  predicate Positive(f: Facts, x: Variable, w: nat) {
    var n := if w <= x.zext + x.sext then 0 else w - x.zext - x.sext;
    || ((f.nonNegative(x.v, n) || x.zext > 0) && x.scale >= 0)
    || (f.negative(x.v, n) && x.zext == 0 && x.scale < 0)
  }

  predicate AllPositive(f: Facts, vs: seq<Variable>, w: nat) {
    forall x :: x in vs ==> Positive(f, x, w)
  }

  predicate ModuloRule(vs: seq<Variable>, d: int, s: Size, t: Size) {
    var m := Modulo(vs);
    m > 0 && s.Known? && t.Known? && var off := BitAnd(Unsigned(d), m - 1); off >= t.n && s.n <= m - off
  }

  function Abs(x: int): nat { if x < 0 then -x else x }

  /** Stripped of their extensions, the variables are the same one but for a constant. */
  predicate SameButConstant(f: Facts, x: Variable, y: Variable, w: nat) {
    && x.zext == y.zext && x.sext == y.sext && w > x.zext + x.sext
    && var n := w - x.zext - x.sext;
       var l, k := GetLinear(f.known, x.v, n, 0), GetLinear(f.known, y.v, n, 0);
       l.scale == k.scale && f.equal(l.v, k.v)
  }

  function Gap(f: Facts, x: Variable, y: Variable, w: nat): nat
    requires w > x.zext + x.sext
  {
    var n := w - x.zext - x.sext;
    MinDistance(GetLinear(f.known, x.v, n, 0).offset, GetLinear(f.known, y.v, n, 0).offset, n)
  }

  /** Two variables that are the same one but for a constant, scaled oppositely. */
  predicate ConstantOffsetRule(f: Facts, vs: seq<Variable>, d: int, s: Size, t: Size, w: nat) {
    && |vs| == 2 && s.Known? && t.Known?
    && vs[0].scale == -vs[1].scale && SameButConstant(f, vs[0], vs[1], w)
    && var bytes := Unsigned(Gap(f, vs[0], vs[1], w) * Abs(vs[0].scale));
       Unsigned(s.n + Abs(d)) <= bytes && Unsigned(t.n + Abs(d)) <= bytes
  }

  /** How close two numbers of `n` bits can come that differ by a constant. */
  function MinDistance(p: int, q: int, n: nat): nat {
    CongMod(p - q, Pow2(n));
    CongMod(q - p, Pow2(n));
    Min((p - q) % Pow2(n), (q - p) % Pow2(n))
  }

  function Verdict(f: Facts, vs: seq<Variable>, d: int, s: Size, t: Size, w: nat): Alias {
    if vs == [] then
      if d == 0 then MustAlias
      else if d > 0 && t.Known? then if d < t.n then PartialAlias else NoAlias
      else if d < 0 && s.Known? && t.Known? then if -d < s.n then PartialAlias else NoAlias
      else MayAlias
    else if ModuloRule(vs, d, s, t) then NoAlias
    else if AllPositive(f, vs, w) && d > 0 && t.Known? && t.n <= d then NoAlias
    else if ConstantOffsetRule(f, vs, d, s, t, w) then NoAlias
    else MayAlias
  }

  // ---------------------------------------------------------------------- constant offset

  /** No variables: the answer is right, wherever the accesses wrap around. */
  lemma ConstantIsRight(f: Facts, d: int, s: Size, t: Size, a: int, n: nat, b: int, m: nat, w: nat)
    requires w > 0 && Fits(s, n, w) && Fits(t, m, w) && Cong(a, b + d, Pow2(w)) && -Pow2(w - 1) <= d < Pow2(w - 1)
    ensures Right(Verdict(f, [], d, s, t, w), a, n, b, m, w)
  {
    var r := Verdict(f, [], d, s, t, w);
    if r.NoAlias? {
      forall i, j | 0 <= i < n && 0 <= j < m ensures !Meet(a, i, b, j, w) {
        if Meet(a, i, b, j, w) {
          ApartBy(a, b, d, i, j, Pow2(w));
          CongClose(d + i, j, Pow2(w));
        }
      }
    } else if r.PartialAlias? {
      if d > 0 {
        assert Meet(a, 0, b, d, w);
      } else {
        CongRefl(-d, Pow2(w));
        CongAdd(a, b + d, -d, -d, Pow2(w));
        assert Meet(a, -d, b, 0, w);
      }
    }
  }

  /** Two bytes that meet are as far apart in their accesses as the accesses are. */
  lemma ApartBy(a: int, b: int, d: int, i: int, j: int, m: int)
    requires Cong(a, b + d, m) && Cong(a + i, b + j, m)
    ensures Cong(d + i, j, m)
  {
    CongSym(a, b + d, m);
    CongRefl(i - b, m);
    CongAdd(b + d, a, i - b, i - b, m);
    CongRefl(-b, m);
    CongAdd(a + i, b + j, -b, -b, m);
    CongTrans(d + i, a + i - b, j, m);
  }

  // ------------------------------------------------------------------------- modulo rule

  lemma {:induction false} ScalesDivide(vs: seq<Variable>, m: int, w: nat, env: Env)
    requires forall x :: x in vs ==> Cong(x.scale, 0, m)
    ensures Cong(Sum(vs, w, env), 0, m)
    decreases |vs|
  {
    if vs == [] {
      CongRefl(0, m);
    } else {
      var x, init := vs[|vs| - 1], vs[..|vs| - 1];
      ScalesDivide(init, m, w, env);
      CongMul(x.scale, 0, ValueOf(x.v, x.zext, x.sext, w, env), m);
      CongAdd(Sum(init, w, env), 0, x.scale * ValueOf(x.v, x.zext, x.sext, w, env), 0, m);
    }
  }

  /** Whatever divides all the scales' disjunction divides each scale. */
  lemma {:induction false} OrDivides(vs: seq<Variable>, k: nat)
    requires k < 64 && Cong(OrScales(vs), 0, Pow2(k))
    ensures forall x :: x in vs ==> Cong(x.scale, 0, Pow2(k))
    decreases |vs|
  {
    if vs != [] {
      var x, init := vs[|vs| - 1], vs[..|vs| - 1];
      var p, q := OrScales(init), Unsigned(x.scale);
      OrMultiple(p, q, k);
      OrDivides(init, k);
      UnsignedCong(x.scale, k);
      CongSym(q, x.scale, Pow2(k));
      CongTrans(x.scale, q, 0, Pow2(k));
      assert vs == init + [x];
    }
  }

  lemma UnsignedCong(x: int, k: nat)
    requires k <= 64
    ensures Cong(Unsigned(x), x, Pow2(k))
  {
    CongMod(x, WORD);
    WordIsPow2();
    Pow2Add(64 - k, k);
    CongCoarser(Unsigned(x), x, Pow2(64 - k), Pow2(k));
  }

  /** A power of two divides both sides of a disjunction that it divides. */
  lemma {:induction false} OrMultiple(p: nat, q: nat, k: nat)
    requires Cong(BitOr(p, q), 0, Pow2(k))
    ensures Cong(p, 0, Pow2(k)) && Cong(q, 0, Pow2(k))
    decreases k
  {
    if k == 0 {
      CongBy(p, 0, 1, p);
      CongBy(q, 0, 1, q);
    } else if p == 0 || q == 0 {
      CongRefl(0, Pow2(k));
    } else {
      HalveCong(BitOr(p, q), Pow2(k - 1));
      OrMultiple(p / 2, q / 2, k - 1);
      CongDouble(p / 2, Pow2(k - 1));
      CongDouble(q / 2, Pow2(k - 1));
    }
  }

  /** The modulus is a power of two below the pointer's, and divides every scale. */
  lemma ModuloDivides(vs: seq<Variable>, w: nat) returns (k: nat)
    requires 0 < w <= 64 && Modulo(vs) > 0 && Usable(vs, w)
    ensures k < w && Modulo(vs) == Pow2(k)
    ensures forall x :: x in vs ==> Cong(x.scale, 0, Pow2(k))
  {
    var x := OrScales(vs);
    LowBitTrick(x);
    OrBound(vs);
    WordIsPow2();
    k := LowBitPower(x, 64);
    LowBitDivides(x);
    OrDivides(vs, k);
    assert vs != [];
    var v := vs[0];
    if k >= w {
      Pow2Grows(w, k);
      CongClose(v.scale, 0, Pow2(k));
    }
  }

  lemma {:induction false} OrBound(vs: seq<Variable>)
    ensures OrScales(vs) < WORD
    decreases |vs|
  {
    if vs != [] {
      OrBound(vs[..|vs| - 1]);
      CongMod(vs[|vs| - 1].scale, WORD);
      WordIsPow2();
      OrBelow(OrScales(vs[..|vs| - 1]), Unsigned(vs[|vs| - 1].scale), 64);
    }
  }

  lemma {:induction false} OrBelow(p: nat, q: nat, k: nat)
    requires p < Pow2(k) && q < Pow2(k)
    ensures BitOr(p, q) < Pow2(k)
    decreases k
  {
    if p > 0 && q > 0 {
      OrBelow(p / 2, q / 2, k - 1);
    }
  }

  /** The difference of the addresses modulo the modulus does not depend on the variables. */
  lemma ModuloOffset(vs: seq<Variable>, d: int, a: int, b: int, w: nat, env: Env) returns (k: nat, off: int)
    requires 0 < w <= 64 && Usable(vs, w) && Modulo(vs) > 0 && Cong(a, b + d + Sum(vs, w, env), Pow2(w))
    ensures k < w && Modulo(vs) == Pow2(k) && off == BitAnd(Unsigned(d), Modulo(vs) - 1)
    ensures Cong(a, b + off, Pow2(k)) && 0 <= off < Pow2(k)
  {
    k := ModuloDivides(vs, w);
    ScalesDivide(vs, Pow2(k), w, env);
    MaskIsMod(Unsigned(d), k);
    off := Unsigned(d) % Pow2(k);
    CongMod(Unsigned(d), Pow2(k));
    UnsignedCong(d, k);
    CongTrans(off, Unsigned(d), d, Pow2(k));
    CongSym(off, d, Pow2(k));
    CoarserStep(a, b + d + Sum(vs, w, env), w, k);
    OffsetOnly(a, b, d, Sum(vs, w, env), off, Pow2(k));
  }

  lemma OffsetOnly(a: int, b: int, d: int, sum: int, off: int, g: int)
    requires Cong(a, b + d + sum, g) && Cong(sum, 0, g) && Cong(d, off, g)
    ensures Cong(a, b + off, g)
  {
    CongRefl(b, g);
    CongAdd(b, b, d, off, g);
    CongAdd(b + d, b + off, sum, 0, g);
    CongTrans(a, b + d + sum, b + off, g);
  }

  /** The accesses lie in different parts of every block of the modulus' size, for every
      valuation, wherever addresses wrap around. */
  lemma ModuloIsRight(vs: seq<Variable>, d: int, s: Size, t: Size, a: int, n: nat, b: int, m: nat, w: nat, env: Env)
    requires 0 < w <= 64 && Usable(vs, w) && ModuloRule(vs, d, s, t) && s.n == n && t.n == m
    requires Cong(a, b + d + Sum(vs, w, env), Pow2(w))
    ensures !Overlap(a, n, b, m, w)
  {
    var k, off := ModuloOffset(vs, d, a, b, w, env);
    forall i, j | 0 <= i < n && 0 <= j < m ensures !Meet(a, i, b, j, w) {
      if Meet(a, i, b, j, w) {
        CoarserStep(a + i, b + j, w, k);
        ApartBy(a, b, off, i, j, Pow2(k));
        CongClose(off + i, j, Pow2(k));
      }
    }
  }

  lemma CoarserStep(x: int, y: int, w: nat, k: nat)
    requires k <= w && Cong(x, y, Pow2(w))
    ensures Cong(x, y, Pow2(k))
  {
    Pow2Add(w - k, k);
    CongCoarser(x, y, Pow2(w - k), Pow2(k));
  }

  // ---------------------------------------------------- rules for differences that stay in memory

  /** The accesses lie in memory without wrapping around. */
  predicate Flat(a: int, n: nat, b: int, m: nat, w: nat) {
    0 <= a && a + n <= Pow2(w) && 0 <= b && b + m <= Pow2(w)
  }

  /** A difference, as the rules compute it and before it is cut to a pointer, that does not take
      one access around memory to the other. */
  predicate Within(moved: int, n: nat, m: nat, w: nat) { moved + n <= Pow2(w) && m - moved <= Pow2(w) }

  lemma MovedApart(a: int, n: nat, b: int, m: nat, moved: int, w: nat)
    requires Cong(a, b + moved, Pow2(w)) && Within(moved, n, m, w) && (m <= moved || n <= -moved)
    ensures !Overlap(a, n, b, m, w)
  {
    forall i, j | 0 <= i < n && 0 <= j < m ensures !Meet(a, i, b, j, w) {
      if Meet(a, i, b, j, w) {
        ApartBy(a, b, moved, i, j, Pow2(w));
        CongClose(moved + i, j, Pow2(w));
      }
    }
  }

  /** Accesses this far apart do not overlap. */
  predicate FarApart(d: int, n: nat, m: nat) { if d >= 0 then d >= m else -d >= n }

  /** An answer of no alias is right exactly when the difference, cut to a pointer, keeps the
      accesses apart. */
  lemma NoAliasIsRightExactly(moved: int, a: int, n: nat, b: int, m: nat, w: nat)
    requires w > 0 && Fits(Known(n), n, w) && Fits(Known(m), m, w) && Cong(a, b + moved, Pow2(w))
    ensures Right(NoAlias, a, n, b, m, w) <==> FarApart(Wrap(moved, w), n, m)
  {
    var e := Wrap(moved, w);
    WrapCong(moved, w);
    CongSym(e, moved, Pow2(w));
    CongRefl(b, Pow2(w));
    CongAdd(b, b, moved, e, Pow2(w));
    CongTrans(a, b + moved, b + e, Pow2(w));
    if FarApart(e, n, m) {
      MovedApart(a, n, b, m, e, w);
    } else if e >= 0 {
      assert Meet(a, 0, b, e, w);
    } else {
      CongRefl(-e, Pow2(w));
      CongAdd(a, b + e, -e, -e, Pow2(w));
      assert Meet(a, -e, b, 0, w);
    }
  }

  lemma {:induction false} PositiveSum(f: Facts, vs: seq<Variable>, w: nat, env: Env)
    requires TrueOf(f, env) && AllPositive(f, vs, w)
    ensures Sum(vs, w, env) >= 0
    decreases |vs|
  {
    if vs != [] {
      var x := vs[|vs| - 1];
      PositiveSum(f, vs[..|vs| - 1], w, env);
      assert Positive(f, x, w);
      PositiveTerm(f, x, w, env);
    }
  }

  lemma PositiveTerm(f: Facts, x: Variable, w: nat, env: Env)
    requires TrueOf(f, env) && Positive(f, x, w)
    ensures x.scale * ValueOf(x.v, x.zext, x.sext, w, env) >= 0
  {
    var v := ValueOf(x.v, x.zext, x.sext, w, env);
    if w > x.zext + x.sext {
      var n := w - x.zext - x.sext;
      var u := Eval(x.v, n, env);
      if x.zext > 0 {
        CongMod(Wrap(u, n), Pow2(n + x.sext));
      } else {
        assert v == Signed(x.v, n, env);
      }
    }
    SignRule(x.scale, v);
  }

  lemma SignRule(x: int, y: int)
    requires (x >= 0 && y >= 0) || (x <= 0 && y <= 0) || x == 0 || y == 0
    ensures x * y >= 0
  {
  }

  lemma PositiveIsRight(f: Facts, vs: seq<Variable>, d: int, a: int, n: nat, b: int, m: nat, w: nat, env: Env)
    requires TrueOf(f, env) && AllPositive(f, vs, w) && m <= d
    requires Cong(a, b + d + Sum(vs, w, env), Pow2(w)) && Within(d + Sum(vs, w, env), n, m, w)
    ensures !Overlap(a, n, b, m, w)
  {
    PositiveSum(f, vs, w, env);
    MovedApart(a, n, b, m, d + Sum(vs, w, env), w);
  }

  /** Extension keeps a number modulo its own width. */
  lemma ExtendCong(u: int, n: nat, zext: nat, sext: nat)
    requires n > 0
    ensures Cong(Extend(u, n, zext, sext), u, Pow2(n))
  {
    WrapCong(u, n);
    if zext > 0 {
      ResidueCong(Wrap(u, n), u, n, sext);
    }
  }

  lemma ResidueCong(v: int, u: int, n: nat, k: nat)
    requires Cong(v, u, Pow2(n))
    ensures Cong(v % Pow2(n + k), u, Pow2(n))
  {
    var g := Pow2(n + k);
    CongMod(v, g);
    CoarserStep(v % g, v, n + k, n);
    CongTrans(v % g, v, u, Pow2(n));
  }

  /** No number congruent to a constant is nearer to zero than the constant's two residues. */
  lemma NearestResidue(x: int, d: int, g: int)
    requires g > 0 && Cong(x, d, g)
    ensures Abs(x) >= d % g || Abs(x) >= (-d) % g
  {
    CongMod(d, g);
    CongMod(-d, g);
    if 0 <= x < d % g {
      CongSym(d % g, d, g);
      CongTrans(x, d, d % g, g);
      CongClose(x, d % g, g);
    } else if x < 0 && -x < (-d) % g {
      CongNeg(x, d, g);
      CongSym((-d) % g, -d, g);
      CongTrans(-x, -d, (-d) % g, g);
      CongClose(-x, (-d) % g, g);
    }
  }

  /** The constant that two variables differ by, in their own width. */
  function Shift(f: Facts, x: Variable, y: Variable, w: nat): int
    requires w > x.zext + x.sext
  {
    var n := w - x.zext - x.sext;
    GetLinear(f.known, x.v, n, 0).offset - GetLinear(f.known, y.v, n, 0).offset
  }

  lemma ShiftIsExact(f: Facts, x: Variable, y: Variable, w: nat, env: Env)
    requires OnlySame(f) && TrueBits(f.known, env) && SameButConstant(f, x, y, w)
    ensures Cong(ValueOf(x.v, x.zext, x.sext, w, env) - ValueOf(y.v, y.zext, y.sext, w, env), Shift(f, x, y, w),
      Pow2(w - x.zext - x.sext))
  {
    var n := w - x.zext - x.sext;
    var l0, l1 := GetLinear(f.known, x.v, n, 0), GetLinear(f.known, y.v, n, 0);
    ExtendedLinear(f, x, w, n, env);
    ExtendedLinear(f, y, w, n, env);
    var p, q, c := ValueOf(x.v, x.zext, x.sext, w, env), ValueOf(y.v, y.zext, y.sext, w, env),
      l0.scale * Eval(l0.v, n, env);
    CongNeg(q, c + l1.offset, Pow2(n));
    CongAdd(p, c + l0.offset, -q, -(c + l1.offset), Pow2(n));
  }

  lemma WideShiftIsExact(f: Facts, x: Variable, y: Variable, w: nat, env: Env)
    requires OnlySame(f) && TrueBits(f.known, env) && SameButConstant(f, x, y, w) && x.zext == 0 == x.sext
    ensures Cong(ValueOf(x.v, 0, 0, w, env) - ValueOf(y.v, 0, 0, w, env), Shift(f, x, y, w), Pow2(w))
  {
    ShiftIsExact(f, x, y, w, env);
  }

  /** Two variables that differ by a constant in their own width stay at least the wrap-around
      distance apart, however they are extended. */
  lemma GapBounds(f: Facts, x: Variable, y: Variable, w: nat, env: Env)
    requires OnlySame(f) && TrueBits(f.known, env) && SameButConstant(f, x, y, w)
    ensures Abs(ValueOf(x.v, x.zext, x.sext, w, env) - ValueOf(y.v, y.zext, y.sext, w, env)) >= Gap(f, x, y, w)
  {
    ShiftIsExact(f, x, y, w, env);
    NearestResidue(ValueOf(x.v, x.zext, x.sext, w, env) - ValueOf(y.v, y.zext, y.sext, w, env), Shift(f, x, y, w),
                   Pow2(w - x.zext - x.sext));
  }

  lemma ExtendedLinear(f: Facts, x: Variable, w: nat, n: nat, env: Env)
    requires TrueBits(f.known, env) && n > 0 && n == w - x.zext - x.sext
    ensures Cong(ValueOf(x.v, x.zext, x.sext, w, env), LinearValue(GetLinear(f.known, x.v, n, 0), n, env), Pow2(n))
  {
    ExtendCong(Eval(x.v, n, env), n, x.zext, x.sext);
    LinearIsExact(f.known, x.v, n, 0, env);
    CongTrans(ValueOf(x.v, x.zext, x.sext, w, env), Eval(x.v, n, env),
              LinearValue(GetLinear(f.known, x.v, n, 0), n, env), Pow2(n));
  }

  lemma ScaledDistance(k: int, p: int, q: int, least: nat)
    requires Abs(p - q) >= least
    ensures Abs(k * p - k * q) >= least * Abs(k)
  {
    assert k * p - k * q == k * (p - q);
    AbsProduct(k, p - q);
    SignRule(Abs(k), Abs(p - q) - least);
    assert Abs(k) * (Abs(p - q) - least) == Abs(k) * Abs(p - q) - least * Abs(k);
  }

  lemma AbsProduct(k: int, v: int)
    ensures Abs(k * v) == Abs(k) * Abs(v)
  {
    if k >= 0 && v >= 0 {
      SignRule(k, v);
    } else if k < 0 && v < 0 {
      SignRule(k, v);
      assert (-k) * (-v) == k * v;
    } else if k < 0 {
      SignRule(-k, v);
      assert (-k) * v == -(k * v);
    } else {
      SignRule(k, -v);
      assert k * (-v) == -(k * v);
    }
  }

  lemma UnsignedBelow(x: nat)
    ensures Unsigned(x) <= x && (x < WORD ==> Unsigned(x) == x)
  {
  }

  lemma ConstantOffsetIsRight(f: Facts, vs: seq<Variable>, d: int, s: Size, t: Size, a: int, n: nat, b: int, m: nat,
                              w: nat, env: Env)
    requires OnlySame(f) && TrueBits(f.known, env) && ConstantOffsetRule(f, vs, d, s, t, w) && s.n == n && t.n == m
    requires n < WORD / 2 && m < WORD / 2 && Abs(d) <= WORD / 2
    requires Cong(a, b + d + Sum(vs, w, env), Pow2(w)) && Within(d + Sum(vs, w, env), n, m, w)
    ensures !Overlap(a, n, b, m, w)
  {
    ConstantOffsetSeparates(f, vs, d, s, t, w, env);
    MovedApart(a, n, b, m, d + Sum(vs, w, env), w);
  }

  /** The rule's difference is at least as large as either access. */
  lemma ConstantOffsetSeparates(f: Facts, vs: seq<Variable>, d: int, s: Size, t: Size, w: nat, env: Env)
    requires OnlySame(f) && TrueBits(f.known, env) && ConstantOffsetRule(f, vs, d, s, t, w)
    requires s.n < WORD / 2 && t.n < WORD / 2 && Abs(d) <= WORD / 2
    ensures t.n <= d + Sum(vs, w, env) || s.n <= -(d + Sum(vs, w, env))
  {
    var x, y, least := vs[0], vs[1], Gap(f, vs[0], vs[1], w);
    var p, q := ValueOf(x.v, x.zext, x.sext, w, env), ValueOf(y.v, y.zext, y.sext, w, env);
    var moved, far := x.scale * p - x.scale * q, least * Abs(x.scale);
    assert Sum(vs, w, env) == moved by { PairSum(vs, w, env); }
    assert Abs(moved) >= far && far >= 0 by {
      GapBounds(f, x, y, w, env);
      ScaledDistance(x.scale, p, q, least);
      SignRule(least, Abs(x.scale));
    }
    Separated(s.n, t.n, d, moved, far);
  }

  lemma Separated(n: nat, m: nat, d: int, moved: int, least: nat)
    requires Abs(moved) >= least && n < WORD / 2 && m < WORD / 2 && Abs(d) <= WORD / 2
    requires Unsigned(n + Abs(d)) <= Unsigned(least) && Unsigned(m + Abs(d)) <= Unsigned(least)
    ensures m <= d + moved || n <= -(d + moved)
  {
    UnsignedBelow(least);
    UnsignedBelow(n + Abs(d));
    UnsignedBelow(m + Abs(d));
  }

  lemma PairSum(vs: seq<Variable>, w: nat, env: Env)
    requires |vs| == 2 && vs[0].scale == -vs[1].scale
    ensures Sum(vs, w, env) == vs[0].scale * ValueOf(vs[0].v, vs[0].zext, vs[0].sext, w, env)
                             - vs[0].scale * ValueOf(vs[1].v, vs[1].zext, vs[1].sext, w, env)
  {
    var x, y := vs[0], vs[1];
    var p, q := ValueOf(x.v, x.zext, x.sext, w, env), ValueOf(y.v, y.zext, y.sext, w, env);
    assert Sum([x], w, env) == x.scale * p by {
      SumPush([], x, w, env);
      assert [] + [x] == [x];
    }
    assert Sum(vs, w, env) == x.scale * p + y.scale * q by {
      SumPush([x], y, w, env);
      assert [x] + [y] == vs;
    }
    assert y.scale * q == -(x.scale * q) by { MinusTimes(x.scale, q); }
  }

  /** For variables as wide as a pointer the distance is the same in every valuation: no alias is
      right exactly when the constant, scaled and cut to a pointer, keeps the accesses apart. */
  lemma ConstantOffsetIsRightExactly(f: Facts, vs: seq<Variable>, d: int, a: int, n: nat, b: int, m: nat, w: nat,
                                     env: Env)
    requires w > 0 && Fits(Known(n), n, w) && Fits(Known(m), m, w) && |vs| == 2 && vs[0].scale == -vs[1].scale
    requires vs[0].zext == 0 == vs[0].sext && SameButConstant(f, vs[0], vs[1], w) && OnlySame(f)
    requires TrueBits(f.known, env) && Cong(a, b + d + Sum(vs, w, env), Pow2(w))
    ensures Right(NoAlias, a, n, b, m, w)
       <==> FarApart(Wrap(d + vs[0].scale * Shift(f, vs[0], vs[1], w), w), n, m)
  {
    var x, y, k := vs[0], vs[1], vs[0].scale;
    var p, q := ValueOf(x.v, x.zext, x.sext, w, env), ValueOf(y.v, y.zext, y.sext, w, env);
    var c := Shift(f, x, y, w);
    PairSum(vs, w, env);
    ShiftIsExact(f, x, y, w, env);
    ShiftedSum(a, b, d, k, p, q, c, Pow2(w));
    NoAliasIsRightExactly(d + k * c, a, n, b, m, w);
  }

  lemma ShiftedSum(a: int, b: int, d: int, k: int, p: int, q: int, c: int, g: int)
    requires Cong(a, b + d + (k * p - k * q), g) && Cong(p - q, c, g)
    ensures Cong(a, b + (d + k * c), g)
  {
    CongMul(p - q, c, k, g);
    assert (p - q) * k == k * p - k * q && c * k == k * c;
    CongRefl(b + d, g);
    CongAdd(b + d, b + d, k * p - k * q, k * c, g);
    CongTrans(a, b + d + (k * p - k * q), b + d + k * c, g);
  }

  // ------------------------------------------------------------- a bound known beforehand

  /** No value of the variable is farther from zero. */
  function Bound(x: Variable, w: nat): (r: nat) {
    if w <= x.zext + x.sext then 0 else if x.zext > 0 then Pow2(w - x.zext) else Pow2(w - x.sext - 1)
  }

  function Span(vs: seq<Variable>, w: nat): nat {
    if vs == [] then 0
    else
      var x := vs[|vs| - 1];
      SignRule(Abs(x.scale), Bound(x, w));
      Span(vs[..|vs| - 1], w) + Abs(x.scale) * Bound(x, w)
  }

  lemma ValueBound(x: Variable, w: nat, env: Env)
    ensures Abs(ValueOf(x.v, x.zext, x.sext, w, env)) <= Bound(x, w)
  {
    if w > x.zext + x.sext {
      var n := w - x.zext - x.sext;
      CongMod(Wrap(Eval(x.v, n, env), n), Pow2(n + x.sext));
    }
  }

  lemma {:induction false} SumBound(vs: seq<Variable>, w: nat, env: Env)
    ensures Abs(Sum(vs, w, env)) <= Span(vs, w)
    decreases |vs|
  {
    if vs != [] {
      var x := vs[|vs| - 1];
      SumBound(vs[..|vs| - 1], w, env);
      ValueBound(x, w, env);
      ProductBound(x.scale, ValueOf(x.v, x.zext, x.sext, w, env), Bound(x, w));
    }
  }

  lemma ProductBound(k: int, v: int, most: nat)
    requires Abs(v) <= most
    ensures Abs(k * v) <= Abs(k) * most
  {
    AbsProduct(k, v);
    SignRule(Abs(k), most - Abs(v));
    assert Abs(k) * (most - Abs(v)) == Abs(k) * most - Abs(k) * Abs(v);
  }

  /** What a caller can check: with scales and widths this small no valuation takes the difference
      around memory. */
  lemma BoundedIsWithin(vs: seq<Variable>, d: int, n: nat, m: nat, w: nat, env: Env)
    requires Abs(d) + Span(vs, w) + n <= Pow2(w) && Abs(d) + Span(vs, w) + m <= Pow2(w)
    ensures Within(d + Sum(vs, w, env), n, m, w)
  {
    SumBound(vs, w, env);
  }
}
