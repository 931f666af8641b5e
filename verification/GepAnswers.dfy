/** Exactly when each answer is given about two addresses, on their difference, the sizes and the
    facts alone. */
module GepAnswers {
  import opened Basics
  import opened Modular
  import opened OddMultiples
  import opened GepDecomposition
  import opened GepPointers
  import opened GepDifference
  import opened GepVerdict

  // ------------------------------------------------------------------ the lowest bit of the factors

  lemma {:induction false} OrJoins(p: nat, q: nat, k: nat)
    requires Cong(p, 0, Pow2(k)) && Cong(q, 0, Pow2(k))
    ensures Cong(BitOr(p, q), 0, Pow2(k))
    decreases k
  {
    if k == 0 {
      CongBy(BitOr(p, q), 0, 1, BitOr(p, q));
    } else if p > 0 && q > 0 {
      HalveCong(p, Pow2(k - 1));
      HalveCong(q, Pow2(k - 1));
      OrJoins(p / 2, q / 2, k - 1);
      CongDouble(BitOr(p / 2, q / 2), Pow2(k - 1));
    }
  }

  lemma {:induction false} OrOfScales(vs: seq<Variable>, k: nat)
    requires k <= 64 && forall x :: x in vs ==> Cong(x.scale, 0, Pow2(k))
    ensures Cong(OrScales(vs), 0, Pow2(k))
    decreases |vs|
  {
    if vs == [] {
      CongRefl(0, Pow2(k));
    } else {
      var x := vs[|vs| - 1].scale;
      OrOfScales(vs[..|vs| - 1], k);
      UnsignedCong(x, k);
      CongTrans(Unsigned(x), x, 0, Pow2(k));
      OrJoins(OrScales(vs[..|vs| - 1]), Unsigned(x), k);
    }
  }

  /** The modulus is a power of two that divides all factors, and no larger one divides them all. */
  lemma ModuloIsExact(vs: seq<Variable>, w: nat) returns (k: nat, i: nat)
    requires 0 < w <= 64 && vs != [] && Usable(vs, w)
    ensures k < w && Modulo(vs) == Pow2(k) && i < |vs| && Exactly(vs[i].scale, k)
    ensures forall x :: x in vs ==> Cong(x.scale, 0, Pow2(k))
  {
    SomeBit(vs, w);
    LowBitTrick(OrScales(vs));
    k := ModuloDivides(vs, w);
    LowBitIsLargest(OrScales(vs));
    if forall x :: x in vs ==> Cong(x.scale, 0, Pow2(k + 1)) {
      OrOfScales(vs, k + 1);
      assert false;
    }
    var x :| x in vs && !Cong(x.scale, 0, Pow2(k + 1));
    i :| 0 <= i < |vs| && vs[i] == x;
    NotTheNext(x.scale, k);
  }

  /** A scale that is not zero has a bit that is not zero. */
  lemma SomeBit(vs: seq<Variable>, w: nat)
    requires 0 < w <= 64 && Usable(vs, w) && vs != []
    ensures OrScales(vs) > 0
  {
    var x := vs[|vs| - 1].scale;
    if Unsigned(x) == 0 {
      UnsignedCong(x, 64);
      CongSym(Unsigned(x), x, Pow2(64));
      Pow2Grows(w, 64);
      CongClose(x, 0, Pow2(64));
    }
    OrNonZero(OrScales(vs[..|vs| - 1]), Unsigned(x));
  }

  lemma {:induction false} OrNonZero(p: nat, q: nat)
    requires q > 0
    ensures BitOr(p, q) > 0
    decreases p
  {
    if p > 0 && q / 2 > 0 {
      OrNonZero(p / 2, q / 2);
    }
  }

  // --------------------------------------------------------------------------- the answers

  /** A constant difference no larger than what it must clear. */
  predicate ClearsPart(vs: seq<Variable>, d: int, s: Size, t: Size) {
    vs == [] && t.Known? && (0 < d < t.n || (d < 0 && s.Known? && -d < s.n))
  }

  predicate Clears(vs: seq<Variable>, d: int, s: Size, t: Size) {
    vs == [] && t.Known? && ((d > 0 && t.n <= d) || (d < 0 && s.Known? && s.n <= -d))
  }

  /** The power divides all scales, and the next does not. */
  ghost predicate ExactFor(vs: seq<Variable>, k: nat) {
    && (forall i :: 0 <= i < |vs| ==> vs[i].scale % Pow2(k) == 0)
    && (exists i :: 0 <= i < |vs| && vs[i].scale % Pow2(k + 1) != 0)
  }

  /** The remainder of the offset has room for one access before it and for the other after it. */
  ghost predicate ClearsRemainder(vs: seq<Variable>, d: int, n: nat, m: nat, k: nat) {
    ExactFor(vs, k) && m <= d % Pow2(k) && n <= Pow2(k) - d % Pow2(k)
  }

  ghost predicate ApartByRemainder(vs: seq<Variable>, d: int, s: Size, t: Size) {
    s.Known? && t.Known? && exists k: nat :: ClearsRemainder(vs, d, s.n, t.n, k)
  }

  /** What is known of the signs makes every term of the sum non-negative, and the offset clears the
      second access. */
  predicate ApartBySign(f: Facts, vs: seq<Variable>, d: int, t: Size, w: nat) {
    && vs != [] && t.Known? && 0 < d && t.n <= d
    && forall i :: 0 <= i < |vs| ==>
         var x := vs[i];
         var n := if x.zext + x.sext < w then w - x.zext - x.sext else 0;
         if x.scale < 0 then x.zext == 0 && f.negative(x.v, n) else x.zext > 0 || f.nonNegative(x.v, n)
  }

  ghost predicate Residue(r: int, p: int, n: nat) { Cong(r, p, Pow2(n)) }

  /** The least distance from zero of all numbers that are `p` in `n` bits. */
  ghost predicate Least(gap: nat, p: int, n: nat) {
    && (forall r {:trigger Residue(r, p, n)} :: Residue(r, p, n) ==> gap <= Abs(r))
    && exists r :: Residue(r, p, n) && gap == Abs(r)
  }

  /** Two variables, equally extended and oppositely scaled, are `c` times the same value plus
      constants; the distance that the constants keep, scaled, is more than either access and the
      offset take, all in 64 bits. */
  ghost predicate ClearsShift(f: Facts, x: Variable, y: Variable, d: int, n: nat, m: nat, w: nat, gap: nat) {
    && x.scale == -y.scale && x.zext == y.zext && x.sext == y.sext && x.zext + x.sext < w
    && var u := w - x.zext - x.sext;
       var l, k := GetLinear(f.known, x.v, u, 0), GetLinear(f.known, y.v, u, 0);
       && l.scale == k.scale && f.equal(l.v, k.v) && Least(gap, l.offset - k.offset, u)
       && (n + Abs(d)) % WORD <= (gap * Abs(x.scale)) % WORD && (m + Abs(d)) % WORD <= (gap * Abs(x.scale)) % WORD
  }

  ghost predicate ApartByShift(f: Facts, vs: seq<Variable>, d: int, s: Size, t: Size, w: nat) {
    && |vs| == 2 && s.Known? && t.Known?
    && exists gap: nat :: ClearsShift(f, vs[0], vs[1], d, s.n, t.n, w, gap)
  }

  /** When each answer is given. */
  ghost predicate Answers(r: Alias, f: Facts, vs: seq<Variable>, d: int, s: Size, t: Size, w: nat) {
    && (r.MustAlias? <==> vs == [] && d == 0)
    && (r.PartialAlias? <==> ClearsPart(vs, d, s, t))
    && (r.NoAlias? <==>
         || Clears(vs, d, s, t) || ApartByRemainder(vs, d, s, t) || ApartBySign(f, vs, d, t, w)
         || ApartByShift(f, vs, d, s, t, w))
  }

  lemma VerdictAnswers(f: Facts, vs: seq<Variable>, d: int, s: Size, t: Size, w: nat)
    requires 0 < w <= 64 && Usable(vs, w)
    ensures Answers(Verdict(f, vs, d, s, t, w), f, vs, d, s, t, w)
  {
    if vs != [] {
      RemainderIsModulo(vs, d, s, t, w);
      SignIsPositive(f, vs, d, t, w);
      ShiftIsConstantOffset(f, vs, d, s, t, w);
    }
  }

  lemma SignIsPositive(f: Facts, vs: seq<Variable>, d: int, t: Size, w: nat)
    requires vs != []
    ensures ApartBySign(f, vs, d, t, w) <==> AllPositive(f, vs, w) && d > 0 && t.Known? && t.n <= d
  {
    if ApartBySign(f, vs, d, t, w) {
      forall x | x in vs ensures Positive(f, x, w) {
        var i :| 0 <= i < |vs| && vs[i] == x;
      }
    }
    if AllPositive(f, vs, w) && d > 0 && t.Known? && t.n <= d {
      forall i | 0 <= i < |vs| ensures Positive(f, vs[i], w) {
        assert vs[i] in vs;
      }
    }
  }

  lemma RemainderIsModulo(vs: seq<Variable>, d: int, s: Size, t: Size, w: nat)
    requires 0 < w <= 64 && vs != [] && Usable(vs, w)
    ensures ApartByRemainder(vs, d, s, t) <==> ModuloRule(vs, d, s, t)
  {
    var k, i := ModuloIsExact(vs, w);
    OffsetRemainder(vs, d, k);
    ExactPower(vs, k, i);
    if s.Known? && t.Known? {
      if ModuloRule(vs, d, s, t) {
        assert ClearsRemainder(vs, d, s.n, t.n, k);
      }
      if j: nat :| ClearsRemainder(vs, d, s.n, t.n, j) {
        SamePower(vs, j, k);
      }
    }
  }

  lemma OffsetRemainder(vs: seq<Variable>, d: int, k: nat)
    requires k <= 64 && Modulo(vs) == Pow2(k)
    ensures BitAnd(Unsigned(d), Modulo(vs) - 1) == d % Pow2(k)
  {
    MaskIsMod(Unsigned(d), k);
    UnsignedCong(d, k);
    SameRemainder(Unsigned(d), d, Pow2(k));
  }

  lemma SameRemainder(x: int, y: int, g: int)
    requires g > 0 && Cong(x, y, g)
    ensures x % g == y % g
  {
    CongMod(x, g);
    CongMod(y, g);
    CongTrans(x % g, x, y, g);
    CongSym(y % g, y, g);
    CongTrans(x % g, y, y % g, g);
    CongClose(x % g, y % g, g);
  }

  lemma ExactPower(vs: seq<Variable>, k: nat, i: nat)
    requires i < |vs| && Exactly(vs[i].scale, k) && forall x :: x in vs ==> Cong(x.scale, 0, Pow2(k))
    ensures ExactFor(vs, k)
  {
    forall j | 0 <= j < |vs| ensures vs[j].scale % Pow2(k) == 0 {
      assert vs[j] in vs;
      ModCong(vs[j].scale, Pow2(k));
    }
    NextDoesNot(vs[i].scale, k);
  }

  lemma NextDoesNot(s: int, k: nat)
    requires Exactly(s, k)
    ensures s % Pow2(k + 1) != 0
  {
    ExactlyTimes(s, k);
    ModCong(s, Pow2(k + 1));
    if Cong(s, 0, Pow2(k + 1)) {
      var c :| Times(c, Pow2(k + 1)) == s - 0;
      TwiceOnce(c, s / Pow2(k), Pow2(k));
    }
  }

  lemma TwiceOnce(c: int, o: int, g: int)
    requires g > 0 && c * (2 * g) == o * g
    ensures o == 2 * c
  {
    assert (o - 2 * c) * g == 0;
  }

  lemma SamePower(vs: seq<Variable>, j: nat, k: nat)
    requires ExactFor(vs, j) && ExactFor(vs, k)
    ensures j == k
  {
    if j < k {
      LowerPower(vs, j, k);
    } else if k < j {
      LowerPower(vs, k, j);
    }
  }

  lemma LowerPower(vs: seq<Variable>, j: nat, k: nat)
    requires ExactFor(vs, j) && (forall i :: 0 <= i < |vs| ==> vs[i].scale % Pow2(k) == 0)
    ensures k <= j
  {
    if j < k {
      var i :| 0 <= i < |vs| && vs[i].scale % Pow2(j + 1) != 0;
      ModCong(vs[i].scale, Pow2(k));
      CoarserStep(vs[i].scale, 0, k, j + 1);
      ModCong(vs[i].scale, Pow2(j + 1));
    }
  }

  lemma MinDistanceIsLeast(p: int, q: int, n: nat)
    ensures Least(MinDistance(p, q, n), p - q, n)
  {
    var g := Pow2(n);
    CongMod(p - q, g);
    CongMod(q - p, g);
    forall r | Residue(r, p - q, n) ensures MinDistance(p, q, n) <= Abs(r) {
      NearestResidue(r, p - q, g);
      assert -(p - q) == q - p;
    }
    CongNeg((q - p) % g, q - p, g);
    assert Residue((p - q) % g, p - q, n) && Residue(-((q - p) % g), p - q, n);
  }

  lemma LeastIsOne(a: nat, b: nat, p: int, n: nat)
    requires Least(a, p, n) && Least(b, p, n)
    ensures a == b
  {
  }

  lemma ShiftIsConstantOffset(f: Facts, vs: seq<Variable>, d: int, s: Size, t: Size, w: nat)
    ensures ApartByShift(f, vs, d, s, t, w) <==> ConstantOffsetRule(f, vs, d, s, t, w)
  {
    if |vs| == 2 && s.Known? && t.Known? && vs[0].scale == -vs[1].scale && SameButConstant(f, vs[0], vs[1], w) {
      var x, y := vs[0], vs[1];
      var u := w - x.zext - x.sext;
      var p, q := GetLinear(f.known, x.v, u, 0).offset, GetLinear(f.known, y.v, u, 0).offset;
      MinDistanceIsLeast(p, q, u);
      if ConstantOffsetRule(f, vs, d, s, t, w) {
        assert ClearsShift(f, x, y, d, s.n, t.n, w, Gap(f, x, y, w));
      }
      if gap: nat :| ClearsShift(f, x, y, d, s.n, t.n, w, gap) {
        LeastIsOne(gap, Gap(f, x, y, w), p - q, u);
      }
    }
  }
}
