/** Which residues modulo a power of two the multiples of numbers reach. */
module OddMultiples {
  import opened Modular

  // ------------------------------------------------------------------------ one multiple

  /** The factor below `Pow2(j)` that takes an odd number to `t`, found bit by bit. */
  function Solve(s: int, t: int, j: nat): (x: int)
    requires s % 2 == 1
    ensures 0 <= x < Pow2(j) && Cong(s * x, t, Pow2(j))
  {
    if j == 0 then
      CongBy(0, t, 1, -t);
      0
    else
      var x, g := Solve(s, t, j - 1), Pow2(j - 1);
      SolveStep(s, x, t, g);
      if (s * x - t) % (2 * g) == 0 then x else x + g
  }

  lemma Solution(s: int, t: int, j: nat) returns (x: int)
    requires s % 2 == 1
    ensures 0 <= x < Pow2(j) && Cong(s * x, t, Pow2(j))
  {
    x := Solve(s, t, j);
  }

  lemma SolveStep(s: int, x: int, t: int, g: int)
    requires s % 2 == 1 && g > 0 && Cong(s * x, t, g)
    ensures if (s * x - t) % (2 * g) == 0 then Cong(s * x, t, 2 * g) else Cong(s * (x + g), t, 2 * g)
  {
    var q :| Times(q, g) == s * x - t;
    var h, r := q / 2, s / 2;
    if q % 2 == 0 {
      assert q * g == h * (2 * g);
      CongBy(s * x, t, 2 * g, h);
      MultipleMod(s * x - t, 2 * g, h);
    } else if (s * x - t) % (2 * g) == 0 {
      ModCong(s * x - t, 2 * g);
      CongShift(s * x, t, 2 * g);
    } else {
      assert s * (x + g) == s * x + s * g;
      assert q * g + s * g == (h + r + 1) * (2 * g) by { assert q + s == 2 * (h + r + 1); }
      CongBy(s * (x + g), t, 2 * g, h + r + 1);
    }
  }

  lemma MultipleMod(x: int, g: int, k: int)
    requires g > 0 && x == k * g
    ensures x % g == 0
  {
    CongMod(x, g);
    CongBy(x, 0, g, k);
    CongTrans(x % g, x, 0, g);
    CongClose(x % g, 0, g);
  }

  /** Congruence to zero is no remainder. */
  lemma ModCong(x: int, g: int)
    requires g > 0
    ensures x % g == 0 <==> Cong(x, 0, g)
  {
    CongMod(x, g);
    if x % g == 0 {
      CongSym(x % g, x, g);
    }
    if Cong(x, 0, g) {
      CongTrans(x % g, x, 0, g);
      CongClose(x % g, 0, g);
    }
  }

  lemma CongShift(x: int, t: int, g: int)
    ensures Cong(x - t, 0, g) <==> Cong(x, t, g)
  {
    if Cong(x - t, 0, g) {
      var k :| Times(k, g) == x - t - 0;
      CongBy(x, t, g, k);
    }
    if Cong(x, t, g) {
      var k :| Times(k, g) == x - t;
      CongBy(x - t, 0, g, k);
    }
  }

  lemma CutFactor(s: int, x: int, t: int, w: nat)
    requires w > 0 && Cong(s * x, t, Pow2(w))
    ensures Cong(s * Wrap(x, w), t, Pow2(w))
  {
    WrapCong(x, w);
    CongMul(Wrap(x, w), x, s, Pow2(w));
    assert Wrap(x, w) * s == s * Wrap(x, w) && x * s == s * x;
    CongTrans(s * Wrap(x, w), s * x, t, Pow2(w));
  }

  /** An odd factor can be cancelled. */
  lemma OddCancels(s: int, x: int, y: int, j: nat)
    requires s % 2 == 1 && Cong(s * x, s * y, Pow2(j))
    ensures Cong(x, y, Pow2(j))
  {
    var r, g := Solve(s, 1, j), Pow2(j);
    CongMul(s * x, s * y, r, g);
    Undone(s, r, x, g);
    Undone(s, r, y, g);
    CongSym(s * x * r, x, g);
    CongTrans(x, s * x * r, s * y * r, g);
    CongTrans(x, s * y * r, y, g);
  }

  lemma Undone(s: int, r: int, x: int, g: int)
    requires Cong(s * r, 1, g)
    ensures Cong(s * x * r, x, g)
  {
    CongMul(s * r, 1, x, g);
    assert s * r * x == s * x * r;
  }

  /** Half of memory is taken to itself by an odd factor. */
  lemma OddHalf(s: int, h: int)
    requires s % 2 == 1
    ensures Cong(s * h, h, 2 * h)
  {
    assert s == 2 * (s / 2) + 1;
    assert s * h - h == (s / 2) * (2 * h);
    CongBy(s * h, h, 2 * h, s / 2);
  }

  // ---------------------------------------------------------------- powers of two in a number

  /** A power of two and no larger one divides `s`. */
  predicate Exactly(s: int, k: nat) { s % Pow2(k) == 0 && (s / Pow2(k)) % 2 == 1 }

  lemma ExactlyTimes(s: int, k: nat)
    requires Exactly(s, k)
    ensures s == (s / Pow2(k)) * Pow2(k)
  {
  }

  /** A number divisible by a power of two and not by the next. */
  lemma NotTheNext(s: int, k: nat)
    requires Cong(s, 0, Pow2(k)) && !Cong(s, 0, Pow2(k + 1))
    ensures Exactly(s, k)
  {
    var g := Pow2(k);
    ModCong(s, g);
    var o := s / g;
    assert s == o * g;
    if o % 2 == 0 {
      assert o * g == (o / 2) * (2 * g);
      CongBy(s, 0, 2 * g, o / 2);
    }
  }

  lemma {:induction false} LowBitIsLargest(x: nat)
    requires x > 0
    ensures !Cong(x, 0, 2 * LowBit(x))
    decreases x
  {
    if Cong(x, 0, 2 * LowBit(x)) {
      HalveCong(x, LowBit(x));
      LowBitIsLargest(x / 2);
    }
  }

  lemma LowBitExactly(x: nat, w: nat) returns (k: nat)
    requires 0 < x < Pow2(w)
    ensures k < w && LowBit(x) == Pow2(k) && Exactly(x, k) && Cong(x, 0, Pow2(k))
  {
    k := LowBitPower(x, w);
    LowBitDivides(x);
    LowBitIsLargest(x);
    NotTheNext(x, k);
  }

  /** Every number that is not zero modulo a power of two. */
  lemma {:induction false} SomeExactly(s: int, w: nat) returns (k: nat)
    requires !Cong(s, 0, Pow2(w))
    ensures k < w && Exactly(s, k)
    decreases w
  {
    if w == 0 {
      CongBy(s, 0, 1, s);
    } else if Cong(s, 0, Pow2(w - 1)) {
      k := w - 1;
      NotTheNext(s, k);
    } else {
      k := SomeExactly(s, w - 1);
    }
  }

  /** Multiples of a number reach every multiple of its power of two, with a factor this small. */
  lemma SolveMultiple(s: int, k: nat, t: int, w: nat) returns (x: int)
    requires k <= w && Exactly(s, k) && Cong(t, 0, Pow2(k))
    ensures 0 <= x < Pow2(w - k) && Cong(s * x, t, Pow2(w))
  {
    var g := Pow2(k);
    var o := s / g;
    var q :| Times(q, g) == t - 0;
    x := Solve(o, q, w - k);
    ExactlyTimes(s, k);
    Pow2Add(w - k, k);
    ScaledUp(o, x, q, Pow2(w - k), g);
  }

  lemma ScaledUp(o: int, x: int, q: int, m: int, g: int)
    requires Cong(o * x, q, m)
    ensures Cong(o * g * x, q * g, m * g)
  {
    ScaleUp(o * x, q, m, g);
    assert o * x * g == o * g * x;
  }

  lemma ScaleUp(x: int, y: int, m: int, g: int)
    requires Cong(x, y, m)
    ensures Cong(x * g, y * g, m * g)
  {
    var k :| Times(k, m) == x - y;
    assert k * (m * g) == (k * m) * g == (x - y) * g == x * g - y * g;
    CongBy(x * g, y * g, m * g, k);
  }

  // ------------------------------------------------------------------ sums of two multiples

  /** An odd and an even number, each multiplied by less than half of all factors, reach every
      residue. */
  lemma OddAndEven(s: int, t: int, j: nat, target: int, w: nat) returns (x: int, y: int)
    requires 0 < j < w && s % 2 == 1 && Exactly(t, j)
    ensures 0 <= x < Pow2(w - 1) && 0 <= y < Pow2(w - 1) && Cong(s * x + t * y, target, Pow2(w))
  {
    x := Solve(s, target, j);
    CongSym(s * x, target, Pow2(j));
    CongShift(target, s * x, Pow2(j));
    y := SolveMultiple(t, j, target - s * x, w);
    Pow2Grows(j, w - 1);
    Pow2Grows(w - j, w - 1);
    CongRefl(s * x, Pow2(w));
    CongAdd(s * x, s * x, t * y, target - s * x, Pow2(w));
  }

  /** The one residue that two odd numbers do not reach, if they are the same or opposite. */
  predicate Missed(s: int, t: int, target: int, w: nat)
    requires w > 0
  {
    || ((t - s) % Pow2(w) == 0 && (target + s) % Pow2(w) == 0)
    || ((t + s) % Pow2(w) == 0 && (target - Pow2(w - 1)) % Pow2(w) == 0)
  }

  /** Two odd numbers, each multiplied by less than half of all factors, reach every residue but
      the one missed. */
  lemma TwoOdd(s: int, t: int, target: int, w: nat) returns (x: int, y: int)
    requires w > 0 && s % 2 == 1 && t % 2 == 1 && !Missed(s, t, target, w)
    ensures 0 <= x < Pow2(w - 1) && 0 <= y < Pow2(w - 1) && Cong(s * x + t * y, target, Pow2(w))
  {
    var u, c := Factors(s, t, target, w);
    y, x := Landing(u, c, Pow2(w - 1), w);
    Substituted(s, t, target, u, c, x, y, Pow2(w));
  }

  /** With these, `s * x + t * y` reaches the target where `x` is `c + u * y`. */
  lemma Factors(s: int, t: int, target: int, w: nat) returns (u: int, c: int)
    requires w > 0 && s % 2 == 1 && t % 2 == 1 && !Missed(s, t, target, w)
    ensures 0 <= u < Pow2(w) && 0 <= c < Pow2(w) && u % 2 == 1
    ensures Cong(s * u, -t, Pow2(w)) && Cong(s * c, target, Pow2(w))
    ensures !(u == 1 && c == Pow2(w - 1)) && !(u == Pow2(w) - 1 && c == Pow2(w) - 1)
  {
    u := Solution(s, -t, w);
    c := Solution(s, target, w);
    OddFactor(s, u, t, w);
    NotMissed(s, t, target, u, c, w);
  }

  lemma Landing(u: int, c: int, h: int, w: nat) returns (y: int, x: int)
    requires w > 0 && h == Pow2(w - 1) && 0 <= u < 2 * h && 0 <= c < 2 * h && u % 2 == 1
    requires !(u == 1 && c == h) && !(u == 2 * h - 1 && c == 2 * h - 1)
    ensures 0 <= y < h && 0 <= x < h && Cong(x, c + u * y, 2 * h)
  {
    var v := if u < h then u else u - 2 * h;
    assert h == 1 || h % 2 == 0 by { assert w > 1 ==> h == 2 * Pow2(w - 2); }
    assert v % 2 == 1;
    y, x := Leave(c, v, h);
    Turned(u, v, y, c, h);
    CongTrans(x, c + v * y, c + u * y, 2 * h);
  }

  lemma OddFactor(s: int, u: int, t: int, w: nat)
    requires w > 0 && t % 2 == 1 && Cong(s * u, -t, Pow2(w))
    ensures u % 2 == 1
  {
    var k :| Times(k, Pow2(w)) == s * u + t;
    var g := Pow2(w - 1);
    assert k * (2 * g) == 2 * (k * g);
    assert u % 2 == 0 ==> (s * u) % 2 == 0 by { EvenProduct(s, u); }
  }

  lemma EvenProduct(s: int, u: int)
    ensures u % 2 == 0 ==> (s * u) % 2 == 0
  {
    if u % 2 == 0 {
      assert s * u == 2 * (s * (u / 2));
    }
  }

  lemma Turned(u: int, v: int, y: int, c: int, h: int)
    requires v == u || v == u - 2 * h
    ensures Cong(c + v * y, c + u * y, 2 * h)
  {
    if v == u {
      CongRefl(c + v * y, 2 * h);
    } else {
      assert v * y - u * y == (v - u) * y == (-y) * (2 * h);
      CongBy(c + v * y, c + u * y, 2 * h, -y);
    }
  }

  lemma Substituted(s: int, t: int, target: int, u: int, c: int, x: int, y: int, g: int)
    requires Cong(s * u, -t, g) && Cong(s * c, target, g) && Cong(x, c + u * y, g)
    ensures Cong(s * x + t * y, target, g)
  {
    CongMul(x, c + u * y, s, g);
    CongMul(s * u, -t, y, g);
    CongAdd(s * c, target, s * u * y, -t * y, g);
    assert (c + u * y) * s == s * c + s * u * y;
    assert x * s == s * x;
    CongTrans(s * x, s * c + s * u * y, target - t * y, g);
    CongRefl(t * y, g);
    CongAdd(s * x, target - t * y, t * y, t * y, g);
  }

  /** Where the walk of `TwoOdd` cannot leave the upper half, the residue is missed. */
  lemma NotMissed(s: int, t: int, target: int, u: int, c: int, w: nat)
    requires w > 0 && s % 2 == 1 && !Missed(s, t, target, w)
    requires Cong(s * u, -t, Pow2(w)) && Cong(s * c, target, Pow2(w))
    ensures !(u == 1 && c == Pow2(w - 1)) && !(u == Pow2(w) - 1 && c == Pow2(w) - 1)
  {
    var h, g := Pow2(w - 1), Pow2(w);
    if u == 1 && c == h {
      OddHalf(s, h);
      CongShift(s, -t, g);
      ModCong(t + s, g);
      CongSym(s * h, target, g);
      CongTrans(target, s * h, h, g);
      CongShift(target, h, g);
      ModCong(target - h, g);
    } else if u == g - 1 && c == g - 1 {
      MinusOne(s, -t, g);
      MinusOne(s, target, g);
      CongNeg(-s, -t, g);
      CongSym(s, t, g);
      CongShift(t, s, g);
      ModCong(t - s, g);
      CongSym(-s, target, g);
      CongShift(target, -s, g);
      ModCong(target + s, g);
    }
  }

  lemma MinusOne(s: int, t: int, g: int)
    requires Cong(s * (g - 1), t, g)
    ensures Cong(-s, t, g)
  {
    assert -s - s * (g - 1) == (-s) * g;
    CongBy(-s, s * (g - 1), g, -s);
    CongTrans(-s, s * (g - 1), t, g);
  }

  /** In steps of an odd number one leaves the upper half of memory in time. */
  lemma Leave(c: int, v: int, h: int) returns (y: int, x: int)
    requires h > 0 && 0 <= c < 2 * h && -h <= v < h && v % 2 == 1 && (h == 1 || h % 2 == 0)
    requires !(v == 1 && c == h) && !(v == -1 && c == 2 * h - 1)
    ensures 0 <= y < h && 0 <= x < h && Cong(x, c + v * y, 2 * h)
  {
    if c < h {
      y, x := 0, c;
      CongRefl(c, 2 * h);
    } else if v == 1 {
      y, x := 2 * h - c, 0;
      CongBy(0, 2 * h, 2 * h, -1);
    } else if v == -1 {
      y, x := c - h + 1, h - 1;
      CongRefl(h - 1, 2 * h);
    } else if v > 0 {
      y := StepsOver(2 * h - c - 1, v, h);
      x := c + v * y - 2 * h;
      CongBy(x, c + v * y, 2 * h, -1);
    } else {
      y := StepsOver(c - h, -v, h);
      MinusProduct(v, y);
      x := c + v * y;
      CongRefl(x, 2 * h);
    }
  }

  lemma MinusProduct(v: int, y: int)
    ensures v * y == -((-v) * y)
  {
  }

  /** As many steps as it takes to pass a gap. */
  lemma StepsOver(gap: int, v: int, h: int) returns (y: int)
    requires 0 <= gap < h && 3 <= v <= h
    ensures 0 <= y < h && gap < v * y <= gap + v
  {
    var q := gap / v;
    y := q + 1;
    assert v * q == gap - gap % v;
    assert v * y == v * q + v;
    if y >= h {
      AtLeast(v, h, y);
    }
  }

  lemma AtLeast(v: int, h: int, y: int)
    requires 3 <= v <= h <= y
    ensures v * y >= h + h + v
  {
    assert (v - 3) * (y - 3) >= 0;
    assert (v - 3) * (y - 3) == v * y - 3 * v - 3 * y + 9;
  }
}
