/** Machine integers as mathematical ones: congruence, wrapping and bits. */
module Modular {

  function Pow2(n: nat): (r: int)
    ensures r > 0
  {
    if n == 0 then 1 else 2 * Pow2(n - 1)
  }

  lemma {:induction false} Pow2Add(m: nat, n: nat)
    ensures Pow2(m + n) == Pow2(m) * Pow2(n)
    decreases m
  {
    if m > 0 {
      Pow2Add(m - 1, n);
      assert Pow2(m) * Pow2(n) == 2 * (Pow2(m - 1) * Pow2(n));
    }
  }

  lemma {:induction false} Pow2Grows(m: nat, n: nat)
    requires m <= n
    ensures Pow2(m) <= Pow2(n)
    decreases n
  {
    if m < n {
      Pow2Grows(m, n - 1);
    }
  }

  // ------------------------------------------------------------------- congruence

  function Times(k: int, m: int): int { k * m }

  ghost predicate Cong(a: int, b: int, m: int) { exists k :: Times(k, m) == a - b }

  lemma CongBy(a: int, b: int, m: int, k: int)
    requires a - b == k * m
    ensures Cong(a, b, m)
  {
    assert Times(k, m) == a - b;
  }

  lemma CongRefl(a: int, m: int)
    ensures Cong(a, a, m)
  {
    CongBy(a, a, m, 0);
  }

  lemma CongSym(a: int, b: int, m: int)
    requires Cong(a, b, m)
    ensures Cong(b, a, m)
  {
    var k :| Times(k, m) == a - b;
    CongBy(b, a, m, -k);
  }

  lemma CongTrans(a: int, b: int, c: int, m: int)
    requires Cong(a, b, m) && Cong(b, c, m)
    ensures Cong(a, c, m)
  {
    var k :| Times(k, m) == a - b;
    var j :| Times(j, m) == b - c;
    assert (k + j) * m == k * m + j * m;
    CongBy(a, c, m, k + j);
  }

  lemma CongAdd(a: int, b: int, c: int, d: int, m: int)
    requires Cong(a, b, m) && Cong(c, d, m)
    ensures Cong(a + c, b + d, m)
  {
    var k :| Times(k, m) == a - b;
    var j :| Times(j, m) == c - d;
    assert (k + j) * m == k * m + j * m;
    CongBy(a + c, b + d, m, k + j);
  }

  lemma CongMul(a: int, b: int, c: int, m: int)
    requires Cong(a, b, m)
    ensures Cong(a * c, b * c, m)
  {
    var k :| Times(k, m) == a - b;
    assert a * c - b * c == (a - b) * c == (k * m) * c == (k * c) * m;
    CongBy(a * c, b * c, m, k * c);
  }

  lemma CongMul2(a: int, b: int, c: int, d: int, m: int)
    requires Cong(a, b, m) && Cong(c, d, m)
    ensures Cong(a * c, b * d, m)
  {
    CongMul(a, b, c, m);
    CongMul(c, d, b, m);
    CongTrans(a * c, b * c, b * d, m);
  }

  lemma CongNeg(a: int, b: int, m: int)
    requires Cong(a, b, m)
    ensures Cong(-a, -b, m)
  {
    var k :| Times(k, m) == a - b;
    assert (-k) * m == -(k * m);
    CongBy(-a, -b, m, -k);
  }

  lemma CongMod(a: int, m: int)
    requires m > 0
    ensures Cong(a % m, a, m) && 0 <= a % m < m
  {
    CongBy(a % m, a, m, -(a / m));
  }

  /** A multiple of the modulus is a coarser modulus' business too. */
  lemma CongCoarser(a: int, b: int, m: int, n: int)
    requires Cong(a, b, m * n)
    ensures Cong(a, b, n)
  {
    var k :| Times(k, m * n) == a - b;
    assert k * (m * n) == (k * m) * n;
    CongBy(a, b, n, k * m);
  }

  /** Numbers that are congruent and closer than the modulus are equal. */
  lemma CongClose(a: int, b: int, m: int)
    requires m > 0 && Cong(a, b, m) && -m < a - b < m
    ensures a == b
  {
    var k :| Times(k, m) == a - b;
    assert k >= 1 ==> k * m >= m;
    assert k <= -1 ==> k * m <= -m;
  }

  // --------------------------------------------------------------------- wrapping

  const WORD: int := 0x1_0000_0000_0000_0000

  lemma WordIsPow2()
    ensures Pow2(64) == WORD && Pow2(63) == WORD / 2
  {
    assert Pow2(8) == 256;
    Pow2Add(8, 8);
    Pow2Add(16, 16);
    Pow2Add(32, 32);
  }

  /** Two's complement with `h` non-negative numbers. */
  function WrapBy(x: int, h: int): (r: int)
    requires h > 0
    ensures -h <= r < h
  {
    CongMod(x + h, 2 * h);
    (x + h) % (2 * h) - h
  }

  lemma WrapByCong(x: int, h: int)
    requires h > 0
    ensures Cong(WrapBy(x, h), x, 2 * h)
  {
    CongMod(x + h, 2 * h);
    CongRefl(-h, 2 * h);
    CongAdd((x + h) % (2 * h), x + h, -h, -h, 2 * h);
  }

  /** Two's complement in `w` bits. */
  function Wrap(x: int, w: nat): (r: int)
    requires w > 0
    ensures -Pow2(w - 1) <= r < Pow2(w - 1)
  {
    WrapBy(x, Pow2(w - 1))
  }

  lemma WrapCong(x: int, w: nat)
    requires w > 0
    ensures Cong(Wrap(x, w), x, Pow2(w))
  {
    WrapByCong(x, Pow2(w - 1));
  }

  lemma WrapId(x: int, w: nat)
    requires w > 0 && -Pow2(w - 1) <= x < Pow2(w - 1)
    ensures Wrap(x, w) == x
  {
    WrapCong(x, w);
    CongClose(Wrap(x, w), x, Pow2(w));
  }

  /** What a 64-bit computation leaves, seen in a pointer of `w` bits. */
  lemma WordCong(x: int, w: nat)
    requires 0 < w <= 64
    ensures Cong(Wrap(x, 64), x, Pow2(w))
  {
    WrapCong(x, 64);
    Pow2Add(64 - w, w);
    CongCoarser(Wrap(x, 64), x, Pow2(64 - w), Pow2(w));
  }

  // ------------------------------------------------------------------------- bits

  function BitOr(a: nat, b: nat): nat
    decreases a + b
  {
    if a == 0 then b else if b == 0 then a
    else 2 * BitOr(a / 2, b / 2) + (if a % 2 == 1 || b % 2 == 1 then 1 else 0)
  }

  function BitAnd(a: nat, b: nat): nat
    decreases a + b
  {
    if a == 0 || b == 0 then 0
    else 2 * BitAnd(a / 2, b / 2) + (if a % 2 == 1 && b % 2 == 1 then 1 else 0)
  }

  function BitXor(a: nat, b: nat): nat
    decreases a + b
  {
    if a == 0 then b else if b == 0 then a
    else 2 * BitXor(a / 2, b / 2) + (if a % 2 != b % 2 then 1 else 0)
  }

  /** Or is addition when no bit is set in both. */
  lemma {:induction false} OrIsAdd(a: nat, b: nat)
    requires BitAnd(a, b) == 0
    ensures BitOr(a, b) == a + b
    decreases a + b
  {
    if a > 0 && b > 0 {
      OrIsAdd(a / 2, b / 2);
    }
  }

  /** The lowest set bit. */
  function LowBit(x: nat): (r: nat)
    requires x > 0
    ensures r > 0
  {
    if x % 2 == 1 then 1 else 2 * LowBit(x / 2)
  }

  lemma {:induction false} LowBitTrick(x: nat)
    requires x > 0
    ensures BitXor(x, BitAnd(x, x - 1)) == LowBit(x)
    decreases x
  {
    var h := x / 2;
    if x == 1 {
    } else if x % 2 == 1 {
      OddTrick(h);
    } else {
      LowBitTrick(h);
      EvenTrick(h);
    }
  }

  lemma OddTrick(h: nat)
    ensures BitXor(2 * h + 1, BitAnd(2 * h + 1, 2 * h)) == 1
  {
    OddAnd(h, 2 * h + 1, 2 * h);
    OddXor(h, 2 * h);
  }

  lemma OddAnd(h: nat, x: nat, y: nat)
    requires x == 2 * h + 1 && y == 2 * h
    ensures BitAnd(x, y) == y
  {
    AndParts(h, 1, h, 0);
    var z := BitAnd(h, h);
    assert z == h by { AndSelf(h); }
  }

  lemma OddXor(h: nat, y: nat)
    requires y == 2 * h
    ensures BitXor(2 * h + 1, y) == 1
  {
    XorSelf(h);
    XorParts(h, 1, h, 0);
  }

  lemma EvenTrick(h: nat)
    requires h > 0
    ensures BitXor(2 * h, BitAnd(2 * h, 2 * h - 1)) == 2 * BitXor(h, BitAnd(h, h - 1))
  {
    AndParts(h, 0, h - 1, 1);
    XorParts(h, 0, BitAnd(h, h - 1), 0);
  }

  /** One bit at a time. */
  lemma AndParts(a: nat, i: nat, b: nat, j: nat)
    requires i < 2 && j < 2
    ensures BitAnd(2 * a + i, 2 * b + j) == 2 * BitAnd(a, b) + (if i == 1 && j == 1 then 1 else 0)
  {
    var x, y := 2 * a + i, 2 * b + j;
    assert x / 2 == a && x % 2 == i && y / 2 == b && y % 2 == j;
  }

  lemma XorParts(a: nat, i: nat, b: nat, j: nat)
    requires i < 2 && j < 2
    ensures BitXor(2 * a + i, 2 * b + j) == 2 * BitXor(a, b) + (if i != j then 1 else 0)
  {
    var x, y := 2 * a + i, 2 * b + j;
    assert x / 2 == a && x % 2 == i && y / 2 == b && y % 2 == j;
  }

  lemma {:induction false} AndSelf(x: nat)
    ensures BitAnd(x, x) == x
    decreases x
  {
    if x > 0 {
      AndSelf(x / 2);
    }
  }

  lemma {:induction false} XorSelf(x: nat)
    ensures BitXor(x, x) == 0
    decreases x
  {
    if x > 0 {
      XorSelf(x / 2);
    }
  }

  lemma CongDouble(x: int, h: int)
    requires Cong(x, 0, h)
    ensures Cong(2 * x, 0, 2 * h)
  {
    var k :| Times(k, h) == x - 0;
    CongBy(2 * x, 0, 2 * h, k);
  }

  lemma HalveCong(r: int, h: int)
    requires Cong(r, 0, 2 * h)
    ensures r % 2 == 0 && Cong(r / 2, 0, h)
  {
    var c :| Times(c, 2 * h) == r - 0;
    assert c * (2 * h) == 2 * (c * h);
    CongBy(r / 2, 0, h, c);
  }

  lemma {:induction false} LowBitDivides(x: nat)
    requires x > 0
    ensures Cong(x, 0, LowBit(x))
    decreases x
  {
    if x % 2 == 1 {
      CongBy(x, 0, 1, x);
    } else {
      LowBitDivides(x / 2);
      CongDouble(x / 2, LowBit(x / 2));
    }
  }

  /** The lowest set bit is a power of two. */
  lemma {:induction false} LowBitPower(x: nat, w: nat) returns (k: nat)
    requires 0 < x < Pow2(w)
    ensures k < w && LowBit(x) == Pow2(k)
    decreases x
  {
    if x % 2 == 1 {
      k := 0;
    } else {
      k := LowBitPower(x / 2, w - 1);
      k := k + 1;
    }
  }

  /** Masking with the bits below a power of two is taking the remainder. */
  lemma {:induction false} MaskIsMod(x: nat, k: nat)
    ensures BitAnd(x, Pow2(k) - 1) == x % Pow2(k)
    decreases k
  {
    if x == 0 {
      ZeroMod(Pow2(k));
    } else if k > 0 {
      var m := Pow2(k - 1);
      MaskIsMod(x / 2, k - 1);
      MaskStep(x, m);
      HalfMod(x, m);
    }
  }

  lemma ZeroMod(m: int)
    requires m > 0
    ensures 0 % m == 0
  {
    CongMod(0, m);
    CongClose(0 % m, 0, m);
  }

  lemma MaskStep(x: nat, m: nat)
    requires x > 0 && m > 0
    ensures BitAnd(x, 2 * m - 1) == 2 * BitAnd(x / 2, m - 1) + x % 2
  {
    assert (2 * m - 1) / 2 == m - 1;
  }

  lemma HalfMod(x: nat, m: nat)
    requires m > 0
    ensures x % (2 * m) == 2 * ((x / 2) % m) + x % 2
  {
    var q, r := (x / 2) / m, (x / 2) % m;
    assert x / 2 == q * m + r;
    assert x == q * (2 * m) + (2 * r + x % 2);
    CongMod(x, 2 * m);
    CongBy(x, 2 * r + x % 2, 2 * m, q);
    CongTrans(x % (2 * m), x, 2 * r + x % 2, 2 * m);
    CongClose(x % (2 * m), 2 * r + x % 2, 2 * m);
  }
}
