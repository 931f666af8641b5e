/** Variable length integers of the DWARF format, in at most four bytes. */
module LebDecoding {
  import opened Basics
  import opened Modular

  type Bytes = seq<byte>

  /** Groups of seven bits, the lowest first; every byte but the last has its top bit set. */
  predicate IsLeb(bs: Bytes) {
    0 < |bs| <= 4 && bs[|bs| - 1] < 128 && forall i :: 0 <= i < |bs| - 1 ==> bs[i] >= 128
  }

  function LebValue(bs: Bytes): nat { if bs == [] then 0 else bs[0] % 128 + 128 * LebValue(bs[1..]) }

  /** Bit six of the last byte is the sign. */
  function SignedValue(bs: Bytes): int
    requires bs != []
  {
    if |bs| == 1 then (if bs[0] % 128 < 64 then bs[0] % 128 else bs[0] % 128 - 128)
    else bs[0] % 128 + 128 * SignedValue(bs[1..])
  }

  ghost predicate Holds(data: Bytes, p: nat, bs: Bytes) { p + |bs| <= |data| && data[p..p + |bs|] == bs }

  // -------------------------------------------------------------------------- writing

  /** As many groups as there is room for. */
  function EncodeULEB128(v: nat, room: nat): (bs: Bytes)
    requires 0 < room <= 4 && v < Pow2(7 * room)
    ensures |bs| == room && IsLeb(bs) && LebValue(bs) == v
    decreases room
  {
    UnsignedRoom(v, room);
    if room == 1 then [v]
    else
      LebCons(v, EncodeULEB128(v / 128, room - 1));
      [128 + v % 128] + EncodeULEB128(v / 128, room - 1)
  }

  function EncodeSLEB128(v: int, room: nat): (bs: Bytes)
    requires 0 < room <= 4 && -Pow2(7 * room - 1) <= v < Pow2(7 * room - 1)
    ensures |bs| == room && IsLeb(bs) && SignedValue(bs) == v
    decreases room
  {
    SignedRoom(v, room);
    if room == 1 then [v % 128]
    else
      LebCons(v, EncodeSLEB128(v / 128, room - 1));
      [128 + v % 128] + EncodeSLEB128(v / 128, room - 1)
  }

  lemma LebCons(v: int, rest: Bytes)
    requires IsLeb(rest) && |rest| < 4
    ensures var bs := [128 + v % 128] + rest;
      && IsLeb(bs) && LebValue(bs) == v % 128 + 128 * LebValue(rest)
      && SignedValue(bs) == v % 128 + 128 * SignedValue(rest)
  {
    var bs := [128 + v % 128] + rest;
    assert bs[1..] == rest && bs[0] % 128 == v % 128;
  }

  lemma UnsignedRoom(v: nat, room: nat)
    requires room > 0 && v < Pow2(7 * room)
    ensures room == 1 ==> v < 128
    ensures room > 1 ==> v / 128 < Pow2(7 * (room - 1))
  {
    assert Pow2(7) == 128;
    if room > 1 {
      Pow2Seven(room - 1);
    }
  }

  lemma SignedRoom(v: int, room: nat)
    requires room > 0 && -Pow2(7 * room - 1) <= v < Pow2(7 * room - 1)
    ensures room == 1 ==> -64 <= v < 64
    ensures room > 1 ==> -Pow2(7 * (room - 1) - 1) <= v / 128 < Pow2(7 * (room - 1) - 1)
  {
    assert Pow2(6) == 64;
    if room > 1 {
      Pow2Seven(room - 1);
      Divided(v, Pow2(7 * (room - 1) - 1));
    }
  }

  lemma Divided(v: int, h: int)
    requires -(128 * h) <= v < 128 * h
    ensures -h <= v / 128 < h
  {
  }

  lemma Pow2Seven(k: nat)
    ensures Pow2(7 * (k + 1)) == 128 * Pow2(7 * k)
    ensures k > 0 ==> Pow2(7 * (k + 1) - 1) == 128 * Pow2(7 * k - 1)
  {
    assert Pow2(7) == 128;
    Pow2Add(7, 7 * k);
    if k > 0 { Pow2Add(7, 7 * k - 1); }
  }

  // -------------------------------------------------------------------------- reading

  lemma {:induction false} LebBound(bs: Bytes)
    ensures LebValue(bs) < Pow2(7 * |bs|)
    decreases |bs|
  {
    if bs != [] {
      LebBound(bs[1..]);
      Pow2Seven(|bs| - 1);
    }
  }

  lemma Scaled(x: int, p: int)
    ensures x * (128 * p) == 128 * (x * p)
  {
  }

  lemma {:induction false} LebSnoc(bs: Bytes, b: byte)
    ensures LebValue(bs + [b]) == LebValue(bs) + (b % 128) * Pow2(7 * |bs|)
    decreases |bs|
  {
    if bs != [] {
      assert (bs + [b])[1..] == bs[1..] + [b];
      LebSnoc(bs[1..], b);
      Pow2Seven(|bs| - 1);
      Scaled(b % 128, Pow2(7 * (|bs| - 1)));
    } else {
      assert (bs + [b])[1..] == [];
    }
  }

  lemma {:induction false} SignedIsAdjusted(bs: Bytes)
    requires bs != []
    ensures SignedValue(bs) == LebValue(bs) - (if bs[|bs| - 1] % 128 < 64 then 0 else Pow2(7 * |bs|))
    decreases |bs|
  {
    if |bs| > 1 {
      SignedIsAdjusted(bs[1..]);
      Pow2Seven(|bs| - 1);
    } else {
      assert Pow2(7) == 128;
    }
  }

  /** A number below a power of two shares no bit with a multiple of it. */
  lemma {:induction false} LowHigh(a: nat, b: nat, k: nat)
    requires a < Pow2(k)
    ensures BitOr(a, b * Pow2(k)) == a + b * Pow2(k)
    decreases k
  {
    ProductSign(b, Pow2(k));
    if k > 0 && a > 0 && b > 0 {
      LowHigh(a / 2, b, k - 1);
      ProductSign(b, Pow2(k - 1));
      Doubled(b, Pow2(k - 1));
    }
  }

  lemma ProductSign(x: nat, y: int)
    requires y >= 0
    ensures x * y >= 0 && (x > 0 && y > 0 ==> x * y > 0)
  {
  }

  lemma Doubled(b: nat, h: int)
    ensures b * (2 * h) == 2 * (b * h)
  {
  }

  /** Read groups until one says it is the last; returns also the number of bits read and the
      last byte. */
  method ReadGroups(data: Bytes, p: nat, ghost bs: Bytes) returns (r: nat, shift: nat, byte: byte, q: nat)
    requires IsLeb(bs) && Holds(data, p, bs)
    ensures r == LebValue(bs) && shift == 7 * |bs| && byte == bs[|bs| - 1] && q == p + |bs|
  {
    r, shift, q := 0, 0, p;
    ghost var i := 0;
    byte := 128;
    while byte >= 128
      invariant 0 <= i <= |bs| && q == p + i && shift == 7 * i && r == LebValue(bs[..i])
      invariant if i == 0 then byte == 128 else byte == bs[i - 1]
      invariant i == |bs| ==> byte < 128
      decreases |bs| - i
    {
      byte := data[q];
      assert byte == data[p..p + |bs|][i] == bs[i];
      q := q + 1;
      FitsInt(byte % 128, i);
      LebBound(bs[..i]);
      LowHigh(r, byte % 128, shift);
      r := BitOr(r, (byte % 128) * Pow2(shift));
      LebSnoc(bs[..i], byte);
      assert bs[..i] + [byte] == bs[..i + 1];
      shift := shift + 7;
      i := i + 1;
    }
    assert bs[..i] == bs;
  }

  /** The shift is made on 32-bit integers, which four groups do not overflow. */
  lemma FitsInt(b: nat, i: nat)
    requires b < 128 && i < 4
    ensures 0 <= b * Pow2(7 * i) < 0x8000_0000
  {
    assert Pow2(7) == 128;
    Pow2Seven(1);
    Pow2Seven(2);
    assert Pow2(7 * i) == [1, 128, 16384, 2097152][i];
    var g := [1, 128, 16384, 2097152][i];
    assert g <= 2097152;
    assert b * g <= 128 * 2097152;
  }

  method ReadULEB128(data: Bytes, p: nat, ghost bs: Bytes) returns (r: nat, q: nat)
    requires IsLeb(bs) && Holds(data, p, bs)
    ensures r == LebValue(bs) && q == p + |bs|
  {
    var shift, byte;
    r, shift, byte, q := ReadGroups(data, p, bs);
  }

  /** The result is a 64-bit word, extended by its sign and then taken as signed. */
  method ReadSLEB128(data: Bytes, p: nat, ghost bs: Bytes) returns (r: int, q: nat)
    requires IsLeb(bs) && Holds(data, p, bs)
    ensures r == SignedValue(bs) && q == p + |bs|
  {
    var shift, byte;
    r, shift, byte, q := ReadGroups(data, p, bs);
    LebBound(bs);
    SignedIsAdjusted(bs);
    if byte % 128 >= 64 && shift < 64 {
      r := ExtendSign(r, shift);
    }
  }

  /** Or in the bits above `shift`: all ones shifted up, in 64 bits, is minus a power of two. */
  function ExtendSign(r: nat, shift: nat): (s: int)
    requires r < Pow2(shift) && shift < 64
    ensures s == r - Pow2(shift)
  {
    HighOnes(r, shift, 64);
    BitOr(r, (Pow2(64 - shift) - 1) * Pow2(shift)) - Pow2(64)
  }

  lemma HighOnes(r: nat, shift: nat, n: nat)
    requires r < Pow2(shift) && shift < n
    ensures (Pow2(n - shift) - 1) * Pow2(shift) >= 0
    ensures BitOr(r, (Pow2(n - shift) - 1) * Pow2(shift)) == r + Pow2(n) - Pow2(shift)
  {
    var a, b := Pow2(n - shift), Pow2(shift);
    Pow2Add(n - shift, shift);
    LowHigh(r, a - 1, shift);
    OneLess(a, b);
    ProductSign(a - 1, b);
  }

  lemma OneLess(a: int, b: int)
    ensures (a - 1) * b == a * b - b
  {
  }
}
