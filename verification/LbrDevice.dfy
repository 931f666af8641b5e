/** The branch records of a processor, dumped oldest first and read through a device. */
module LbrDevice {
  import opened Basics
  import opened Modular

  const COUNT: nat := 32
  const FROM: nat := 0x680
  const TO: nat := 0x6c0
  const INFO: nat := 0xdc0

  /** What a register holds, as its low and high halves. */
  datatype Halves = Halves(low: nat, high: nat)

  type Registers = nat -> Halves

  datatype Entry = Entry(msrf: nat, msrt: nat, axf: nat, dxf: nat, axt: nat, dxt: nat, infoA: nat, infoD: nat)

  /** The entry of slot `i` of the ring. */
  function RingEntry(regs: Registers, i: nat): Entry {
    var f, t, n := regs(FROM + i), regs(TO + i), regs(INFO + i);
    Entry(FROM + i, TO + i, f.low, f.high, t.low, t.high, n.low, n.high)
  }

  /** The slot that is `j` places after the oldest, when the newest is at `tos`. */
  function Slot(tos: nat, j: nat): nat { (tos + 1 + j) % COUNT }

  /** Dump the ring with its top of stack at `tos`: the newest entry first, into the last place,
      and then around from the oldest.  Every place is filled, oldest first. */
  method ReadLbr(regs: Registers, tos: nat, data: array<Entry>)
    requires tos < COUNT && data.Length == COUNT
    modifies data
    ensures forall j :: 0 <= j < COUNT ==> data[j] == RingEntry(regs, Slot(tos, j))
  {
    var i, o, k := tos, COUNT - 1, 0;
    while k < COUNT
      invariant 0 <= k <= COUNT && 0 <= i < COUNT && i == (if k == 0 then tos else Slot(tos, k - 1))
      invariant o == if k == 0 then COUNT - 1 else k - 1
      invariant k > 0 ==> data[COUNT - 1] == RingEntry(regs, tos)
      invariant forall j :: 0 <= j < k - 1 ==> data[j] == RingEntry(regs, Slot(tos, j))
    {
      data[o] := RingEntry(regs, i);
      SlotStep(tos, k, i);
      i := (i + 1) % COUNT;
      o := (o + 1) % COUNT;
      k := k + 1;
    }
    assert Slot(tos, COUNT - 1) == tos;
  }

  lemma SlotStep(tos: nat, k: nat, i: nat)
    requires tos < COUNT && i == if k == 0 then tos else Slot(tos, k - 1)
    ensures (i + 1) % COUNT == Slot(tos, k)
  {
  }

  /** No slot of the ring is left out or dumped twice. */
  lemma DumpIsRotation(tos: nat, i: nat) returns (j: nat)
    requires tos < COUNT && i < COUNT
    ensures j < COUNT && Slot(tos, j) == i
    ensures forall k :: 0 <= k < COUNT && Slot(tos, k) == i ==> k == j
  {
    j := if i > tos then i - tos - 1 else i + COUNT - 1 - tos;
  }

  /** The address in a dumped entry is the low 48 bits of the register. */
  const ADDRESS: nat := 0x1_0000_0000_0000

  function GetFrom(e: Entry): nat { BitAnd(e.dxf * 0x1_0000_0000 + e.axf, ADDRESS - 1) }

  function GetTo(e: Entry): nat { BitAnd(e.dxt * 0x1_0000_0000 + e.axt, ADDRESS - 1) }

  function Whole(h: Halves): nat { h.high * 0x1_0000_0000 + h.low }

  lemma DumpedAddresses(regs: Registers, i: nat)
    ensures GetFrom(RingEntry(regs, i)) == Whole(regs(FROM + i)) % ADDRESS
    ensures GetTo(RingEntry(regs, i)) == Whole(regs(TO + i)) % ADDRESS
  {
    AddressMask(Whole(regs(FROM + i)));
    AddressMask(Whole(regs(TO + i)));
  }

  lemma AddressMask(x: nat)
    ensures BitAnd(x, ADDRESS - 1) == x % ADDRESS
  {
    AddressBits();
    MaskIsMod(x, 48);
  }

  lemma AddressBits()
    ensures Pow2(48) == ADDRESS
  {
    assert Pow2(8) == 256;
    Pow2Add(8, 8);
    Pow2Add(16, 16);
    Pow2Add(32, 16);
  }

  // --------------------------------------------------------------------------- the reads

  /** One read: from where the last one stopped, or from the start again if that was the end, at
      most `length` bytes and never past the end. */
  function Chunk(dump: seq<byte>, index: nat, length: nat): (r: seq<byte>)
    requires index <= |dump|
  {
    var start := if index == |dump| then 0 else index;
    if start + length <= |dump| then dump[start..start + length] else dump[start..]
  }

  function NextIndex(dump: seq<byte>, index: nat, length: nat): (r: nat)
    requires index <= |dump|
    ensures r <= |dump|
  {
    (if index == |dump| then 0 else index) + |Chunk(dump, index, length)|
  }

  /** How many bytes a read delivers, of `size` in the dump: what is asked for, up to the end. */
  function ReadSize(size: nat, index: nat, length: nat): (r: nat)
    requires index <= size
  {
    Min(length, if index == size then size else size - index)
  }

  function AllSizes(size: nat, index: nat, lengths: seq<nat>): nat
    requires index <= size
    decreases |lengths|
  {
    if lengths == [] then 0
    else
      var n := ReadSize(size, index, lengths[0]);
      n + AllSizes(size, if index == size then n else index + n, lengths[1..])
  }

  /** Every read that asks for something gets something. */
  lemma {:induction false} SomethingDelivered(size: nat, index: nat, lengths: seq<nat>, k: nat)
    requires size > 0 && index <= size && k < |lengths| && lengths[k] > 0
    ensures ReadSize(size, index, lengths[k]) > 0 && AllSizes(size, index, lengths) > 0
    decreases |lengths|
  {
    if k > 0 {
      var n := ReadSize(size, index, lengths[0]);
      assert lengths[1..][k - 1] == lengths[k];
      SomethingDelivered(size, if index == size then n else index + n, lengths[1..], k - 1);
    }
  }

  /** A sequence of reads delivers as many bytes as its reads do. */
  lemma {:induction false} DeliveredSize(dump: seq<byte>, index: nat, lengths: seq<nat>)
    requires index <= |dump|
    ensures |Delivered(dump, index, lengths)| == AllSizes(|dump|, index, lengths)
    decreases |lengths|
  {
    if lengths != [] {
      DeliveredSize(dump, NextIndex(dump, index, lengths[0]), lengths[1..]);
    }
  }

  /** What a sequence of reads delivers. */
  function Delivered(dump: seq<byte>, index: nat, lengths: seq<nat>): seq<byte>
    requires index <= |dump|
    decreases |lengths|
  {
    if lengths == [] then []
    else Chunk(dump, index, lengths[0]) + Delivered(dump, NextIndex(dump, index, lengths[0]), lengths[1..])
  }

  lemma OneRead(dump: seq<byte>, i: nat, lengths: seq<nat>, k: nat, before: seq<byte>)
    requires i <= |dump| && k < |lengths|
    ensures before + Delivered(dump, i, lengths[k..])
         == before + Chunk(dump, i, lengths[k]) + Delivered(dump, NextIndex(dump, i, lengths[k]), lengths[k + 1..])
  {
    assert lengths[k..][1..] == lengths[k + 1..];
  }

  /** Reads of any lengths deliver a prefix of the dump repeated for ever. */
  lemma {:induction false} ReadsDeliverTheDump(dump: seq<byte>, index: nat, lengths: seq<nat>, j: nat)
    requires index <= |dump| && j < |Delivered(dump, index, lengths)|
    ensures |dump| > 0 && Delivered(dump, index, lengths)[j] == dump[(index + j) % |dump|]
    decreases |lengths|
  {
    var chunk, next := Chunk(dump, index, lengths[0]), NextIndex(dump, index, lengths[0]);
    if j < |chunk| {
      InChunk(dump, index, lengths[0], j);
    } else {
      ReadsDeliverTheDump(dump, next, lengths[1..], j - |chunk|);
      AfterChunk(dump, index, lengths[0], j);
    }
  }

  lemma InChunk(dump: seq<byte>, index: nat, length: nat, j: nat)
    requires index <= |dump| && j < |Chunk(dump, index, length)|
    ensures |dump| > 0 && Chunk(dump, index, length)[j] == dump[(index + j) % |dump|]
  {
    var start := if index == |dump| then 0 else index;
    assert Chunk(dump, index, length)[j] == dump[start + j];
    Around(start + j, index + j, |dump|);
  }

  lemma AfterChunk(dump: seq<byte>, index: nat, length: nat, j: nat)
    requires index <= |dump| && |dump| > 0 && j >= |Chunk(dump, index, length)|
    ensures (NextIndex(dump, index, length) + (j - |Chunk(dump, index, length)|)) % |dump| == (index + j) % |dump|
  {
    AroundAgain(NextIndex(dump, index, length) + (j - |Chunk(dump, index, length)|), index + j, |dump|);
  }

  lemma Around(a: nat, b: nat, n: nat)
    requires a < n && (a == b || a + n == b)
    ensures b % n == a
  {
  }

  lemma AroundAgain(a: nat, b: nat, n: nat)
    requires n > 0 && (a == b || a + n == b)
    ensures a % n == b % n
  {
    if a + n == b {
      CongMod(a, n);
      CongMod(b, n);
      CongBy(b, a, n, 1);
      CongTrans(b % n, b, a, n);
      CongSym(a % n, a, n);
      CongTrans(b % n, a, a % n, n);
      CongClose(b % n, a % n, n);
    }
  }

  // ------------------------------------------------------------------ what a reader sees

  const ENTRY: nat := 32

  function Field(e: Entry, k: nat): nat {
    [e.msrf, e.msrt, e.axf, e.dxf, e.axt, e.dxt, e.infoA, e.infoD][k % 8]
  }

  /** byte `k` of an entry: eight words of four bytes, the lowest byte first. */
  function EntryByte(e: Entry, k: nat): byte {
    CongMod(Field(e, k / 4) / Pow2(8 * (k % 4)), 256);
    Field(e, k / 4) / Pow2(8 * (k % 4)) % 256
  }

  function DumpBytes(data: seq<Entry>): (r: seq<byte>)
    ensures |r| == ENTRY * |data|
    ensures forall j :: 0 <= j < |r| ==> r[j] == EntryByte(data[j / ENTRY], j % ENTRY)
  {
    seq(ENTRY * |data|, j requires 0 <= j < ENTRY * |data| => EntryByte(data[j / ENTRY], j % ENTRY))
  }

  /** From the ring to the reader: byte `j` of the stream after a dump, over any reads, is a byte
      of the ring entry that many places after the oldest. */
  lemma StreamIsTheRing(regs: Registers, tos: nat, data: seq<Entry>, dump: seq<byte>, lengths: seq<nat>, j: nat)
    requires tos < COUNT && |data| == COUNT && forall k :: 0 <= k < COUNT ==> data[k] == RingEntry(regs, Slot(tos, k))
    requires dump == DumpBytes(data) && j < |Delivered(dump, 0, lengths)|
    ensures Delivered(dump, 0, lengths)[j] == EntryByte(RingEntry(regs, Slot(tos, j / ENTRY)), j % ENTRY)
  {
    StreamPlace(dump, lengths, j);
    ByteOfTheRing(regs, tos, data, j, j % 1024);
  }

  lemma StreamPlace(dump: seq<byte>, lengths: seq<nat>, j: nat)
    requires |dump| == 1024 && j < |Delivered(dump, 0, lengths)|
    ensures Delivered(dump, 0, lengths)[j] == dump[j % 1024]
  {
    ReadsDeliverTheDump(dump, 0, lengths, j);
  }

  lemma ByteOfTheRing(regs: Registers, tos: nat, data: seq<Entry>, j: nat, place: nat)
    requires |data| == COUNT && forall k :: 0 <= k < COUNT ==> data[k] == RingEntry(regs, Slot(tos, k))
    requires place == j % 1024
    ensures DumpBytes(data)[place] == EntryByte(RingEntry(regs, Slot(tos, j / ENTRY)), j % ENTRY)
  {
    Places(j, place);
    SlotAround(tos, j / ENTRY);
  }

  lemma Places(j: nat, place: nat)
    requires place == j % 1024
    ensures place / ENTRY == j / ENTRY % COUNT && place % ENTRY == j % ENTRY
  {
    var q, a, b := j / 1024, place / 32, place % 32;
    assert j == 32 * (32 * q + a) + b;
    assert j / 32 == 32 * q + a;
  }

  lemma SlotAround(tos: nat, k: nat)
    ensures Slot(tos, k % COUNT) == Slot(tos, k)
  {
    WholeTurns(tos + 1 + k % 32, k / 32);
  }

  lemma WholeTurns(x: nat, q: nat)
    ensures (x + 32 * q) % 32 == x % 32
  {
  }

  // -------------------------------------------------------------------------- the device

  /** What reads of any lengths deliver from the start is the ring, oldest entry first, over and
      over. */
  ghost predicate Streams(dump: seq<byte>, regs: Registers, tos: nat) {
    forall lengths: seq<nat>, j: nat {:trigger Delivered(dump, 0, lengths)[j]} :: j < |Delivered(dump, 0, lengths)| ==>
      Delivered(dump, 0, lengths)[j] == EntryByte(RingEntry(regs, Slot(tos, j / ENTRY)), j % ENTRY)
  }

  class Device {
    const data: array<Entry>
    var index: nat

    ghost predicate Valid()
      reads this
    {
      data.Length == COUNT && index <= ENTRY * COUNT
    }

    /** The buffer as bytes. */
    function Dump(): (r: seq<byte>)
      reads data
      ensures |r| == ENTRY * data.Length
    {
      DumpBytes(data[..])
    }

    constructor ()
      ensures Valid() && index == 0 && fresh(data)
    {
      data := new Entry[COUNT](_ => Entry(0, 0, 0, 0, 0, 0, 0, 0));
      index := 0;
    }

    /** Take a new dump and start over: whoever reads next sees the ring. */
    method Ioctl(regs: Registers, tos: nat)
      requires Valid() && tos < COUNT
      modifies this`index, data
      ensures Valid() && index == 0 && Streams(Dump(), regs, tos)
    {
      ReadLbr(regs, tos, data);
      index := 0;
      forall lengths: seq<nat>, j: nat | j < |Delivered(Dump(), 0, lengths)|
        ensures Delivered(Dump(), 0, lengths)[j] == EntryByte(RingEntry(regs, Slot(tos, j / ENTRY)), j % ENTRY)
      {
        StreamIsTheRing(regs, tos, data[..], Dump(), lengths, j);
      }
    }

    /** One byte of the buffer. */
    method ByteAt(i: nat) returns (b: byte)
      requires Valid() && i < ENTRY * COUNT
      ensures b == Dump()[i]
    {
      b := EntryByte(data[i / ENTRY], i % ENTRY);
    }

    method Read(length: nat) returns (buffer: seq<byte>)
      requires Valid()
      modifies this`index
      ensures Valid() && buffer == Chunk(Dump(), old(index), length) && index == NextIndex(Dump(), old(index), length)
      ensures var start := if old(index) == ENTRY * COUNT then 0 else old(index);
        |buffer| == Min(length, ENTRY * COUNT - start) && index == start + |buffer|
    {
      if index == ENTRY * COUNT { index := 0; }
      buffer := CopyOut(length);
    }

    method CopyOut(length: nat) returns (buffer: seq<byte>)
      requires Valid()
      modifies this`index
      ensures Valid() && old(index) <= index && buffer == Dump()[old(index)..index]
      ensures |buffer| == Min(length, ENTRY * COUNT - old(index)) && index == old(index) + |buffer|
    {
      ghost var start, dump := index, Dump();
      buffer := [];
      var left := length;
      while left > 0 && index < ENTRY * COUNT
        invariant start <= index <= ENTRY * COUNT && left >= 0 && left + |buffer| == length
        invariant Valid() && dump == Dump() && buffer == dump[start..index]
      {
        var b := ByteAt(index);
        buffer := buffer + [b];
        index := index + 1;
        left := left - 1;
      }
    }

    /** A dump and then reads of any lengths: byte `j` of what they deliver together is a byte of
        the ring entry that many places after the oldest. */
    method Session(regs: Registers, tos: nat, lengths: seq<nat>) returns (stream: seq<byte>)
      requires Valid() && tos < COUNT
      modifies this`index, data
      ensures Valid()
      ensures |stream| == AllSizes(ENTRY * COUNT, 0, lengths)
      ensures forall j :: 0 <= j < |stream| ==> stream[j] == EntryByte(RingEntry(regs, Slot(tos, j / ENTRY)), j % ENTRY)
    {
      Ioctl(regs, tos);
      ghost var dump := Dump();
      stream := ReadAll(lengths);
      assert stream == Delivered(dump, 0, lengths);
      DeliveredSize(dump, 0, lengths);
    }

    method ReadAll(lengths: seq<nat>) returns (stream: seq<byte>)
      requires Valid()
      modifies this`index
      ensures Valid() && stream == Delivered(Dump(), old(index), lengths)
    {
      stream := [];
      var k := 0;
      ghost var dump, start := Dump(), index;
      assert lengths[0..] == lengths;
      while k < |lengths|
        invariant 0 <= k <= |lengths| && Valid() && Dump() == dump
        invariant stream + Delivered(dump, index, lengths[k..]) == Delivered(dump, start, lengths)
      {
        ghost var before, i := stream, index;
        var chunk := Read(lengths[k]);
        stream := stream + chunk;
        OneRead(dump, i, lengths, k, before);
        k := k + 1;
      }
    }
  }
}
