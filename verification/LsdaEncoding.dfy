/** An encoder for the tables of the personality routine, with every number in four bytes. */
module LsdaEncoding {
  import opened Basics
  import opened Modular
  import opened LebDecoding
  import opened LsdaPersonality

  /** Half of what four groups can count. */
  const ROOM: int := 0x800_0000

  lemma RoomIsFour()
    ensures Pow2(27) == ROOM && Pow2(28) == 2 * ROOM
  {
    assert Pow2(7) == 128;
    Pow2Seven(1);
    Pow2Seven(2);
    Pow2Seven(3);
    assert Pow2(28) == 2 * Pow2(27);
  }

  function U(v: nat): (bs: Bytes)
    requires v < ROOM
    ensures |bs| == 4 && IsLeb(bs) && LebValue(bs) == v
  {
    RoomIsFour();
    EncodeULEB128(v, 4)
  }

  function S(v: int): (bs: Bytes)
    requires -ROOM <= v < ROOM
    ensures |bs| == 4 && IsLeb(bs) && SignedValue(bs) == v
  {
    RoomIsFour();
    EncodeSLEB128(v, 4)
  }

  // ------------------------------------------------------------------------ concatenation

  function Concat(rs: seq<Bytes>): Bytes { if rs == [] then [] else rs[0] + Concat(rs[1..]) }

  lemma OneMore(n: nat, i: nat)
    ensures n * (i + 1) == n + n * i
  {
  }

  lemma {:induction false} ConcatAt(rs: seq<Bytes>, n: nat, i: nat)
    requires forall j :: 0 <= j < |rs| ==> |rs[j]| == n
    ensures |Concat(rs)| == n * |rs|
    ensures i < |rs| ==> Holds(Concat(rs), n * i, rs[i])
    decreases |rs|
  {
    if rs != [] {
      ConcatAt(rs[1..], n, if i > 0 then i - 1 else 0);
      OneMore(n, |rs| - 1);
      if 0 < i < |rs| {
        OneMore(n, i - 1);
        HoldsIn(rs[0], Concat(rs[1..]), [], n * (i - 1), rs[i]);
        assert rs[0] + Concat(rs[1..]) + [] == Concat(rs);
      }
    }
  }

  /** What a part holds, the whole holds further on. */
  lemma HoldsIn(a: Bytes, b: Bytes, c: Bytes, p: nat, bs: Bytes)
    requires Holds(b, p, bs)
    ensures Holds(a + b + c, |a| + p, bs)
  {
    assert (a + b + c)[|a| + p..|a| + p + |bs|] == b[p..p + |bs|];
  }

  lemma HoldsPart(data: Bytes, p: nat, a: Bytes, b: Bytes, c: Bytes)
    requires Holds(data, p, a + b + c)
    ensures Holds(data, p + |a|, b)
  {
    var n := |a| + |b| + |c|;
    assert data[p..p + n] == a + b + c;
    assert forall j :: 0 <= j < |b| ==> data[p + |a| + j] == data[p..p + n][|a| + j] == b[j];
    assert data[p + |a|..p + |a| + |b|] == b;
  }

  // -------------------------------------------------------------------------- the encoder

  /** Writers of numbers, each in four bytes. */
  datatype Coder = Coder(word: nat -> Bytes, uleb: nat -> Bytes, sleb: int -> Bytes)

  ghost predicate Exact(c: Coder) {
    && (forall v: nat {:trigger c.word(v)} :: Word(v) ==> |c.word(v)| == 4 && Word32(c.word(v)) == v)
    && (forall v: nat {:trigger c.uleb(v)} ::
         v < ROOM ==> |c.uleb(v)| == 4 && IsLeb(c.uleb(v)) && LebValue(c.uleb(v)) == v)
    && (forall v: int {:trigger c.sleb(v)} ::
         -ROOM <= v < ROOM ==> |c.sleb(v)| == 4 && IsLeb(c.sleb(v)) && SignedValue(c.sleb(v)) == v)
  }

  /** The writers above. */
  function Standard(): (c: Coder)
    ensures Exact(c)
  {
    Coder((v: nat) => if Word(v) then EncodeWord32(v) else [],
          (v: nat) => if v < ROOM then U(v) else [],
          (v: int) => if -ROOM <= v < ROOM then S(v) else [])
  }

  /** Fields fit four bytes and the whole table fits what four groups can count. */
  predicate Encodable(t: Table) {
    && (forall k :: 0 <= k < |t.sites| ==> Word(t.sites[k].start) && Word(t.sites[k].length) && Word(t.sites[k].pad))
    && (forall i :: 0 <= i < |t.types| ==> Word(t.types[i]))
    && 16 * |t.sites| + 8 * |t.actions| + 4 * |t.types| + 16 < ROOM
    && (forall k :: 0 <= k < |t.sites| && t.sites[k].action.Some? ==> t.sites[k].action.value < |t.actions|)
    && (forall i :: 0 <= i < |t.actions| ==> t.actions[i].kind <= |t.types|)
    && (forall i :: 0 <= i < |t.actions| && t.actions[i].next.Some? ==> t.actions[i].next.value < |t.actions|)
  }

  predicate Word(v: nat) { v < 0x1_0000_0000 }

  function SiteBytes(c: Coder, s: Site): Bytes {
    c.word(s.start) + c.word(s.length) + c.word(s.pad) + c.uleb(EntryFor(s.action))
  }

  function Distance(i: nat, l: Option<nat>): int { if l.None? then 0 else 8 * l.value - (8 * i + 4) }

  function ActionBytes(c: Coder, i: nat, a: Action): Bytes { c.sleb(a.kind) + c.sleb(Distance(i, a.next)) }

  function SitePart(c: Coder, t: Table): (r: seq<Bytes>)
    ensures |r| == |t.sites| && forall k :: 0 <= k < |r| ==> r[k] == SiteBytes(c, t.sites[k])
  {
    seq(|t.sites|, k requires 0 <= k < |t.sites| => SiteBytes(c, t.sites[k]))
  }

  function ActionPart(c: Coder, t: Table): (r: seq<Bytes>)
    ensures |r| == |t.actions| && forall i :: 0 <= i < |r| ==> r[i] == ActionBytes(c, i, t.actions[i])
  {
    seq(|t.actions|, i requires 0 <= i < |t.actions| => ActionBytes(c, i, t.actions[i]))
  }

  /** Types are counted down from the end. */
  function TypePart(c: Coder, t: Table): (r: seq<Bytes>)
    ensures |r| == |t.types| && forall i :: 0 <= i < |r| ==> r[i] == c.word(t.types[|t.types| - 1 - i])
  {
    seq(|t.types|, i requires 0 <= i < |t.types| => c.word(t.types[|t.types| - 1 - i]))
  }

  function Header(c: Coder, t: Table): Bytes {
    [OMIT, UDATA4] + c.uleb(5 + 16 * |t.sites| + 8 * |t.actions| + 4 * |t.types|) + [UDATA4] + c.uleb(16 * |t.sites|)
  }

  function Encode(c: Coder, t: Table): Bytes {
    Header(c, t) + Concat(SitePart(c, t)) + Concat(ActionPart(c, t)) + Concat(TypePart(c, t))
  }

  function LayoutOf(c: Coder, t: Table): Layout {
    var ns, na, nt := |t.sites|, |t.actions|, |t.types|;
    Layout(
      c.uleb(5 + 16 * ns + 8 * na + 4 * nt), c.uleb(16 * ns),
      seq(ns + 1, k => 11 + 16 * k), seq(ns, k requires 0 <= k < ns => c.uleb(EntryFor(t.sites[k].action))),
      seq(na, i => 11 + 16 * ns + 8 * i), seq(na, i requires 0 <= i < na => c.sleb(t.actions[i].kind)),
      seq(na, i requires 0 <= i < na => c.sleb(Distance(i, t.actions[i].next))),
      11 + 16 * ns + 8 * na + 4 * nt)
  }

  lemma PartSizes(c: Coder, t: Table)
    requires Exact(c) && Encodable(t)
    ensures |Concat(SitePart(c, t))| == 16 * |t.sites| && |Concat(ActionPart(c, t))| == 8 * |t.actions|
    ensures |Concat(TypePart(c, t))| == 4 * |t.types|
  {
    SiteSizes(c, t);
    ActionSizes(c, t);
    ConcatAt(SitePart(c, t), 16, 0);
    ConcatAt(ActionPart(c, t), 8, 0);
    ConcatAt(TypePart(c, t), 4, 0);
  }

  lemma ActionSize(c: Coder, t: Table, i: nat)
    requires Exact(c) && Encodable(t) && i < |t.actions|
    ensures -ROOM <= Distance(i, t.actions[i].next) < ROOM && t.actions[i].kind < ROOM
    ensures |c.sleb(t.actions[i].kind)| == 4 && |c.sleb(Distance(i, t.actions[i].next))| == 4
  {
  }

  lemma SiteSizes(c: Coder, t: Table)
    requires Exact(c) && Encodable(t)
    ensures forall k :: 0 <= k < |t.sites| ==> |SitePart(c, t)[k]| == 16
  {
  }

  lemma ActionSizes(c: Coder, t: Table)
    requires Exact(c) && Encodable(t)
    ensures forall i :: 0 <= i < |t.actions| ==> |ActionPart(c, t)[i]| == 8
  {
    forall i | 0 <= i < |t.actions| ensures |ActionPart(c, t)[i]| == 8 { ActionSize(c, t, i); }
  }

  lemma HoldsFirst(h: Bytes, a: Bytes, b: Bytes, c: Bytes)
    ensures Holds(h + a + b + c, 0, h)
  {
    assert (h + a + b + c)[0..|h|] == h;
  }

  /** A record of a part is held by the whole. */
  lemma RecordHeld(front: Bytes, part: seq<Bytes>, back: Bytes, n: nat, i: nat)
    requires i < |part| && forall j :: 0 <= j < |part| ==> |part[j]| == n
    ensures Holds(front + Concat(part) + back, |front| + n * i, part[i])
  {
    ConcatAt(part, n, i);
    HoldsIn(front, Concat(part), back, n * i, part[i]);
  }

  lemma LastPart(front: Bytes, part: Bytes)
    ensures front + part + [] == front + part
  {
  }

  lemma MiddlePart(front: Bytes, part: Bytes, b: Bytes, c: Bytes)
    ensures front + part + (b + c) == front + part + b + c
  {
  }

  lemma SiteAt(c: Coder, t: Table, k: nat)
    requires Exact(c) && Encodable(t) && k < |t.sites|
    ensures Holds(Encode(c, t), 11 + 16 * k, SiteBytes(c, t.sites[k]))
  {
    SiteSizes(c, t);
    HeaderSize(c, t);
    var h, a, x, y := Header(c, t), SitePart(c, t), Concat(ActionPart(c, t)), Concat(TypePart(c, t));
    RecordHeld(h, a, x + y, 16, k);
    MiddlePart(h, Concat(a), x, y);
  }

  lemma ActionAt(c: Coder, t: Table, i: nat)
    requires Exact(c) && Encodable(t) && i < |t.actions|
    ensures Holds(Encode(c, t), 11 + 16 * |t.sites| + 8 * i, ActionBytes(c, i, t.actions[i]))
  {
    var front, part, back := Header(c, t) + Concat(SitePart(c, t)), ActionPart(c, t), Concat(TypePart(c, t));
    FrontSize(c, t);
    ActionSizes(c, t);
    RecordAt(front, part, back, 8, i, 11 + 16 * |t.sites| + 8 * i, ActionBytes(c, i, t.actions[i]));
  }

  lemma RecordAt(front: Bytes, part: seq<Bytes>, back: Bytes, n: nat, i: nat, at: nat, rec: Bytes)
    requires i < |part| && (forall j :: 0 <= j < |part| ==> |part[j]| == n) && at == |front| + n * i && rec == part[i]
    ensures Holds(front + Concat(part) + back, at, rec)
  {
    RecordHeld(front, part, back, n, i);
  }

  lemma TypeAt(c: Coder, t: Table, i: nat)
    requires Exact(c) && Encodable(t) && i < |t.types|
    ensures Holds(Encode(c, t), 11 + 16 * |t.sites| + 8 * |t.actions| + 4 * (|t.types| - 1 - i), c.word(t.types[i]))
  {
    var front, part := Header(c, t) + Concat(SitePart(c, t)) + Concat(ActionPart(c, t)), TypePart(c, t);
    var j := |t.types| - 1 - i;
    FrontSize(c, t);
    TypeSizes(c, t);
    LastRecordAt(front, part, 4, j, 11 + 16 * |t.sites| + 8 * |t.actions| + 4 * j, c.word(t.types[i]));
  }

  lemma LastRecordAt(front: Bytes, part: seq<Bytes>, n: nat, i: nat, at: nat, rec: Bytes)
    requires i < |part| && (forall j :: 0 <= j < |part| ==> |part[j]| == n) && at == |front| + n * i && rec == part[i]
    ensures Holds(front + Concat(part), at, rec)
  {
    RecordHeld(front, part, [], n, i);
    LastPart(front, Concat(part));
  }

  lemma FrontSize(c: Coder, t: Table)
    requires Exact(c) && Encodable(t)
    ensures |Header(c, t) + Concat(SitePart(c, t))| == 11 + 16 * |t.sites|
    ensures |Header(c, t) + Concat(SitePart(c, t)) + Concat(ActionPart(c, t))| == 11 + 16 * |t.sites| + 8 * |t.actions|
  {
    PartSizes(c, t);
    HeaderSize(c, t);
  }

  lemma TypeSizes(c: Coder, t: Table)
    requires Exact(c) && Encodable(t)
    ensures forall i :: 0 <= i < |t.types| ==> |TypePart(c, t)[i]| == 4
  {
  }

  lemma HeaderSize(c: Coder, t: Table)
    requires Exact(c) && Encodable(t)
    ensures |Header(c, t)| == 11
  {
  }

  lemma HeaderAt(c: Coder, t: Table)
    requires Exact(c) && Encodable(t)
    ensures Holds(Encode(c, t), 0, Header(c, t))
  {
    HoldsFirst(Header(c, t), Concat(SitePart(c, t)), Concat(ActionPart(c, t)), Concat(TypePart(c, t)));
  }

  // ------------------------------------------------------------------------- the fields

  lemma FourFields(data: Bytes, p: nat, a: Bytes, b: Bytes, c: Bytes, u: Bytes)
    requires Holds(data, p, a + b + c + u) && |a| == |b| == |c| == |u| == 4
    ensures Holds(data, p, a) && Holds(data, p + 4, b) && Holds(data, p + 8, c) && Holds(data, p + 12, u)
  {
    assert a + b + c + u == [] + a + (b + c + u) == a + b + (c + u) == (a + b) + c + u == (a + b + c) + u + [];
    HoldsPart(data, p, [], a, b + c + u);
    HoldsPart(data, p, a, b, c + u);
    HoldsPart(data, p, a + b, c, u);
    HoldsPart(data, p, a + b + c, u, []);
  }

  lemma TwoFields(data: Bytes, p: nat, a: Bytes, b: Bytes)
    requires Holds(data, p, a + b) && |a| == |b| == 4
    ensures Holds(data, p, a) && Holds(data, p + 4, b)
  {
    assert a + b == [] + a + b == a + b + [];
    HoldsPart(data, p, [], a, b);
    HoldsPart(data, p, a, b, []);
  }

  lemma HeaderFields(data: Bytes, x: byte, y: byte, o: Bytes, z: byte, l: Bytes)
    requires Holds(data, 0, [x, y] + o + [z] + l) && |o| == |l| == 4
    ensures |data| >= 11 && data[0] == x && data[1] == y && data[6] == z && Holds(data, 2, o) && Holds(data, 7, l)
  {
    var h := [x, y] + o + [z] + l;
    assert h == [x, y] + o + ([z] + l) == ([x, y] + o + [z]) + l + [];
    HoldsPart(data, 0, [x, y], o, [z] + l);
    HoldsPart(data, 0, [x, y] + o + [z], l, []);
    assert data[0..11] == h;
    assert data[0] == h[0] && data[1] == h[1] && data[6] == h[6];
  }

  lemma WordHeld(c: Coder, data: Bytes, p: nat, v: nat)
    requires Exact(c) && Word(v) && Holds(data, p, c.word(v))
    ensures WordAt(data, p, v)
  {
  }

  lemma HeaderIsLaid(c: Coder, t: Table, data: Bytes)
    requires Exact(c) && Encodable(t) && Holds(data, 0, Header(c, t))
    ensures HeaderLaid(data, LayoutOf(c, t))
  {
    var y := LayoutOf(c, t);
    HeaderFields(data, OMIT, UDATA4, y.classBytes, UDATA4, y.lengthBytes);
    assert y.sitePos[0] == 11 && y.sitePos[|t.sites|] == 11 + 16 * |t.sites|;
  }

  function EntryFor(l: Option<nat>): nat { if l.None? then 0 else 8 * l.value + 1 }

  lemma SiteFieldsHeld(c: Coder, s: Site, data: Bytes, p: nat)
    requires Exact(c) && Word(s.start) && Word(s.length) && Word(s.pad) && EntryFor(s.action) < ROOM
    requires Holds(data, p, SiteBytes(c, s))
    ensures WordAt(data, p, s.start) && WordAt(data, p + 4, s.length) && WordAt(data, p + 8, s.pad)
    ensures UlebAt(data, p + 12, c.uleb(EntryFor(s.action)), EntryFor(s.action))
  {
    FourFields(data, p, c.word(s.start), c.word(s.length), c.word(s.pad), c.uleb(EntryFor(s.action)));
    WordHeld(c, data, p, s.start);
    WordHeld(c, data, p + 4, s.length);
    WordHeld(c, data, p + 8, s.pad);
  }

  lemma SiteIsLaid(c: Coder, t: Table, k: nat, data: Bytes)
    requires Exact(c) && Encodable(t) && k < |t.sites| && Holds(data, 11 + 16 * k, SiteBytes(c, t.sites[k]))
    ensures SiteLaid(data, t, LayoutOf(c, t), k)
  {
    var y, s := LayoutOf(c, t), t.sites[k];
    SiteFieldsHeld(c, s, data, 11 + 16 * k);
    assert y.sitePos[k] == 11 + 16 * k && y.sitePos[k + 1] == 11 + 16 * k + 16;
    assert ActionsStart(y) == 11 + 16 * |t.sites|;
    assert y.siteBytes[k] == c.uleb(EntryFor(s.action)) && |y.siteBytes[k]| == 4;
    assert EntryOf(s.action, y) == EntryFor(s.action);
  }

  lemma ActionIsLaid(c: Coder, t: Table, i: nat, data: Bytes)
    requires Exact(c) && Encodable(t) && i < |t.actions|
    requires Holds(data, 11 + 16 * |t.sites| + 8 * i, ActionBytes(c, i, t.actions[i]))
    ensures ActionLaid(data, t, LayoutOf(c, t), i)
  {
    var y, p, a := LayoutOf(c, t), 11 + 16 * |t.sites| + 8 * i, t.actions[i];
    ActionSize(c, t, i);
    TwoFields(data, p, c.sleb(a.kind), c.sleb(Distance(i, a.next)));
    assert y.kindBytes[i] == c.sleb(a.kind) && y.nextBytes[i] == c.sleb(Distance(i, a.next)) && y.actionPos[i] == p;
    if a.next.Some? {
      assert y.actionPos[a.next.value] == 11 + 16 * |t.sites| + 8 * a.next.value;
    }
  }

  lemma TypeIsLaid(c: Coder, t: Table, i: nat, data: Bytes)
    requires Exact(c) && Encodable(t) && i < |t.types|
    requires Holds(data, 11 + 16 * |t.sites| + 8 * |t.actions| + 4 * (|t.types| - 1 - i), c.word(t.types[i]))
    ensures TypeLaid(data, t, LayoutOf(c, t), i)
  {
    WordHeld(c, data, 11 + 16 * |t.sites| + 8 * |t.actions| + 4 * (|t.types| - 1 - i), t.types[i]);
  }

  /** What the encoder writes is an encoding of the tables, so the routine's answer on it is the
      one that the tables give. */
  lemma EncodeIsEncoding(c: Coder, t: Table)
    requires Exact(c) && Encodable(t)
    ensures Encodes(Encode(c, t), t, LayoutOf(c, t))
  {
    var data, y := Encode(c, t), LayoutOf(c, t);
    HeaderAt(c, t);
    HeaderIsLaid(c, t, data);
    forall k | 0 <= k < |t.sites| ensures SiteLaid(data, t, y, k) { SiteAt(c, t, k); SiteIsLaid(c, t, k, data); }
    forall i | 0 <= i < |t.actions| ensures ActionLaid(data, t, y, i) {
      ActionAt(c, t, i);
      ActionIsLaid(c, t, i, data);
    }
    forall i | 0 <= i < |t.types| ensures TypeLaid(data, t, y, i) { TypeAt(c, t, i); TypeIsLaid(c, t, i, data); }
  }

  /** Encoding tables and asking the routine about the bytes is looking in the tables. */
  method HandleEncoded(t: Table, kindAt: nat -> int, pc: nat, ours: bool, thrown: int, search: bool,
                       ghost rank: seq<nat>)
    returns (r: Answer)
    requires Encodable(t) && Linked(t, rank)
    ensures r == Lookup(t, rank, kindAt, pc, ours, thrown, search)
  {
    var c := Standard();
    EncodeIsEncoding(c, t);
    r := HandleLsda(Encode(c, t), kindAt, pc, ours, thrown, search, t, rank, LayoutOf(c, t));
  }
}
