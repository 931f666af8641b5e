/** The personality routine that finds a handler in a function's language specific data. */
module LsdaPersonality {
  import opened Basics
  import opened LebDecoding

  // ------------------------------------------------------------------ the abstract tables

  /** A range of code, where to land, and the first action to try. */
  datatype Site = Site(start: nat, length: nat, pad: nat, action: Option<nat>)

  /** A type to match, counted from one, or zero for a cleanup; and what to try next. */
  datatype Action = Action(kind: nat, next: Option<nat>)

  /** `types` are the addresses of type descriptions. */
  datatype Table = Table(sites: seq<Site>, actions: seq<Action>, types: seq<nat>)

  /** The chains end: every link goes to an action of smaller rank. */
  ghost predicate Linked(t: Table, rank: seq<nat>) {
    && |rank| == |t.actions|
    && (forall i :: 0 <= i < |t.sites| && t.sites[i].action.Some? ==> t.sites[i].action.value < |t.actions|)
    && (forall i :: 0 <= i < |t.actions| ==> t.actions[i].kind <= |t.types|)
    && (forall i :: 0 <= i < |t.actions| && t.actions[i].next.Some? ==>
          t.actions[i].next.value < |t.actions| && rank[t.actions[i].next.value] < rank[i])
  }

  /** The actions of a chain, in the order they are tried. */
  ghost function Chain(t: Table, rank: seq<nat>, l: Option<nat>): seq<Action>
    requires Linked(t, rank) && (l.Some? ==> l.value < |t.actions|)
    decreases if l.Some? then rank[l.value] + 1 else 0
  {
    if l.None? then [] else [t.actions[l.value]] + Chain(t, rank, t.actions[l.value].next)
  }

  /** A chain starts where it is entered, goes on where each action says, and ends where one says so. */
  lemma {:induction false} ChainFollows(t: Table, rank: seq<nat>, l: Option<nat>)
    requires Linked(t, rank) && (l.Some? ==> l.value < |t.actions|)
    ensures var chain := Chain(t, rank, l);
      && (chain == [] <==> l.None?) && (l.Some? ==> chain[0] == t.actions[l.value])
      && (chain != [] ==> chain[|chain| - 1].next.None?)
      && forall i :: 0 <= i < |chain| - 1 ==>
           chain[i].next.Some? && chain[i].next.value < |t.actions| && chain[i + 1] == t.actions[chain[i].next.value]
    decreases if l.Some? then rank[l.value] + 1 else 0
  {
    if l.Some? {
      var next := t.actions[l.value].next;
      var rest := Chain(t, rank, next);
      ChainFollows(t, rank, next);
      assert Chain(t, rank, l) == [t.actions[l.value]] + rest;
    }
  }

  predicate Matches(t: Table, a: Action, kindAt: nat -> int, thrown: int) {
    0 < a.kind <= |t.types| && kindAt(t.types[a.kind - 1]) == thrown
  }

  /** The position, from one, of the first action that matches; zero if none does. */
  function Selector(t: Table, chain: seq<Action>, kindAt: nat -> int, thrown: int): nat {
    if chain == [] then 0
    else if Matches(t, chain[0], kindAt, thrown) then 1
    else
      var r := Selector(t, chain[1..], kindAt, thrown);
      if r == 0 then 0 else r + 1
  }

  lemma {:induction false} SelectorIsFirst(t: Table, chain: seq<Action>, kindAt: nat -> int, thrown: int)
    ensures var sel := Selector(t, chain, kindAt, thrown);
      if sel == 0 then forall i :: 0 <= i < |chain| ==> !Matches(t, chain[i], kindAt, thrown)
      else
        && sel <= |chain| && Matches(t, chain[sel - 1], kindAt, thrown)
        && forall i :: 0 <= i < sel - 1 ==> !Matches(t, chain[i], kindAt, thrown)
    decreases |chain|
  {
    if chain != [] {
      SelectorIsFirst(t, chain[1..], kindAt, thrown);
      assert forall i :: 1 <= i < |chain| ==> chain[i] == chain[1..][i - 1];
    }
  }

  predicate InRange(s: Site, pc: nat) { s.pad != 0 && s.start <= pc < s.start + s.length }

  /** What the routine tells the unwinder. */
  datatype Answer = ContinueUnwind | HandlerFound | InstallContext(pad: nat, selector: nat)

  /** The first call site from `k` on with a landing pad whose range has the program counter. */
  function FindSite(sites: seq<Site>, pc: nat, k: nat): Option<nat>
    decreases |sites| - k
  {
    if k >= |sites| then None else if InRange(sites[k], pc) then Some(k) else FindSite(sites, pc, k + 1)
  }

  lemma {:induction false} FindSiteIsFirst(sites: seq<Site>, pc: nat, k: nat)
    ensures var l := FindSite(sites, pc, k);
      if l.None? then forall i :: k <= i < |sites| ==> !InRange(sites[i], pc)
      else
        && k <= l.value < |sites| && InRange(sites[l.value], pc)
        && forall i :: k <= i < l.value ==> !InRange(sites[i], pc)
    decreases |sites| - k
  {
    if k < |sites| && !InRange(sites[k], pc) {
      FindSiteIsFirst(sites, pc, k + 1);
    }
  }

  /** The selector for an exception; one thrown by another language matches nothing. */
  ghost function SelectorAt(t: Table, rank: seq<nat>, k: nat, kindAt: nat -> int, ours: bool, thrown: int): nat
    requires Linked(t, rank) && k < |t.sites|
  {
    if ours then Selector(t, Chain(t, rank, t.sites[k].action), kindAt, thrown) else 0
  }

  /** The answer that the abstract tables give. */
  ghost function Lookup(t: Table, rank: seq<nat>, kindAt: nat -> int, pc: nat, ours: bool, thrown: int,
                        search: bool): Answer
    requires Linked(t, rank)
  {
    FindSiteIsFirst(t.sites, pc, 0);
    match FindSite(t.sites, pc, 0)
    case None => ContinueUnwind
    case Some(k) =>
      var sel := SelectorAt(t, rank, k, kindAt, ours, thrown);
      if !search then InstallContext(t.sites[k].pad, sel) else if sel > 0 then HandlerFound else ContinueUnwind
  }

  // ------------------------------------------------------------------------ the bytes

  function Word32(bs: Bytes): (r: nat)
    requires |bs| == 4
    ensures r < 0x1_0000_0000
  {
    var a: nat, b: nat, c: nat, d: nat := bs[0], bs[1], bs[2], bs[3];
    a + 0x100 * b + 0x1_0000 * c + 0x100_0000 * d
  }

  function EncodeWord32(v: nat): (bs: Bytes)
    requires v < 0x1_0000_0000
    ensures |bs| == 4 && Word32(bs) == v
  {
    FourDigits(v);
    [v % 256, v / 256 % 256, v / 256 / 256 % 256, v / 256 / 256 / 256]
  }

  lemma FourDigits(v: nat)
    requires v < 0x1_0000_0000
    ensures v / 256 / 256 / 256 < 256
    ensures v == v % 256 + 0x100 * (v / 256 % 256) + 0x1_0000 * (v / 256 / 256 % 256)
                 + 0x100_0000 * (v / 256 / 256 / 256)
  {
    var a := v / 256;
    var b := a / 256;
    var c := b / 256;
    assert v == v % 256 + 256 * a && a == a % 256 + 256 * b && b == b % 256 + 256 * c;
  }

  const OMIT: nat := 0xff
  const UDATA4: nat := 0x03

  ghost predicate WordAt(data: Bytes, p: nat, v: nat) { p + 4 <= |data| && Word32(data[p..p + 4]) == v }

  ghost predicate UlebAt(data: Bytes, p: nat, bs: Bytes, v: nat) {
    IsLeb(bs) && Holds(data, p, bs) && LebValue(bs) == v
  }

  ghost predicate SlebAt(data: Bytes, p: nat, bs: Bytes, v: int) {
    IsLeb(bs) && Holds(data, p, bs) && SignedValue(bs) == v
  }

  /** Where everything is.  Any encoding of a number in at most four bytes will do, so a layout
      also says which bytes encode it. */
  datatype Layout = Layout(
    classBytes: Bytes, lengthBytes: Bytes,
    sitePos: seq<nat>, siteBytes: seq<Bytes>,
    actionPos: seq<nat>, kindBytes: seq<Bytes>, nextBytes: seq<Bytes>,
    classInfo: nat)

  function HeaderEnd(y: Layout): nat { 2 + |y.classBytes| }
  function SitesStart(y: Layout): nat { HeaderEnd(y) + 1 + |y.lengthBytes| }

  ghost predicate HeaderLaid(data: Bytes, y: Layout) {
    && |data| >= 2 && data[0] == OMIT && data[1] == UDATA4
    && y.classInfo >= HeaderEnd(y) && UlebAt(data, 2, y.classBytes, y.classInfo - HeaderEnd(y))
    && HeaderEnd(y) < |data| && data[HeaderEnd(y)] == UDATA4
    && |y.sitePos| > 0 && y.sitePos[0] == SitesStart(y) && y.sitePos[|y.sitePos| - 1] >= SitesStart(y)
    && UlebAt(data, HeaderEnd(y) + 1, y.lengthBytes, y.sitePos[|y.sitePos| - 1] - SitesStart(y))
  }

  function ActionsStart(y: Layout): nat
    requires |y.sitePos| > 0
  {
    y.sitePos[|y.sitePos| - 1]
  }

  /** Actions are named by their distance from the start of the action table, plus one. */
  function EntryOf(l: Option<nat>, y: Layout): int
    requires |y.sitePos| > 0 && (l.Some? ==> l.value < |y.actionPos|)
  {
    if l.None? then 0 else y.actionPos[l.value] - ActionsStart(y) + 1
  }

  ghost predicate SiteLaid(data: Bytes, t: Table, y: Layout, k: nat)
    requires |y.sitePos| == |t.sites| + 1 && |y.siteBytes| == |t.sites| && k < |t.sites|
  {
    var s, p := t.sites[k], y.sitePos[k];
    && WordAt(data, p, s.start) && WordAt(data, p + 4, s.length) && WordAt(data, p + 8, s.pad)
    && (s.action.Some? ==> s.action.value < |y.actionPos| && y.actionPos[s.action.value] >= ActionsStart(y))
    && EntryOf(s.action, y) >= 0 && UlebAt(data, p + 12, y.siteBytes[k], EntryOf(s.action, y))
    && y.sitePos[k + 1] == p + 12 + |y.siteBytes[k]|
  }

  /** The next action is named by its distance from where that distance is written. */
  ghost predicate ActionLaid(data: Bytes, t: Table, y: Layout, i: nat)
    requires |y.actionPos| == |t.actions| == |y.kindBytes| == |y.nextBytes| && i < |t.actions|
  {
    var a, p := t.actions[i], y.actionPos[i];
    var q := p + |y.kindBytes[i]|;
    && SlebAt(data, p, y.kindBytes[i], a.kind)
    && (a.next.Some? ==> a.next.value < |t.actions| && y.actionPos[a.next.value] != q)
    && SlebAt(data, q, y.nextBytes[i], if a.next.None? then 0 else y.actionPos[a.next.value] - q)
  }

  ghost predicate TypeLaid(data: Bytes, t: Table, y: Layout, i: nat)
    requires i < |t.types|
  {
    4 * (i + 1) <= y.classInfo && WordAt(data, y.classInfo - 4 * (i + 1), t.types[i])
  }

  /** The bytes are an encoding of the tables. */
  ghost predicate Encodes(data: Bytes, t: Table, y: Layout) {
    && HeaderLaid(data, y)
    && |y.sitePos| == |t.sites| + 1 && |y.siteBytes| == |t.sites|
    && |y.actionPos| == |t.actions| == |y.kindBytes| == |y.nextBytes|
    && (forall k {:trigger SiteLaid(data, t, y, k)} :: 0 <= k < |t.sites| ==> SiteLaid(data, t, y, k))
    && (forall i {:trigger ActionLaid(data, t, y, i)} :: 0 <= i < |t.actions| ==> ActionLaid(data, t, y, i))
    && (forall i {:trigger TypeLaid(data, t, y, i)} :: 0 <= i < |t.types| ==> TypeLaid(data, t, y, i))
  }

  // ------------------------------------------------------------------------ the walks

  method ReadUData4(data: Bytes, p: nat) returns (v: nat, q: nat)
    requires p + 4 <= |data|
    ensures v == Word32(data[p..p + 4]) && q == p + 4
  {
    v := Word32(data[p..p + 4]);
    q := p + 4;
  }

  /** Try the actions of a chain in order. */
  method HandleActionValue(data: Bytes, classInfo: nat, entry: nat, kindAt: nat -> int, thrown: int,
                           ghost t: Table, ghost rank: seq<nat>, ghost y: Layout, ghost first: nat)
    returns (found: bool, sel: nat)
    requires Linked(t, rank) && Encodes(data, t, y) && classInfo == y.classInfo
    requires first < |t.actions| && entry == y.actionPos[first]
    ensures found <==> sel > 0
    ensures sel == Selector(t, Chain(t, rank, Some(first)), kindAt, thrown)
  {
    var pos, i := entry, 0;
    ghost var at: nat := first;
    ghost var chain := Chain(t, rank, Some(first));
    found, sel := false, 0;
    while true
      invariant at < |t.actions| && pos == y.actionPos[at] && !found && sel == 0
      invariant i <= |chain| && chain[i..] == Chain(t, rank, Some(at))
      invariant Skipped(t, chain, i, kindAt, thrown)
      decreases rank[at]
    {
      ChainStep(t, rank, at, chain, i);
      var kind, next := ReadAction(data, pos, t, y, at);
      if kind > 0 {
        var address := ReadType(data, classInfo, kind, t, y);
        if kindAt(address) == thrown {
          found, sel := true, i + 1;
          assert Selector(t, chain[i..], kindAt, thrown) == 1;
          return;
        }
      }
      SkipOne(t, chain, i, kindAt, thrown);
      i := i + 1;
      if next.None? {
        assert chain[i..] == [];
        return;
      }
      at := t.actions[at].next.value;
      pos := next.value;
    }
  }

  /** A pair of numbers: a type, and how far away the next pair is, if there is one. */
  method ReadAction(data: Bytes, pos: nat, ghost t: Table, ghost y: Layout, ghost at: nat)
    returns (kind: nat, next: Option<nat>)
    requires Encodes(data, t, y) && at < |t.actions| && pos == y.actionPos[at]
    ensures kind == t.actions[at].kind && next.None? == t.actions[at].next.None?
    ensures next.Some? ==> t.actions[at].next.value < |t.actions| && next.value == y.actionPos[t.actions[at].next.value]
  {
    assert ActionLaid(data, t, y, at);
    var typeOffset, here, distance, after;
    typeOffset, here := ReadSLEB128(data, pos, y.kindBytes[at]);
    kind := typeOffset;
    distance, after := ReadSLEB128(data, here, y.nextBytes[at]);
    next := if distance == 0 then None else Some(here + distance);
  }

  /** The first `i` actions do not match. */
  predicate Skipped(t: Table, chain: seq<Action>, i: nat, kindAt: nat -> int, thrown: int) {
    i <= |chain| && var r := Selector(t, chain[i..], kindAt, thrown);
      Selector(t, chain, kindAt, thrown) == if r == 0 then 0 else i + r
  }

  lemma SkipOne(t: Table, chain: seq<Action>, i: nat, kindAt: nat -> int, thrown: int)
    requires i < |chain| && Skipped(t, chain, i, kindAt, thrown) && !Matches(t, chain[i], kindAt, thrown)
    ensures Skipped(t, chain, i + 1, kindAt, thrown)
  {
    assert chain[i..][1..] == chain[i + 1..];
  }

  /** Types are counted down from where the class information ends. */
  method ReadType(data: Bytes, classInfo: nat, kind: nat, ghost t: Table, ghost y: Layout) returns (address: nat)
    requires Encodes(data, t, y) && classInfo == y.classInfo && 0 < kind <= |t.types|
    ensures address == t.types[kind - 1]
  {
    assert TypeLaid(data, t, y, kind - 1);
    var q;
    address, q := ReadUData4(data, classInfo - kind * 4);
  }

  lemma ChainStep(t: Table, rank: seq<nat>, at: nat, chain: seq<Action>, i: nat)
    requires Linked(t, rank) && at < |t.actions| && i <= |chain| && chain[i..] == Chain(t, rank, Some(at))
    ensures i < |chain| && chain[i] == t.actions[at] && chain[i + 1..] == Chain(t, rank, t.actions[at].next)
    ensures chain[i..][1..] == chain[i + 1..]
  {
    assert chain[i..][1..] == chain[i + 1..];
    assert chain[i] == chain[i..][0];
  }

  /** Walk the call sites.  The answer is the one that the abstract tables give. */
  method HandleLsda(data: Bytes, kindAt: nat -> int, pc: nat, ours: bool, thrown: int, search: bool,
                    ghost t: Table, ghost rank: seq<nat>, ghost y: Layout)
    returns (r: Answer)
    requires Linked(t, rank) && Encodes(data, t, y)
    ensures r == Lookup(t, rank, kindAt, pc, ours, thrown, search)
  {
    var p := 2;
    var offset, classInfo, length;
    offset, p := ReadULEB128(data, p, y.classBytes);
    classInfo := p + offset;
    p := p + 1;
    length, p := ReadULEB128(data, p, y.lengthBytes);
    var end := p + length;
    ghost var k := 0;
    r := ContinueUnwind;
    while p < end
      invariant 0 <= k <= |t.sites| && p == y.sitePos[k] && r == ContinueUnwind
      invariant FindSite(t.sites, pc, 0) == FindSite(t.sites, pc, k)
      decreases |t.sites| - k
    {
      var start, len, pad, entry;
      start, len, pad, entry, p := ReadSite(data, p, t, y, k);
      if !ours { entry := 0; }
      if pad != 0 && start <= pc < start + len {
        var sel := 0;
        if entry != 0 {
          var found;
          found, sel := HandleActionValue(data, classInfo, entry + end - 1, kindAt, thrown, t, rank, y,
            t.sites[k].action.value);
        }
        assert sel == SelectorAt(t, rank, k, kindAt, ours, thrown);
        if !search {
          r := InstallContext(pad, sel);
        } else if sel > 0 {
          r := HandlerFound;
        }
        return;
      }
      k := k + 1;
    }
    SitesEnd(data, t, y, k);
  }

  /** Three words and the action, from one. */
  method ReadSite(data: Bytes, p0: nat, ghost t: Table, ghost y: Layout, ghost k: nat)
    returns (start: nat, len: nat, pad: nat, entry: nat, p: nat)
    requires Encodes(data, t, y) && k < |t.sites| && p0 == y.sitePos[k]
    ensures start == t.sites[k].start && len == t.sites[k].length && pad == t.sites[k].pad && p == y.sitePos[k + 1]
    ensures if t.sites[k].action.None? then entry == 0
      else
        && t.sites[k].action.value < |t.actions| && entry > 0
        && entry == y.actionPos[t.sites[k].action.value] - ActionsStart(y) + 1
  {
    assert SiteLaid(data, t, y, k);
    start, p := ReadUData4(data, p0);
    len, p := ReadUData4(data, p);
    pad, p := ReadUData4(data, p);
    entry, p := ReadULEB128(data, p, y.siteBytes[k]);
  }

  /** Sites take room, so the walk ends after the last one. */
  lemma {:induction false} SitesEnd(data: Bytes, t: Table, y: Layout, k: nat)
    requires Encodes(data, t, y) && k <= |t.sites| && y.sitePos[k] >= y.sitePos[|t.sites|]
    ensures k == |t.sites|
  {
    if k < |t.sites| {
      SitesGrow(data, t, y, k, |t.sites|);
    }
  }

  lemma {:induction false} SitesGrow(data: Bytes, t: Table, y: Layout, j: nat, k: nat)
    requires Encodes(data, t, y) && j < k <= |t.sites|
    ensures y.sitePos[j] < y.sitePos[k]
    decreases k
  {
    assert SiteLaid(data, t, y, k - 1);
    if j < k - 1 {
      SitesGrow(data, t, y, j, k - 1);
    }
  }

  // ------------------------------------------------------------------- the two phases

  /** The search phase reports a handler exactly when the cleanup phase installs a landing pad
      with a positive selector: that of the first site in range, and the position of the first
      action of its chain that matches.  The cleanup phase installs a landing pad whenever some site
      is in range, with selector zero when there is nothing to catch the exception. */
  lemma PhasesAgree(t: Table, rank: seq<nat>, kindAt: nat -> int, pc: nat, ours: bool, thrown: int)
    requires Linked(t, rank)
    ensures var s := Lookup(t, rank, kindAt, pc, ours, thrown, true);
      var c := Lookup(t, rank, kindAt, pc, ours, thrown, false);
      && !s.InstallContext? && !c.HandlerFound?
      && (s.HandlerFound? <==> c.InstallContext? && c.selector > 0)
      && (s.HandlerFound? <==> ours && exists k: nat, i: nat :: FirstMatch(t, rank, kindAt, pc, thrown, k, i))
      && (c.InstallContext? && c.selector > 0 ==>
            exists k: nat :: FirstMatch(t, rank, kindAt, pc, thrown, k, c.selector - 1) && t.sites[k].pad == c.pad)
      && (c.InstallContext? <==> exists k :: 0 <= k < |t.sites| && InRange(t.sites[k], pc))
      && forall k: nat :: FirstSite(t, pc, k) ==>
           c.pad == t.sites[k].pad && (c.selector == 0 <==> !ours || NothingMatches(t, rank, kindAt, thrown, k))
  {
    FindSiteIsFirst(t.sites, pc, 0);
    var l := FindSite(t.sites, pc, 0);
    if l.Some? {
      SelectorIsFirst(t, Chain(t, rank, t.sites[l.value].action), kindAt, thrown);
      var sel := SelectorAt(t, rank, l.value, kindAt, ours, thrown);
      assert sel > 0 ==> FirstMatch(t, rank, kindAt, pc, thrown, l.value, sel - 1);
      forall k: nat, i: nat | FirstMatch(t, rank, kindAt, pc, thrown, k, i) ensures k == l.value && (ours ==> sel > 0) {
      }
      assert forall k: nat :: FirstSite(t, pc, k) ==> k == l.value;
    }
  }

  ghost predicate FirstSite(t: Table, pc: nat, k: nat) {
    k < |t.sites| && InRange(t.sites[k], pc) && forall j :: 0 <= j < k ==> !InRange(t.sites[j], pc)
  }

  /** No action of the site's chain matches. */
  ghost predicate NothingMatches(t: Table, rank: seq<nat>, kindAt: nat -> int, thrown: int, k: nat)
    requires Linked(t, rank) && k < |t.sites|
  {
    var chain := Chain(t, rank, t.sites[k].action);
    forall i :: 0 <= i < |chain| ==> !Matches(t, chain[i], kindAt, thrown)
  }

  /** Site `k` is the first in range and action `i` of its chain the first that matches. */
  ghost predicate FirstMatch(t: Table, rank: seq<nat>, kindAt: nat -> int, pc: nat, thrown: int, k: nat, i: nat)
    requires Linked(t, rank)
  {
    && FirstSite(t, pc, k)
    && var chain := Chain(t, rank, t.sites[k].action);
       && i < |chain| && Matches(t, chain[i], kindAt, thrown)
       && forall j :: 0 <= j < i ==> !Matches(t, chain[j], kindAt, thrown)
  }
}
