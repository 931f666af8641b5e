/** How compiled code corresponds to program text.  A sync map sends a text position to the
    place in the block graph where the machine is when the program is about to execute that
    position; `SymbolOK` says, position by position, that the code found there is right. */
module BrainFSync {
  import opened Basics
  import opened BrainFSource
  import opened BrainFIR

  /** What stays fixed while a program is compiled. */
  datatype Env = Env(text: string, mem: nat, checks: bool,
                     arr: Reg, arrmax: Reg, endbb: BlockId, aberror: BlockId)

  /** A place between instructions, and the register that holds the head there. */
  datatype Loc = Loc(block: BlockId, index: nat, head: Reg)

  type Sync = map<nat, Loc>

  // ---------------------------------------------------------- runs of one kind

  predicate OfKind(c: char, move: bool) { if move then IsMove(c) else IsChange(c) }

  /** Where the run of moves (or changes) that goes through `i` ends; comments belong to it. */
  function RunEnd(text: string, i: nat, move: bool): (e: nat)
    requires i <= |text|
    ensures i <= e <= |text|
    decreases |text| - i
  {
    if i < |text| && (OfKind(text[i], move) || !IsCommand(text[i])) then RunEnd(text, i + 1, move) else i
  }

  /** What the characters from `i` up to `e` add together. */
  function RunSum(text: string, i: nat, e: nat): int
    requires i <= e <= |text|
  {
    if i == e then 0 else RunSum(text, i, e - 1) + Direction(text[e - 1])
  }

  lemma {:induction false} RunSumFront(text: string, i: nat, e: nat)
    requires i < e <= |text|
    ensures RunSum(text, i, e) == Direction(text[i]) + RunSum(text, i + 1, e)
    decreases e
  {
    if e > i + 1 {
      RunSumFront(text, i, e - 1);
    }
  }

  // ---------------------------------------------------------------- code shapes

  predicate HasCode(blocks: seq<Block>, l: Loc, n: nat) {
    l.block < |blocks| && l.index + n <= |blocks[l.block].body|
  }

  function CodeAt(blocks: seq<Block>, l: Loc, k: nat): Instr
    requires HasCode(blocks, l, k + 1)
  {
    blocks[l.block].body[l.index + k]
  }

  /** `l` is just before the terminator of its block. */
  predicate AtEnd(blocks: seq<Block>, l: Loc) {
    l.block < |blocks| && l.index == |blocks[l.block].body|
  }

  /** Writing `r` leaves the head and the tape's bounds alone. */
  predicate Private(e: Env, head: Reg, r: Reg) { r > head && r > e.arr && r > e.arrmax }

  ghost predicate ChangeCode(e: Env, blocks: seq<Block>, l: Loc, v: int, after: Loc) {
    && HasCode(blocks, l, 3)
    && var i0, i1, i2 := CodeAt(blocks, l, 0), CodeAt(blocks, l, 1), CodeAt(blocks, l, 2);
    && i0.Load? && i1.Add8? && i2.Store?
    && Private(e, l.head, i0.dst) && Private(e, l.head, i1.dst)
    && i0.ptr == l.head && i1.src == i0.dst && i1.c == v % 256 && i2.src == i1.dst && i2.ptr == l.head
    && after == Loc(l.block, l.index + 3, l.head)
  }

  ghost predicate ReadCode(e: Env, blocks: seq<Block>, l: Loc, after: Loc) {
    && HasCode(blocks, l, 3)
    && var i0, i1, i2 := CodeAt(blocks, l, 0), CodeAt(blocks, l, 1), CodeAt(blocks, l, 2);
    && i0.GetChar? && i1.Trunc8? && i2.Store?
    && Private(e, l.head, i0.dst) && Private(e, l.head, i1.dst)
    && i1.src == i0.dst && i2.src == i1.dst && i2.ptr == l.head
    && after == Loc(l.block, l.index + 3, l.head)
  }

  ghost predicate WriteCode(e: Env, blocks: seq<Block>, l: Loc, after: Loc) {
    && HasCode(blocks, l, 3)
    && var i0, i1, i2 := CodeAt(blocks, l, 0), CodeAt(blocks, l, 1), CodeAt(blocks, l, 2);
    && i0.Load? && i1.SExt32? && i2.PutChar?
    && Private(e, l.head, i0.dst) && Private(e, l.head, i1.dst)
    && i0.ptr == l.head && i1.src == i0.dst && i2.src == i1.dst
    && after == Loc(l.block, l.index + 3, l.head)
  }

  ghost predicate MoveCode(e: Env, blocks: seq<Block>, l: Loc, v: int, after: Loc) {
    && HasCode(blocks, l, 1)
    && var g := CodeAt(blocks, l, 0);
    && g.Gep? && g.base == l.head && g.offset == v && Private(e, l.head, g.dst)
    && if e.checks then BoundsCheck(e, blocks, l.(index := l.index + 1, head := g.dst), after)
       else after == Loc(l.block, l.index + 1, g.dst)
  }

  /** Test the head at `l`; leave for the error block if it is off the tape. */
  ghost predicate BoundsCheck(e: Env, blocks: seq<Block>, l: Loc, after: Loc) {
    && HasCode(blocks, l, 3)
    && AtEnd(blocks, l.(index := l.index + 3))
    && var i0, i1, i2 := CodeAt(blocks, l, 0), CodeAt(blocks, l, 1), CodeAt(blocks, l, 2);
    && i0.PtrUge? && i1.PtrUlt? && i2.OrBool?
    && Private(e, l.head, i0.dst) && Private(e, l.head, i1.dst) && Private(e, l.head, i2.dst)
    && i1.dst != i0.dst
    && i0.a == l.head && i0.b == e.arrmax && i1.a == l.head && i1.b == e.arr
    && i2.a == i0.dst && i2.b == i1.dst
    && blocks[l.block].term == CondBr(i2.dst, e.aberror, after.block)
    && after.block < |blocks| && blocks[after.block].phi.NoPhi?
    && after.index == 0 && after.head == l.head
  }

  /** The loop opened at `p` and closed at `q`: two ways into the test block, whose phi picks
      the head; then either the body or the block behind the loop. */
  ghost predicate LoopCode(e: Env, blocks: seq<Block>, sync: Sync, p: nat, q: nat) {
    && p in sync && p + 1 in sync && q in sync && q + 1 in sync
    && AtEnd(blocks, sync[p]) && AtEnd(blocks, sync[q])
    && blocks[sync[p].block].term.Br?
    && var test := blocks[sync[p].block].term.target;
    && blocks[sync[q].block].term == Br(test)
    && TestCode(e, blocks, sync[p], sync[q], test, sync[p + 1], sync[q + 1])
  }

  ghost predicate TestCode(e: Env, blocks: seq<Block>, enter: Loc, again: Loc, test: BlockId, inside: Loc,
    behind: Loc) {
    && test < |blocks| && inside.block < |blocks| && behind.block < |blocks|
    && var b := blocks[test];
    && b.phi.Phi? && b.phi.dst > e.arr && b.phi.dst > e.arrmax
    && Lookup(b.phi.incoming, enter.block) == Some(enter.head)
    && Lookup(b.phi.incoming, again.block) == Some(again.head)
    && |b.body| == 2 && b.body[0].Load? && b.body[1].IsZero8?
    && b.body[0].ptr == b.phi.dst && b.body[1].src == b.body[0].dst
    && Private(e, b.phi.dst, b.body[0].dst) && Private(e, b.phi.dst, b.body[1].dst)
    && b.term == CondBr(b.body[1].dst, behind.block, inside.block)
    && inside.index == 0 && inside.head == b.phi.dst && blocks[inside.block].phi.NoPhi?
    && behind.index == 0
    && var x := blocks[behind.block].phi;
    && x.Phi? && x.dst == behind.head && x.dst > e.arr && x.dst > e.arrmax
    && Lookup(x.incoming, test) == Some(b.phi.dst)
  }

  /** The code found at position `pc` does what the text there says. */
  ghost predicate SymbolOK(e: Env, blocks: seq<Block>, sync: Sync, pc: nat)
    requires pc in sync
  {
    && pc <= |e.text|
    && var l := sync[pc];
    if pc == |e.text| then AtEnd(blocks, l) && blocks[l.block].term == Br(e.endbb)
    else
      var c := e.text[pc];
      if !IsCommand(c) then pc + 1 in sync && sync[pc + 1] == l
      else if IsMove(c) then
        var f := RunEnd(e.text, pc, true);
        f in sync && MoveCode(e, blocks, l, RunSum(e.text, pc, f), sync[f])
      else if IsChange(c) then
        var f := RunEnd(e.text, pc, false);
        f in sync && ChangeCode(e, blocks, l, RunSum(e.text, pc, f), sync[f])
      else if c == ',' then pc + 1 in sync && ReadCode(e, blocks, l, sync[pc + 1])
      else if c == '.' then pc + 1 in sync && WriteCode(e, blocks, l, sync[pc + 1])
      else if c == '[' then
        match CloseFrom(e.text, pc + 1, 0)
        case Some(q) => LoopCode(e, blocks, sync, pc, q)
        case None => false
      else
        match OpenBefore(e.text, pc, 0)
        case Some(p) =>
          p < pc && e.text[p] == '[' && CloseFrom(e.text, p + 1, 0) == Some(pc) && LoopCode(e, blocks, sync, p, pc)
        case None => false
  }

  // -------------------------------------------------------------- fixed pieces

  ghost predicate FixedBlocks(e: Env, blocks: seq<Block>) {
    && e.endbb < |blocks| && blocks[e.endbb] == Block(NoPhi, [Free(e.arr)], Ret)
    && (e.checks ==>
          && e.aberror < |blocks| && blocks[e.aberror] == Block(NoPhi, [CallPuts(OFF_TAPE)], Br(e.endbb)))
  }

  function HeaderCode(e: Env, head: Reg): seq<Instr> {
    [Malloc(e.arr, e.mem), Memset(e.arr, e.mem)]
    + (if e.checks then [Gep(e.arrmax, e.arr, e.mem)] else [])
    + [Gep(head, e.arr, e.mem / 2)]
  }

  ghost predicate EntryOK(e: Env, blocks: seq<Block>, l: Loc) {
    && |blocks| > 0 && l.block == 0
    && blocks[0].phi.NoPhi?
    && l.index == |HeaderCode(e, l.head)|
    && HeaderCode(e, l.head) <= blocks[0].body
    && (e.checks ==> e.arrmax != e.arr)
    && l.head > e.arr && l.head > e.arrmax
  }

  /** The whole text has been compiled. */
  ghost predicate Complete(e: Env, blocks: seq<Block>, sync: Sync) {
    && FixedBlocks(e, blocks)
    && 0 in sync && EntryOK(e, blocks, sync[0])
    && (forall pc {:trigger SymbolOK(e, blocks, sync, pc)} :: pc in sync ==> SymbolOK(e, blocks, sync, pc))
  }

  // ------------------------------------------------------------------- growth

  predicate PhiGrows(a: Phi, b: Phi) {
    if a.NoPhi? then b.NoPhi? else b.Phi? && b.dst == a.dst && a.incoming <= b.incoming
  }

  /** Blocks only grow at their end, and not at all once they have a terminator. */
  predicate BlockGrows(a: Block, b: Block) {
    && PhiGrows(a.phi, b.phi)
    && a.body <= b.body
    && (!a.term.Open? ==> b.body == a.body && b.term == a.term)
  }

  ghost predicate Grows(blocks: seq<Block>, blocks': seq<Block>) {
    && |blocks| <= |blocks'|
    && forall b {:trigger BlockGrows(blocks[b], blocks'[b])} :: 0 <= b < |blocks| ==> BlockGrows(blocks[b], blocks'[b])
  }

  ghost predicate SyncGrows(sync: Sync, sync': Sync) {
    forall pc :: pc in sync ==> pc in sync' && sync'[pc] == sync[pc]
  }

  lemma TestCodeGrows(e: Env, blocks: seq<Block>, blocks': seq<Block>,
                      enter: Loc, again: Loc, test: BlockId, inside: Loc, behind: Loc)
    requires Grows(blocks, blocks') && TestCode(e, blocks, enter, again, test, inside, behind)
    ensures TestCode(e, blocks', enter, again, test, inside, behind)
  {
    assert BlockGrows(blocks[test], blocks'[test]);
    assert BlockGrows(blocks[behind.block], blocks'[behind.block]);
    assert BlockGrows(blocks[inside.block], blocks'[inside.block]);
    LookupPrefix(blocks[test].phi.incoming, blocks'[test].phi.incoming, enter.block);
    LookupPrefix(blocks[test].phi.incoming, blocks'[test].phi.incoming, again.block);
    LookupPrefix(blocks[behind.block].phi.incoming, blocks'[behind.block].phi.incoming, test);
  }

  lemma LoopCodeGrows(e: Env, blocks: seq<Block>, sync: Sync, blocks': seq<Block>, sync': Sync, p: nat, q: nat)
    requires Grows(blocks, blocks') && SyncGrows(sync, sync') && LoopCode(e, blocks, sync, p, q)
    ensures LoopCode(e, blocks', sync', p, q)
  {
    var test := blocks[sync[p].block].term.target;
    assert BlockGrows(blocks[sync[p].block], blocks'[sync[p].block]);
    assert BlockGrows(blocks[sync[q].block], blocks'[sync[q].block]);
    TestCodeGrows(e, blocks, blocks', sync[p], sync[q], test, sync[p + 1], sync[q + 1]);
  }

  lemma MoveGrows(e: Env, blocks: seq<Block>, sync: Sync, blocks': seq<Block>, sync': Sync, pc: nat)
    requires Grows(blocks, blocks') && SyncGrows(sync, sync') && pc < |e.text| && IsMove(e.text[pc])
    requires pc in sync && SymbolOK(e, blocks, sync, pc)
    ensures SymbolOK(e, blocks', sync', pc)
  {
    assert BlockGrows(blocks[sync[pc].block], blocks'[sync[pc].block]);
    if e.checks {
      var x := sync[RunEnd(e.text, pc, true)].block;
      assert BlockGrows(blocks[x], blocks'[x]);
    }
  }

  lemma PlainGrows(e: Env, blocks: seq<Block>, sync: Sync, blocks': seq<Block>, sync': Sync, pc: nat)
    requires Grows(blocks, blocks') && SyncGrows(sync, sync')
    requires pc == |e.text| || (pc < |e.text| && IsCommand(e.text[pc]) && e.text[pc] !in "[]" && !IsMove(e.text[pc]))
    requires pc in sync && SymbolOK(e, blocks, sync, pc)
    ensures SymbolOK(e, blocks', sync', pc)
  {
    assert BlockGrows(blocks[sync[pc].block], blocks'[sync[pc].block]);
  }

  /** What has been compiled stays compiled. */
  lemma SymbolGrows(e: Env, blocks: seq<Block>, sync: Sync, blocks': seq<Block>, sync': Sync, pc: nat)
    requires Grows(blocks, blocks') && SyncGrows(sync, sync')
    requires pc in sync && SymbolOK(e, blocks, sync, pc)
    ensures SymbolOK(e, blocks', sync', pc)
  {
    if pc == |e.text| || (IsCommand(e.text[pc]) && e.text[pc] !in "[]") {
      if pc < |e.text| && IsMove(e.text[pc]) {
        MoveGrows(e, blocks, sync, blocks', sync', pc);
      } else {
        PlainGrows(e, blocks, sync, blocks', sync', pc);
      }
    } else if e.text[pc] == '[' {
      LoopCodeGrows(e, blocks, sync, blocks', sync', pc, CloseFrom(e.text, pc + 1, 0).value);
    } else if e.text[pc] == ']' {
      LoopCodeGrows(e, blocks, sync, blocks', sync', OpenBefore(e.text, pc, 0).value, pc);
    }
  }

  lemma FixedGrows(e: Env, blocks: seq<Block>, blocks': seq<Block>, l: Loc)
    requires Grows(blocks, blocks')
    requires FixedBlocks(e, blocks) && EntryOK(e, blocks, l)
    ensures FixedBlocks(e, blocks') && EntryOK(e, blocks', l)
  {
    assert BlockGrows(blocks[0], blocks'[0]);
    assert BlockGrows(blocks[e.endbb], blocks'[e.endbb]);
    if e.checks {
      assert BlockGrows(blocks[e.aberror], blocks'[e.aberror]);
    }
  }
}
