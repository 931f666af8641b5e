/** The fragment of LLVM IR that the BrainF compiler emits, and a machine that runs it.
    Registers are in SSA form; a pointer is an offset from the start of the tape. */
module BrainFIR {
  import opened Basics
  import opened BrainFSource

  type Reg = nat
  type BlockId = nat

  datatype Instr =
    | Malloc(dst: Reg, size: nat)
    | Memset(ptr: Reg, size: nat)
    | Gep(dst: Reg, base: Reg, offset: int)
    | Load(dst: Reg, ptr: Reg)
    | Store(src: Reg, ptr: Reg)
    | Add8(dst: Reg, src: Reg, c: byte)
    | GetChar(dst: Reg)
    | Trunc8(dst: Reg, src: Reg)
    | SExt32(dst: Reg, src: Reg)
    | PutChar(src: Reg)
    | PtrUge(dst: Reg, a: Reg, b: Reg)
    | PtrUlt(dst: Reg, a: Reg, b: Reg)
    | OrBool(dst: Reg, a: Reg, b: Reg)
    | IsZero8(dst: Reg, src: Reg)
    | CallPuts(line: string)
    | Free(ptr: Reg)

  /** `Open`: no terminator has been appended yet. */
  datatype Terminator = Open | Br(target: BlockId) | CondBr(cond: Reg, yes: BlockId, no: BlockId) | Ret

  /** One incoming value of a phi, and the predecessor it comes from. */
  datatype Incoming = Incoming(value: Reg, from: BlockId)

  datatype Phi = NoPhi | Phi(dst: Reg, incoming: seq<Incoming>)

  datatype Block = Block(phi: Phi, body: seq<Instr>, term: Terminator)

  /** The value a phi takes from predecessor `b`. */
  function Lookup(incoming: seq<Incoming>, b: BlockId): Option<Reg> {
    if incoming == [] then None
    else if incoming[0].from == b then Some(incoming[0].value)
    else Lookup(incoming[1..], b)
  }

  lemma {:induction false} LookupPrefix(xs: seq<Incoming>, ys: seq<Incoming>, b: BlockId)
    requires xs <= ys
    requires Lookup(xs, b).Some?
    ensures Lookup(ys, b) == Lookup(xs, b)
  {
    if xs[0].from != b {
      LookupPrefix(xs[1..], ys[1..], b);
    }
  }

  lemma {:induction false} LookupAppend(xs: seq<Incoming>, x: Incoming)
    requires Lookup(xs, x.from) == None
    ensures Lookup(xs + [x], x.from) == Some(x.value)
  {
    if xs != [] {
      assert (xs + [x])[1..] == xs[1..] + [x];
      LookupAppend(xs[1..], x);
    }
  }

  // ------------------------------------------------------------------- machine

  datatype Value = I8(b: byte) | I32(i: int) | I1(t: bool) | Ptr(off: int)

  datatype Machine = Machine(
    block: BlockId, index: nat, regs: map<Reg, Value>,
    mem: seq<byte>, input: seq<byte>, output: seq<Event>)

  /** `Stuck`: an undefined or ill-typed register, a missing terminator, a phi without an
      entry for the edge taken.  `MFaulted`: an access outside the allocation. */
  datatype MConfig =
    | MGoing(m: Machine)
    | MHalted(mem: seq<byte>, output: seq<Event>)
    | MFaulted(output: seq<Event>)
    | Stuck

  predicate IsPtr(m: Machine, r: Reg) { r in m.regs && m.regs[r].Ptr? }
  predicate IsI8(m: Machine, r: Reg) { r in m.regs && m.regs[r].I8? }
  predicate IsI32(m: Machine, r: Reg) { r in m.regs && m.regs[r].I32? }
  predicate IsI1(m: Machine, r: Reg) { r in m.regs && m.regs[r].I1? }

  /** Write a register and go to the next instruction. */
  function Set(m: Machine, r: Reg, v: Value): MConfig {
    MGoing(m.(regs := m.regs[r := v], index := m.index + 1))
  }

  function SignExtend(b: byte): int { if b >= 128 then b - 256 else b }

  /** One instruction; `junk` is what fresh memory happens to hold. */
  function Exec(junk: nat -> byte, i: Instr, m: Machine): MConfig {
    match i
    case Malloc(d, n) =>
      MGoing(m.(regs := m.regs[d := Ptr(0)], mem := seq(n, k requires 0 <= k < n => junk(k)), index := m.index + 1))
    case Memset(p, n) =>
      if !IsPtr(m, p) then Stuck
      else if m.regs[p].off != 0 || n != |m.mem| then MFaulted(m.output)
      else MGoing(m.(mem := seq(n, k => 0), index := m.index + 1))
    case Gep(d, b, o) =>
      if !IsPtr(m, b) then Stuck else Set(m, d, Ptr(m.regs[b].off + o))
    case Load(d, p) =>
      if !IsPtr(m, p) then Stuck
      else if !OnTape(m.regs[p].off, m.mem) then MFaulted(m.output)
      else Set(m, d, I8(m.mem[m.regs[p].off]))
    case Store(s, p) =>
      if !IsPtr(m, p) || !IsI8(m, s) then Stuck
      else if !OnTape(m.regs[p].off, m.mem) then MFaulted(m.output)
      else MGoing(m.(mem := m.mem[m.regs[p].off := m.regs[s].b], index := m.index + 1))
    case Add8(d, s, c) =>
      if !IsI8(m, s) then Stuck else Set(m, d, I8((m.regs[s].b + c) % 256))
    case GetChar(d) =>
      if m.input == [] then Set(m, d, I32(-1))
      else Set(m.(input := m.input[1..]), d, I32(m.input[0]))
    case Trunc8(d, s) =>
      if !IsI32(m, s) then Stuck else Set(m, d, I8(m.regs[s].i % 256))
    case SExt32(d, s) =>
      if !IsI8(m, s) then Stuck else Set(m, d, I32(SignExtend(m.regs[s].b)))
    case PutChar(s) =>
      if !IsI32(m, s) then Stuck
      else MGoing(m.(output := m.output + [Put(m.regs[s].i % 256)], index := m.index + 1))
    case PtrUge(d, a, b) =>
      if !IsPtr(m, a) || !IsPtr(m, b) then Stuck else Set(m, d, I1(m.regs[a].off >= m.regs[b].off))
    case PtrUlt(d, a, b) =>
      if !IsPtr(m, a) || !IsPtr(m, b) then Stuck else Set(m, d, I1(m.regs[a].off < m.regs[b].off))
    case OrBool(d, a, b) =>
      if !IsI1(m, a) || !IsI1(m, b) then Stuck else Set(m, d, I1(m.regs[a].t || m.regs[b].t))
    case IsZero8(d, s) =>
      if !IsI8(m, s) then Stuck else Set(m, d, I1(m.regs[s].b == 0))
    case CallPuts(line) =>
      MGoing(m.(output := m.output + [Puts(line)], index := m.index + 1))
    case Free(p) =>
      if !IsPtr(m, p) then Stuck
      else if m.regs[p].off != 0 then MFaulted(m.output)
      else MGoing(m.(index := m.index + 1))
  }

  /** The machine compares offsets into the tape and a processor compares addresses that wrap
      around: the two tests together find the same heads off the tape. */
  lemma AddressTestsAgree(arr: nat, mem: nat, head: int)
    requires mem < 0x8000_0000 && arr + mem < 0x1_0000_0000_0000_0000 && -0x8000_0000 <= head < 0x1_0000_0000
    ensures var at := (arr + head) % 0x1_0000_0000_0000_0000;
      at >= arr + mem || at < arr <==> head >= mem || head < 0
  {
    var w := 0x1_0000_0000_0000_0000;
    if arr + head < 0 {
      assert (arr + head) % w == arr + head + w;
    } else if arr + head >= w {
      assert (arr + head) % w == arr + head - w;
    }
  }

  /** Take the edge from the current block to `b`, evaluating the phi of `b`. */
  function Jump(blocks: seq<Block>, m: Machine, b: BlockId): MConfig {
    if b >= |blocks| then Stuck
    else
      match blocks[b].phi
      case NoPhi => MGoing(m.(block := b, index := 0))
      case Phi(d, incoming) =>
        match Lookup(incoming, m.block)
        case None => Stuck
        case Some(r) =>
          if r !in m.regs then Stuck
          else MGoing(m.(block := b, index := 0, regs := m.regs[d := m.regs[r]]))
  }

  function MStep(blocks: seq<Block>, junk: nat -> byte, m: Machine): MConfig {
    if m.block >= |blocks| then Stuck
    else
      var b := blocks[m.block];
      if m.index < |b.body| then Exec(junk, b.body[m.index], m)
      else if m.index > |b.body| then Stuck
      else
        match b.term
        case Open => Stuck
        case Br(t) => Jump(blocks, m, t)
        case CondBr(c, yes, no) => if !IsI1(m, c) then Stuck else Jump(blocks, m, if m.regs[c].t then yes else no)
        case Ret => MHalted(m.mem, m.output)
  }

  function MNext(blocks: seq<Block>, junk: nat -> byte, c: MConfig): MConfig {
    if c.MGoing? then MStep(blocks, junk, c.m) else c
  }

  /** `n` instructions. */
  function MRun(blocks: seq<Block>, junk: nat -> byte, c: MConfig, n: nat): MConfig
    decreases n
  {
    if n == 0 then c else MRun(blocks, junk, MNext(blocks, junk, c), n - 1)
  }

  /** Block 0 is the entry. */
  function MStart(input: seq<byte>): MConfig {
    MGoing(Machine(0, 0, map[], [], input, []))
  }

  function MOutput(c: MConfig): seq<Event> {
    match c
    case MGoing(m) => m.output
    case MHalted(_, o) => o
    case MFaulted(o) => o
    case Stuck => []
  }

  lemma {:induction false} MRunAdd(blocks: seq<Block>, junk: nat -> byte, c: MConfig, m: nat, n: nat)
    ensures MRun(blocks, junk, c, m + n) == MRun(blocks, junk, MRun(blocks, junk, c, m), n)
    decreases m
  {
    if m > 0 {
      MRunAdd(blocks, junk, MNext(blocks, junk, c), m - 1, n);
    }
  }

  lemma {:induction false} MRunEnded(blocks: seq<Block>, junk: nat -> byte, c: MConfig, n: nat)
    requires !c.MGoing?
    ensures MRun(blocks, junk, c, n) == c
    decreases n
  {
    if n > 0 {
      MRunEnded(blocks, junk, c, n - 1);
    }
  }

  lemma {:induction false} MOutputGrows(blocks: seq<Block>, junk: nat -> byte, c: MConfig, n: nat)
    requires !MRun(blocks, junk, c, n).Stuck?
    ensures MOutput(c) <= MOutput(MRun(blocks, junk, c, n))
    decreases n
  {
    if n > 0 {
      if MNext(blocks, junk, c).Stuck? {
        MRunEnded(blocks, junk, MNext(blocks, junk, c), n - 1);
      }
      NextOutputGrows(blocks, junk, c);
      MOutputGrows(blocks, junk, MNext(blocks, junk, c), n - 1);
    }
  }

  lemma NextOutputGrows(blocks: seq<Block>, junk: nat -> byte, c: MConfig)
    ensures MNext(blocks, junk, c).Stuck? || MOutput(c) <= MOutput(MNext(blocks, junk, c))
  {
  }
}
