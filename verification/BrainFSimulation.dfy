/** A completely compiled program and its text run in step with each other. */
module BrainFSimulation {
  import opened Basics
  import opened BrainFSource
  import opened BrainFIR
  import opened BrainFSync

  /** The machine stands where the text is about to execute `s.pc`, in the same world. */
  ghost predicate Related(e: Env, sync: Sync, s: State, m: Machine) {
    && s.pc in sync
    && var l := sync[s.pc];
    && m.block == l.block && m.index == l.index
    && l.head in m.regs && m.regs[l.head] == Ptr(s.head)
    && e.arr in m.regs && m.regs[e.arr] == Ptr(0)
    && (e.checks ==> e.arrmax in m.regs && m.regs[e.arrmax] == Ptr(e.mem))
    && |s.tape| == e.mem && m.mem == s.tape && m.input == s.input && m.output == s.output
  }

  ghost predicate Matched(e: Env, sync: Sync, c: Config, mc: MConfig) {
    match c
    case Going(s) => mc.MGoing? && Related(e, sync, s, mc.m)
    case Halted(t, o) => mc == MHalted(t, o)
    case Faulted(o) => mc == MFaulted(o)
    case Malformed => false
  }

  // ----------------------------------------------------- the text of a merged run

  /** Changes: the run adds its sum to the one cell under the head. */
  lemma {:induction false} ChangeRun(e: Env, s: State)
    requires s.pc < |e.text| && OnTape(s.head, s.tape)
    ensures var f := RunEnd(e.text, s.pc, false);
      Run(e.text, e.checks, Going(s), f - s.pc)
      == Going(s.(pc := f, tape := s.tape[s.head := (s.tape[s.head] + RunSum(e.text, s.pc, f)) % 256]))
    decreases |e.text| - s.pc
  {
    var f := RunEnd(e.text, s.pc, false);
    if f == s.pc {
      assert s.tape[s.head := s.tape[s.head]] == s.tape;
    } else {
      RunSumFront(e.text, s.pc, f);
      var s' := Step(e.text, e.checks, s).s;
      var d := Direction(e.text[s.pc]);
      assert s'.tape[s.head] == (s.tape[s.head] + d) % 256;
      if s'.pc < |e.text| {
        ChangeRun(e, s');
      }
      CellAdds(s.tape, s.head, d, RunSum(e.text, s'.pc, f));
    }
  }

  lemma CellAdds(tape: seq<byte>, head: int, d: int, rest: int)
    requires OnTape(head, tape)
    ensures var tape' := tape[head := (tape[head] + d) % 256];
      tape'[head := (tape'[head] + rest) % 256] == tape[head := (tape[head] + (d + rest)) % 256]
  {
    ModAdd(tape[head] + d, rest);
  }

  lemma ModAdd(x: int, y: int)
    ensures (x % 256 + y) % 256 == (x + y) % 256
  {
  }

  /** Moves: the run shifts the head by its sum; a check, if any, sees only the final head. */
  lemma {:induction false} MoveRun(e: Env, s: State)
    requires s.pc < |e.text| && IsMove(e.text[s.pc])
    ensures var f := RunEnd(e.text, s.pc, true);
      var h := s.head + RunSum(e.text, s.pc, f);
      Run(e.text, e.checks, Going(s), f - s.pc)
      == if e.checks && !OnTape(h, s.tape) then Halted(s.tape, s.output + [Puts(OFF_TAPE)])
         else Going(s.(pc := f, head := h))
    decreases |e.text| - s.pc, 0
  {
    var f := RunEnd(e.text, s.pc, true);
    RunSumFront(e.text, s.pc, f);
    var c := Step(e.text, e.checks, s);
    if MoveFollows(e.text, s.pc + 1) {
      MoveTail(e, c.s);
    } else {
      QuietTail(e.text, s.pc + 1);
      if c.Halted? {
        RunEnded(e.text, e.checks, c, f - s.pc - 1);
      } else {
        CommentRun(e, c.s, f);
      }
    }
  }

  /** The rest of a move run, from a comment inside it. */
  lemma {:induction false} MoveTail(e: Env, s: State)
    requires s.pc <= |e.text| && MoveFollows(e.text, s.pc)
    ensures var f := RunEnd(e.text, s.pc, true);
      var h := s.head + RunSum(e.text, s.pc, f);
      Run(e.text, e.checks, Going(s), f - s.pc)
      == if e.checks && !OnTape(h, s.tape) then Halted(s.tape, s.output + [Puts(OFF_TAPE)])
         else Going(s.(pc := f, head := h))
    decreases |e.text| - s.pc, 1
  {
    if IsMove(e.text[s.pc]) {
      MoveRun(e, s);
    } else {
      RunSumFront(e.text, s.pc, RunEnd(e.text, s.pc, true));
      MoveTail(e, s.(pc := s.pc + 1));
    }
  }

  /** Behind the last move of a run there are only comments. */
  lemma {:induction false} QuietTail(text: string, i: nat)
    requires i <= |text| && !MoveFollows(text, i)
    ensures var f := RunEnd(text, i, true);
      RunSum(text, i, f) == 0 && forall k :: i <= k < f ==> !IsCommand(text[k])
    decreases |text| - i
  {
    var f := RunEnd(text, i, true);
    if f > i {
      QuietTail(text, i + 1);
      RunSumFront(text, i, f);
    }
  }

  lemma {:induction false} CommentRun(e: Env, s: State, f: nat)
    requires s.pc <= f <= |e.text|
    requires forall k :: s.pc <= k < f ==> !IsCommand(e.text[k])
    ensures Run(e.text, e.checks, Going(s), f - s.pc) == Going(s.(pc := f))
    decreases f - s.pc
  {
    if s.pc < f {
      CommentRun(e, s.(pc := s.pc + 1), f);
    }
  }

  // ------------------------------------------------------ the machine, symbol by symbol

  /** The machine stands at `l` with the head `h` in its register, the tape's bounds in theirs
      and the world as given. */
  ghost predicate Arrived(e: Env, c: MConfig, l: Loc, h: int, mem: seq<byte>, input: seq<byte>, output: seq<Event>) {
    && c.MGoing? && c.m.block == l.block && c.m.index == l.index
    && l.head in c.m.regs && c.m.regs[l.head] == Ptr(h)
    && Bounds(e, c.m)
    && c.m.mem == mem && c.m.input == input && c.m.output == output
  }

  ghost predicate Bounds(e: Env, m: Machine) {
    && e.arr in m.regs && m.regs[e.arr] == Ptr(0)
    && (e.checks ==> e.arrmax in m.regs && m.regs[e.arrmax] == Ptr(e.mem))
  }

  ghost predicate Stands(e: Env, m: Machine, l: Loc, h: int) {
    && m.block == l.block && m.index == l.index
    && l.head in m.regs && m.regs[l.head] == Ptr(h)
    && Bounds(e, m)
  }

  lemma OneStep(blocks: seq<Block>, junk: nat -> byte, m: Machine) returns (j: nat)
    ensures j > 0 && MRun(blocks, junk, MGoing(m), j) == MStep(blocks, junk, m)
  {
    j := 1;
  }

  lemma AndThen(blocks: seq<Block>, junk: nat -> byte, c: MConfig, j: nat, d: MConfig, k: nat) returns (n: nat)
    requires MRun(blocks, junk, c, j) == d
    ensures n == j + k && MRun(blocks, junk, c, n) == MRun(blocks, junk, d, k)
  {
    n := j + k;
    MRunAdd(blocks, junk, c, j, k);
  }

  /** Three instructions in a row, the first two of which do not stop. */
  lemma Straight(blocks: seq<Block>, junk: nat -> byte, l: Loc, m: Machine, m1: Machine, m2: Machine) returns (j: nat)
    requires HasCode(blocks, l, 3)
    requires m.block == m1.block == m2.block == l.block
    requires m.index == l.index && m1.index == l.index + 1 && m2.index == l.index + 2
    requires Exec(junk, CodeAt(blocks, l, 0), m) == MGoing(m1)
    requires Exec(junk, CodeAt(blocks, l, 1), m1) == MGoing(m2)
    ensures j > 0 && MRun(blocks, junk, MGoing(m), j) == Exec(junk, CodeAt(blocks, l, 2), m2)
  {
    var j0 := OneStep(blocks, junk, m);
    var j1 := OneStep(blocks, junk, m1);
    var j2 := OneStep(blocks, junk, m2);
    j := AndThen(blocks, junk, MGoing(m), j0, MGoing(m1), j1);
    j := AndThen(blocks, junk, MGoing(m), j, MGoing(m2), j2);
  }

  lemma ChangeMachine(e: Env, blocks: seq<Block>, junk: nat -> byte, m: Machine, l: Loc, h: int, v: int, after: Loc)
    returns (j: nat)
    requires ChangeCode(e, blocks, l, v, after) && Stands(e, m, l, h)
    ensures j > 0
    ensures var c := MRun(blocks, junk, MGoing(m), j);
      if OnTape(h, m.mem) then Arrived(e, c, after, h, m.mem[h := (m.mem[h] + v) % 256], m.input, m.output)
      else c == MFaulted(m.output)
  {
    if OnTape(h, m.mem) {
      var x, y: byte := m.mem[h], (m.mem[h] + v) % 256;
      ModAdd(v, x);
      var m1 := m.(regs := m.regs[CodeAt(blocks, l, 0).dst := I8(x)], index := m.index + 1);
      var m2 := m1.(regs := m1.regs[CodeAt(blocks, l, 1).dst := I8(y)], index := m.index + 2);
      j := Straight(blocks, junk, l, m, m1, m2);
    } else {
      j := OneStep(blocks, junk, m);
    }
  }

  lemma ReadMachine(e: Env, blocks: seq<Block>, junk: nat -> byte, m: Machine, l: Loc, h: int, after: Loc)
    returns (j: nat)
    requires ReadCode(e, blocks, l, after) && Stands(e, m, l, h)
    ensures j > 0
    ensures var b := if m.input == [] then 255 else m.input[0];
      var rest := if m.input == [] then [] else m.input[1..];
      var c := MRun(blocks, junk, MGoing(m), j);
      if OnTape(h, m.mem) then Arrived(e, c, after, h, m.mem[h := b], rest, m.output)
      else c == MFaulted(m.output)
  {
    var i := if m.input == [] then -1 else m.input[0];
    var b := if m.input == [] then 255 else m.input[0];
    var rest := if m.input == [] then [] else m.input[1..];
    var m1 := m.(regs := m.regs[CodeAt(blocks, l, 0).dst := I32(i)], input := rest, index := m.index + 1);
    var m2 := m1.(regs := m1.regs[CodeAt(blocks, l, 1).dst := I8(b)], index := m.index + 2);
    j := Straight(blocks, junk, l, m, m1, m2);
  }

  lemma WriteMachine(e: Env, blocks: seq<Block>, junk: nat -> byte, m: Machine, l: Loc, h: int, after: Loc)
    returns (j: nat)
    requires WriteCode(e, blocks, l, after) && Stands(e, m, l, h)
    ensures j > 0
    ensures var c := MRun(blocks, junk, MGoing(m), j);
      if OnTape(h, m.mem) then Arrived(e, c, after, h, m.mem, m.input, m.output + [Put(m.mem[h])])
      else c == MFaulted(m.output)
  {
    if OnTape(h, m.mem) {
      var x := m.mem[h];
      var m1 := m.(regs := m.regs[CodeAt(blocks, l, 0).dst := I8(x)], index := m.index + 1);
      var m2 := m1.(regs := m1.regs[CodeAt(blocks, l, 1).dst := I32(SignExtend(x))], index := m.index + 2);
      j := Straight(blocks, junk, l, m, m1, m2);
    } else {
      j := OneStep(blocks, junk, m);
    }
  }

  /** The block that ends the program. */
  lemma EndMachine(e: Env, blocks: seq<Block>, junk: nat -> byte, m: Machine) returns (j: nat)
    requires FixedBlocks(e, blocks) && m.block == e.endbb && m.index == 0 && Bounds(e, m)
    ensures j > 0 && MRun(blocks, junk, MGoing(m), j) == MHalted(m.mem, m.output)
  {
    var m1 := m.(index := 1);
    var j0 := OneStep(blocks, junk, m);
    var j1 := OneStep(blocks, junk, m1);
    j := AndThen(blocks, junk, MGoing(m), j0, MGoing(m1), j1);
  }

  /** The block that reports a head off the tape. */
  lemma ErrorMachine(e: Env, blocks: seq<Block>, junk: nat -> byte, m: Machine) returns (j: nat)
    requires FixedBlocks(e, blocks) && e.checks && m.block == e.aberror && m.index == 0 && Bounds(e, m)
    ensures j > 0 && MRun(blocks, junk, MGoing(m), j) == MHalted(m.mem, m.output + [Puts(OFF_TAPE)])
  {
    var m1 := m.(index := 1, output := m.output + [Puts(OFF_TAPE)]);
    var m2 := m1.(block := e.endbb, index := 0);
    var j0 := OneStep(blocks, junk, m);
    var j1 := OneStep(blocks, junk, m1);
    var j2 := EndMachine(e, blocks, junk, m2);
    j := AndThen(blocks, junk, MGoing(m), j0, MGoing(m1), j1);
    j := AndThen(blocks, junk, MGoing(m), j, MGoing(m2), j2);
  }

  /** The two tests and their disjunction. */
  lemma BoundsTests(e: Env, blocks: seq<Block>, junk: nat -> byte, m: Machine, l: Loc, h: int, after: Loc)
    returns (j: nat, m3: Machine)
    requires e.checks && BoundsCheck(e, blocks, l, after) && Stands(e, m, l, h) && |m.mem| == e.mem
    ensures j > 0 && MRun(blocks, junk, MGoing(m), j) == MGoing(m3)
    ensures Stands(e, m3, l.(index := l.index + 3), h) && m3.mem == m.mem && m3.input == m.input
    ensures m3.output == m.output
    ensures var t := CodeAt(blocks, l, 2).dst; t in m3.regs && m3.regs[t] == I1(!OnTape(h, m.mem))
  {
    var m1 := m.(regs := m.regs[CodeAt(blocks, l, 0).dst := I1(h >= e.mem)], index := m.index + 1);
    var m2 := m1.(regs := m1.regs[CodeAt(blocks, l, 1).dst := I1(h < 0)], index := m.index + 2);
    m3 := m2.(regs := m2.regs[CodeAt(blocks, l, 2).dst := I1(!OnTape(h, m.mem))], index := m.index + 3);
    j := Straight(blocks, junk, l, m, m1, m2);
  }

  lemma BoundsCheckMachine(e: Env, blocks: seq<Block>, junk: nat -> byte, m: Machine, l: Loc, h: int, after: Loc)
    returns (j: nat)
    requires FixedBlocks(e, blocks) && e.checks && BoundsCheck(e, blocks, l, after)
    requires Stands(e, m, l, h) && |m.mem| == e.mem
    ensures j > 0
    ensures Arrived(e, MRun(blocks, junk, MGoing(m), j),
                    if OnTape(h, m.mem) then after else Loc(e.aberror, 0, l.head), h, m.mem, m.input, m.output)
  {
    var j0, m3 := BoundsTests(e, blocks, junk, m, l, h, after);
    var j1 := OneStep(blocks, junk, m3);
    j := AndThen(blocks, junk, MGoing(m), j0, MGoing(m3), j1);
  }

  lemma MoveMachine(e: Env, blocks: seq<Block>, junk: nat -> byte, m: Machine, l: Loc, h: int, v: int, after: Loc)
    returns (j: nat)
    requires FixedBlocks(e, blocks) && MoveCode(e, blocks, l, v, after)
    requires Stands(e, m, l, h) && |m.mem| == e.mem
    ensures j > 0
    ensures var c := MRun(blocks, junk, MGoing(m), j);
      if e.checks && !OnTape(h + v, m.mem) then c == MHalted(m.mem, m.output + [Puts(OFF_TAPE)])
      else Arrived(e, c, after, h + v, m.mem, m.input, m.output)
  {
    var l1 := l.(index := l.index + 1, head := CodeAt(blocks, l, 0).dst);
    var m1 := m.(regs := m.regs[l1.head := Ptr(h + v)], index := m.index + 1);
    j := OneStep(blocks, junk, m);
    assert MRun(blocks, junk, MGoing(m), j) == MGoing(m1);
    if e.checks {
      var k := BoundsCheckMachine(e, blocks, junk, m1, l1, h + v, after);
      j := AndThen(blocks, junk, MGoing(m), j, MGoing(m1), k);
      if !OnTape(h + v, m.mem) {
        var m5 := MRun(blocks, junk, MGoing(m), j).m;
        k := ErrorMachine(e, blocks, junk, m5);
        j := AndThen(blocks, junk, MGoing(m), j, MGoing(m5), k);
      }
    }
  }

  /** The loop test, entered from either side. */
  lemma TestMachine(e: Env, blocks: seq<Block>, junk: nat -> byte, m: Machine, h: int, from: Loc,
                    enter: Loc, again: Loc, test: BlockId, inside: Loc, behind: Loc) returns (j: nat)
    requires TestCode(e, blocks, enter, again, test, inside, behind)
    requires from == enter || from == again
    requires AtEnd(blocks, from) && blocks[from.block].term == Br(test)
    requires Stands(e, m, from, h)
    ensures j > 0
    ensures var c := MRun(blocks, junk, MGoing(m), j);
      if OnTape(h, m.mem) then Arrived(e, c, if m.mem[h] == 0 then behind else inside, h, m.mem, m.input, m.output)
      else c == MFaulted(m.output)
  {
    var b := blocks[test];
    var m1 := m.(block := test, index := 0, regs := m.regs[b.phi.dst := Ptr(h)]);
    j := OneStep(blocks, junk, m);
    assert MStep(blocks, junk, m) == MGoing(m1);
    var k := OneStep(blocks, junk, m1);
    j := AndThen(blocks, junk, MGoing(m), j, MGoing(m1), k);
    if OnTape(h, m.mem) {
      var m2 := m1.(index := 1, regs := m1.regs[b.body[0].dst := I8(m.mem[h])]);
      var m3 := m2.(index := 2, regs := m2.regs[b.body[1].dst := I1(m.mem[h] == 0)]);
      assert MStep(blocks, junk, m2) == MGoing(m3);
      k := OneStep(blocks, junk, m2);
      j := AndThen(blocks, junk, MGoing(m), j, MGoing(m2), k);
      k := OneStep(blocks, junk, m3);
      j := AndThen(blocks, junk, MGoing(m), j, MGoing(m3), k);
    }
  }

  // -------------------------------------------------------- one symbol, both sides

  /** Where the machine arrives and what the text reaches are the same. */
  lemma Meet(e: Env, sync: Sync, s: State, mc: MConfig)
    requires s.pc in sync && |s.tape| == e.mem
    requires Arrived(e, mc, sync[s.pc], s.head, s.tape, s.input, s.output)
    ensures Matched(e, sync, Going(s), mc)
  {
  }

  lemma LoopSymbol(e: Env, blocks: seq<Block>, sync: Sync, junk: nat -> byte, s: State, m: Machine, p: nat, q: nat)
    returns (i: nat, j: nat)
    requires LoopCode(e, blocks, sync, p, q) && Related(e, sync, s, m)
    requires s.pc == p || s.pc == q
    requires p < q < |e.text| && e.text[p] == '[' && e.text[q] == ']'
    requires CloseFrom(e.text, p + 1, 0) == Some(q) && OpenBefore(e.text, q, 0) == Some(p)
    ensures i > 0 && j > 0
    ensures Matched(e, sync, Run(e.text, e.checks, Going(s), i), MRun(blocks, junk, MGoing(m), j))
  {
    var test := blocks[sync[p].block].term.target;
    j := TestMachine(e, blocks, junk, m, s.head, sync[s.pc], sync[p], sync[q], test, sync[p + 1], sync[q + 1]);
    i := LoopText(e, s, p, q);
    if OnTape(s.head, s.tape) {
      Meet(e, sync, s.(pc := if s.tape[s.head] == 0 then q + 1 else p + 1), MRun(blocks, junk, MGoing(m), j));
    }
  }

  /** Both brackets lead to the test of the cell. */
  lemma LoopText(e: Env, s: State, p: nat, q: nat) returns (i: nat)
    requires s.pc == p || s.pc == q
    requires p < q < |e.text| && e.text[p] == '[' && e.text[q] == ']'
    requires CloseFrom(e.text, p + 1, 0) == Some(q) && OpenBefore(e.text, q, 0) == Some(p)
    ensures i > 0
    ensures Run(e.text, e.checks, Going(s), i)
         == if !OnTape(s.head, s.tape) then Faulted(s.output)
            else Going(s.(pc := if s.tape[s.head] == 0 then q + 1 else p + 1))
  {
    var s1 := s.(pc := p);
    assert Run(e.text, e.checks, Going(s1), 1) == Step(e.text, e.checks, s1);
    if s.pc == p {
      i := 1;
    } else {
      i := 2;
      assert Step(e.text, e.checks, s) == Going(s1);
    }
  }

  lemma RunSymbol(e: Env, blocks: seq<Block>, sync: Sync, junk: nat -> byte, s: State, m: Machine, f: nat, v: int)
    returns (i: nat, j: nat)
    requires FixedBlocks(e, blocks) && Related(e, sync, s, m) && s.pc < |e.text| && f in sync
    requires IsMove(e.text[s.pc]) || IsChange(e.text[s.pc])
    requires f == RunEnd(e.text, s.pc, IsMove(e.text[s.pc])) && v == RunSum(e.text, s.pc, f)
    requires IsMove(e.text[s.pc]) ==> MoveCode(e, blocks, sync[s.pc], v, sync[f])
    requires IsChange(e.text[s.pc]) ==> ChangeCode(e, blocks, sync[s.pc], v, sync[f])
    ensures i > 0 && j > 0
    ensures Matched(e, sync, Run(e.text, e.checks, Going(s), i), MRun(blocks, junk, MGoing(m), j))
  {
    if IsMove(e.text[s.pc]) {
      i, j := MoveSymbol(e, blocks, sync, junk, s, m, f, v);
    } else {
      i, j := ChangeSymbol(e, blocks, sync, junk, s, m, f, v);
    }
  }

  lemma MoveSymbol(e: Env, blocks: seq<Block>, sync: Sync, junk: nat -> byte, s: State, m: Machine, f: nat, v: int)
    returns (i: nat, j: nat)
    requires FixedBlocks(e, blocks) && Related(e, sync, s, m) && s.pc < |e.text| && f in sync && IsMove(e.text[s.pc])
    requires f == RunEnd(e.text, s.pc, true) && v == RunSum(e.text, s.pc, f)
    requires MoveCode(e, blocks, sync[s.pc], v, sync[f])
    ensures i > 0 && j > 0
    ensures Matched(e, sync, Run(e.text, e.checks, Going(s), i), MRun(blocks, junk, MGoing(m), j))
  {
    i := f - s.pc;
    j := MoveMachine(e, blocks, junk, m, sync[s.pc], s.head, v, sync[f]);
    MoveRun(e, s);
    if !e.checks || OnTape(s.head + v, s.tape) {
      Meet(e, sync, s.(pc := f, head := s.head + v), MRun(blocks, junk, MGoing(m), j));
    }
  }

  lemma ChangeSymbol(e: Env, blocks: seq<Block>, sync: Sync, junk: nat -> byte, s: State, m: Machine, f: nat, v: int)
    returns (i: nat, j: nat)
    requires FixedBlocks(e, blocks) && Related(e, sync, s, m) && s.pc < |e.text| && f in sync && IsChange(e.text[s.pc])
    requires f == RunEnd(e.text, s.pc, false) && v == RunSum(e.text, s.pc, f)
    requires ChangeCode(e, blocks, sync[s.pc], v, sync[f])
    ensures i > 0 && j > 0
    ensures Matched(e, sync, Run(e.text, e.checks, Going(s), i), MRun(blocks, junk, MGoing(m), j))
  {
    i := f - s.pc;
    j := ChangeMachine(e, blocks, junk, m, sync[s.pc], s.head, v, sync[f]);
    if OnTape(s.head, s.tape) {
      ChangeRun(e, s);
      Meet(e, sync, s.(pc := f, tape := s.tape[s.head := (s.tape[s.head] + v) % 256]),
           MRun(blocks, junk, MGoing(m), j));
    } else {
      i := 1;
      assert Run(e.text, e.checks, Going(s), 1) == Step(e.text, e.checks, s);
    }
  }

  lemma ReadOrWriteSymbol(e: Env, blocks: seq<Block>, sync: Sync, junk: nat -> byte, s: State, m: Machine)
    returns (j: nat)
    requires Related(e, sync, s, m) && s.pc < |e.text| && s.pc + 1 in sync
    requires e.text[s.pc] == ',' || e.text[s.pc] == '.'
    requires e.text[s.pc] == ',' ==> ReadCode(e, blocks, sync[s.pc], sync[s.pc + 1])
    requires e.text[s.pc] == '.' ==> WriteCode(e, blocks, sync[s.pc], sync[s.pc + 1])
    ensures j > 0
    ensures Matched(e, sync, Step(e.text, e.checks, s), MRun(blocks, junk, MGoing(m), j))
  {
    if e.text[s.pc] == ',' {
      j := ReadMachine(e, blocks, junk, m, sync[s.pc], s.head, sync[s.pc + 1]);
    } else {
      j := WriteMachine(e, blocks, junk, m, sync[s.pc], s.head, sync[s.pc + 1]);
    }
    if OnTape(s.head, s.tape) {
      Meet(e, sync, Step(e.text, e.checks, s).s, MRun(blocks, junk, MGoing(m), j));
    }
  }

  lemma EofSymbol(e: Env, blocks: seq<Block>, sync: Sync, junk: nat -> byte, s: State, m: Machine) returns (j: nat)
    requires FixedBlocks(e, blocks) && Related(e, sync, s, m) && s.pc == |e.text|
    requires AtEnd(blocks, sync[s.pc]) && blocks[sync[s.pc].block].term == Br(e.endbb)
    ensures j > 0 && MRun(blocks, junk, MGoing(m), j) == MHalted(s.tape, s.output)
  {
    var m1 := m.(block := e.endbb, index := 0);
    j := OneStep(blocks, junk, m);
    var k := EndMachine(e, blocks, junk, m1);
    j := AndThen(blocks, junk, MGoing(m), j, MGoing(m1), k);
  }

  /** From matching states, some steps of the text and some of the machine match again;
      only a comment leaves the machine where it is. */
  lemma InStep(e: Env, blocks: seq<Block>, sync: Sync, junk: nat -> byte, s: State, m: Machine) returns (i: nat, j: nat)
    requires FixedBlocks(e, blocks) && Related(e, sync, s, m) && SymbolOK(e, blocks, sync, s.pc)
    ensures i > 0
    ensures Matched(e, sync, Run(e.text, e.checks, Going(s), i), MRun(blocks, junk, MGoing(m), j))
    ensures j == 0 ==> s.pc < |e.text| && i == 1 && Step(e.text, e.checks, s) == Going(s.(pc := s.pc + 1))
  {
    assert Run(e.text, e.checks, Going(s), 1) == Step(e.text, e.checks, s);
    if s.pc < |e.text| && !IsCommand(e.text[s.pc]) {
      i, j := 1, 0;
    } else if s.pc < |e.text| && e.text[s.pc] == '[' {
      var q := CloseFrom(e.text, s.pc + 1, 0).value;
      CloseSkipsLoop(e.text, s.pc + 1, 0, q);
      OpenOfClose(e.text, s.pc + 1, 0, s.pc, q);
      i, j := LoopSymbol(e, blocks, sync, junk, s, m, s.pc, q);
    } else if s.pc < |e.text| && e.text[s.pc] == ']' {
      i, j := LoopSymbol(e, blocks, sync, junk, s, m, OpenBefore(e.text, s.pc, 0).value, s.pc);
    } else if s.pc == |e.text| {
      j := EofSymbol(e, blocks, sync, junk, s, m);
      i := 1;
    } else if e.text[s.pc] == ',' || e.text[s.pc] == '.' {
      j := ReadOrWriteSymbol(e, blocks, sync, junk, s, m);
      i := 1;
    } else {
      var f := RunEnd(e.text, s.pc, IsMove(e.text[s.pc]));
      i, j := RunSymbol(e, blocks, sync, junk, s, m, f, RunSum(e.text, s.pc, f));
    }
  }

  // ------------------------------------------------------------ whole executions

  /** What the text has done, the machine has done too. */
  ghost predicate Covers(c: Config, mc: MConfig) {
    match c
    case Going(s) => !mc.Stuck? && s.output <= MOutput(mc)
    case Halted(t, o) => mc == MHalted(t, o)
    case Faulted(o) => mc == MFaulted(o)
    case Malformed => false
  }

  /** What the machine has done, the text has done too; in particular it is not stuck. */
  ghost predicate CoveredBy(mc: MConfig, c: Config) {
    match mc
    case MGoing(m) => !c.Malformed? && m.output <= Output(c)
    case MHalted(t, o) => c == Halted(t, o)
    case MFaulted(o) => c == Faulted(o)
    case Stuck => false
  }

  /** Some run of the machine covers the first `n` characters. */
  ghost predicate TextCovered(text: string, mem: nat, checks: bool, blocks: seq<Block>, junk: nat -> byte,
    input: seq<byte>, n: nat) {
    exists k: nat :: Covers(Run(text, checks, Start(mem, input), n), MRun(blocks, junk, MStart(input), k))
  }

  /** Some run of the text covers the first `n` instructions. */
  ghost predicate MachineCovered(text: string, mem: nat, checks: bool, blocks: seq<Block>, junk: nat -> byte,
    input: seq<byte>, n: nat) {
    exists k: nat :: CoveredBy(MRun(blocks, junk, MStart(input), n), Run(text, checks, Start(mem, input), k))
  }

  /** Same outputs, in whatever time, and the same end with the same tape, if any; for every
      input, and whatever fresh memory holds. */
  ghost predicate Equivalent(text: string, mem: nat, checks: bool, blocks: seq<Block>) {
    forall junk: nat -> byte, input: seq<byte>, n: nat ::
      && TextCovered(text, mem, checks, blocks, junk, input, n)
      && MachineCovered(text, mem, checks, blocks, junk, input, n)
  }

  // The argument from single symbols to whole executions, for any relation on states.

  ghost predicate MatchedBy(rel: (State, Machine) -> bool, c: Config, mc: MConfig) {
    match c
    case Going(s) => mc.MGoing? && rel(s, mc.m)
    case Halted(t, o) => mc == MHalted(t, o)
    case Faulted(o) => mc == MFaulted(o)
    case Malformed => false
  }

  ghost predicate Together(text: string, checks: bool, blocks: seq<Block>, junk: nat -> byte,
                           rel: (State, Machine) -> bool, s: State, m: Machine, i: nat, j: nat) {
    && i > 0
    && MatchedBy(rel, Run(text, checks, Going(s), i), MRun(blocks, junk, MGoing(m), j))
    && (j == 0 ==> s.pc < |text| && i == 1 && Step(text, checks, s) == Going(s.(pc := s.pc + 1)))
  }

  ghost predicate Progress(text: string, checks: bool, blocks: seq<Block>, junk: nat -> byte,
                           rel: (State, Machine) -> bool, s: State, m: Machine) {
    exists i: nat, j: nat :: Together(text, checks, blocks, junk, rel, s, m, i, j)
  }

  ghost predicate Simulation(text: string, checks: bool, blocks: seq<Block>, junk: nat -> byte,
    rel: (State, Machine) -> bool) {
    && (forall s, m :: rel(s, m) ==> s.output == m.output)
    && (forall s, m {:trigger Progress(text, checks, blocks, junk, rel, s, m)} ::
          rel(s, m) ==> Progress(text, checks, blocks, junk, rel, s, m))
  }

  lemma {:induction false} Forward(text: string, checks: bool, blocks: seq<Block>, junk: nat -> byte,
                                   rel: (State, Machine) -> bool, s: State, m: Machine, n: nat) returns (k: nat)
    requires Simulation(text, checks, blocks, junk, rel) && rel(s, m)
    ensures Covers(Run(text, checks, Going(s), n), MRun(blocks, junk, MGoing(m), k))
    decreases n
  {
    assert Progress(text, checks, blocks, junk, rel, s, m);
    var i: nat, j: nat :| Together(text, checks, blocks, junk, rel, s, m, i, j);
    var ci, mj := Run(text, checks, Going(s), i), MRun(blocks, junk, MGoing(m), j);
    if n < i {
      var cn := Run(text, checks, Going(s), n);
      k := j;
      RunAdd(text, checks, Going(s), n, i - n);
      if cn.Going? {
        OutputGrows(text, checks, cn, i - n);
      } else {
        RunEnded(text, checks, cn, i - n);
      }
    } else {
      RunAdd(text, checks, Going(s), i, n - i);
      if ci.Going? {
        var k' := Forward(text, checks, blocks, junk, rel, ci.s, mj.m, n - i);
        k := AndThen(blocks, junk, MGoing(m), j, mj, k');
      } else {
        RunEnded(text, checks, ci, n - i);
        k := j;
      }
    }
  }

  lemma {:induction false} Backward(text: string, checks: bool, blocks: seq<Block>, junk: nat -> byte,
                                    rel: (State, Machine) -> bool, s: State, m: Machine, n: nat) returns (k: nat)
    requires Simulation(text, checks, blocks, junk, rel) && rel(s, m)
    ensures CoveredBy(MRun(blocks, junk, MGoing(m), n), Run(text, checks, Going(s), k))
    decreases n, |text| - s.pc
  {
    assert Progress(text, checks, blocks, junk, rel, s, m);
    var i: nat, j: nat :| Together(text, checks, blocks, junk, rel, s, m, i, j);
    var ci, mj := Run(text, checks, Going(s), i), MRun(blocks, junk, MGoing(m), j);
    if n < j {
      var mn := MRun(blocks, junk, MGoing(m), n);
      k := i;
      MRunAdd(blocks, junk, MGoing(m), n, j - n);
      if mn.MGoing? {
        MOutputGrows(blocks, junk, mn, j - n);
      } else {
        MRunEnded(blocks, junk, mn, j - n);
      }
    } else {
      MRunAdd(blocks, junk, MGoing(m), j, n - j);
      if mj.MGoing? {
        if j == 0 {
          assert ci == Going(s.(pc := s.pc + 1));
        }
        var k' := Backward(text, checks, blocks, junk, rel, ci.s, mj.m, n - j);
        k := i + k';
        RunAdd(text, checks, Going(s), i, k');
      } else {
        MRunEnded(blocks, junk, mj, n - j);
        k := i;
      }
    }
  }

  lemma CompleteSimulates(e: Env, blocks: seq<Block>, sync: Sync, junk: nat -> byte)
    requires Complete(e, blocks, sync)
    ensures Simulation(e.text, e.checks, blocks, junk, (s, m) => Related(e, sync, s, m))
  {
    var rel := (s, m) => Related(e, sync, s, m);
    forall s: State, m: Machine | rel(s, m)
      ensures Progress(e.text, e.checks, blocks, junk, rel, s, m)
    {
      var i, j := InStep(e, blocks, sync, junk, s, m);
      assert Together(e.text, e.checks, blocks, junk, rel, s, m, i, j);
    }
  }

  /** The header's code prepares the tape. */
  lemma HeaderMachine(e: Env, blocks: seq<Block>, sync: Sync, junk: nat -> byte, input: seq<byte>) returns (j: nat)
    requires 0 in sync && EntryOK(e, blocks, sync[0])
    ensures var c := MRun(blocks, junk, MStart(input), j);
      c.MGoing? && Related(e, sync, Start(e.mem, input).s, c.m)
    ensures forall i: nat :: i <= j ==>
      MRun(blocks, junk, MStart(input), i).MGoing? && MOutput(MRun(blocks, junk, MStart(input), i)) == []
  {
    var head := sync[0].head;
    var code := HeaderCode(e, head);
    var raw: seq<byte> := seq(e.mem, k requires 0 <= k < e.mem => junk(k));
    var zero: seq<byte> := seq(e.mem, k => 0);
    var m0 := MStart(input).m;
    var m1 := m0.(index := 1, regs := map[e.arr := Ptr(0)], mem := raw);
    var m2 := m1.(index := 2, mem := zero);
    var m3 := if e.checks then m2.(index := 3, regs := m2.regs[e.arrmax := Ptr(e.mem)]) else m2;
    var m4 := m3.(index := m3.index + 1, regs := m3.regs[head := Ptr(e.mem / 2)]);
    assert blocks[0].body[..|code|] == code;
    assert MStep(blocks, junk, m0) == MGoing(m1) by { assert blocks[0].body[0] == code[0]; }
    assert MStep(blocks, junk, m1) == MGoing(m2) by { assert blocks[0].body[1] == code[1]; }
    if e.checks {
      assert MStep(blocks, junk, m2) == MGoing(m3) by { assert blocks[0].body[2] == code[2]; }
    }
    assert MStep(blocks, junk, m3) == MGoing(m4) by { assert blocks[0].body[m3.index] == code[m3.index]; }
    j := m4.index;
    assert MRun(blocks, junk, MStart(input), 0) == MGoing(m0);
    assert MRun(blocks, junk, MStart(input), 1) == MGoing(m1);
    assert MRun(blocks, junk, MStart(input), 2) == MGoing(m2);
    assert MRun(blocks, junk, MStart(input), 3) == MGoing(if e.checks then m3 else m4);
    if e.checks {
      assert MRun(blocks, junk, MStart(input), 4) == MGoing(m4);
    }
  }

  lemma FromStart(text: string, mem: nat, checks: bool, blocks: seq<Block>, junk: nat -> byte, input: seq<byte>,
                  rel: (State, Machine) -> bool, j: nat, n: nat)
    requires Simulation(text, checks, blocks, junk, rel)
    requires var c := MRun(blocks, junk, MStart(input), j); c.MGoing? && rel(Start(mem, input).s, c.m)
    requires n <= j ==>
      MRun(blocks, junk, MStart(input), n).MGoing? && MOutput(MRun(blocks, junk, MStart(input), n)) == []
    ensures TextCovered(text, mem, checks, blocks, junk, input, n)
    ensures MachineCovered(text, mem, checks, blocks, junk, input, n)
  {
    var mj := MRun(blocks, junk, MStart(input), j);
    var k := Forward(text, checks, blocks, junk, rel, Start(mem, input).s, mj.m, n);
    k := AndThen(blocks, junk, MStart(input), j, mj, k);
    MachineFromStart(text, mem, checks, blocks, junk, input, rel, j, n);
  }

  lemma MachineFromStart(text: string, mem: nat, checks: bool, blocks: seq<Block>, junk: nat -> byte,
                         input: seq<byte>, rel: (State, Machine) -> bool, j: nat, n: nat)
    requires Simulation(text, checks, blocks, junk, rel)
    requires var c := MRun(blocks, junk, MStart(input), j); c.MGoing? && rel(Start(mem, input).s, c.m)
    requires n <= j ==>
      MRun(blocks, junk, MStart(input), n).MGoing? && MOutput(MRun(blocks, junk, MStart(input), n)) == []
    ensures MachineCovered(text, mem, checks, blocks, junk, input, n)
  {
    if n <= j {
      assert CoveredBy(MRun(blocks, junk, MStart(input), n), Run(text, checks, Start(mem, input), 0));
    } else {
      var mj := MRun(blocks, junk, MStart(input), j);
      MRunAdd(blocks, junk, MStart(input), j, n - j);
      var k := Backward(text, checks, blocks, junk, rel, Start(mem, input).s, mj.m, n - j);
    }
  }

  /** The compiler's promise: a completely compiled program means what its text means. */
  lemma CompleteIsEquivalent(e: Env, blocks: seq<Block>, sync: Sync)
    requires Complete(e, blocks, sync)
    ensures Equivalent(e.text, e.mem, e.checks, blocks)
  {
    forall junk: nat -> byte, input: seq<byte>, n: nat
      ensures TextCovered(e.text, e.mem, e.checks, blocks, junk, input, n)
      ensures MachineCovered(e.text, e.mem, e.checks, blocks, junk, input, n)
    {
      CompleteSimulates(e, blocks, sync, junk);
      var j := HeaderMachine(e, blocks, sync, junk, input);
      FromStart(e.text, e.mem, e.checks, blocks, junk, input, (s, m) => Related(e, sync, s, m), j, n);
    }
  }

  // ------------------------------------------------------------- bounds checking

  /** Between runs of moves a checked head is on the tape. */
  ghost predicate HeadSafe(text: string, s: State) {
    s.pc <= |text| && (OnTape(s.head, s.tape) || MoveFollows(text, s.pc))
  }

  lemma {:induction false} HeadStaysSafe(text: string, c: Config, n: nat)
    requires c.Going? && HeadSafe(text, c.s)
    ensures !Run(text, true, c, n).Faulted?
    decreases n
  {
    if n > 0 {
      var d := Step(text, true, c.s);
      if d.Going? {
        if c.s.pc < |text| && text[c.s.pc] == ']' {
          OpenIsBefore(text, c.s.pc, 0);
        } else if c.s.pc < |text| && text[c.s.pc] == '[' && CloseFrom(text, c.s.pc + 1, 0).Some? {
          CloseSkipsLoop(text, c.s.pc + 1, 0, CloseFrom(text, c.s.pc + 1, 0).value);
        }
        HeadStaysSafe(text, d, n - 1);
      } else {
        RunEnded(text, true, d, n - 1);
      }
    }
  }

  lemma {:induction false} OpenIsBefore(text: string, i: nat, d: nat)
    requires i <= |text|
    ensures OpenBefore(text, i, d).Some? ==> OpenBefore(text, i, d).value < i
    decreases i
  {
    if i > 0 {
      OpenIsBefore(text, i - 1, d + 1);
      OpenIsBefore(text, i - 1, d);
      if d > 0 {
        OpenIsBefore(text, i - 1, d - 1);
      }
    }
  }

  /** No checked program accesses memory outside the tape, on any input; this needs a tape
      with at least one cell, since the initial head is never tested. */
  lemma CheckedNeverFaults(mem: nat)
    ensures (forall text: string, input: seq<byte>, n: nat :: NoFault(text, mem, input, n)) <==> mem > 0
  {
    if mem > 0 {
      forall text: string, input: seq<byte>, n: nat ensures NoFault(text, mem, input, n) {
        HeadStaysSafe(text, Start(mem, input), n);
      }
    } else {
      FaultsAtOnce(mem, Start(mem, []), 1);
      assert !NoFault("+", mem, [], 1);
    }
  }

  /** The checked text has not accessed memory outside the tape after `n` steps. */
  predicate NoFault(text: string, mem: nat, input: seq<byte>, n: nat) {
    !Run(text, true, Start(mem, input), n).Faulted?
  }

  lemma FaultsAtOnce(mem: nat, c: Config, n: nat)
    requires mem == 0 && c == Start(mem, []) && n == 1
    ensures Run("+", true, c, n).Faulted?
  {
    assert Run("+", true, c, n) == Run("+", true, Next("+", true, c), 0) == Step("+", true, c.s);
  }

  /** The same, for the machine that runs the compiled program. */
  lemma CompiledNeverFaults(text: string, mem: nat, blocks: seq<Block>, junk: nat -> byte, input: seq<byte>, n: nat)
    requires mem > 0 && Equivalent(text, mem, true, blocks)
    ensures !MRun(blocks, junk, MStart(input), n).MFaulted? && !MRun(blocks, junk, MStart(input), n).Stuck?
  {
    assert MachineCovered(text, mem, true, blocks, junk, input, n);
    var k: nat :| CoveredBy(MRun(blocks, junk, MStart(input), n), Run(text, true, Start(mem, input), k));
    HeadStaysSafe(text, Start(mem, input), k);
  }
}
