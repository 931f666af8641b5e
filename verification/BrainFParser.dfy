/** The compiler as it runs: the class that reads the text and drives the builder. */
module BrainFParser {
  import opened BrainFSource
  import opened BrainFIR
  import opened BrainFSync
  import opened BrainFShape
  import opened BrainFSimulation
  import opened BrainFCompiler
  import opened BrainFTranslation

  // ------------------------------------------------------------------- symbols

  /** The symbol at `f` has been looked at as the one that follows. */
  ghost predicate Follows(text: string, f: nat, pos: nat, next: Symbol, value: int) {
    if next == Eof then f == pos == |text|
    else
      && f < |text| && pos == f + 1 && IsCommand(text[f]) && next == SymbolOf(text[f])
      && (next.MoveBy? || next.ChangeBy? ==> value == Direction(text[f]))
  }

  /** `cur` (with `curvalue`) has been read from `start` up to the stream position `pos`; if it
      is a run, `next` may already hold the symbol that ended it. */
  ghost predicate Lexed(text: string, start: nat, pos: nat, cur: Symbol, curvalue: int, next: Symbol, nextvalue: int) {
    && start <= pos <= |text|
    && match cur
       case None_ => start == pos && next == None_
       case Eof => start == pos == |text| && next == None_
       case MoveBy => RunLexed(text, start, pos, true, curvalue, next, nextvalue)
       case ChangeBy => RunLexed(text, start, pos, false, curvalue, next, nextvalue)
       case _ => start < |text| && pos == start + 1 && cur == SymbolOf(text[start]) && next == None_
  }

  ghost predicate RunLexed(text: string, start: nat, pos: nat, move: bool, value: int, next: Symbol, nextvalue: int)
    requires start <= pos <= |text|
  {
    && start < |text| && OfKind(text[start], move)
    && var f := RunEnd(text, start, move);
    if next == None_ then start < pos && f == RunEnd(text, pos, move) && value == RunSum(text, start, pos)
    else value == RunSum(text, start, f) && Follows(text, f, pos, next, nextvalue)
  }

  /** Nothing, or a run: more characters may belong to it. */
  predicate Growing(sym: Symbol) { sym == None_ || sym == MoveBy || sym == ChangeBy }

  /** Only comments from `i` up to `j`. */
  ghost predicate Comments(text: string, i: nat, j: nat) {
    i <= j <= |text| && forall k :: i <= k < j ==> !IsCommand(text[k])
  }

  /** Once `cur` is emitted, what followed it becomes the current symbol. */
  lemma NextBecomesCurrent(text: string, start: nat, pos: nat, cur: Symbol, curvalue: int, next: Symbol, nextvalue: int)
    requires Lexed(text, start, pos, cur, curvalue, next, nextvalue)
    requires !cur.None_? && !cur.Eof? && (cur.MoveBy? || cur.ChangeBy? ==> next != None_)
    ensures start < SymbolEnd(text, start, cur)
    ensures Lexed(text, SymbolEnd(text, start, cur), pos, next, nextvalue, None_, 0)
  {
    var f := SymbolEnd(text, start, cur);
    if next.MoveBy? || next.ChangeBy? {
      assert RunEnd(text, f, next.MoveBy?) == RunEnd(text, f + 1, next.MoveBy?);
      assert RunSum(text, f, f + 1) == RunSum(text, f, f) + Direction(text[f]);
    }
  }

  // ------------------------------------------------------------------- the class

  class BrainF {
    const text: string
    const mem: nat
    const checks: bool
    // the stream
    var pos: nat
    // the function and its builder
    var blocks: seq<Block>
    var nextReg: Reg
    var insert: BlockId
    var curhead: Reg
    // fixed pieces
    var arr: Reg
    var arrmax: Reg
    var endbb: BlockId
    var aberror: BlockId
    // proof
    ghost var entry: seq<set<Reg>>

    ghost function E(): Env
      reads this
    {
      Env(text, mem, checks, arr, arrmax, endbb, aberror)
    }

    ghost function B(): Build
      reads this
    {
      Build(blocks, entry, insert, curhead, nextReg)
    }

    constructor (text: string, mem: nat, checks: bool)
      ensures this.text == text && this.mem == mem && this.checks == checks && pos == 0
    {
      this.text, this.mem, this.checks := text, mem, checks;
      pos, blocks, nextReg, insert, curhead := 0, [], 0, 0, 0;
      arr, arrmax, endbb, aberror := 0, 0, 0, 0;
      entry := [];
    }

    method NewReg() returns (r: Reg)
      modifies this`nextReg
      ensures r == old(nextReg) && nextReg == r + 1
    {
      r := nextReg;
      nextReg := nextReg + 1;
    }

    /** Append an instruction at the insert point. */
    method Create(i: Instr)
      requires insert < |blocks|
      modifies this`blocks
      ensures |blocks| == |old(blocks)|
      ensures blocks == old(blocks)[insert := old(blocks)[insert].(body := old(blocks)[insert].body + [i])]
    {
      blocks := blocks[insert := blocks[insert].(body := blocks[insert].body + [i])];
    }

    /** Append an empty block to the function. */
    method CreateBlock(ghost defined: set<Reg>) returns (b: BlockId)
      modifies this`blocks, this`entry
      ensures b == |old(blocks)|
      ensures blocks == old(blocks) + [Block(NoPhi, [], Open)] && entry == old(entry) + [defined]
    {
      b := |blocks|;
      blocks := blocks + [Block(NoPhi, [], Open)];
      entry := entry + [defined];
    }

    /** The entry block's code: tape, bounds, initial head. */
    method EntryCode()
      modifies this`blocks, this`insert, this`nextReg, this`arr, this`arrmax, this`curhead
      ensures blocks == [Block(NoPhi, HeaderCode(E(), curhead), Open)] && insert == 0
      ensures arr < curhead < nextReg && arrmax < curhead && (checks ==> arr != arrmax)
    {
      blocks, insert, nextReg := [Block(NoPhi, [], Open)], 0, 0;
      arr := NewReg();
      Create(Malloc(arr, mem));
      Create(Memset(arr, mem));
      arrmax := arr;
      if checks {
        arrmax := NewReg();
        Create(Gep(arrmax, arr, mem));
      }
      curhead := NewReg();
      Create(Gep(curhead, arr, mem / 2));
      assert blocks[0].body == HeaderCode(E(), curhead);
    }

    /** Entry block, end block and error block. */
    method Header()
      modifies this
      ensures pos == old(pos)
      ensures insert < |blocks| && Compiled(E(), B(), map[0 := Here(B())], map[], 0)
    {
      EntryCode();
      endbb, aberror := 1, 2;
      blocks := blocks + [Block(NoPhi, [Free(arr)], Ret)];
      entry := [{}, {arr}];
      if checks {
        blocks := blocks + [Block(NoPhi, [CallPuts(OFF_TAPE)], Br(endbb))];
        entry := entry + [{arr}];
      }
      HeaderCompiled(E(), B());
    }

    method EmitChange(curvalue: int)
      requires insert < |blocks|
      modifies this`blocks, this`nextReg
      ensures B() == Push(old(B()), ChangeInstrs(old(B()), curvalue), old(curhead), old(nextReg) + 2)
    {
      ghost var b0 := B();
      var tape0 := NewReg();
      Create(Load(tape0, curhead));
      var tape1 := NewReg();
      Create(Add8(tape1, tape0, curvalue % 256));
      Create(Store(tape1, curhead));
      SamePush(b0, B(), ChangeInstrs(b0, curvalue));
    }

    method EmitRead()
      requires insert < |blocks|
      modifies this`blocks, this`nextReg
      ensures B() == Push(old(B()), ReadInstrs(old(B())), old(curhead), old(nextReg) + 2)
    {
      ghost var b0 := B();
      var tape0 := NewReg();
      Create(GetChar(tape0));
      var tape1 := NewReg();
      Create(Trunc8(tape1, tape0));
      Create(Store(tape1, curhead));
      SamePush(b0, B(), ReadInstrs(b0));
    }

    method EmitWrite()
      requires insert < |blocks|
      modifies this`blocks, this`nextReg
      ensures B() == Push(old(B()), WriteInstrs(old(B())), old(curhead), old(nextReg) + 2)
    {
      ghost var b0 := B();
      var tape0 := NewReg();
      Create(Load(tape0, curhead));
      var tape1 := NewReg();
      Create(SExt32(tape1, tape0));
      Create(PutChar(tape1));
      SamePush(b0, B(), WriteInstrs(b0));
    }

    /** A run of moves, with its bounds check if there is to be one. */
    method EmitMove(curvalue: int)
      requires insert < |blocks|
      modifies this`blocks, this`nextReg, this`insert, this`curhead, this`entry
      ensures B() == Moved(E(), old(B()), curvalue)
    {
      ghost var b0 := B();
      ghost var x := blocks[insert].body;
      var head := NewReg();
      Create(Gep(head, curhead, curvalue));
      curhead := head;
      if checks {
        var test0 := NewReg();
        Create(PtrUge(test0, curhead, arrmax));
        var test1 := NewReg();
        Create(PtrUlt(test1, curhead, arr));
        var test2 := NewReg();
        Create(OrBool(test2, test0, test1));
        assert blocks[insert].body == x + MoveTests(E(), b0, curvalue);
        var nextbb := CreateBlock(Base(E()) + {head});
        blocks := blocks[insert := blocks[insert].(term := CondBr(test2, aberror, nextbb))];
        insert := nextbb;
        assert blocks == CheckedMove(E(), b0, curvalue).blocks;
      }
    }

    /** Open a loop: its test block, its phi and the block for its body. */
    method BeginLoop() returns (loop: Enclosing)
      requires insert < |blocks|
      modifies this`blocks, this`nextReg, this`insert, this`curhead, this`entry
      ensures B() == Begun(E(), old(B()))
      ensures loop == Inside(old(nextReg), |old(blocks)| + 1, |old(blocks)|)
    {
      ghost var b0 := B();
      var testbb := CreateBlock(Base(E()));
      var bb0 := insert;
      blocks := blocks[bb0 := blocks[bb0].(term := Br(testbb))];
      var phi := NewReg();
      var bb1 := CreateBlock(Base(E()) + {phi});
      insert := bb1;
      blocks := blocks[testbb := blocks[testbb].(phi := Phi(phi, [Incoming(curhead, bb0)]))];
      curhead := phi;
      loop := Inside(phi, bb1, testbb);
      assert blocks == Begun(E(), b0).blocks;
    }

    /** Close a loop: jump back, complete phi and test, and go on behind it. */
    method FinishLoop(loop: Enclosing)
      requires loop.Inside? && insert < |blocks| && loop.test < |blocks| && loop.test != insert
      requires blocks[loop.test].phi.Phi? && blocks[loop.test].body == []
      modifies this`blocks, this`nextReg, this`insert, this`curhead, this`entry
      ensures B() == Ended(E(), old(B()), loop)
    {
      ghost var b0 := B();
      blocks := blocks[insert := blocks[insert].(term := Br(loop.test))];
      var phi := blocks[loop.test].phi;
      phi := phi.(incoming := phi.incoming + [Incoming(curhead, insert)]);
      blocks := blocks[loop.test := blocks[loop.test].(phi := phi)];
      var tape0 := NewReg();
      var test0 := NewReg();
      blocks := blocks[loop.test := blocks[loop.test].(body := [Load(tape0, loop.phi), IsZero8(test0, tape0)])];
      var bb0 := CreateBlock(Base(E()));
      blocks := blocks[loop.test := blocks[loop.test].(term := CondBr(test0, bb0, loop.body))];
      insert := bb0;
      var phi1 := NewReg();
      blocks := blocks[bb0 := blocks[bb0].(phi := Phi(phi1, [Incoming(loop.phi, loop.test)]))];
      curhead := phi1;
      assert blocks == Ended(E(), b0, loop).blocks;
    }

    /** Write out a symbol other than a bracket. */
    method Emit(cursym: Symbol, curvalue: int)
      requires insert < |blocks| && !cursym.None_? && !cursym.Loop? && !cursym.EndLoop? && !cursym.Eof?
      modifies this`blocks, this`nextReg, this`insert, this`curhead, this`entry
      ensures B() == SymbolBuild(E(), old(B()), cursym, curvalue)
    {
      match cursym {
        case Read => EmitRead();
        case Write => EmitWrite();
        case MoveBy => EmitMove(curvalue);
        case ChangeBy => EmitChange(curvalue);
      }
    }

    /** Read characters until the current symbol is complete.  A run is complete when another
        symbol, or the end of the text, has been seen. */
    method ReadNext(cursym0: Symbol, curvalue0: int, ghost start0: nat)
      returns (cursym: Symbol, curvalue: int, nextsym: Symbol, nextvalue: int, ghost start: nat)
      requires Lexed(text, start0, pos, cursym0, curvalue0, None_, 0)
      modifies this`pos
      ensures Lexed(text, start, pos, cursym, curvalue, nextsym, nextvalue)
      ensures cursym != None_ && (cursym.MoveBy? || cursym.ChangeBy? ==> nextsym != None_)
      ensures Comments(text, start0, start)
    {
      cursym, curvalue, nextsym, nextvalue, start := cursym0, curvalue0, None_, 0, start0;
      var loop := cursym == None_ || cursym == MoveBy || cursym == ChangeBy;
      while loop
        invariant Lexed(text, start, pos, cursym, curvalue, nextsym, nextvalue)
        invariant Comments(text, start0, start)
        invariant if loop then nextsym == None_ && Growing(cursym)
          else cursym != None_ && (cursym.MoveBy? || cursym.ChangeBy? ==> nextsym != None_)
        decreases loop, |text| - pos
      {
        if pos == |text| {
          if cursym == None_ {
            cursym := Eof;
          } else {
            RunEnds(text, start, cursym, curvalue, nextvalue);
            nextsym := Eof;
          }
          loop := false;
        } else {
          ghost var start1 := start;
          cursym, curvalue, nextsym, nextvalue, loop, start := ReadChar(cursym, curvalue, nextvalue, start);
          assert Comments(text, start0, start1) && Comments(text, start1, start);
        }
      }
    }

    /** Read one character: it goes on with the current symbol, starts it, or ends it. */
    method ReadChar(cursym0: Symbol, curvalue0: int, nextvalue0: int, ghost start0: nat)
      returns (cursym: Symbol, curvalue: int, nextsym: Symbol, nextvalue: int, loop: bool, ghost start: nat)
      requires pos < |text| && Growing(cursym0) && Lexed(text, start0, pos, cursym0, curvalue0, None_, nextvalue0)
      modifies this`pos
      ensures pos == old(pos) + 1 && Lexed(text, start, pos, cursym, curvalue, nextsym, nextvalue)
      ensures Comments(text, start0, start)
      ensures if loop then nextsym == None_ && Growing(cursym)
        else cursym != None_ && (cursym.MoveBy? || cursym.ChangeBy? ==> nextsym != None_)
    {
      cursym, curvalue, nextsym, nextvalue, loop, start := cursym0, curvalue0, None_, nextvalue0, true, start0;
      ghost var at := pos;
      var c := text[pos];
      pos := pos + 1;
      if IsMove(c) || IsChange(c) {
        var sym, direction := SymbolOf(c), Direction(c);
        if cursym == sym {
          RunContinues(text, start, at, cursym, curvalue, nextvalue);
          curvalue := curvalue + direction;
        } else if cursym == None_ {
          cursym, curvalue := sym, direction;
          RunStarts(text, start, cursym, nextvalue);
        } else {
          RunFollowed(text, start, at, cursym, curvalue, nextvalue, direction);
          nextsym, nextvalue := sym, direction;
          loop := false;
        }
      } else if IsCommand(c) {
        if cursym == None_ {
          cursym := SymbolOf(c);
        } else {
          RunFollowed(text, start, at, cursym, curvalue, nextvalue, nextvalue);
          nextsym := SymbolOf(c);
        }
        loop := false;
      } else if cursym == None_ {
        start := start + 1;
      } else {
        RunSkips(text, start, at, cursym, curvalue, nextvalue);
      }
    }

    /** Write out the current symbol, up to where the next one starts. */
    method WriteOut(cursym: Symbol, curvalue: int, ghost nextsym: Symbol, ghost nextvalue: int, ghost start0: nat,
                    ghost loop: Enclosing)
      returns (status: Status, ghost start: nat)
      requires Lexed(text, start0, pos, cursym, curvalue, nextsym, nextvalue)
      requires !cursym.None_? && !cursym.Eof? && !cursym.EndLoop?
      requires (cursym.MoveBy? || cursym.ChangeBy? ==> nextsym != None_)
      requires !CompileFrom(E(), B(), start0, loop).Broken?
      modifies this`pos, this`blocks, this`nextReg, this`insert, this`curhead, this`entry
      ensures status == Ok ==>
        && start0 < start && Lexed(text, start, pos, nextsym, nextvalue, None_, 0)
        && old(CompileFrom(E(), B(), start0, loop)) == CompileFrom(E(), B(), start, loop)
      ensures status != Ok ==> old(CompileFrom(E(), B(), start0, loop)) == Failed(status)
      decreases |text| - pos, 1
    {
      status, start := Ok, start0;
      if cursym == Loop {
        var inner := BeginLoop();
        status := ReadLoop(inner);
        start := pos;
      } else {
        NextBecomesCurrent(text, start, pos, cursym, curvalue, nextsym, nextvalue);
        Emit(cursym, curvalue);
        start := SymbolEnd(text, start, cursym);
      }
    }

    /** The main loop, for the whole text or for the body of one loop: it builds what
        `CompileFrom` says. */
    method ReadLoop(loop: Enclosing) returns (status: Status)
      requires pos <= |text| && !CompileFrom(E(), B(), pos, loop).Broken?
      modifies this`pos, this`blocks, this`nextReg, this`insert, this`curhead, this`entry
      ensures var r := old(CompileFrom(E(), B(), pos, loop));
        if r.Done? then status == Ok && B() == r.b && pos == r.pos else status == r.status
      decreases |text| - pos, 0
    {
      ghost var r := CompileFrom(E(), B(), pos, loop);
      ghost var start, pos0 := pos, pos;
      var cursym, curvalue, nextsym, nextvalue := None_, 0, None_, 0;
      while cursym != Eof && cursym != EndLoop
        invariant Lexed(text, start, pos, cursym, curvalue, nextsym, nextvalue)
        invariant cursym.MoveBy? || cursym.ChangeBy? ==> nextsym != None_
        invariant pos0 <= start && CompileFrom(E(), B(), start, loop) == r
        decreases |text| - start, cursym == None_
      {
        if cursym != None_ {
          LexedAdvances(text, start, pos, cursym, curvalue, nextsym, nextvalue);
          status, start := WriteOut(cursym, curvalue, nextsym, nextvalue, start, loop);
          if status != Ok {
            return;
          }
        }
        ghost var start1 := start;
        cursym, curvalue, nextsym, nextvalue, start := ReadNext(nextsym, nextvalue, start1);
        CommentsSkipped(E(), B(), start1, start, loop);
      }
      status := Close(cursym, loop, start);
    }

    /** The end of a loop, or of the text. */
    method Close(cursym: Symbol, loop: Enclosing, ghost start: nat) returns (status: Status)
      requires (cursym == Eof || cursym == EndLoop) && Lexed(text, start, pos, cursym, 0, None_, 0)
      requires !CompileFrom(E(), B(), start, loop).Broken?
      modifies this`blocks, this`nextReg, this`insert, this`curhead, this`entry
      ensures var r := old(CompileFrom(E(), B(), start, loop));
        if r.Done? then status == Ok && B() == r.b && pos == r.pos else status == r.status
    {
      if cursym == EndLoop {
        if loop.Top? {
          return ExtraClose;
        }
        FinishLoop(loop);
        return Ok;
      }
      blocks := blocks[insert := blocks[insert].(term := Br(endbb))];
      status := if loop.Inside? then MissingClose else Ok;
    }

    /** Compile the text.  It succeeds exactly on texts with balanced brackets; then the
        function is well formed and means what the text means.  It tells a bracket that closes
        nothing from one that is never closed. */
    method Parse() returns (status: Status)
      requires pos == 0
      modifies this
      ensures status == Ok <==> Balanced(text)
      ensures status == ExtraClose <==> ClosesTooMuch(text)
      ensures status == MissingClose <==> !ClosesTooMuch(text) && Depth(text, |text|) > 0
      ensures status == Ok ==> WellFormed(blocks, entry) && Equivalent(text, mem, checks, blocks)
    {
      Header();
      ghost var sync := CompileRest(E(), B(), map[0 := Here(B())], 0);
      status := ReadLoop(Top);
      if status == Ok {
        CompleteIsEquivalent(E(), blocks, sync);
      }
    }
  }

  lemma LexedAdvances(text: string, start: nat, pos: nat, cur: Symbol, curvalue: int, next: Symbol, nextvalue: int)
    requires Lexed(text, start, pos, cur, curvalue, next, nextvalue)
    requires !cur.None_? && !cur.Eof?
    ensures start < pos
  {
  }

  // How reading one more character goes on with a run, or ends it.

  lemma RunStarts(text: string, start: nat, sym: Symbol, nv: int)
    requires start < |text| && (sym == MoveBy || sym == ChangeBy) && sym == SymbolOf(text[start])
    ensures Lexed(text, start, start + 1, sym, Direction(text[start]), None_, nv)
  {
    assert RunSum(text, start, start + 1) == RunSum(text, start, start) + Direction(text[start]);
  }

  ghost predicate InRun(text: string, start: nat, pos: nat, cur: Symbol, value: int, nv: int) {
    (cur == MoveBy || cur == ChangeBy) && Lexed(text, start, pos, cur, value, None_, nv)
  }

  lemma RunContinues(text: string, start: nat, pos: nat, cur: Symbol, value: int, nv: int)
    requires InRun(text, start, pos, cur, value, nv) && pos < |text| && IsCommand(text[pos])
    requires SymbolOf(text[pos]) == cur
    ensures Lexed(text, start, pos + 1, cur, value + Direction(text[pos]), None_, nv)
  {
    assert RunEnd(text, pos, cur.MoveBy?) == RunEnd(text, pos + 1, cur.MoveBy?);
    assert RunSum(text, start, pos + 1) == RunSum(text, start, pos) + Direction(text[pos]);
  }

  lemma RunSkips(text: string, start: nat, pos: nat, cur: Symbol, value: int, nv: int)
    requires InRun(text, start, pos, cur, value, nv) && pos < |text| && !IsCommand(text[pos])
    ensures Lexed(text, start, pos + 1, cur, value, None_, nv)
  {
    assert RunEnd(text, pos, cur.MoveBy?) == RunEnd(text, pos + 1, cur.MoveBy?);
    assert RunSum(text, start, pos + 1) == RunSum(text, start, pos) + Direction(text[pos]);
  }

  lemma RunFollowed(text: string, start: nat, pos: nat, cur: Symbol, value: int, nv: int, next: int)
    requires InRun(text, start, pos, cur, value, nv) && pos < |text| && IsCommand(text[pos])
    requires SymbolOf(text[pos]) != cur
    requires IsMove(text[pos]) || IsChange(text[pos]) ==> next == Direction(text[pos])
    ensures Lexed(text, start, pos + 1, cur, value, SymbolOf(text[pos]), next)
  {
    assert RunEnd(text, pos, cur.MoveBy?) == pos;
  }

  lemma RunEnds(text: string, start: nat, cur: Symbol, value: int, nv: int)
    requires InRun(text, start, |text|, cur, value, nv)
    ensures Lexed(text, start, |text|, cur, value, Eof, nv)
  {
    assert RunEnd(text, |text|, cur.MoveBy?) == |text|;
  }

  /** Three instructions created one after the other are one piece of code. */
  lemma SamePush(b: Build, b': Build, code: seq<Instr>)
    requires b.insert < |b.blocks| && |code| == 3
    requires var b2 := Push(Push(b, [code[0]], b.head, b'.nextReg), [code[1]], b.head, b'.nextReg);
      b' == Push(b2, [code[2]], b.head, b'.nextReg)
    ensures b' == Push(b, code, b.head, b'.nextReg)
  {
    var x := b.blocks[b.insert].body;
    assert x + [code[0]] + [code[1]] + [code[2]] == x + code;
    assert b'.blocks == Push(b, code, b.head, b'.nextReg).blocks;
  }

  lemma HeaderShaped(e: Env, b: Build)
    requires b.entry == if e.checks then [{}, {e.arr}, {e.arr}] else [{}, {e.arr}]
    requires |b.blocks| == |b.entry| && b.blocks[0] == Block(NoPhi, HeaderCode(e, b.head), Open)
    requires e.endbb == 1 && e.aberror == 2 && FixedBlocks(e, b.blocks)
    ensures Shaped(b.blocks, b.entry) && Base(e) + {b.head} <= Leaving(b.blocks[0], b.entry[0])
  {
    var c := HeaderCode(e, b.head);
    var c1, c2 := [Malloc(e.arr, e.mem)], [Malloc(e.arr, e.mem), Memset(e.arr, e.mem)];
    ScopeAppend({}, [], c1[0]);
    assert [] + c1 == c1;
    ScopeAppend({}, c1, c2[1]);
    assert c1 + [c2[1]] == c2;
    if e.checks {
      var c3 := c2 + [Gep(e.arrmax, e.arr, e.mem)];
      ScopeAppend({}, c2, Gep(e.arrmax, e.arr, e.mem));
      ScopeAppend({}, c3, Gep(b.head, e.arr, e.mem / 2));
      assert c == c3 + [Gep(b.head, e.arr, e.mem / 2)];
    } else {
      ScopeAppend({}, c2, Gep(b.head, e.arr, e.mem / 2));
      assert c == c2 + [Gep(b.head, e.arr, e.mem / 2)];
    }
    assert {} + PhiDefines(NoPhi) == {};
    forall x | 1 <= x < |b.blocks| ensures BlockShaped(b.blocks, b.entry, x) {
      ScopeAppend({e.arr}, [], b.blocks[x].body[0]);
      assert [] + [b.blocks[x].body[0]] == b.blocks[x].body;
      assert {e.arr} + PhiDefines(NoPhi) == {e.arr};
    }
  }

  lemma HeaderCompiled(e: Env, b: Build)
    requires b.entry == if e.checks then [{}, {e.arr}, {e.arr}] else [{}, {e.arr}]
    requires |b.blocks| == |b.entry| && b.blocks[0] == Block(NoPhi, HeaderCode(e, b.head), Open)
    requires e.endbb == 1 && e.aberror == 2 && FixedBlocks(e, b.blocks)
    requires b.insert == 0 && e.arr < b.head < b.nextReg && e.arrmax < b.head && (e.checks ==> e.arr != e.arrmax)
    ensures Compiled(e, b, map[0 := Here(b)], map[], 0)
  {
    HeaderShaped(e, b);
    HeaderNumbered(e, b);
  }

  lemma HeaderNumbered(e: Env, b: Build)
    requires |b.blocks| == (if e.checks then 3 else 2) && b.blocks[0] == Block(NoPhi, HeaderCode(e, b.head), Open)
    requires e.endbb == 1 && e.aberror == 2 && FixedBlocks(e, b.blocks)
    requires e.arr < b.head < b.nextReg && e.arrmax < b.head && (e.checks ==> e.arr != e.arrmax)
    ensures Numbered(b.blocks, b.nextReg)
  {
    forall r: Reg ensures AllDefs(b.blocks, r) <= if r < b.nextReg then 1 else 0 {
      HeaderDefs(e, b.head, r);
      BodyDefsPush([], b.blocks[1].body[0], r);
      assert [] + [b.blocks[1].body[0]] == b.blocks[1].body;
      AllDefsPush([], b.blocks[0], r);
      AllDefsPush(b.blocks[..1], b.blocks[1], r);
      assert [] + [b.blocks[0]] == b.blocks[..1] && b.blocks[..1] + [b.blocks[1]] == b.blocks[..2];
      if e.checks {
        BodyDefsPush([], b.blocks[2].body[0], r);
        assert [] + [b.blocks[2].body[0]] == b.blocks[2].body;
        AllDefsPush(b.blocks[..2], b.blocks[2], r);
        assert b.blocks[..2] + [b.blocks[2]] == b.blocks;
      } else {
        assert b.blocks[..2] == b.blocks;
      }
    }
  }

  lemma HeaderDefs(e: Env, head: Reg, r: Reg)
    requires e.arr < head && e.arrmax < head && (e.checks ==> e.arr != e.arrmax)
    ensures BodyDefs(HeaderCode(e, head), r) == One(r, Base(e) + {head})
  {
    var c := HeaderCode(e, head);
    Defs3(c[0], c[1], c[2], r);
    if e.checks {
      BodyDefsPush([c[0], c[1], c[2]], c[3], r);
      assert [c[0], c[1], c[2]] + [c[3]] == c;
    } else {
      assert [c[0], c[1], c[2]] == c;
    }
  }
}
