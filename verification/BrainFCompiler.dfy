/** The one-pass compiler: it reads characters, merges runs of moves and of changes, and
    emits blocks as it goes. */
module BrainFCompiler {
  import opened Basics
  import opened BrainFSource
  import opened BrainFIR
  import opened BrainFSync
  import opened BrainFShape

  datatype Symbol = None_ | Read | Write | MoveBy | ChangeBy | Loop | EndLoop | Eof

  datatype Status = Ok | ExtraClose | MissingClose

  /** The enclosing loop of a piece of program: its phi, its body and its test block. */
  datatype Enclosing = Top | Inside(phi: Reg, body: BlockId, test: BlockId)

  // ----------------------------------------------------------- value-level invariant

  /** What the builder has made so far. */
  datatype Build = Build(blocks: seq<Block>, entry: seq<set<Reg>>, insert: BlockId, head: Reg, nextReg: Reg)

  /** The registers every block behind the header may count on. */
  function Base(e: Env): set<Reg> { if e.checks then {e.arr, e.arrmax} else {e.arr} }

  ghost predicate Placed(e: Env, b: Build) {
    && FixedBlocks(e, b.blocks)
    && Shaped(b.blocks, b.entry) && Numbered(b.blocks, b.nextReg)
    && b.insert < |b.blocks| && b.blocks[b.insert].term.Open?
    && b.head < b.nextReg && e.arr < b.nextReg && e.arrmax < b.nextReg
    && Base(e) + {b.head} <= Leaving(b.blocks[b.insert], b.entry[b.insert])
    && e.endbb > 0 && b.entry[e.endbb] == {e.arr}
    && (e.checks ==> e.aberror > 0 && b.entry[e.aberror] == {e.arr})
  }

  function Here(b: Build): Loc
    requires b.insert < |b.blocks|
  {
    Loc(b.insert, |b.blocks[b.insert].body|, b.head)
  }

  /** Everything before `cur` is compiled, except that the loops in `open`, given with their
      test blocks, are not closed yet. */
  ghost predicate Compiled(e: Env, b: Build, sync: Sync, open: map<nat, BlockId>, cur: nat) {
    && Placed(e, b)
    && 0 in sync && EntryOK(e, b.blocks, sync[0])
    && cur <= |e.text| && cur in sync && sync[cur] == Here(b)
    && (forall pc :: pc in sync ==> pc <= cur)
    && (forall pc {:trigger SymbolOK(e, b.blocks, sync, pc)} ::
          pc in sync ==> pc == cur || pc in open || SymbolOK(e, b.blocks, sync, pc))
    && (forall p :: p in open ==> p < cur)
    && (forall x :: 0 <= x < |b.blocks| && b.blocks[x].term.Open? ==> x == b.insert || TestOf(open, x))
  }

  /** `x` is the test block of a loop that is not closed yet. */
  ghost predicate TestOf(open: map<nat, BlockId>, x: BlockId) {
    exists p :: p in open && open[p] == x
  }

  /** Only the insert block and new blocks are touched. */
  ghost predicate Confined(b: Build, b': Build) {
    && Grows(b.blocks, b'.blocks)
    && b.nextReg <= b'.nextReg
    && (b'.insert == b.insert || b'.insert >= |b.blocks|)
    && (forall x :: 0 <= x < |b.blocks| && x != b.insert ==> b'.blocks[x] == b.blocks[x])
    && |b.entry| <= |b'.entry| && (forall x :: 0 <= x < |b.entry| ==> b'.entry[x] == b.entry[x])
  }

  /** The step from `cur` to `next`: the code for `cur` has just been emitted. */
  lemma Advance(e: Env, b: Build, sync: Sync, open: map<nat, BlockId>, cur: nat, b': Build, sync': Sync, next: nat)
    requires Compiled(e, b, sync, open, cur)
    requires Placed(e, b') && Grows(b.blocks, b'.blocks)
    requires cur < next <= |e.text|
    requires forall x :: 0 <= x < |b'.blocks| && b'.blocks[x].term.Open? ==>
               x == b'.insert || (x < |b.blocks| && x != b.insert && b.blocks[x].term.Open?)
    requires sync' == sync[next := Here(b')]
    requires SymbolOK(e, b'.blocks, sync', cur)
    ensures Compiled(e, b', sync', open, next)
  {
    FixedGrows(e, b.blocks, b'.blocks, sync[0]);
    forall pc | pc in sync' && pc != next && pc !in open
      ensures SymbolOK(e, b'.blocks, sync', pc)
    {
      if pc != cur {
        SymbolGrows(e, b.blocks, sync, b'.blocks, sync', pc);
      }
    }
  }

  // ------------------------------------------------------------ emitting a symbol

  /** `code` can follow where `avail` is defined. */
  predicate CanFollow(avail: set<Reg>, code: seq<Instr>)
    decreases |code|
  {
    code == [] || (Uses(code[0]) <= avail && CanFollow(avail + Defines(code[0]), code[1..]))
  }

  lemma Follow3(avail: set<Reg>, a: Instr, b: Instr, c: Instr)
    requires Uses(a) <= avail && Uses(b) <= avail + Defines(a) && Uses(c) <= avail + Defines(a) + Defines(b)
    ensures CanFollow(avail, [a, b, c])
  {
    assert [a, b, c][1..] == [b, c];
    assert [b, c][1..] == [c];
    assert CanFollow(avail + Defines(a) + Defines(b), [c]);
  }

  lemma Defs3(a: Instr, b: Instr, c: Instr, r: Reg)
    ensures BodyDefs([a, b, c], r) == One(r, Defines(a)) + One(r, Defines(b)) + One(r, Defines(c))
  {
    BodyDefsPush([], a, r);
    BodyDefsPush([a], b, r);
    BodyDefsPush([a, b], c, r);
    assert [] + [a] == [a] && [a] + [b] == [a, b] && [a, b] + [c] == [a, b, c];
  }

  lemma Follow4(avail: set<Reg>, a: Instr, b: Instr, c: Instr, d: Instr)
    requires Uses(a) <= avail && Uses(b) <= avail + Defines(a)
    requires Uses(c) <= avail + Defines(a) + Defines(b) && Uses(d) <= avail + Defines(a) + Defines(b) + Defines(c)
    ensures CanFollow(avail, [a, b, c, d])
  {
    assert [a, b, c, d][1..] == [b, c, d];
    Follow3(avail + Defines(a), b, c, d);
  }

  lemma {:induction false} FollowScope(before: set<Reg>, body: seq<Instr>, code: seq<Instr>)
    requires Scoped(before, body) && CanFollow(After(before, body), code)
    ensures Scoped(before, body + code) && After(before, body) <= After(before, body + code)
    ensures forall i :: 0 <= i < |code| ==> Defines(code[i]) <= After(before, body + code)
    decreases |code|
  {
    if code == [] {
      assert body + code == body;
    } else {
      var first, rest := code[0], code[1..];
      ScopeAppend(before, body, first);
      FollowScope(before, body + [first], rest);
      assert body + [first] + rest == body + code;
      FirstDefines(first, rest, code, After(before, body + code));
    }
  }

  lemma FirstDefines(first: Instr, rest: seq<Instr>, code: seq<Instr>, defined: set<Reg>)
    requires code == [first] + rest && Defines(first) <= defined
    requires forall i :: 0 <= i < |rest| ==> Defines(rest[i]) <= defined
    ensures forall i :: 0 <= i < |code| ==> Defines(code[i]) <= defined
  {
  }

  /** Instructions appended at the insert point; the head moves to register `head`. */
  function Push(b: Build, code: seq<Instr>, head: Reg, nextReg: Reg): Build
    requires b.insert < |b.blocks|
  {
    var x := b.blocks[b.insert];
    b.(blocks := b.blocks[b.insert := x.(body := x.body + code)], head := head, nextReg := nextReg)
  }

  lemma PushConfined(b: Build, code: seq<Instr>, head: Reg, nextReg: Reg)
    requires b.insert < |b.blocks| && b.blocks[b.insert].term.Open? && b.nextReg <= nextReg
    ensures Confined(b, Push(b, code, head, nextReg))
  {
  }

  /** What instructions appended at the insert point leave defined. */
  lemma PushShaped(b: Build, code: seq<Instr>, head: Reg, nextReg: Reg)
    requires Shaped(b.blocks, b.entry) && b.insert < |b.blocks| && b.blocks[b.insert].term.Open?
    requires CanFollow(Leaving(b.blocks[b.insert], b.entry[b.insert]), code)
    ensures var b' := Push(b, code, head, nextReg);
      && Shaped(b'.blocks, b'.entry)
      && Leaving(b.blocks[b.insert], b.entry[b.insert]) <= Leaving(b'.blocks[b'.insert], b'.entry[b'.insert])
      && forall i :: 0 <= i < |code| ==> Defines(code[i]) <= Leaving(b'.blocks[b'.insert], b'.entry[b'.insert])
  {
    var x := b.blocks[b.insert];
    assert BlockShaped(b.blocks, b.entry, b.insert);
    FollowScope(b.entry[b.insert] + PhiDefines(x.phi), x.body, code);
    ShapeExtend(b.blocks, b.entry, b.insert, x.body + code);
  }

  /** The code defines registers from `next` on, each once. */
  ghost predicate FreshCode(code: seq<Instr>, next: Reg, next': Reg) {
    forall r: Reg {:trigger BodyDefs(code, r)} :: BodyDefs(code, r) <= if next <= r < next' then 1 else 0
  }

  lemma PushNumbered(b: Build, code: seq<Instr>, head: Reg, nextReg: Reg)
    requires b.insert < |b.blocks| && Numbered(b.blocks, b.nextReg) && b.nextReg <= nextReg
    requires FreshCode(code, b.nextReg, nextReg)
    ensures Numbered(Push(b, code, head, nextReg).blocks, nextReg)
  {
    var x := b.blocks[b.insert];
    forall r: Reg ensures AllDefs(Push(b, code, head, nextReg).blocks, r) <= if r < nextReg then 1 else 0 {
      BodyDefsAppend(x.body, code, r);
      AllDefsUpdate(b.blocks, b.insert, x.(body := x.body + code), r);
      assert AllDefs(b.blocks, r) <= (if r < b.nextReg then 1 else 0)
        && BodyDefs(code, r) <= if b.nextReg <= r < nextReg then 1 else 0;
    }
  }

  /** Code of three instructions of which the first two define the next two registers. */
  lemma Fresh3(a: Instr, b: Instr, c: Instr, t: Reg)
    requires Defines(a) == {t} && Defines(b) == {t + 1} && Defines(c) == {}
    ensures FreshCode([a, b, c], t, t + 2)
  {
    forall r: Reg ensures BodyDefs([a, b, c], r) <= if t <= r < t + 2 then 1 else 0 {
      Defs3(a, b, c, r);
    }
  }

  lemma Fresh4(a: Instr, b: Instr, c: Instr, d: Instr, t: Reg)
    requires Defines(a) == {t} && Defines(b) == {t + 1} && Defines(c) == {t + 2} && Defines(d) == {t + 3}
    ensures FreshCode([a, b, c, d], t, t + 4)
  {
    forall r: Reg ensures BodyDefs([a, b, c, d], r) <= if t <= r < t + 4 then 1 else 0 {
      Defs3(a, b, c, r);
      BodyDefsPush([a, b, c], d, r);
      assert [a, b, c] + [d] == [a, b, c, d];
    }
  }

  lemma PushPlaced(e: Env, b: Build, code: seq<Instr>, head: Reg, nextReg: Reg)
    requires Placed(e, b) && b.nextReg <= nextReg && head < nextReg && FreshCode(code, b.nextReg, nextReg)
    requires CanFollow(Leaving(b.blocks[b.insert], b.entry[b.insert]), code)
    requires head == b.head || exists i :: 0 <= i < |code| && head in Defines(code[i])
    ensures Placed(e, Push(b, code, head, nextReg)) && Confined(b, Push(b, code, head, nextReg))
    ensures var b' := Push(b, code, head, nextReg);
      forall i :: 0 <= i < |code| ==> Defines(code[i]) <= Leaving(b'.blocks[b'.insert], b'.entry[b'.insert])
  {
    PushShaped(b, code, head, nextReg);
    PushNumbered(b, code, head, nextReg);
    PushConfined(b, code, head, nextReg);
  }

  function ChangeInstrs(b: Build, v: int): seq<Instr> {
    var t := b.nextReg;
    [Load(t, b.head), Add8(t + 1, t, v % 256), Store(t + 1, b.head)]
  }

  lemma ChangeEmitted(e: Env, b: Build, sync: Sync, open: map<nat, BlockId>, cur: nat, f: nat, v: int)
    returns (b': Build)
    requires Compiled(e, b, sync, open, cur) && cur < |e.text| && IsChange(e.text[cur])
    requires f == RunEnd(e.text, cur, false) && v == RunSum(e.text, cur, f)
    ensures b' == Push(b, ChangeInstrs(b, v), b.head, b.nextReg + 2)
    ensures Compiled(e, b', sync[f := Here(b')], open, f) && Confined(b, b')
  {
    var t := b.nextReg;
    var code := ChangeInstrs(b, v);
    b' := Push(b, code, b.head, t + 2);
    Follow3(Leaving(b.blocks[b.insert], b.entry[b.insert]), code[0], code[1], code[2]);
    Fresh3(code[0], code[1], code[2], t);
    PushPlaced(e, b, code, b.head, t + 2);
    assert ChangeCode(e, b'.blocks, sync[cur], v, Here(b'));
    Advance(e, b, sync, open, cur, b', sync[f := Here(b')], f);
  }

  function ReadInstrs(b: Build): seq<Instr> {
    var t := b.nextReg;
    [GetChar(t), Trunc8(t + 1, t), Store(t + 1, b.head)]
  }

  lemma ReadEmitted(e: Env, b: Build, sync: Sync, open: map<nat, BlockId>, cur: nat) returns (b': Build)
    requires Compiled(e, b, sync, open, cur) && cur < |e.text| && e.text[cur] == ','
    ensures b' == Push(b, ReadInstrs(b), b.head, b.nextReg + 2)
    ensures Compiled(e, b', sync[cur + 1 := Here(b')], open, cur + 1) && Confined(b, b')
  {
    var t := b.nextReg;
    var code := ReadInstrs(b);
    b' := Push(b, code, b.head, t + 2);
    Follow3(Leaving(b.blocks[b.insert], b.entry[b.insert]), code[0], code[1], code[2]);
    Fresh3(code[0], code[1], code[2], t);
    PushPlaced(e, b, code, b.head, t + 2);
    assert ReadCode(e, b'.blocks, sync[cur], Here(b'));
    Advance(e, b, sync, open, cur, b', sync[cur + 1 := Here(b')], cur + 1);
  }

  function WriteInstrs(b: Build): seq<Instr> {
    var t := b.nextReg;
    [Load(t, b.head), SExt32(t + 1, t), PutChar(t + 1)]
  }

  lemma WriteEmitted(e: Env, b: Build, sync: Sync, open: map<nat, BlockId>, cur: nat) returns (b': Build)
    requires Compiled(e, b, sync, open, cur) && cur < |e.text| && e.text[cur] == '.'
    ensures b' == Push(b, WriteInstrs(b), b.head, b.nextReg + 2)
    ensures Compiled(e, b', sync[cur + 1 := Here(b')], open, cur + 1) && Confined(b, b')
  {
    var t := b.nextReg;
    var code := WriteInstrs(b);
    b' := Push(b, code, b.head, t + 2);
    Follow3(Leaving(b.blocks[b.insert], b.entry[b.insert]), code[0], code[1], code[2]);
    Fresh3(code[0], code[1], code[2], t);
    PushPlaced(e, b, code, b.head, t + 2);
    assert WriteCode(e, b'.blocks, sync[cur], Here(b'));
    Advance(e, b, sync, open, cur, b', sync[cur + 1 := Here(b')], cur + 1);
  }

  /** An empty block is appended to the function. */
  function AddBlock(b: Build, entry: set<Reg>): Build {
    b.(blocks := b.blocks + [Block(NoPhi, [], Open)], entry := b.entry + [entry])
  }

  /** The insert block gets its terminator and building goes on in block `next`. */
  function Finish(b: Build, t: Terminator, next: BlockId): Build
    requires b.insert < |b.blocks|
  {
    b.(blocks := b.blocks[b.insert := b.blocks[b.insert].(term := t)], insert := next)
  }

  /** A merged run of moves, with or without its bounds check. */
  function Moved(e: Env, b: Build, v: int): Build
    requires b.insert < |b.blocks|
  {
    var t := b.nextReg;
    if !e.checks then Push(b, [Gep(t, b.head, v)], t, t + 1) else CheckedMove(e, b, v)
  }

  lemma MovedPlaced(e: Env, b: Build, v: int)
    requires Placed(e, b)
    ensures Placed(e, Moved(e, b, v)) && Confined(b, Moved(e, b, v))
  {
    var t := b.nextReg;
    if !e.checks {
      var code := [Gep(t, b.head, v)];
      assert t in Defines(code[0]);
      forall r: Reg ensures BodyDefs(code, r) <= if t <= r < t + 1 then 1 else 0 {
        BodyDefsPush([], code[0], r);
        assert [] + [code[0]] == code;
      }
      PushPlaced(e, b, code, t, t + 1);
    } else {
      CheckedMovePlaced(e, b, v);
    }
  }

  lemma MovedCode(e: Env, b: Build, v: int)
    requires b.insert < |b.blocks| && b.head < b.nextReg && e.arr < b.nextReg && e.arrmax < b.nextReg
    ensures var b' := Moved(e, b, v);
      && MoveCode(e, b'.blocks, Here(b), v, Here(b'))
      && (forall x ::
             0 <= x < |b'.blocks| && b'.blocks[x].term.Open? ==>
               x == b'.insert || (x < |b.blocks| && x != b.insert && b.blocks[x].term.Open?))
  {
    var b' := Moved(e, b, v);
    if e.checks {
      var code := MoveTests(e, b, v);
      var k := |b.blocks[b.insert].body|;
      assert b'.blocks[b.insert].body[k..] == code;
      assert forall i :: 0 <= i < 4 ==> b'.blocks[b.insert].body[k + i] == code[i];
    }
  }

  lemma MoveEmitted(e: Env, b: Build, sync: Sync, open: map<nat, BlockId>, cur: nat, f: nat, v: int)
    requires Compiled(e, b, sync, open, cur) && cur < |e.text| && IsMove(e.text[cur])
    requires f == RunEnd(e.text, cur, true) && v == RunSum(e.text, cur, f)
    ensures var b' := Moved(e, b, v);
      Compiled(e, b', sync[f := Here(b')], open, f) && Confined(b, b')
  {
    MovedPlaced(e, b, v);
    MovedCode(e, b, v);
    var b' := Moved(e, b, v);
    Advance(e, b, sync, open, cur, b', sync[f := Here(b')], f);
  }

  function MoveTests(e: Env, b: Build, v: int): seq<Instr> {
    var t := b.nextReg;
    [Gep(t, b.head, v), PtrUge(t + 1, t, e.arrmax), PtrUlt(t + 2, t, e.arr), OrBool(t + 3, t + 1, t + 2)]
  }

  function CheckedMove(e: Env, b: Build, v: int): Build
    requires b.insert < |b.blocks|
  {
    var t := b.nextReg;
    var b1 := Push(b, MoveTests(e, b, v), t, t + 4);
    var b2 := AddBlock(b1, Base(e) + {t});
    Finish(b2, CondBr(t + 3, e.aberror, |b.blocks|), |b.blocks|)
  }

  lemma CheckedMovePlaced(e: Env, b: Build, v: int)
    requires Placed(e, b) && e.checks
    ensures Placed(e, CheckedMove(e, b, v)) && Confined(b, CheckedMove(e, b, v))
  {
    var t, n := b.nextReg, |b.blocks|;
    var code := MoveTests(e, b, v);
    var b1 := Push(b, code, t, t + 4);
    assert t in Defines(code[0]);
    Follow4(Leaving(b.blocks[b.insert], b.entry[b.insert]), code[0], code[1], code[2], code[3]);
    Fresh4(code[0], code[1], code[2], code[3], t);
    PushPlaced(e, b, code, t, t + 4);
    assert t + 3 in Defines(code[3]);
    var b2 := AddBlock(b1, Base(e) + {t});
    ShapeNew(b1.blocks, b1.entry, Base(e) + {t});
    ShapeClose(b2.blocks, b2.entry, b2.insert, CondBr(t + 3, e.aberror, n));
    var b3 := CheckedMove(e, b, v);
    assert b3.blocks[b3.insert].body == [];
    CheckedNumbered(e, b1, b3, t + 3, Base(e) + {t});
  }

  lemma CheckedNumbered(e: Env, b: Build, b': Build, cond: Reg, entry: set<Reg>)
    requires b.insert < |b.blocks| && Numbered(b.blocks, b.nextReg)
    requires b' == Finish(AddBlock(b, entry), CondBr(cond, e.aberror, |b.blocks|), |b.blocks|)
    ensures Numbered(b'.blocks, b.nextReg)
  {
    var blocks := AddBlock(b, entry).blocks;
    forall r: Reg ensures AllDefs(b'.blocks, r) <= if r < b.nextReg then 1 else 0 {
      AllDefsPush(b.blocks, Block(NoPhi, [], Open), r);
      AllDefsUpdate(blocks, b.insert, blocks[b.insert].(term := CondBr(cond, e.aberror, |b.blocks|)), r);
      assert AllDefs(b.blocks, r) <= if r < b.nextReg then 1 else 0;
    }
  }

  // ------------------------------------------------------------------------ loops

  /** The loop entered at `p` is still open: its test block has one way in and no code. */
  ghost predicate OpenLoop(e: Env, b: Build, sync: Sync, p: nat, loop: Enclosing) {
    && loop.Inside?
    && p in sync && p + 1 in sync
    && AtEnd(b.blocks, sync[p]) && b.blocks[sync[p].block].term == Br(loop.test)
    && 0 < loop.test < |b.blocks| && loop.test != b.insert && |b.entry| == |b.blocks|
    && b.blocks[loop.test] == Block(Phi(loop.phi, [Incoming(sync[p].head, sync[p].block)]), [], Open)
    && b.entry[loop.test] == Base(e)
    && sync[p + 1] == Loc(loop.body, 0, loop.phi)
    && 0 < loop.body < |b.blocks| && b.blocks[loop.body].phi.NoPhi? && b.entry[loop.body] == Base(e) + {loop.phi}
    && e.arr < loop.phi < b.nextReg && e.arrmax < loop.phi
  }

  lemma OpenLoopKept(e: Env, b: Build, sync: Sync, b': Build, sync': Sync, p: nat, loop: Enclosing)
    requires OpenLoop(e, b, sync, p, loop) && Confined(b, b') && SyncGrows(sync, sync') && |b'.entry| == |b'.blocks|
    ensures OpenLoop(e, b', sync', p, loop)
  {
    assert BlockGrows(b.blocks[sync[p].block], b'.blocks[sync[p].block]);
    assert BlockGrows(b.blocks[loop.body], b'.blocks[loop.body]);
  }

  /** Entering a loop: jump to a new test block, whose phi starts with the current head, and
      go on in a new block for the body. */
  function Begun(e: Env, b: Build): Build
    requires b.insert < |b.blocks|
  {
    var n, phi := |b.blocks|, b.nextReg;
    Build(b.blocks[b.insert := b.blocks[b.insert].(term := Br(n))]
          + [Block(Phi(phi, [Incoming(b.head, b.insert)]), [], Open), Block(NoPhi, [], Open)],
          b.entry + [Base(e), Base(e) + {phi}], n + 1, phi, phi + 1)
  }

  lemma BegunShaped(e: Env, b: Build)
    requires Placed(e, b)
    ensures Shaped(Begun(e, b).blocks, Begun(e, b).entry)
  {
    var n, phi := |b.blocks|, b.nextReg;
    var b1 := AddBlock(b, Base(e));
    ShapeNew(b.blocks, b.entry, Base(e));
    var b2 := AddBlock(b1, Base(e) + {phi});
    ShapeNew(b1.blocks, b1.entry, Base(e) + {phi});
    forall a | 0 <= a < |b2.blocks| ensures n !in Targets(b2.blocks[a].term) {
      if a < n {
        assert BlockShaped(b.blocks, b.entry, a);
      }
    }
    ShapePhi(b2.blocks, b2.entry, n, phi);
    var blocks3 := b2.blocks[n := Block(Phi(phi, []), [], Open)];
    ShapeJoin(blocks3, b2.entry, b.insert, Br(n), n, b.head);
    var blocks4 := Joined(blocks3, b.insert, Br(n), n, b.head);
    assert [] + [Incoming(b.head, b.insert)] == [Incoming(b.head, b.insert)];
    forall i | 0 <= i < |blocks4| ensures blocks4[i] == Begun(e, b).blocks[i] {
    }
    assert blocks4 == Begun(e, b).blocks;
    assert b2.entry == Begun(e, b).entry;
  }

  lemma BegunPlaced(e: Env, b: Build)
    requires Placed(e, b)
    ensures Placed(e, Begun(e, b)) && Confined(b, Begun(e, b))
  {
    BegunShaped(e, b);
    BegunNumbered(e, b);
  }

  lemma BegunNumbered(e: Env, b: Build)
    requires b.insert < |b.blocks| && Numbered(b.blocks, b.nextReg)
    ensures Numbered(Begun(e, b).blocks, Begun(e, b).nextReg)
  {
    var n, phi := |b.blocks|, b.nextReg;
    var blocks1 := b.blocks[b.insert := b.blocks[b.insert].(term := Br(n))];
    var x, y := Block(Phi(phi, [Incoming(b.head, b.insert)]), [], Open), Block(NoPhi, [], Open);
    assert blocks1 + [x] + [y] == Begun(e, b).blocks;
    forall r: Reg ensures AllDefs(Begun(e, b).blocks, r) <= if r < phi + 1 then 1 else 0 {
      AllDefsUpdate(b.blocks, b.insert, b.blocks[b.insert].(term := Br(n)), r);
      AllDefsPush(blocks1, x, r);
      AllDefsPush(blocks1 + [x], y, r);
      assert AllDefs(b.blocks, r) <= if r < phi then 1 else 0;
    }
  }

  lemma LoopBegun(e: Env, b: Build, sync: Sync, open: map<nat, BlockId>, p: nat)
    requires Compiled(e, b, sync, open, p) && p < |e.text| && e.text[p] == '['
    ensures var b' := Begun(e, b);
      var sync' := sync[p + 1 := Here(b')];
      && Compiled(e, b', sync', open[p := |b.blocks|], p + 1)
      && OpenLoop(e, b', sync', p, Inside(b.nextReg, |b.blocks| + 1, |b.blocks|))
      && Confined(b, b') && SyncGrows(sync, sync')
  {
    var b' := Begun(e, b);
    var sync' := sync[p + 1 := Here(b')];
    var open' := open[p := |b.blocks|];
    BegunPlaced(e, b);
    FixedGrows(e, b.blocks, b'.blocks, sync[0]);
    forall pc | pc in sync' && pc != p + 1 && pc !in open'
      ensures SymbolOK(e, b'.blocks, sync', pc)
    {
      SymbolGrows(e, b.blocks, sync, b'.blocks, sync', pc);
    }
    forall x | 0 <= x < |b'.blocks| && b'.blocks[x].term.Open?
      ensures x == b'.insert || TestOf(open', x)
    {
      if x == |b.blocks| {
        assert open'[p] == x;
      } else if x < |b.blocks| {
        var p' :| p' in open && open[p'] == x;
        assert open'[p'] == x;
      }
    }
  }

  /** Leaving a loop: jump back to the test, complete its phi and its code, and go on in a new
      block behind the loop. */
  function Ended(e: Env, b: Build, loop: Enclosing): Build
    requires loop.Inside? && b.insert < |b.blocks| && loop.test < |b.blocks| && b.blocks[loop.test].phi.Phi?
  {
    var n, t, phi := |b.blocks|, b.nextReg, b.blocks[loop.test].phi;
    Build(b.blocks[b.insert := b.blocks[b.insert].(term := Br(loop.test))]
            [loop.test := Block(phi.(incoming := phi.incoming + [Incoming(b.head, b.insert)]),
                                [Load(t, loop.phi), IsZero8(t + 1, t)], CondBr(t + 1, n, loop.body))]
          + [Block(Phi(t + 2, [Incoming(loop.phi, loop.test)]), [], Open)],
          b.entry + [Base(e)], n, t + 2, t + 3)
  }

  /** Half way: the jump back and the test's code are there, the test's branch is not. */
  function JumpedBack(b: Build, loop: Enclosing): seq<Block>
    requires loop.Inside? && b.insert < |b.blocks| && loop.test < |b.blocks| && b.blocks[loop.test].phi.Phi?
  {
    var t, phi := b.nextReg, b.blocks[loop.test].phi;
    b.blocks[b.insert := b.blocks[b.insert].(term := Br(loop.test))]
            [loop.test := Block(phi.(incoming := phi.incoming + [Incoming(b.head, b.insert)]),
                                [Load(t, loop.phi), IsZero8(t + 1, t)], Open)]
  }

  lemma JumpedBackShaped(e: Env, b: Build, sync: Sync, p: nat, loop: Enclosing)
    requires Placed(e, b) && OpenLoop(e, b, sync, p, loop)
    ensures Shaped(JumpedBack(b, loop), b.entry)
    ensures Base(e) + {loop.phi, b.nextReg + 1} <= Leaving(JumpedBack(b, loop)[loop.test], b.entry[loop.test])
  {
    var t, x := b.nextReg, loop.test;
    var code := [Load(t, loop.phi), IsZero8(t + 1, t)];
    ShapeJoin(b.blocks, b.entry, b.insert, Br(x), x, b.head);
    var blocks1 := Joined(b.blocks, b.insert, Br(x), x, b.head);
    var before := b.entry[x] + PhiDefines(blocks1[x].phi);
    ScopeAppend(before, [], code[0]);
    ScopeAppend(before, [code[0]], code[1]);
    assert [code[0]] + [code[1]] == code && [] + [code[0]] == [code[0]];
    ShapeExtend(blocks1, b.entry, x, code);
    assert blocks1[x := blocks1[x].(body := code)] == JumpedBack(b, loop);
  }

  lemma EndedShaped(e: Env, b: Build, sync: Sync, p: nat, loop: Enclosing)
    requires Placed(e, b) && OpenLoop(e, b, sync, p, loop)
    ensures Shaped(Ended(e, b, loop).blocks, Ended(e, b, loop).entry)
  {
    var n, t, x := |b.blocks|, b.nextReg, loop.test;
    var blocks2 := JumpedBack(b, loop);
    JumpedBackShaped(e, b, sync, p, loop);
    ShapeNew(blocks2, b.entry, Base(e));
    var blocks3, entry3 := blocks2 + [Block(NoPhi, [], Open)], b.entry + [Base(e)];
    forall a | 0 <= a < |blocks3| ensures n !in Targets(blocks3[a].term) {
      if a < n {
        assert BlockShaped(blocks2, b.entry, a);
      }
    }
    ShapePhi(blocks3, entry3, n, t + 2);
    var blocks4 := blocks3[n := Block(Phi(t + 2, []), [], Open)];
    ShapeJoin(blocks4, entry3, x, CondBr(t + 1, n, loop.body), n, loop.phi);
    var blocks5 := Joined(blocks4, x, CondBr(t + 1, n, loop.body), n, loop.phi);
    assert [] + [Incoming(loop.phi, x)] == [Incoming(loop.phi, x)];
    forall i | 0 <= i < |blocks5| ensures blocks5[i] == Ended(e, b, loop).blocks[i] {
    }
    assert blocks5 == Ended(e, b, loop).blocks;
  }

  lemma EndedGrows(e: Env, b: Build, sync: Sync, p: nat, loop: Enclosing)
    requires Placed(e, b) && OpenLoop(e, b, sync, p, loop)
    ensures Placed(e, Ended(e, b, loop)) && Grows(b.blocks, Ended(e, b, loop).blocks)
  {
    EndedShaped(e, b, sync, p, loop);
    EndedNumbered(e, b, loop);
  }

  lemma EndedNumbered(e: Env, b: Build, loop: Enclosing)
    requires loop.Inside? && b.insert < |b.blocks| && loop.test < |b.blocks| && loop.test != b.insert
    requires b.blocks[loop.test].phi.Phi? && b.blocks[loop.test].body == [] && Numbered(b.blocks, b.nextReg)
    ensures Numbered(Ended(e, b, loop).blocks, Ended(e, b, loop).nextReg)
  {
    var n, t, phi := |b.blocks|, b.nextReg, b.blocks[loop.test].phi;
    var code := [Load(t, loop.phi), IsZero8(t + 1, t)];
    var x := Block(phi.(incoming := phi.incoming + [Incoming(b.head, b.insert)]), code, CondBr(t + 1, n, loop.body));
    var y := Block(Phi(t + 2, [Incoming(loop.phi, loop.test)]), [], Open);
    var blocks1 := b.blocks[b.insert := b.blocks[b.insert].(term := Br(loop.test))];
    assert blocks1[loop.test := x] + [y] == Ended(e, b, loop).blocks;
    forall r: Reg ensures AllDefs(Ended(e, b, loop).blocks, r) <= if r < t + 3 then 1 else 0 {
      TestDefs(code, t, r);
      AllDefsUpdate(b.blocks, b.insert, b.blocks[b.insert].(term := Br(loop.test)), r);
      AllDefsUpdate(blocks1, loop.test, x, r);
      AllDefsPush(blocks1[loop.test := x], y, r);
      assert AllDefs(b.blocks, r) <= if r < t then 1 else 0;
    }
  }

  lemma TestDefs(code: seq<Instr>, t: Reg, r: Reg)
    requires |code| == 2 && Defines(code[0]) == {t} && Defines(code[1]) == {t + 1}
    ensures BodyDefs(code, r) == if t <= r < t + 2 then 1 else 0
  {
    BodyDefsPush([], code[0], r);
    BodyDefsPush([code[0]], code[1], r);
    assert [] + [code[0]] == [code[0]] && [code[0]] + [code[1]] == code;
  }

  /** The code of the loop is now complete. */
  lemma EndedCode(e: Env, b: Build, sync: Sync, p: nat, q: nat, loop: Enclosing)
    requires Placed(e, b) && OpenLoop(e, b, sync, p, loop)
    requires q in sync && sync[q] == Here(b)
    requires p < q
    ensures var b' := Ended(e, b, loop);
      LoopCode(e, b'.blocks, sync[q + 1 := Here(b')], p, q)
  {
    var b' := Ended(e, b, loop);
    var inc := b'.blocks[loop.test].phi.incoming;
    assert sync[p].block != b.insert;
    assert inc[1..] == [Incoming(b.head, b.insert)];
    assert Lookup(inc, sync[p].block) == Some(sync[p].head);
    assert Lookup(inc[1..], b.insert) == Some(b.head);
    assert Lookup(inc, b.insert) == Some(b.head);
    assert Lookup(b'.blocks[b'.insert].phi.incoming, loop.test) == Some(loop.phi);
    assert b'.blocks[loop.body].phi.NoPhi?;
  }

  /** Where the code of both brackets is in place, both symbols are. */
  lemma BracketsOK(e: Env, blocks: seq<Block>, sync: Sync, p: nat, q: nat)
    requires LoopCode(e, blocks, sync, p, q)
    requires p < q < |e.text| && e.text[p] == '[' && e.text[q] == ']'
    requires CloseFrom(e.text, p + 1, 0) == Some(q)
    ensures SymbolOK(e, blocks, sync, p) && SymbolOK(e, blocks, sync, q)
  {
    OpenOfClose(e.text, p + 1, 0, p, q);
  }

  lemma LoopEnded(e: Env, b: Build, sync: Sync, open: map<nat, BlockId>, p: nat, q: nat, loop: Enclosing)
    requires Compiled(e, b, sync, open, q) && OpenLoop(e, b, sync, p, loop)
    requires p in open && open[p] == loop.test
    requires p < q < |e.text| && e.text[p] == '[' && e.text[q] == ']'
    requires CloseFrom(e.text, p + 1, 0) == Some(q)
    ensures var b' := Ended(e, b, loop);
      var sync' := sync[q + 1 := Here(b')];
      Compiled(e, b', sync', open - {p}, q + 1) && SyncGrows(sync, sync')
  {
    var b' := Ended(e, b, loop);
    var sync' := sync[q + 1 := Here(b')];
    EndedGrows(e, b, sync, p, loop);
    EndedCode(e, b, sync, p, q, loop);
    BracketsOK(e, b'.blocks, sync', p, q);
    FixedGrows(e, b.blocks, b'.blocks, sync[0]);
    forall pc | pc in sync' && pc != q + 1 && pc !in open - {p}
      ensures SymbolOK(e, b'.blocks, sync', pc)
    {
      if pc != p && pc != q {
        SymbolGrows(e, b.blocks, sync, b'.blocks, sync', pc);
      }
    }
    EndedOpen(e, b, open, p, loop);
  }

  /** Closing the loop leaves only the other loops' test blocks open. */
  lemma EndedOpen(e: Env, b: Build, open: map<nat, BlockId>, p: nat, loop: Enclosing)
    requires loop.Inside? && b.insert < |b.blocks| && loop.test < |b.blocks| && b.blocks[loop.test].phi.Phi?
    requires loop.test != b.insert && p in open && open[p] == loop.test
    requires forall x :: 0 <= x < |b.blocks| && b.blocks[x].term.Open? ==> x == b.insert || TestOf(open, x)
    ensures var b' := Ended(e, b, loop);
      forall x :: 0 <= x < |b'.blocks| && b'.blocks[x].term.Open? ==> x == b'.insert || TestOf(open - {p}, x)
  {
    var b' := Ended(e, b, loop);
    forall x | 0 <= x < |b'.blocks| && b'.blocks[x].term.Open?
      ensures x == b'.insert || TestOf(open - {p}, x)
    {
      if x < |b.blocks| {
        var p' :| p' in open && open[p'] == x;
        assert (open - {p})[p'] == x;
      }
    }
  }

  /** The end of the text: everything is compiled. */
  lemma Finished(e: Env, b: Build, sync: Sync)
    requires Compiled(e, b, sync, map[], |e.text|)
    ensures var b' := Finish(b, Br(e.endbb), b.insert);
      Complete(e, b'.blocks, sync) && WellFormed(b'.blocks, b'.entry)
  {
    var b' := Finish(b, Br(e.endbb), b.insert);
    ShapeClose(b.blocks, b.entry, b.insert, Br(e.endbb));
    forall r: Reg ensures AllDefs(b'.blocks, r) <= 1 {
      AllDefsUpdate(b.blocks, b.insert, b.blocks[b.insert].(term := Br(e.endbb)), r);
      assert AllDefs(b.blocks, r) <= if r < b.nextReg then 1 else 0;
    }
    FixedGrows(e, b.blocks, b'.blocks, sync[0]);
    forall pc | pc in sync ensures SymbolOK(e, b'.blocks, sync, pc) {
      if pc != |e.text| {
        SymbolGrows(e, b.blocks, sync, b'.blocks, sync, pc);
      }
    }
  }
}
