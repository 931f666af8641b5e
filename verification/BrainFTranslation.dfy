/** What the compiler builds, as a function of the text, and why it is right. */
module BrainFTranslation {
  import opened Basics
  import opened BrainFSource
  import opened BrainFIR
  import opened BrainFSync
  import opened BrainFShape
  import opened BrainFCompiler

  /** The symbol a command character stands for. */
  function SymbolOf(c: char): Symbol {
    if IsMove(c) then MoveBy
    else if IsChange(c) then ChangeBy
    else if c == ',' then Read
    else if c == '.' then Write
    else if c == '[' then Loop
    else if c == ']' then EndLoop
    else None_
  }

  /** Where the symbol that starts at `start` ends. */
  function SymbolEnd(text: string, start: nat, cur: Symbol): nat
    requires start <= |text|
  {
    if cur == MoveBy then RunEnd(text, start, true)
    else if cur == ChangeBy then RunEnd(text, start, false)
    else start + 1
  }

  /** What writing out a symbol other than a bracket builds. */
  function SymbolBuild(e: Env, b: Build, sym: Symbol, value: int): Build
    requires b.insert < |b.blocks|
  {
    match sym
    case Read => Push(b, ReadInstrs(b), b.head, b.nextReg + 2)
    case Write => Push(b, WriteInstrs(b), b.head, b.nextReg + 2)
    case ChangeBy => Push(b, ChangeInstrs(b, value), b.head, b.nextReg + 2)
    case MoveBy => Moved(e, b, value)
    case _ => b
  }

  lemma SymbolEmitted(e: Env, b: Build, sync: Sync, open: map<nat, BlockId>, cur: nat, sym: Symbol, value: int)
    requires Compiled(e, b, sync, open, cur) && cur < |e.text|
    requires sym == SymbolOf(e.text[cur]) && !sym.None_? && !sym.Loop? && !sym.EndLoop?
    requires sym.MoveBy? || sym.ChangeBy? ==> value == RunSum(e.text, cur, SymbolEnd(e.text, cur, sym))
    ensures var f := SymbolEnd(e.text, cur, sym);
      var b' := SymbolBuild(e, b, sym, value);
      Compiled(e, b', sync[f := Here(b')], open, f) && Confined(b, b') && f !in sync
  {
    var f := SymbolEnd(e.text, cur, sym);
    NotReached(e, b, sync, open, cur, sym);
    match sym {
      case Read => var b' := ReadEmitted(e, b, sync, open, cur);
      case Write => var b' := WriteEmitted(e, b, sync, open, cur);
      case _ => RunEmitted(e, b, sync, open, cur, sym, value);
    }
  }

  lemma RunEmitted(e: Env, b: Build, sync: Sync, open: map<nat, BlockId>, cur: nat, sym: Symbol, value: int)
    requires Compiled(e, b, sync, open, cur) && cur < |e.text|
    requires sym == SymbolOf(e.text[cur]) && (sym.MoveBy? || sym.ChangeBy?)
    requires value == RunSum(e.text, cur, SymbolEnd(e.text, cur, sym))
    ensures var f := SymbolEnd(e.text, cur, sym);
      var b' := SymbolBuild(e, b, sym, value);
      Compiled(e, b', sync[f := Here(b')], open, f) && Confined(b, b')
  {
    var f := SymbolEnd(e.text, cur, sym);
    if sym.MoveBy? {
      MoveEmitted(e, b, sync, open, cur, f, value);
    } else {
      var b' := ChangeEmitted(e, b, sync, open, cur, f, value);
    }
  }

  lemma NotReached(e: Env, b: Build, sync: Sync, open: map<nat, BlockId>, cur: nat, sym: Symbol)
    requires Compiled(e, b, sync, open, cur) && cur < |e.text|
    requires sym == SymbolOf(e.text[cur]) && !sym.None_? && !sym.Loop? && !sym.EndLoop?
    ensures SymbolEnd(e.text, cur, sym) !in sync
  {
    assert cur < SymbolEnd(e.text, cur, sym);
  }

  // ------------------------------------------------------------- the translation

  /** `Done`: what was built and where reading stopped.  `Broken` never happens (see below). */
  datatype Outcome = Done(b: Build, pos: nat) | Failed(status: Status) | Broken

  predicate CanEnd(b: Build, loop: Enclosing) {
    && loop.Inside? && loop.test < |b.blocks| && loop.test != b.insert
    && b.blocks[loop.test].phi.Phi? && b.blocks[loop.test].body == []
  }

  /** Translate from position `i` to the end of the text, or of the enclosing loop. */
  function CompileFrom(e: Env, b: Build, i: nat, loop: Enclosing): (r: Outcome)
    requires i <= |e.text|
    ensures r.Done? ==> i <= r.pos <= |e.text|
    ensures r.Failed? ==> r.status != Ok
    decreases |e.text| - i
  {
    if b.insert >= |b.blocks| then Broken
    else if i == |e.text| then
      if loop.Inside? then Failed(MissingClose) else Done(Finish(b, Br(e.endbb), b.insert), i)
    else if !IsCommand(e.text[i]) then CompileFrom(e, b, i + 1, loop)
    else if e.text[i] == ']' then
      if loop.Top? then Failed(ExtraClose)
      else if CanEnd(b, loop) then Done(Ended(e, b, loop), i + 1)
      else Broken
    else if e.text[i] == '[' then
      var r := CompileFrom(e, Begun(e, b), i + 1, Inside(b.nextReg, |b.blocks| + 1, |b.blocks|));
      if r.Done? then CompileFrom(e, r.b, r.pos, loop) else r
    else
      var sym := SymbolOf(e.text[i]);
      var f := SymbolEnd(e.text, i, sym);
      CompileFrom(e, SymbolBuild(e, b, sym, RunSum(e.text, i, f)), f, loop)
  }

  // -------------------------------------------------------------------- brackets

  /** An unclosed loop leaves every enclosing one unclosed. */
  lemma {:induction false} UnclosedOutside(text: string, i: nat, d: nat)
    requires i <= |text| && CloseFrom(text, i, d) == None
    ensures CloseFrom(text, i, d + 1) == None
    decreases |text| - i
  {
    if i < |text| {
      if text[i] == '[' {
        UnclosedOutside(text, i + 1, d + 1);
      } else if text[i] == ']' {
        UnclosedOutside(text, i + 1, d - 1);
      } else {
        UnclosedOutside(text, i + 1, d);
      }
    }
  }

  /** A symbol that is not a bracket changes neither the depth nor what closes the loop. */
  lemma {:induction false} NoBracket(text: string, i: nat, f: nat)
    requires i <= f <= |text|
    requires forall k :: i <= k < f ==> text[k] != '[' && text[k] != ']'
    ensures Depth(text, f) == Depth(text, i) && CloseFrom(text, i, 0) == CloseFrom(text, f, 0)
    decreases f - i
  {
    if i < f {
      NoBracket(text, i + 1, f);
    }
  }

  lemma {:induction false} RunHasNoBracket(text: string, i: nat, move: bool)
    requires i <= |text|
    ensures forall k :: i <= k < RunEnd(text, i, move) ==> text[k] != '[' && text[k] != ']'
    decreases |text| - i
  {
    if RunEnd(text, i, move) > i {
      RunHasNoBracket(text, i + 1, move);
    }
  }

  /** Why a text fails to compile, in terms of its depth alone. */
  lemma StatusIsExact(text: string, start: nat)
    requires start <= |text| && Depth(text, start) == 0
    requires CloseFrom(text, 0, 0) == CloseFrom(text, start, 0)
    ensures start == |text| ==> Balanced(text)
    ensures CloseFrom(text, 0, 0).Some? ==> !Balanced(text)
    ensures start < |text| && text[start] == '[' && CloseFrom(text, start + 1, 0) == None ==>
      !ClosesTooMuch(text) && Depth(text, |text|) > 0
    ensures start < |text| && text[start] == ']' ==> ClosesTooMuch(text)
  {
    if start == |text| {
      NoCloseDepth(text, 0, 0);
    }
    if CloseFrom(text, 0, 0).Some? {
      var q := CloseFrom(text, 0, 0).value;
      CloseDepth(text, 0, 0, q);
    }
    if start < |text| && text[start] == '[' && CloseFrom(text, start + 1, 0) == None {
      NoCloseDepth(text, start + 1, 0);
      UnclosedOutside(text, start + 1, 0);
      NoCloseDepth(text, 0, 0);
    }
    if start < |text| && text[start] == ']' {
      assert Depth(text, start + 1) < 0;
    }
  }

  /** A comment between symbols needs no code. */
  lemma CommentRead(e: Env, b: Build, sync: Sync, open: map<nat, BlockId>, cur: nat)
    requires Compiled(e, b, sync, open, cur) && cur < |e.text| && !IsCommand(e.text[cur])
    ensures Compiled(e, b, sync[cur + 1 := sync[cur]], open, cur + 1) && cur + 1 !in sync
  {
    Advance(e, b, sync, open, cur, b, sync[cur + 1 := Here(b)], cur + 1);
  }

  lemma LoopPassed(text: string, p: nat)
    requires p < |text| && text[p] == '[' && CloseFrom(text, p + 1, 0).Some?
    ensures var q := CloseFrom(text, p + 1, 0).value;
      q < |text| && CloseFrom(text, p, 0) == CloseFrom(text, q + 1, 0) && Depth(text, q + 1) == Depth(text, p)
  {
    var q := CloseFrom(text, p + 1, 0).value;
    CloseSkipsLoop(text, p + 1, 0, q);
    CloseDepth(text, p + 1, 0, q);
  }

  lemma SymbolPassed(text: string, start: nat, sym: Symbol)
    requires start < |text| && sym == SymbolOf(text[start]) && !sym.None_? && !sym.Loop? && !sym.EndLoop?
    ensures var f := SymbolEnd(text, start, sym);
      f <= |text| && CloseFrom(text, start, 0) == CloseFrom(text, f, 0) && Depth(text, f) == Depth(text, start)
  {
    if sym.MoveBy? || sym.ChangeBy? {
      RunHasNoBracket(text, start, sym.MoveBy?);
    }
    NoBracket(text, start, SymbolEnd(text, start, sym));
  }

  lemma {:induction false} CommentsSkipped(e: Env, b: Build, from: nat, upTo: nat, loop: Enclosing)
    requires from <= upTo <= |e.text| && (forall k :: from <= k < upTo ==> !IsCommand(e.text[k]))
    requires b.insert < |b.blocks|
    ensures CompileFrom(e, b, from, loop) == CompileFrom(e, b, upTo, loop)
    decreases upTo - from
  {
    if from < upTo {
      CommentsSkipped(e, b, from + 1, upTo, loop);
    }
  }

  // ----------------------------------------------------------------- why it is right

  /** As `Confined`, but the test block `x` of the enclosing loop is touched as well. */
  ghost predicate ConfinedBut(b: Build, b': Build, x: BlockId) {
    && Grows(b.blocks, b'.blocks)
    && b.nextReg <= b'.nextReg
    && b'.insert >= |b.blocks|
    && (forall y :: 0 <= y < |b.blocks| && y != b.insert && y != x ==> b'.blocks[y] == b.blocks[y])
    && |b.entry| <= |b'.entry| && (forall y :: 0 <= y < |b.entry| ==> b'.entry[y] == b.entry[y])
  }

  lemma GrowsTrans(a: seq<Block>, b: seq<Block>, c: seq<Block>)
    requires Grows(a, b) && Grows(b, c)
    ensures Grows(a, c)
  {
    forall x | 0 <= x < |a|
      ensures BlockGrows(a[x], c[x])
    {
      assert BlockGrows(a[x], b[x]);
      assert BlockGrows(b[x], c[x]);
    }
  }

  lemma ConfinedThenBut(a: Build, b: Build, c: Build, x: BlockId)
    requires Confined(a, b) && ConfinedBut(b, c, x)
    ensures ConfinedBut(a, c, x)
  {
    GrowsTrans(a.blocks, b.blocks, c.blocks);
  }

  /** A whole inner loop, seen from outside. */
  lemma InnerConfined(a: Build, b: Build, c: Build, x: BlockId)
    requires Confined(a, b) && ConfinedBut(b, c, x) && x >= |a.blocks| && b.insert >= |a.blocks|
    ensures Confined(a, c)
  {
    GrowsTrans(a.blocks, b.blocks, c.blocks);
  }

  lemma EndedConfined(e: Env, b: Build, sync: Sync, p: nat, loop: Enclosing)
    requires Placed(e, b) && OpenLoop(e, b, sync, p, loop)
    ensures ConfinedBut(b, Ended(e, b, loop), loop.test)
  {
    EndedGrows(e, b, sync, p, loop);
  }

  /** What holds of a piece of a loop's body, from `i` on. */
  ghost predicate InLoop(e: Env, b: Build, sync: Sync, open: map<nat, BlockId>, i: nat, p: nat, loop: Enclosing) {
    && Compiled(e, b, sync, open, i) && OpenLoop(e, b, sync, p, loop)
    && p in open && open[p] == loop.test
    && p < i && e.text[p] == '[' && CloseFrom(e.text, p + 1, 0) == CloseFrom(e.text, i, 0)
  }

  /** What translating it to the loop's end must give. */
  ghost predicate LoopDone(e: Env, b: Build, sync: Sync, open: map<nat, BlockId>, i: nat, p: nat, loop: Enclosing,
                           r: Outcome, sync': Sync)
    requires i <= |e.text| && loop.Inside?
  {
    match CloseFrom(e.text, i, 0)
    case None => r == Failed(MissingClose)
    case Some(q) =>
      && r.Done? && r.pos == q + 1
      && Compiled(e, r.b, sync', open - {p}, q + 1)
      && ConfinedBut(b, r.b, loop.test) && SyncGrows(sync, sync')
  }

  /** The translation continues at `f` with `b'` in place of `b`. */
  lemma LoopContinues(e: Env, b: Build, sync: Sync, open: map<nat, BlockId>, i: nat, p: nat, loop: Enclosing,
                      b': Build, sync': Sync, f: nat, r: Outcome, sync'': Sync)
    requires loop.Inside? && i <= f <= |e.text|
    requires Confined(b, b') && SyncGrows(sync, sync')
    requires CloseFrom(e.text, i, 0) == CloseFrom(e.text, f, 0)
    requires LoopDone(e, b', sync', open, f, p, loop, r, sync'')
    ensures LoopDone(e, b, sync, open, i, p, loop, r, sync'')
  {
    if r.Done? {
      ConfinedThenBut(b, b', r.b, loop.test);
    }
  }

  lemma InLoopKept(e: Env, b: Build, sync: Sync, open: map<nat, BlockId>, i: nat, p: nat, loop: Enclosing, b': Build,
                   sync': Sync, f: nat)
    requires InLoop(e, b, sync, open, i, p, loop)
    requires Confined(b, b') && SyncGrows(sync, sync') && i < f <= |e.text|
    requires Compiled(e, b', sync', open, f)
    requires CloseFrom(e.text, i, 0) == CloseFrom(e.text, f, 0)
    ensures InLoop(e, b', sync', open, f, p, loop)
  {
    OpenLoopKept(e, b, sync, b', sync', p, loop);
  }

  /** The part of a loop's body that starts at `i`. */
  lemma {:induction false} CompileLoop(e: Env, b: Build, sync: Sync, open: map<nat, BlockId>, i: nat, p: nat,
                                       loop: Enclosing)
    returns (sync': Sync)
    requires loop.Inside? && i <= |e.text| && InLoop(e, b, sync, open, i, p, loop)
    ensures LoopDone(e, b, sync, open, i, p, loop, CompileFrom(e, b, i, loop), sync')
    decreases |e.text| - i, 2
  {
    sync' := sync;
    if i == |e.text| {
    } else if e.text[i] == ']' {
      LoopEnded(e, b, sync, open, p, i, loop);
      EndedConfined(e, b, sync, p, loop);
      sync' := sync[i + 1 := Here(Ended(e, b, loop))];
    } else {
      var ok, b', sync1, f := CompileOne(e, b, sync, open, i, loop);
      if ok {
        InLoopKept(e, b, sync, open, i, p, loop, b', sync1, f);
        sync' := CompileLoop(e, b', sync1, open, f, p, loop);
        LoopContinues(e, b, sync, open, i, p, loop, b', sync1, f, CompileFrom(e, b', f, loop), sync');
      }
    }
  }

  /** One symbol, comment or whole loop, at any level. */
  lemma {:induction false} CompileOne(e: Env, b: Build, sync: Sync, open: map<nat, BlockId>, i: nat, loop: Enclosing)
    returns (ok: bool, b': Build, sync': Sync, f: nat)
    requires i < |e.text| && Compiled(e, b, sync, open, i) && e.text[i] != ']'
    ensures ok ==>
      && i < f <= |e.text| && Compiled(e, b', sync', open, f)
      && Confined(b, b') && SyncGrows(sync, sync')
      && CloseFrom(e.text, i, 0) == CloseFrom(e.text, f, 0) && Depth(e.text, i) == Depth(e.text, f)
      && CompileFrom(e, b, i, loop) == CompileFrom(e, b', f, loop)
    ensures !ok ==>
      && CompileFrom(e, b, i, loop) == Failed(MissingClose)
      && CloseFrom(e.text, i, 0) == None && e.text[i] == '[' && CloseFrom(e.text, i + 1, 0) == None
    decreases |e.text| - i, 1
  {
    ok := true;
    if e.text[i] != '[' {
      b', sync', f := CompileSimple(e, b, sync, open, i, loop);
    } else {
      b', sync', f := b, sync, i;
      var r, sync1 := CompileInner(e, b, sync, open, i);
      if r.Done? {
        b', sync', f := r.b, sync1, r.pos;
        LoopPassed(e.text, i);
      } else {
        ok := false;
        UnclosedOutside(e.text, i + 1, 0);
      }
    }
  }

  /** One symbol that is not a bracket, or a comment. */
  lemma CompileSimple(e: Env, b: Build, sync: Sync, open: map<nat, BlockId>, i: nat, loop: Enclosing)
    returns (b': Build, sync': Sync, f: nat)
    requires i < |e.text| && Compiled(e, b, sync, open, i) && e.text[i] != ']' && e.text[i] != '['
    ensures i < f <= |e.text| && Compiled(e, b', sync', open, f)
    ensures Confined(b, b') && SyncGrows(sync, sync')
    ensures CloseFrom(e.text, i, 0) == CloseFrom(e.text, f, 0) && Depth(e.text, i) == Depth(e.text, f)
    ensures CompileFrom(e, b, i, loop) == CompileFrom(e, b', f, loop)
  {
    if !IsCommand(e.text[i]) {
      b', sync', f := b, sync[i + 1 := sync[i]], i + 1;
      CommentRead(e, b, sync, open, i);
      NoBracket(e.text, i, i + 1);
    } else {
      var sym := SymbolOf(e.text[i]);
      f := SymbolEnd(e.text, i, sym);
      b' := SymbolBuild(e, b, sym, RunSum(e.text, i, f));
      sync' := sync[f := Here(b')];
      SymbolEmitted(e, b, sync, open, i, sym, RunSum(e.text, i, f));
      SymbolPassed(e.text, i, sym);
    }
  }

  /** A whole loop. */
  lemma {:induction false} CompileInner(e: Env, b: Build, sync: Sync, open: map<nat, BlockId>, i: nat)
    returns (r: Outcome, sync': Sync)
    requires i < |e.text| && Compiled(e, b, sync, open, i) && e.text[i] == '['
    ensures r == CompileFrom(e, Begun(e, b), i + 1, Inside(b.nextReg, |b.blocks| + 1, |b.blocks|))
    ensures match CloseFrom(e.text, i + 1, 0)
      case None => r == Failed(MissingClose)
      case Some(q) =>
        r.Done? && r.pos == q + 1 && Compiled(e, r.b, sync', open, q + 1) && Confined(b, r.b) && SyncGrows(sync, sync')
    decreases |e.text| - i, 0
  {
    var loop := Inside(b.nextReg, |b.blocks| + 1, |b.blocks|);
    var b1 := Begun(e, b);
    var sync1, open1 := sync[i + 1 := Here(b1)], open[i := loop.test];
    LoopBegun(e, b, sync, open, i);
    r := CompileFrom(e, b1, i + 1, loop);
    sync' := CompileLoop(e, b1, sync1, open1, i + 1, i, loop);
    InnerDone(e, b, b1, sync, sync1, open, open1, i, loop, r, sync');
  }

  /** A loop in a loop is translated to its end and leaves no loop open that was not. */
  lemma InnerDone(e: Env, b: Build, b1: Build, sync: Sync, sync1: Sync, open: map<nat, BlockId>,
                  open1: map<nat, BlockId>, i: nat, loop: Enclosing, r: Outcome, sync': Sync)
    requires i < |e.text| && i !in open && loop.Inside? && open1 == open[i := loop.test]
    requires Confined(b, b1) && SyncGrows(sync, sync1) && loop.test >= |b.blocks| && b1.insert >= |b.blocks|
    requires LoopDone(e, b1, sync1, open1, i + 1, i, loop, r, sync')
    ensures match CloseFrom(e.text, i + 1, 0)
      case None => r == Failed(MissingClose)
      case Some(q) =>
        r.Done? && r.pos == q + 1 && Compiled(e, r.b, sync', open, q + 1) && Confined(b, r.b) && SyncGrows(sync, sync')
  {
    if r.Done? {
      InnerConfined(b, b1, r.b, loop.test);
      assert open1 - {i} == open;
    }
  }

  /** The rest of the text at the outermost level, from `i`. */
  lemma {:induction false} CompileRest(e: Env, b: Build, sync: Sync, i: nat) returns (sync': Sync)
    requires i <= |e.text| && Compiled(e, b, sync, map[], i)
    requires CloseFrom(e.text, 0, 0) == CloseFrom(e.text, i, 0) && Depth(e.text, i) == 0
    ensures var r := CompileFrom(e, b, i, Top);
      && !r.Broken? && (r.Done? <==> Balanced(e.text))
      && (r.Done? ==> Complete(e, r.b.blocks, sync') && WellFormed(r.b.blocks, r.b.entry))
      && (r == Failed(ExtraClose) <==> ClosesTooMuch(e.text))
      && (r == Failed(MissingClose) <==> !ClosesTooMuch(e.text) && Depth(e.text, |e.text|) > 0)
    decreases |e.text| - i
  {
    sync' := sync;
    StatusIsExact(e.text, i);
    if i == |e.text| {
      Finished(e, b, sync);
    } else if e.text[i] != ']' {
      var ok, b', sync1, f := CompileOne(e, b, sync, map[], i, Top);
      if ok {
        sync' := CompileRest(e, b', sync1, f);
      }
    }
  }
}
