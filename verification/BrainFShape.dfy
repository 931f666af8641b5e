/** Static well-formedness of a block graph: terminators, phis and scoping of registers. */
module BrainFShape {
  import opened BrainFIR

  /** The registers an instruction reads. */
  function Uses(i: Instr): set<Reg> {
    match i
    case Malloc(_, _) => {}
    case Memset(p, _) => {p}
    case Gep(_, b, _) => {b}
    case Load(_, p) => {p}
    case Store(s, p) => {s, p}
    case Add8(_, s, _) => {s}
    case GetChar(_) => {}
    case Trunc8(_, s) => {s}
    case SExt32(_, s) => {s}
    case PutChar(s) => {s}
    case PtrUge(_, a, b) => {a, b}
    case PtrUlt(_, a, b) => {a, b}
    case OrBool(_, a, b) => {a, b}
    case IsZero8(_, s) => {s}
    case CallPuts(_) => {}
    case Free(p) => {p}
  }

  /** The register it defines, if any. */
  function Defines(i: Instr): set<Reg> {
    if i.Malloc? || i.Gep? || i.Load? || i.Add8? || i.GetChar? || i.Trunc8? || i.SExt32?
       || i.PtrUge? || i.PtrUlt? || i.OrBool? || i.IsZero8?
    then {i.dst} else {}
  }

  function Targets(t: Terminator): set<BlockId> {
    match t
    case Open => {}
    case Br(x) => {x}
    case CondBr(_, x, y) => {x, y}
    case Ret => {}
  }

  function PhiDefines(p: Phi): set<Reg> { if p.Phi? then {p.dst} else {} }

  /** The registers defined once `body` has run, if `before` were defined in front of it. */
  function After(before: set<Reg>, body: seq<Instr>): set<Reg> {
    if body == [] then before else After(before, body[..|body| - 1]) + Defines(body[|body| - 1])
  }

  /** Every instruction reads only what is defined before it. */
  predicate Scoped(before: set<Reg>, body: seq<Instr>) {
    body == [] || (Scoped(before, body[..|body| - 1]) && Uses(body[|body| - 1]) <= After(before, body[..|body| - 1]))
  }

  /** What is defined when control leaves a block, given what is when control enters it. */
  function Leaving(b: Block, entry: set<Reg>): set<Reg> {
    After(entry + PhiDefines(b.phi), b.body)
  }

  /** `entry[b]` is defined whenever control enters block `b`. */
  ghost predicate BlockShaped(blocks: seq<Block>, entry: seq<set<Reg>>, b: BlockId)
    requires |entry| == |blocks| && b < |blocks|
  {
    && Scoped(entry[b] + PhiDefines(blocks[b].phi), blocks[b].body)
    && (blocks[b].term.CondBr? ==> blocks[b].term.cond in Leaving(blocks[b], entry[b]))
    && (forall x :: x in Targets(blocks[b].term) ==> 0 < x < |blocks| && entry[x] <= Leaving(blocks[b], entry[b]))
  }

  /** The phi of `b` has exactly one entry per predecessor, holding a register defined there. */
  ghost predicate PhiShaped(blocks: seq<Block>, entry: seq<set<Reg>>, b: BlockId)
    requires |entry| == |blocks| && b < |blocks|
  {
    blocks[b].phi.Phi? ==>
      var inc := blocks[b].phi.incoming;
      && (forall i, j :: 0 <= i < j < |inc| ==> inc[i].from != inc[j].from)
      && (forall i :: 0 <= i < |inc| ==>
            && inc[i].from < |blocks| && b in Targets(blocks[inc[i].from].term)
            && inc[i].value in Leaving(blocks[inc[i].from], entry[inc[i].from]))
      && (forall a :: 0 <= a < |blocks| && b in Targets(blocks[a].term) ==> HasEntry(inc, a))
  }

  ghost predicate HasEntry(inc: seq<Incoming>, a: BlockId) {
    exists i :: 0 <= i < |inc| && inc[i].from == a
  }

  ghost predicate Shaped(blocks: seq<Block>, entry: seq<set<Reg>>) {
    && |entry| == |blocks| > 0 && entry[0] == {} && blocks[0].phi.NoPhi?
    && (forall b {:trigger BlockShaped(blocks, entry, b)} :: 0 <= b < |blocks| ==> BlockShaped(blocks, entry, b))
    && (forall b {:trigger PhiShaped(blocks, entry, b)} :: 0 <= b < |blocks| ==> PhiShaped(blocks, entry, b))
  }

  /** A finished function: every block has its one terminator as well, and every register its one
      definition. */
  ghost predicate WellFormed(blocks: seq<Block>, entry: seq<set<Reg>>) {
    Shaped(blocks, entry) && DefinedOnce(blocks) && forall b :: 0 <= b < |blocks| ==> !blocks[b].term.Open?
  }

  // ---------------------------------------------------------------- dominance

  /** A path of the control-flow graph that starts at the entry. */
  ghost predicate IsPath(blocks: seq<Block>, path: seq<BlockId>) {
    && |path| > 0 && path[0] == 0
    && (forall i :: 0 <= i < |path| ==> path[i] < |blocks|)
    && (forall i :: 0 < i < |path| ==> path[i] in Targets(blocks[path[i - 1]].term))
  }

  /** `r` is defined in some block of the path. */
  ghost predicate DefinedOn(blocks: seq<Block>, path: seq<BlockId>, r: Reg)
    requires forall i :: 0 <= i < |path| ==> path[i] < |blocks|
  {
    exists i :: 0 <= i < |path| && r in PhiDefines(blocks[path[i]].phi) + After({}, blocks[path[i]].body)
  }

  lemma {:induction false} AfterSplits(before: set<Reg>, body: seq<Instr>)
    ensures After(before, body) == before + After({}, body)
    decreases |body|
  {
    if body != [] {
      AfterSplits(before, body[..|body| - 1]);
    }
  }

  /** Dominance: a register a block counts on is defined on every path that leads to it. */
  lemma {:induction false} EntryIsDominated(blocks: seq<Block>, entry: seq<set<Reg>>, path: seq<BlockId>, r: Reg)
    requires Shaped(blocks, entry) && IsPath(blocks, path)
    requires r in entry[path[|path| - 1]]
    ensures DefinedOn(blocks, path[..|path| - 1], r)
    decreases |path|
  {
    var n := |path| - 1;
    assert n > 0;
    var before, a, b := path[..n], path[n - 1], path[n];
    assert BlockShaped(blocks, entry, a);
    assert b in Targets(blocks[a].term);
    AfterSplits(entry[a] + PhiDefines(blocks[a].phi), blocks[a].body);
    if r in entry[a] {
      EntryIsDominated(blocks, entry, before, r);
      var i :| 0 <= i < |before[..n - 1]|
        && r in PhiDefines(blocks[before[..n - 1][i]].phi) + After({}, blocks[before[..n - 1][i]].body);
      assert before[i] == before[..n - 1][i];
    } else {
      assert before[n - 1] == a;
    }
  }

  /** Every use is dominated: what an instruction reads is defined earlier in its block, by
      the block's phi, or on every path from the entry to the block. */
  lemma {:induction false} UseIsDominated(blocks: seq<Block>, entry: seq<set<Reg>>, path: seq<BlockId>, k: nat, r: Reg)
    requires Shaped(blocks, entry) && IsPath(blocks, path)
    requires k < |blocks[path[|path| - 1]].body| && r in Uses(blocks[path[|path| - 1]].body[k])
    ensures var b := blocks[path[|path| - 1]];
      r in PhiDefines(b.phi) + After({}, b.body[..k]) || DefinedOn(blocks, path[..|path| - 1], r)
  {
    var x := path[|path| - 1];
    var b := blocks[x];
    assert BlockShaped(blocks, entry, x);
    ScopedAt(entry[x] + PhiDefines(b.phi), b.body, k);
    AfterSplits(entry[x] + PhiDefines(b.phi), b.body[..k]);
    if r in entry[x] {
      EntryIsDominated(blocks, entry, path, r);
    }
  }

  lemma {:induction false} ScopedAt(before: set<Reg>, body: seq<Instr>, k: nat)
    requires Scoped(before, body) && k < |body|
    ensures Uses(body[k]) <= After(before, body[..k])
    decreases |body|
  {
    if k < |body| - 1 {
      ScopedAt(before, body[..|body| - 1], k);
      assert body[..|body| - 1][..k] == body[..k];
    }
  }

  /** The condition of a branch is dominated. */
  lemma ConditionIsDominated(blocks: seq<Block>, entry: seq<set<Reg>>, path: seq<BlockId>)
    requires Shaped(blocks, entry) && IsPath(blocks, path) && blocks[path[|path| - 1]].term.CondBr?
    ensures DefinedOn(blocks, path, blocks[path[|path| - 1]].term.cond)
  {
    assert BlockShaped(blocks, entry, path[|path| - 1]);
    LeavingIsDominated(blocks, entry, path, blocks[path[|path| - 1]].term.cond);
  }

  /** What a phi picks for an edge is dominated where the edge starts. */
  lemma IncomingIsDominated(blocks: seq<Block>, entry: seq<set<Reg>>, path: seq<BlockId>, b: BlockId, k: nat)
    requires Shaped(blocks, entry) && IsPath(blocks, path) && b < |blocks| && blocks[b].phi.Phi?
    requires k < |blocks[b].phi.incoming| && blocks[b].phi.incoming[k].from == path[|path| - 1]
    ensures DefinedOn(blocks, path, blocks[b].phi.incoming[k].value)
  {
    assert PhiShaped(blocks, entry, b);
    LeavingIsDominated(blocks, entry, path, blocks[b].phi.incoming[k].value);
  }

  /** What is defined when control leaves a block is defined on every path to its end. */
  lemma LeavingIsDominated(blocks: seq<Block>, entry: seq<set<Reg>>, path: seq<BlockId>, r: Reg)
    requires Shaped(blocks, entry) && IsPath(blocks, path)
    requires r in Leaving(blocks[path[|path| - 1]], entry[path[|path| - 1]])
    ensures DefinedOn(blocks, path, r)
  {
    var n := |path| - 1;
    var x := path[n];
    AfterSplits(entry[x] + PhiDefines(blocks[x].phi), blocks[x].body);
    if r in entry[x] {
      EntryIsDominated(blocks, entry, path, r);
      var before := path[..n];
      var i :| 0 <= i < |before| && r in PhiDefines(blocks[before[i]].phi) + After({}, blocks[before[i]].body);
      assert path[i] == before[i];
    }
  }

  // -------------------------------------------------------------- single definitions

  function One(r: Reg, s: set<Reg>): nat { if r in s then 1 else 0 }

  /** How often a register is defined. */
  function BodyDefs(body: seq<Instr>, r: Reg): nat {
    if body == [] then 0 else BodyDefs(body[..|body| - 1], r) + One(r, Defines(body[|body| - 1]))
  }

  function BlockDefs(x: Block, r: Reg): nat { One(r, PhiDefines(x.phi)) + BodyDefs(x.body, r) }

  function AllDefs(blocks: seq<Block>, r: Reg): nat {
    if blocks == [] then 0 else AllDefs(blocks[..|blocks| - 1], r) + BlockDefs(blocks[|blocks| - 1], r)
  }

  ghost predicate DefinedOnce(blocks: seq<Block>) {
    forall r: Reg {:trigger AllDefs(blocks, r)} :: AllDefs(blocks, r) <= 1
  }

  /** Registers are defined at most once, and only those below `next` are. */
  ghost predicate Numbered(blocks: seq<Block>, next: Reg) {
    forall r: Reg {:trigger AllDefs(blocks, r)} :: AllDefs(blocks, r) <= if r < next then 1 else 0
  }

  lemma BodyDefsPush(body: seq<Instr>, i: Instr, r: Reg)
    ensures BodyDefs(body + [i], r) == BodyDefs(body, r) + One(r, Defines(i))
  {
    assert (body + [i])[..|body|] == body;
  }

  lemma {:induction false} BodyDefsAppend(body: seq<Instr>, code: seq<Instr>, r: Reg)
    ensures BodyDefs(body + code, r) == BodyDefs(body, r) + BodyDefs(code, r)
    decreases |code|
  {
    if code == [] {
      assert body + code == body;
    } else {
      var n := |code| - 1;
      BodyDefsAppend(body, code[..n], r);
      assert (body + code)[..|body| + n] == body + code[..n];
    }
  }

  lemma AllDefsPush(blocks: seq<Block>, x: Block, r: Reg)
    ensures AllDefs(blocks + [x], r) == AllDefs(blocks, r) + BlockDefs(x, r)
  {
    assert (blocks + [x])[..|blocks|] == blocks;
  }

  lemma {:induction false} AllDefsUpdate(blocks: seq<Block>, b: BlockId, x: Block, r: Reg)
    requires b < |blocks|
    ensures AllDefs(blocks[b := x], r) == AllDefs(blocks, r) + BlockDefs(x, r) - BlockDefs(blocks[b], r)
    decreases |blocks|
  {
    var n := |blocks| - 1;
    if b < n {
      AllDefsUpdate(blocks[..n], b, x, r);
      assert blocks[b := x][..n] == blocks[..n][b := x];
    } else {
      assert blocks[b := x][..n] == blocks[..n];
    }
  }

  lemma {:induction false} DefCounts(blocks: seq<Block>, b: BlockId, r: Reg)
    requires b < |blocks|
    ensures BlockDefs(blocks[b], r) <= AllDefs(blocks, r)
    decreases |blocks|
  {
    if b < |blocks| - 1 {
      DefCounts(blocks[..|blocks| - 1], b, r);
    }
  }

  lemma {:induction false} TwoDefCounts(blocks: seq<Block>, b: BlockId, c: BlockId, r: Reg)
    requires b < c < |blocks|
    ensures BlockDefs(blocks[b], r) + BlockDefs(blocks[c], r) <= AllDefs(blocks, r)
    decreases |blocks|
  {
    var n := |blocks| - 1;
    if c < n {
      TwoDefCounts(blocks[..n], b, c, r);
    } else {
      DefCounts(blocks[..n], b, r);
    }
  }

  lemma {:induction false} InstrCounts(body: seq<Instr>, k: nat, r: Reg)
    requires k < |body| && r in Defines(body[k])
    ensures 1 <= BodyDefs(body, r)
    decreases |body|
  {
    if k < |body| - 1 {
      InstrCounts(body[..|body| - 1], k, r);
    }
  }

  lemma {:induction false} TwoInstrCounts(body: seq<Instr>, k: nat, j: nat, r: Reg)
    requires k < j < |body| && r in Defines(body[k]) && r in Defines(body[j])
    ensures 2 <= BodyDefs(body, r)
    decreases |body|
  {
    var n := |body| - 1;
    if j < n {
      TwoInstrCounts(body[..n], k, j, r);
    } else {
      InstrCounts(body[..n], k, r);
    }
  }

  /** Two instructions that define the same register are the same, and no phi defines it. */
  lemma OneDefinition(blocks: seq<Block>, b: BlockId, k: nat, c: BlockId, j: nat, r: Reg)
    requires DefinedOnce(blocks) && b < |blocks| && k < |blocks[b].body| && r in Defines(blocks[b].body[k])
    requires c < |blocks|
    ensures r !in PhiDefines(blocks[c].phi)
    ensures j < |blocks[c].body| && r in Defines(blocks[c].body[j]) ==> b == c && k == j
  {
    assert AllDefs(blocks, r) <= 1;
    InstrCounts(blocks[b].body, k, r);
    DefCounts(blocks, b, r);
    if b < c {
      TwoDefCounts(blocks, b, c, r);
    } else if c < b {
      TwoDefCounts(blocks, c, b, r);
    }
    if j < |blocks[c].body| && r in Defines(blocks[c].body[j]) {
      InstrCounts(blocks[c].body, j, r);
      if b == c && k < j {
        TwoInstrCounts(blocks[b].body, k, j, r);
      } else if b == c && j < k {
        TwoInstrCounts(blocks[b].body, j, k, r);
      }
    }
  }

  // --------------------------------------------------------- building, step by step

  /** Appending one instruction. */
  lemma ScopeAppend(before: set<Reg>, body: seq<Instr>, i: Instr)
    requires Scoped(before, body) && Uses(i) <= After(before, body)
    ensures Scoped(before, body + [i])
    ensures After(before, body + [i]) == After(before, body) + Defines(i)
  {
    assert (body + [i])[..|body|] == body;
  }

  /** The same blocks, with more instructions at the end of `b`. */
  lemma ShapeExtend(blocks: seq<Block>, entry: seq<set<Reg>>, b: BlockId, body: seq<Instr>)
    requires Shaped(blocks, entry) && b < |blocks| && blocks[b].term.Open?
    requires Scoped(entry[b] + PhiDefines(blocks[b].phi), body)
    requires Leaving(blocks[b], entry[b]) <= After(entry[b] + PhiDefines(blocks[b].phi), body)
    ensures Shaped(blocks[b := blocks[b].(body := body)], entry)
  {
    var blocks' := blocks[b := blocks[b].(body := body)];
    forall x | 0 <= x < |blocks| ensures BlockShaped(blocks', entry, x) {
      assert BlockShaped(blocks, entry, x);
    }
    forall x | 0 <= x < |blocks| ensures PhiShaped(blocks', entry, x) {
      assert PhiShaped(blocks, entry, x);
    }
  }

  /** A new block without predecessors. */
  lemma ShapeNew(blocks: seq<Block>, entry: seq<set<Reg>>, s: set<Reg>)
    requires Shaped(blocks, entry)
    ensures Shaped(blocks + [Block(NoPhi, [], Open)], entry + [s])
  {
    var blocks', entry' := blocks + [Block(NoPhi, [], Open)], entry + [s];
    forall x | 0 <= x < |blocks'| ensures BlockShaped(blocks', entry', x) {
      if x < |blocks| {
        assert BlockShaped(blocks, entry, x);
      }
    }
    forall x | 0 <= x < |blocks'| ensures PhiShaped(blocks', entry', x) {
      if x < |blocks| {
        assert PhiShaped(blocks, entry, x);
      }
    }
  }

  /** Closing block `b` with a branch to blocks that have no phi. */
  lemma ShapeClose(blocks: seq<Block>, entry: seq<set<Reg>>, b: BlockId, t: Terminator)
    requires Shaped(blocks, entry) && b < |blocks| && blocks[b].term.Open?
    requires t.CondBr? ==> t.cond in Leaving(blocks[b], entry[b])
    requires forall x :: x in Targets(t) ==>
      0 < x < |blocks| && blocks[x].phi.NoPhi? && entry[x] <= Leaving(blocks[b], entry[b])
    ensures Shaped(blocks[b := blocks[b].(term := t)], entry)
  {
    var blocks' := blocks[b := blocks[b].(term := t)];
    forall x | 0 <= x < |blocks| ensures BlockShaped(blocks', entry, x) {
      assert BlockShaped(blocks, entry, x);
    }
    forall x | 0 <= x < |blocks| ensures PhiShaped(blocks', entry, x) {
      assert PhiShaped(blocks, entry, x);
    }
  }

  /** Closing block `b` with a branch, one of whose targets is `x`, and adding the matching
      entry to the phi of `x`. */
  lemma ShapeJoin(blocks: seq<Block>, entry: seq<set<Reg>>, b: BlockId, t: Terminator, x: BlockId, r: Reg)
    requires Shaped(blocks, entry) && b < |blocks| && blocks[b].term.Open?
    requires x in Targets(t) && x != b && x < |blocks| && blocks[x].phi.Phi?
    requires t.CondBr? ==> t.cond in Leaving(blocks[b], entry[b])
    requires forall y :: y in Targets(t) ==> 0 < y < |blocks| && entry[y] <= Leaving(blocks[b], entry[b])
    requires forall y :: y in Targets(t) && y != x ==> blocks[y].phi.NoPhi?
    requires r in Leaving(blocks[b], entry[b])
    ensures Shaped(Joined(blocks, b, t, x, r), entry)
  {
    var blocks' := Joined(blocks, b, t, x, r);
    forall y | 0 <= y < |blocks|
      ensures Leaving(blocks'[y], entry[y]) == Leaving(blocks[y], entry[y])
      ensures Targets(blocks'[y].term) == if y == b then Targets(t) else Targets(blocks[y].term)
    {
    }
    forall y | 0 <= y < |blocks| ensures BlockShaped(blocks', entry, y) {
      assert BlockShaped(blocks, entry, y);
    }
    forall y | 0 <= y < |blocks| ensures PhiShaped(blocks', entry, y) {
      assert PhiShaped(blocks, entry, y);
      if y == x {
        JoinedPhi(blocks, entry, b, t, x, r);
      } else if blocks[y].phi.Phi? {
        assert y !in Targets(t);
      }
    }
  }

  lemma JoinedPhi(blocks: seq<Block>, entry: seq<set<Reg>>, b: BlockId, t: Terminator, x: BlockId, r: Reg)
    requires |entry| == |blocks| && b < |blocks| && blocks[b].term.Open?
    requires x in Targets(t) && x != b && x < |blocks| && blocks[x].phi.Phi?
    requires PhiShaped(blocks, entry, x)
    requires r in Leaving(blocks[b], entry[b])
    ensures PhiShaped(Joined(blocks, b, t, x, r), entry, x)
  {
    var p := blocks[x].phi;
    var inc := p.incoming + [Incoming(r, b)];
    var blocks' := Joined(blocks, b, t, x, r);
    assert inc[|inc| - 1].from == b;
    forall a | 0 <= a < |blocks| && x in Targets(blocks'[a].term) ensures HasEntry(inc, a) {
      if a != b {
        assert HasEntry(p.incoming, a);
        var i :| 0 <= i < |p.incoming| && p.incoming[i].from == a;
        assert inc[i].from == a;
      }
    }
  }

  function Joined(blocks: seq<Block>, b: BlockId, t: Terminator, x: BlockId, r: Reg): seq<Block>
    requires b < |blocks| && x < |blocks| && x != b && blocks[x].phi.Phi?
  {
    var p := blocks[x].phi;
    blocks[b := blocks[b].(term := t)][x := blocks[x].(phi := p.(incoming := p.incoming + [Incoming(r, b)]))]
  }

  /** A block without predecessors gets a phi without entries. */
  lemma ShapePhi(blocks: seq<Block>, entry: seq<set<Reg>>, x: BlockId, r: Reg)
    requires Shaped(blocks, entry) && 0 < x < |blocks| && blocks[x] == Block(NoPhi, [], Open)
    requires forall a :: 0 <= a < |blocks| ==> x !in Targets(blocks[a].term)
    ensures Shaped(blocks[x := Block(Phi(r, []), [], Open)], entry)
  {
    var blocks' := blocks[x := Block(Phi(r, []), [], Open)];
    forall y | 0 <= y < |blocks| ensures BlockShaped(blocks', entry, y) {
      assert BlockShaped(blocks, entry, y);
    }
    forall y | 0 <= y < |blocks| ensures PhiShaped(blocks', entry, y) {
      assert PhiShaped(blocks, entry, y);
    }
  }
}
