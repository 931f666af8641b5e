/** The recursive alias query over a graph of values, with its cache. */
module AliasQuery {
  import opened Basics
  import opened GepVerdict

  // ---------------------------------------------------------------------- the value graph

  type Value = nat

  datatype Node =
    | Plain
    | Computed(base: Value)
    | Phi(block: nat, incoming: seq<(nat, Value)>)
    | Select(cond: nat, yes: Value, no: Value)

  /** A value, how much is accessed through it, and the tag of the access. */
  datatype Loc = Loc(v: Value, size: Size, tag: nat)

  /** What parts outside this query answer. `early`: the checks made before the cache is looked
      at, which depend on the blocks whose phi nodes were looked through; `tail`: two computed
      addresses with the same base; `whole`: one access covers the common object.  `happens` says
      which executions the program has; the answers are only asked to be right in those. */
  datatype Oracles = Oracles(
    happens: Execution -> bool,
    strip: Value -> Value,
    early: (Loc, Loc, set<nat>) -> (bool, Alias),
    negative: (Loc, Loc) -> bool,
    tooDeep: Value -> bool,
    sameOffsets: (Value, Value) -> bool,
    tail: (Loc, Loc) -> Alias,
    advances: (Value, Value) -> bool,
    whole: (Loc, Loc) -> bool,
    best: (Loc, Loc) -> Alias)

  const NO_TAG: nat := 0

  function Merge(a: Alias, b: Alias): Alias {
    if a == b then a
    else if (a.PartialAlias? && b.MustAlias?) || (b.PartialAlias? && a.MustAlias?) then PartialAlias
    else MayAlias
  }

  function InOrder(l: Loc, m: Loc): (Loc, Loc) { if l.v > m.v then (m, l) else (l, m) }

  type Graph = map<Value, Node>

  function ForBlock(incoming: seq<(nat, Value)>, b: nat): Value
    requires exists i :: 0 <= i < |incoming| && incoming[i].0 == b
  {
    if incoming[0].0 == b then incoming[0].1 else ForBlock(incoming[1..], b)
  }

  lemma {:induction false} ForBlockIsIncoming(incoming: seq<(nat, Value)>, b: nat)
    requires exists i :: 0 <= i < |incoming| && incoming[i].0 == b
    ensures exists i :: 0 <= i < |incoming| && incoming[i] == (b, ForBlock(incoming, b))
    decreases |incoming|
  {
    if incoming[0].0 != b {
      ForBlockIsIncoming(incoming[1..], b);
      var i :| 0 <= i < |incoming[1..]| && incoming[1..][i] == (b, ForBlock(incoming, b));
      assert incoming[i + 1] == (b, ForBlock(incoming, b));
    }
  }

  predicate HasBlock(incoming: seq<(nat, Value)>, b: nat) { exists i :: 0 <= i < |incoming| && incoming[i].0 == b }

  /** A value is made of values of the graph, and a phi node has a value that is not made by
      advancing it. */
  ghost predicate NodeClosed(v: Value, g: Graph, o: Oracles)
    requires v in g
  {
    && o.strip(v) in g
    && match g[v]
       case Plain => true
       case Computed(b) => b in g
       case Select(_, y, n) => y in g && n in g
       case Phi(_, incoming) =>
         && (forall i :: 0 <= i < |incoming| ==> incoming[i].1 in g)
         && (exists i :: 0 <= i < |incoming| && !o.advances(v, incoming[i].1))
  }

  /** Phi nodes of one block have the same incoming blocks. */
  ghost predicate SameEdges(u: Value, v: Value, g: Graph)
    requires u in g && v in g
  {
    g[u].Phi? && g[v].Phi? && g[u].block == g[v].block ==>
      forall i :: 0 <= i < |g[u].incoming| ==> HasBlock(g[v].incoming, g[u].incoming[i].0)
  }

  ghost predicate Closed(g: Graph, o: Oracles) {
    && (forall v {:trigger NodeClosed(v, g, o)} :: v in g ==> NodeClosed(v, g, o))
    && (forall u, v {:trigger SameEdges(u, v, g)} :: u in g && v in g ==> SameEdges(u, v, g))
  }

  // --------------------------------------------------------------- what an answer means

  /** A pointer is an object and a place in it. */
  datatype Place = Place(obj: nat, off: int)

  /** One execution: where every value points, and which way every condition went. */
  datatype Execution = Execution(at: Value -> Place, holds: nat -> bool)

  predicate Sized(s: Size, n: nat) { n > 0 && (s.Known? ==> s.n == n) }

  predicate Disjoint(p: Place, n: nat, q: Place, m: nat) { p.obj != q.obj || p.off + n <= q.off || q.off + m <= p.off }

  /** An access of unknown size may go on for as long as it likes. */
  ghost predicate Says(r: Alias, p: Place, s: Size, q: Place, t: Size) {
    match r
    case MayAlias => true
    case MustAlias => p == q
    case NoAlias => forall n, m :: Sized(s, n) && Sized(t, m) ==> Disjoint(p, n, q, m)
    case PartialAlias => forall n, m :: Sized(s, n) && Sized(t, m) ==> !Disjoint(p, n, q, m)
  }

  /** What a node's value is made of in an execution; phi nodes are left open. */
  ghost predicate Obeys(x: Execution, v: Value, g: Graph, o: Oracles)
    requires v in g
  {
    && x.at(o.strip(v)) == x.at(v)
    && match g[v]
       case Computed(b) => x.at(v).obj == x.at(b).obj
       case Select(c, y, n) => x.at(v) == x.at(if x.holds(c) then y else n)
       case _ => true
  }

  /** An execution of the program. */
  ghost predicate Follows(x: Execution, g: Graph, o: Oracles) {
    o.happens(x) && forall v {:trigger Obeys(x, v, g, o)} :: v in g ==> Obeys(x, v, g, o)
  }

  ghost predicate SaysAlways(r: Alias, l: Loc, m: Loc, g: Graph, o: Oracles) {
    forall x: Execution {:trigger Follows(x, g, o)} ::
      Follows(x, g, o) ==> Says(r, x.at(l.v), l.size, x.at(m.v), m.size)
  }

  /** The other parts answer rightly, and never that accesses of unknown size overlap in part. */
  ghost predicate Trusted(g: Graph, o: Oracles) {
    && (forall l: Loc, m: Loc, vs: set<nat> {:trigger o.early(l, m, vs)} ::
         l.v in g && m.v in g && o.early(l, m, vs).0 ==>
          Good(o.early(l, m, vs).1, l, m, g, o))
    && (forall l: Loc, m: Loc {:trigger o.negative(l, m)} ::
         l.v in g && m.v in g && o.negative(l, m) ==> Good(NoAlias, l, m, g, o))
    && (forall l: Loc, m: Loc {:trigger o.best(l, m)} :: l.v in g && m.v in g ==> Good(o.best(l, m), l, m, g, o))
    && (forall l: Loc, m: Loc {:trigger o.whole(l, m)} ::
         l.v in g && m.v in g && o.whole(l, m) ==> SaysAlways(PartialAlias, l, m, g, o))
    && (forall l: Loc, m: Loc {:trigger o.tail(l, m)} ::
         l.v in g && m.v in g && g[l.v].Computed? ==> TailTrusted(l, m, g, o))
    && (forall u: Value, v: Value {:trigger o.sameOffsets(u, v)} ::
         u in g && v in g && g[u].Computed? && g[v].Computed? && o.sameOffsets(u, v) ==>
          OffsetsTrusted(u, v, g, o))
  }

  /** The comparison of computed addresses is right wherever the bases are the same. */
  ghost predicate TailTrusted(l: Loc, m: Loc, g: Graph, o: Oracles)
    requires l.v in g && m.v in g && g[l.v].Computed?
  {
    TailSays(o.tail(l, m), l, m, g, o)
  }

  ghost predicate TailSays(r: Alias, l: Loc, m: Loc, g: Graph, o: Oracles)
    requires l.v in g && m.v in g && g[l.v].Computed?
  {
    && Sharp(r, l, m)
    && forall x: Execution {:trigger Follows(x, g, o)} ::
       Follows(x, g, o) && x.at(g[l.v].base) == x.at(Under(g, m.v)) ==>
         Says(r, x.at(l.v), l.size, x.at(m.v), m.size)
  }

  ghost predicate OffsetsTrusted(u: Value, v: Value, g: Graph, o: Oracles)
    requires u in g && v in g && g[u].Computed? && g[v].Computed?
  {
    forall x: Execution {:trigger Follows(x, g, o)} :: Follows(x, g, o) ==>
      x.at(u).off - x.at(g[u].base).off == x.at(v).off - x.at(g[v].base).off
  }

  function Under(g: Graph, v: Value): Value { if v in g && g[v].Computed? then g[v].base else v }

  predicate Sharp(r: Alias, l: Loc, m: Loc) { r.PartialAlias? ==> l.size.Known? || m.size.Known? }

  ghost predicate PhiFree(g: Graph) { forall v :: v in g ==> !g[v].Phi? }

  /** What a result must satisfy; without phi nodes it is right in every execution of the program. */
  ghost predicate Good(r: Alias, l: Loc, m: Loc, g: Graph, o: Oracles) {
    Sharp(r, l, m) && (PhiFree(g) ==> SaysAlways(r, l, m, g, o))
  }

  // -------------------------------------------------------------------- small steps

  lemma SaysSwapped(r: Alias, l: Loc, m: Loc, g: Graph, o: Oracles)
    requires SaysAlways(r, l, m, g, o)
    ensures SaysAlways(r, m, l, g, o)
  {
  }

  lemma GoodSwapped(r: Alias, l: Loc, m: Loc, g: Graph, o: Oracles)
    requires Good(r, l, m, g, o)
    ensures Good(r, m, l, g, o)
  {
    if PhiFree(g) { SaysSwapped(r, l, m, g, o); }
  }

  lemma MergeSays(a: Alias, b: Alias, p: Place, s: Size, q: Place, t: Size)
    requires Says(a, p, s, q, t) || Says(b, p, s, q, t)
    ensures Says(Merge(a, b), p, s, q, t)
  {
  }

  /** Wherever `a` is right, `b` is. */
  ghost predicate Weaker(b: Alias, a: Alias) {
    forall p: Place, s: Size, q: Place, t: Size {:trigger Says(b, p, s, q, t)} ::
      Says(a, p, s, q, t) ==> Says(b, p, s, q, t)
  }

  /** Merging two answers gives the one that follows from either and says most. */
  lemma MergeSaysMost(a: Alias, b: Alias, c: Alias)
    ensures Weaker(c, Merge(a, b)) <==> Weaker(c, a) && Weaker(c, b)
  {
    SaysExamples(a);
    SaysExamples(b);
    SaysExamples(c);
    SaysExamples(Merge(a, b));
  }

  /** The same place, overlapping places and places apart tell the answers from each other. */
  lemma SaysExamples(r: Alias)
    ensures Says(r, Place(0, 0), Known(2), Place(0, 0), Known(2)) <==> !r.NoAlias?
    ensures Says(r, Place(0, 0), Known(2), Place(0, 1), Known(2)) <==> r.PartialAlias? || r.MayAlias?
    ensures Says(r, Place(0, 0), Known(2), Place(1, 0), Known(2)) <==> r.NoAlias? || r.MayAlias?
  {
    assert Sized(Known(2), 2);
  }

  /** Values equal on one arm and overlapping on the other overlap on both. */
  lemma MergeIsGood(a: Alias, b: Alias, l: Loc, l1: Loc, l2: Loc, m: Loc, m1: Loc, m2: Loc, g: Graph, o: Oracles)
    requires Good(a, l1, m1, g, o) && Good(b, l2, m2, g, o)
    requires l.size == l1.size == l2.size && m.size == m1.size == m2.size
    requires PhiFree(g) ==> forall x: Execution {:trigger Follows(x, g, o)} :: Follows(x, g, o) ==>
      || (x.at(l.v) == x.at(l1.v) && x.at(m.v) == x.at(m1.v))
      || (x.at(l.v) == x.at(l2.v) && x.at(m.v) == x.at(m2.v))
    ensures Good(Merge(a, b), l, m, g, o)
  {
    if PhiFree(g) {
      forall x: Execution | Follows(x, g, o) ensures Says(Merge(a, b), x.at(l.v), l.size, x.at(m.v), m.size) {
        MergeSays(a, b, x.at(l.v), l.size, x.at(m.v), m.size);
      }
    }
  }

  /** Bases in different objects make accesses in different objects. */
  lemma ApartBases(l: Loc, m: Loc, g: Graph, o: Oracles)
    requires Closed(g, o) && l.v in g && m.v in g && g[l.v].Computed?
    requires Good(NoAlias, Loc(g[l.v].base, Unknown, 0), Loc(Under(g, m.v), Unknown, 0), g, o)
    ensures Good(NoAlias, l, m, g, o)
  {
    if PhiFree(g) {
      forall x: Execution | Follows(x, g, o) ensures Says(NoAlias, x.at(l.v), l.size, x.at(m.v), m.size) {
        assert Obeys(x, l.v, g, o) && Obeys(x, m.v, g, o);
        ObjectsDiffer(x.at(g[l.v].base), x.at(Under(g, m.v)));
      }
    }
  }

  /** Accesses that go on for as long as they like meet in an object they share. */
  lemma ObjectsDiffer(p: Place, q: Place)
    requires Says(NoAlias, p, Unknown, q, Unknown)
    ensures p.obj != q.obj
  {
    var n: nat := if p.off < q.off then q.off - p.off + 1 else p.off - q.off + 1;
    assert Sized(Unknown, n);
    assert Disjoint(p, n, q, n);
  }

  lemma ShiftedApart(p: Place, q: Place, p': Place, q': Place, s: Size, t: Size)
    requires Says(NoAlias, p, s, q, t) && p'.obj == p.obj && q'.obj == q.obj && p'.off - p.off == q'.off - q.off
    ensures Says(NoAlias, p', s, q', t)
  {
    forall n, m | Sized(s, n) && Sized(t, m) ensures Disjoint(p', n, q', m) {
      assert Disjoint(p, n, q, m);
    }
  }

  /** Bases apart and the same offsets keep the accesses apart. */
  lemma ApartOffsets(l: Loc, m: Loc, g: Graph, o: Oracles)
    requires Closed(g, o) && l.v in g && m.v in g && g[l.v].Computed? && g[m.v].Computed?
    requires OffsetsTrusted(l.v, m.v, g, o)
    requires Good(NoAlias, l.(v := g[l.v].base), m.(v := g[m.v].base), g, o)
    ensures Good(NoAlias, l, m, g, o)
  {
    if PhiFree(g) {
      forall x: Execution | Follows(x, g, o) ensures Says(NoAlias, x.at(l.v), l.size, x.at(m.v), m.size) {
        assert Obeys(x, l.v, g, o) && Obeys(x, m.v, g, o);
        var p, q := x.at(g[l.v].base), x.at(g[m.v].base);
        assert Says(NoAlias, p, l.size, q, m.size);
        ShiftedApart(p, q, x.at(l.v), x.at(m.v), l.size, m.size);
      }
    }
  }

  lemma TailIsGood(l: Loc, m: Loc, g: Graph, o: Oracles)
    requires Closed(g, o) && l.v in g && m.v in g && g[l.v].Computed? && TailTrusted(l, m, g, o)
    requires Good(MustAlias, Loc(g[l.v].base, Unknown, 0), Loc(Under(g, m.v), Unknown, 0), g, o)
    ensures Good(o.tail(l, m), l, m, g, o)
  {
    if PhiFree(g) {
      forall x: Execution | Follows(x, g, o) ensures Says(o.tail(l, m), x.at(l.v), l.size, x.at(m.v), m.size) {
        assert Says(MustAlias, x.at(g[l.v].base), Unknown, x.at(Under(g, m.v)), Unknown);
      }
    }
  }

  lemma StrippedIsGood(r: Alias, l: Loc, m: Loc, g: Graph, o: Oracles)
    requires l.v in g && m.v in g && Good(r, l.(v := o.strip(l.v)), m.(v := o.strip(m.v)), g, o)
    ensures Good(r, l, m, g, o)
  {
    if PhiFree(g) {
      forall x: Execution | Follows(x, g, o) ensures Says(r, x.at(l.v), l.size, x.at(m.v), m.size) {
        assert Obeys(x, l.v, g, o) && Obeys(x, m.v, g, o);
      }
    }
  }

  /** A tag says nothing about where an access goes. */
  lemma TagIsFree(r: Alias, l: Loc, m: Loc, t: nat, u: nat, g: Graph, o: Oracles)
    requires Good(r, l, m, g, o)
    ensures Good(r, l.(tag := t), m.(tag := u), g, o)
  {
  }

  // ----------------------------------------------------------------------- the query

  type Pair = (Loc, Loc)
  type Cache = map<Pair, Alias>

  ghost predicate GoodAt(c: Cache, k: Pair, g: Graph, o: Oracles)
    requires k in c
  {
    Good(c[k], k.0, k.1, g, o)
  }

  ghost predicate GoodCache(c: Cache, g: Graph, o: Oracles) {
    forall k {:trigger GoodAt(c, k, g, o)} :: k in c ==> GoodAt(c, k, g, o)
  }

  lemma GoodPut(c: Cache, k: Pair, r: Alias, g: Graph, o: Oracles)
    requires GoodCache(c, g, o) && Good(r, k.0, k.1, g, o)
    ensures GoodCache(c[k := r], g, o)
  {
    var c' := c[k := r];
    forall q | q in c' ensures GoodAt(c', q, g, o) {
      if q != k { assert GoodAt(c, q, g, o); }
    }
  }

  /** Answers are added, and those that were there stay. */
  predicate Extends(c: Cache, c': Cache) { c.Keys <= c'.Keys && forall k :: k in c ==> c'[k] == c[k] }

  /** The same but for one pair. */
  predicate ExtendsBut(c: Cache, c': Cache, pair: Pair) {
    c.Keys <= c'.Keys && forall k :: k in c && k != pair ==> c'[k] == c[k]
  }

  /** Every pair of places that a query can come to ask about. */
  ghost function Universe(g: Graph, sizes: set<Size>, tags: set<nat>): set<Pair> {
    var locs := set v, s, t | v in g.Keys && s in sizes && t in tags :: Loc(v, s, t);
    set l, m | l in locs && m in locs :: (l, m)
  }

  class Query {
    const g: Graph
    const o: Oracles
    ghost const sizes: set<Size>
    ghost const tags: set<nat>
    ghost const universe: set<Pair>
    var cache: Cache
    var visited: set<nat>

    constructor (g: Graph, o: Oracles, ghost sizes: set<Size>, ghost tags: set<nat>)
      requires Closed(g, o) && Trusted(g, o) && Unknown in sizes && NO_TAG in tags
      ensures Valid() && this.g == g && this.o == o && this.sizes == sizes && this.tags == tags && cache == map[]
    {
      this.g, this.o, this.sizes, this.tags, this.universe := g, o, sizes, tags, Universe(g, sizes, tags);
      cache, visited := map[], {};
    }

    ghost predicate Asked(l: Loc) { l.v in g && l.size in sizes && l.tag in tags }

    ghost predicate Within(l: Loc, m: Loc) { (l, m) in universe }

    /** The pairs that a query has not asked about. */
    ghost function Left(): nat
      reads this
    {
      |universe - cache.Keys|
    }

    ghost predicate Valid()
      reads this
    {
      && Closed(g, o) && Trusted(g, o) && Unknown in sizes && NO_TAG in tags
      && (forall l, m {:trigger Within(l, m)} :: Asked(l) && Asked(m) ==> Within(l, m))
      && GoodCache(cache, g, o)
    }

    /** Asking about a new pair leaves fewer to ask about. */
    lemma Fewer(keys: set<Pair>, k: Pair)
      requires k in universe && k !in keys
      ensures |universe - (keys + {k})| < |universe - keys|
    {
      assert universe - keys == (universe - (keys + {k})) + {k};
    }

    lemma NotMore(keys: set<Pair>, more: set<Pair>)
      requires keys <= more
      ensures |universe - more| <= |universe - keys|
      decreases |universe - keys|
    {
      if more !! (universe - keys) {
        assert universe - more == universe - keys;
      } else {
        var k :| k in more && k in universe - keys;
        Fewer(keys, k);
        NotMore(keys + {k}, more);
      }
    }

    function Stripped(l: Loc): Loc { l.(v := o.strip(l.v)) }

    /** Answered before the cache is looked at. */
    predicate Told(l: Loc, m: Loc, vs: set<nat>, a: Alias) { o.early(Stripped(l), Stripped(m), vs) == (true, a) }

    function BaseOf(l: Loc): Loc
      requires l.v in g
    {
      match g[l.v] case Computed(b) => Loc(b, Unknown, NO_TAG) case _ => Loc(l.v, Unknown, l.tag)
    }

    predicate Shallow(v: Value)
      requires v in g
    {
      g[v].Computed? ==> !o.tooDeep(v)
    }

    /** The answer about a computed address: at a negative offset of the other; over bases that are
        apart; over one base, by comparison; over bases that are apart for these sizes, at the same
        offsets. */
    predicate ComputedTells(l: Loc, m: Loc, vs: set<nat>, a: Alias)
      requires l.v in g && m.v in g && g[l.v].Computed?
    {
      if o.negative(l, m) || (g[m.v].Computed? && o.negative(m, l)) then a.NoAlias?
      else
        && (g[m.v].Computed? || l.size.Known? || m.size.Known?)
        && (|| (Told(BaseOf(l), BaseOf(m), vs, NoAlias) && a.NoAlias?)
            || (Told(BaseOf(l), BaseOf(m), vs, MustAlias) && Shallow(l.v) && Shallow(m.v)
                && a == o.tail(l, m) && !a.MayAlias?)
            || (SameOffsetsTell(l, m, vs) && a.NoAlias?))
    }

    predicate SameOffsetsTell(l: Loc, m: Loc, vs: set<nat>)
      requires l.v in g && m.v in g && g[l.v].Computed?
    {
      && Told(BaseOf(l), BaseOf(m), vs, MayAlias) && g[m.v].Computed? && l.size == m.size
      && Told(l.(v := g[l.v].base), m.(v := g[m.v].base), vs, NoAlias)
      && Shallow(l.v) && Shallow(m.v) && o.sameOffsets(l.v, m.v)
    }

    /** Two answers that say something, taken together. */
    predicate BothTold(l1: Loc, m1: Loc, l2: Loc, m2: Loc, vs: set<nat>, a: Alias) {
      var one, two := o.early(Stripped(l1), Stripped(m1), vs), o.early(Stripped(l2), Stripped(m2), vs);
      one.0 && two.0 && !one.1.MayAlias? && a == Merge(two.1, one.1) && !a.MayAlias?
    }

    /** The answer about a selection: arm by arm if one condition selects both, else both arms
        against the other side. */
    predicate SelectTells(l: Loc, m: Loc, vs: set<nat>, a: Alias)
      requires l.v in g && m.v in g && g[l.v].Select?
    {
      var l1, l2 := l.(v := g[l.v].yes), l.(v := g[l.v].no);
      if g[m.v].Select? && g[m.v].cond == g[l.v].cond then
        BothTold(l1, m.(v := g[m.v].yes), l2, m.(v := g[m.v].no), vs, a)
      else BothTold(m, l1, m, l2, vs, a)
    }

    /** Both values that come along an edge are apart. */
    predicate EdgeApart(l: Loc, m: Loc, i: nat, vs: set<nat>)
      requires l.v in g && m.v in g && g[l.v].Phi? && g[m.v].Phi? && i < |g[l.v].incoming|
    {
      var e := g[l.v].incoming[i];
      HasBlock(g[m.v].incoming, e.0) && Told(l.(v := e.1), m.(v := ForBlock(g[m.v].incoming, e.0)), vs, NoAlias)
    }

    /** How much is accessed through what comes in, if the phi node may advance it. */
    function SourceSize(l: Loc, n: nat): Size
      requires l.v in g && g[l.v].Phi? && n <= |g[l.v].incoming|
    {
      if exists i :: 0 <= i < n && o.advances(l.v, g[l.v].incoming[i].1) then Unknown else l.size
    }

    /** What comes in, unless the phi node made it by advancing, is answered `a` against the other. */
    predicate SourceTold(l: Loc, m: Loc, i: nat, vs: set<nat>, a: Alias)
      requires l.v in g && g[l.v].Phi? && i < |g[l.v].incoming|
    {
      var v := g[l.v].incoming[i].1;
      v in g && !g[v].Phi?
      && (o.advances(l.v, v) || Told(m, Loc(v, SourceSize(l, |g[l.v].incoming|), l.tag), vs, a))
    }

    /** The answer about a phi node: edge by edge against one of the same block, else source by
        source. */
    predicate PhiTells(l: Loc, m: Loc, vs: set<nat>, a: Alias)
      requires l.v in g && m.v in g && g[l.v].Phi?
    {
      var vs' := vs + {g[l.v].block};
      if g[m.v].Phi? && g[m.v].block == g[l.v].block then
        a.NoAlias? && EdgesApart(l, m, vs')
      else !a.MayAlias? && forall i :: 0 <= i < |g[l.v].incoming| ==> SourceTold(l, m, i, vs', a)
    }

    /** The answer that follows from early answers about the parts of the two values. */
    predicate Tells(l: Loc, m: Loc, vs: set<nat>, a: Alias) {
      && l.v in g && m.v in g
      && if g[l.v].Computed? then ComputedTells(l, m, vs, a)
         else if g[m.v].Computed? then ComputedTells(m, l, vs, a)
         else if g[l.v].Phi? then PhiTells(l, m, vs, a)
         else if g[m.v].Phi? then PhiTells(m, l, vs, a)
         else if g[l.v].Select? then SelectTells(l, m, vs, a)
         else if g[m.v].Select? then SelectTells(m, l, vs, a)
         else a == if l.size.Known? && m.size.Known? && o.whole(l, m) then PartialAlias
                   else o.best(InOrder(l, m).0, InOrder(l, m).1)
    }

    predicate Heeds(l: Loc, m: Loc, vs: set<nat>, r: Alias) { forall a :: Tells(l, m, vs, a) ==> r == a }

    /** Every query ends, on every graph; the cache only grows while it is answered.  An early
        answer is the answer, then one in the cache; and for a new pair, what the early answers
        about its parts tell. */
    method AliasCheck(l: Loc, m: Loc) returns (r: Alias)
      requires Valid() && Asked(l) && Asked(m)
      modifies this
      ensures Valid() && Extends(old(cache), cache)
      ensures Good(r, l, m, g, o)
      ensures var early := o.early(Stripped(l), Stripped(m), old(visited));
        && (early.0 ==> r == early.1 && cache == old(cache) && visited == old(visited))
        && var pair := InOrder(Stripped(l), Stripped(m));
          (!early.0 ==>
             && pair in cache && cache[pair] == r
             && (pair in old(cache) ==> cache == old(cache) && visited == old(visited))
             && (pair !in old(cache) ==> Heeds(Stripped(l), Stripped(m), old(visited), r)))
      decreases Left(), 1
    {
      assert NodeClosed(l.v, g, o) && NodeClosed(m.v, g, o);
      var l1, m1 := Stripped(l), Stripped(m);
      var early := o.early(l1, m1, visited);
      if early.0 {
        r := early.1;
        StrippedIsGood(r, l, m, g, o);
        return;
      }
      var pair := InOrder(l1, m1);
      if pair in cache {
        r := cache[pair];
        assert GoodAt(cache, pair, g, o);
        Unordered(r, l1, m1);
        StrippedIsGood(r, l, m, g, o);
        return;
      }
      r := Explore(l1, m1);
      StrippedIsGood(r, l, m, g, o);
    }

    /** A new pair goes into the cache before it is looked into, and its answer after. */
    method Explore(l: Loc, m: Loc) returns (r: Alias)
      requires Valid() && Asked(l) && Asked(m) && InOrder(l, m) !in cache
      modifies this
      ensures Valid() && Extends(old(cache), cache)
      ensures Good(r, l, m, g, o) && InOrder(l, m) in cache && cache[InOrder(l, m)] == r
      ensures Heeds(l, m, old(visited), r)
      decreases Left(), 0
    {
      var pair := InOrder(l, m);
      Enter(pair);
      r := Climb(l, m);
      Leave(l, m, r);
    }

    method Leave(l: Loc, m: Loc, r: Alias)
      requires Valid() && Good(r, l, m, g, o)
      modifies this`cache
      ensures Valid() && cache == old(cache)[InOrder(l, m) := r]
    {
      Ordered(r, l, m);
      GoodPut(cache, InOrder(l, m), r, g, o);
      cache := cache[InOrder(l, m) := r];
    }

    method Enter(pair: Pair)
      requires Valid() && Asked(pair.0) && Asked(pair.1) && pair !in cache
      modifies this`cache
      ensures Valid() && cache == old(cache)[pair := MayAlias] && Left() < old(Left())
    {
      ghost var keys := cache.Keys;
      assert Within(pair.0, pair.1) && Good(MayAlias, pair.0, pair.1, g, o);
      GoodPut(cache, pair, MayAlias, g, o);
      cache := cache[pair := MayAlias];
      assert cache.Keys == keys + {pair};
      Fewer(keys, pair);
    }

    lemma Ordered(r: Alias, l: Loc, m: Loc)
      requires Good(r, l, m, g, o)
      ensures Good(r, InOrder(l, m).0, InOrder(l, m).1, g, o)
    {
      GoodSwapped(r, l, m, g, o);
    }

    lemma Unordered(r: Alias, l: Loc, m: Loc)
      requires Good(r, InOrder(l, m).0, InOrder(l, m).1, g, o)
      ensures Good(r, l, m, g, o)
    {
      GoodSwapped(r, InOrder(l, m).0, InOrder(l, m).1, g, o);
    }

    /** Try every rule for the kinds of values the two are. */
    method Climb(l0: Loc, m0: Loc) returns (r: Alias)
      requires Valid() && Asked(l0) && Asked(m0) && InOrder(l0, m0) in cache
      modifies this
      ensures Valid() && ExtendsBut(old(cache), cache, InOrder(l0, m0))
      ensures Good(r, l0, m0, g, o) && Heeds(l0, m0, old(visited), r)
      decreases Left(), 6
    {
      ghost var start := cache.Keys;
      var l, m := l0, m0;
      if !g[l.v].Computed? && g[m.v].Computed? { l, m := m, l; }
      if g[l.v].Computed? {
        r := AliasComputed(l, m);
        if !r.MayAlias? { GoodSwapped(r, l, m, g, o); return; }
      }
      NotMore(start, cache.Keys);
      r := ClimbOn(l, m, l0, m0);
    }

    /** Try the rules for phi nodes and selections, and at last what is left. */
    method ClimbOn(l1: Loc, m1: Loc, l0: Loc, m0: Loc) returns (r: Alias)
      requires Valid() && Asked(l0) && Asked(m0) && InOrder(l0, m0) in cache
      requires (l1, m1) == (l0, m0) || ((l1, m1) == (m0, l0) && g[l0.v] != g[m0.v])
      modifies this
      ensures Valid() && ExtendsBut(old(cache), cache, InOrder(l0, m0)) && Good(r, l0, m0, g, o)
      ensures (l1, m1) == (l0, m0) && !g[l0.v].Computed? && !g[m0.v].Computed? ==> Heeds(l0, m0, old(visited), r)
      decreases Left(), 5
    {
      var l, m := l1, m1;
      ghost var mid := cache.Keys;
      if g[m.v].Phi? && !g[l.v].Phi? { l, m := m, l; }
      if g[l.v].Phi? {
        r := AliasPhi(l, m);
        if !r.MayAlias? { GoodSwapped(r, l, m, g, o); return; }
      }
      NotMore(mid, cache.Keys);
      if g[m.v].Select? && !g[l.v].Select? { l, m := m, l; }
      if g[l.v].Select? {
        r := AliasSelect(l, m);
        if !r.MayAlias? { GoodSwapped(r, l, m, g, o); return; }
      }
      r := LastResort(l, m, l0, m0);
    }

    /** When no rule says anything: an access of the whole object, or the best of other analyses. */
    method LastResort(l: Loc, m: Loc, l0: Loc, m0: Loc) returns (r: Alias)
      requires Valid() && Asked(l0) && Asked(m0) && ((l, m) == (l0, m0) || (l, m) == (m0, l0))
      ensures Good(r, l0, m0, g, o)
      ensures r == if l.size.Known? && m.size.Known? && o.whole(l, m) then PartialAlias
                   else o.best(InOrder(l0, m0).0, InOrder(l0, m0).1)
    {
      if l.size.Known? && m.size.Known? && o.whole(l, m) {
        r := PartialAlias;
        GoodSwapped(r, l, m, g, o);
        return;
      }
      var pair := InOrder(l0, m0);
      r := o.best(pair.0, pair.1);
      Unordered(r, l0, m0);
    }

    method AliasComputed(l: Loc, m: Loc) returns (r: Alias)
      requires Valid() && Asked(l) && Asked(m) && g[l.v].Computed?
      modifies this
      ensures Valid() && Extends(old(cache), cache)
      ensures Good(r, l, m, g, o) && forall a :: ComputedTells(l, m, old(visited), a) ==> r == a
      decreases Left(), 4
    {
      if o.negative(l, m) { return NoAlias; }
      if g[m.v].Computed? {
        if o.negative(m, l) { GoodSwapped(NoAlias, m, l, g, o); return NoAlias; }
      } else if l.size.Unknown? && m.size.Unknown? {
        return MayAlias;
      }
      r := AliasBases(l, m);
      if !r.MustAlias? { return; }
      if o.tooDeep(l.v) || (g[m.v].Computed? && o.tooDeep(m.v)) { return MayAlias; }
      TailIsGood(l, m, g, o);
      r := o.tail(l, m);
    }

    /** What the bases tell: that the accesses are apart, nothing, or that the bases are the same. */
    method AliasBases(l: Loc, m: Loc) returns (r: Alias)
      requires Valid() && Asked(l) && Asked(m) && g[l.v].Computed?
      modifies this
      ensures Valid() && Extends(old(cache), cache)
      ensures (r.NoAlias? && Good(r, l, m, g, o)) || r.MayAlias?
        || (r.MustAlias? && Good(r, Loc(g[l.v].base, Unknown, 0), Loc(Under(g, m.v), Unknown, 0), g, o))
      ensures Told(BaseOf(l), BaseOf(m), old(visited), NoAlias) ==> r.NoAlias?
      ensures Told(BaseOf(l), BaseOf(m), old(visited), MustAlias) ==> r.MustAlias?
      ensures SameOffsetsTell(l, m, old(visited)) ==> r.NoAlias?
      decreases Left(), 3
    {
      assert NodeClosed(l.v, g, o) && NodeClosed(m.v, g, o);
      var base := Loc(g[l.v].base, Unknown, NO_TAG);
      if g[m.v].Computed? {
        r := AliasCheck(base, Loc(g[m.v].base, Unknown, NO_TAG));
        NotMore(old(cache.Keys), cache.Keys);
        if r.MayAlias? && l.size == m.size {
          var precise := AliasCheck(l.(v := g[l.v].base), m.(v := g[m.v].base));
          if precise.NoAlias? && !o.tooDeep(l.v) && !o.tooDeep(m.v) && o.sameOffsets(l.v, m.v) {
            ApartOffsets(l, m, g, o);
            return NoAlias;
          }
        }
      } else {
        r := AliasCheck(base, Loc(m.v, Unknown, m.tag));
        TagIsFree(r, base, Loc(m.v, Unknown, m.tag), 0, 0, g, o);
      }
      // The bases have unknown sizes, so they are not known to overlap in part.
      assert !r.PartialAlias?;
      if r.NoAlias? { ApartBases(l, m, g, o); }
    }

    method AliasSelect(l: Loc, m: Loc) returns (r: Alias)
      requires Valid() && Asked(l) && Asked(m) && g[l.v].Select?
      modifies this
      ensures Valid() && Extends(old(cache), cache)
      ensures Good(r, l, m, g, o) && forall a :: SelectTells(l, m, old(visited), a) ==> r == a
      decreases Left(), 3
    {
      assert NodeClosed(l.v, g, o) && NodeClosed(m.v, g, o);
      var l1, l2 := l.(v := g[l.v].yes), l.(v := g[l.v].no);
      if g[m.v].Select? && g[m.v].cond == g[l.v].cond {
        var m1, m2 := m.(v := g[m.v].yes), m.(v := g[m.v].no);
        var first := AliasCheck(l1, m1);
        if first.MayAlias? { return MayAlias; }
        NotMore(old(cache.Keys), cache.Keys);
        var second := AliasCheck(l2, m2);
        r := Merge(second, first);
        BothChoose(l.v, m.v);
        MergeIsGood(second, first, l, l2, l1, m, m2, m1, g, o);
        return;
      }
      var first := AliasCheck(m, l1);
      if first.MayAlias? { return MayAlias; }
      NotMore(old(cache.Keys), cache.Keys);
      var second := AliasCheck(m, l2);
      r := Merge(second, first);
      GoodSwapped(first, m, l1, g, o);
      GoodSwapped(second, m, l2, g, o);
      BothChoose(l.v, l.v);
      MergeIsGood(second, first, l, l2, l1, m, m, m, g, o);
    }

    lemma BothChoose(u: Value, v: Value)
      requires u in g && v in g && g[u].Select? && g[v].Select? && g[u].cond == g[v].cond
      ensures forall x: Execution {:trigger Follows(x, g, o)} :: Follows(x, g, o) ==>
        || (x.at(u) == x.at(g[u].no) && x.at(v) == x.at(g[v].no))
        || (x.at(u) == x.at(g[u].yes) && x.at(v) == x.at(g[v].yes))
    {
      forall x: Execution | Follows(x, g, o)
        ensures || (x.at(u) == x.at(g[u].no) && x.at(v) == x.at(g[v].no))
                || (x.at(u) == x.at(g[u].yes) && x.at(v) == x.at(g[v].yes))
      {
        assert Obeys(x, u, g, o) && Obeys(x, v, g, o);
      }
    }

    method AliasPhi(l: Loc, m: Loc) returns (r: Alias)
      requires Valid() && Asked(l) && Asked(m) && g[l.v].Phi? && InOrder(l, m) in cache
      modifies this
      ensures Valid() && ExtendsBut(old(cache), cache, InOrder(l, m))
      ensures Good(r, l, m, g, o) && forall a :: PhiTells(l, m, old(visited), a) ==> r == a
      decreases Left(), 4
    {
      visited := visited + {g[l.v].block};
      if g[m.v].Phi? && g[m.v].block == g[l.v].block {
        r := AliasPhis(l, m);
        return;
      }
      var sources, size := Sources(l);
      if sources == [] {
        ghost var i :| 0 <= i < |g[l.v].incoming| && g[l.v].incoming[i].1 in g && g[g[l.v].incoming[i].1].Phi?;
        assert forall a :: PhiTells(l, m, old(visited), a) ==> SourceTold(l, m, i, visited, a);
        return MayAlias;
      }
      SourcesTold(l, m, sources, size, old(visited));
      r := AliasSources(l, m, sources, size);
    }

    /** What comes into a phi node, but for what it made by advancing; nothing if that may be made by
        another phi node. */
    method Sources(l: Loc) returns (sources: seq<Value>, size: Size)
      requires Valid() && Asked(l) && g[l.v].Phi?
      ensures sources != [] ==> size == SourceSize(l, |g[l.v].incoming|)
      ensures forall v :: v in sources ==> v in g && Comes(l, v, |g[l.v].incoming|)
      ensures sources == [] ==> exists i ::
        0 <= i < |g[l.v].incoming| && g[l.v].incoming[i].1 in g && g[g[l.v].incoming[i].1].Phi?
    {
      assert NodeClosed(l.v, g, o);
      var incoming, i := g[l.v].incoming, 0;
      sources, size := [], l.size;
      while i < |incoming|
        invariant 0 <= i <= |incoming| && size == SourceSize(l, i)
        invariant forall v :: v in sources ==> v in g && Comes(l, v, i)
        invariant (forall j :: 0 <= j < i ==> o.advances(l.v, incoming[j].1)) || sources != []
      {
        var v := incoming[i].1;
        if g[v].Phi? { return [], size; }
        if o.advances(l.v, v) {
          size := Unknown;
        } else if v !in sources {
          sources := sources + [v];
        }
        i := i + 1;
      }
    }

    predicate Comes(l: Loc, v: Value, n: nat)
      requires l.v in g && g[l.v].Phi? && n <= |g[l.v].incoming|
    {
      !o.advances(l.v, v) && exists j :: 0 <= j < n && g[l.v].incoming[j].1 == v
    }

    lemma SourcesTold(l: Loc, m: Loc, sources: seq<Value>, size: Size, vs: set<nat>)
      requires l.v in g && m.v in g && g[l.v].Phi? && !(g[m.v].Phi? && g[m.v].block == g[l.v].block)
      requires size == SourceSize(l, |g[l.v].incoming|)
      requires forall v :: v in sources ==> v in g && Comes(l, v, |g[l.v].incoming|)
      ensures forall a :: PhiTells(l, m, vs, a) ==>
        !a.MayAlias? && AllTold(l, m, sources, size, vs + {g[l.v].block}, a)
    {
      forall a, i | PhiTells(l, m, vs, a) && 0 <= i < |sources|
        ensures Told(m, Loc(sources[i], size, l.tag), vs + {g[l.v].block}, a)
      {
        assert sources[i] in sources;
        var j :| 0 <= j < |g[l.v].incoming| && g[l.v].incoming[j].1 == sources[i];
        assert SourceTold(l, m, j, vs + {g[l.v].block}, a);
      }
    }

    predicate AllTold(l: Loc, m: Loc, sources: seq<Value>, size: Size, vs: set<nat>, a: Alias) {
      forall i :: 0 <= i < |sources| ==> Told(m, Loc(sources[i], size, l.tag), vs, a)
    }

    method AliasSources(l: Loc, m: Loc, sources: seq<Value>, size: Size) returns (r: Alias)
      requires Valid() && Asked(l) && Asked(m) && g[l.v].Phi? && sources != []
      requires (size == l.size || size == Unknown) && forall v :: v in sources ==> v in g
      modifies this
      ensures Valid() && Extends(old(cache), cache) && Good(r, l, m, g, o)
      ensures forall a: Alias :: !a.MayAlias? && AllTold(l, m, sources, size, old(visited), a) ==> r == a
      decreases Left(), 3
    {
      ghost var start := visited;
      r := AliasCheck(m, Loc(sources[0], size, l.tag));
      var i := 1;
      while i < |sources| && !r.MayAlias?
        invariant 1 <= i <= |sources| && Valid() && Extends(old(cache), cache) && Sharp(r, l, m)
        invariant forall a: Alias :: !a.MayAlias? && AllTold(l, m, sources, size, start, a) ==>
          r == a && visited == start
      {
        NotMore(old(cache.Keys), cache.Keys);
        r := NextSource(l, m, sources[i], size, r);
        i := i + 1;
      }
    }

    method NextSource(l: Loc, m: Loc, v: Value, size: Size, r0: Alias) returns (r: Alias)
      requires Valid() && Asked(l) && Asked(m) && v in g && (size == l.size || size == Unknown) && Sharp(r0, l, m)
      modifies this
      ensures Valid() && Extends(old(cache), cache) && Sharp(r, l, m)
      ensures Told(m, Loc(v, size, l.tag), old(visited), r0) ==> r == r0 && visited == old(visited)
      decreases Left(), 2
    {
      var next := AliasCheck(m, Loc(v, size, l.tag));
      r := Merge(next, r0);
    }

    predicate EdgesApart(l: Loc, m: Loc, vs: set<nat>)
      requires l.v in g && m.v in g && g[l.v].Phi? && g[m.v].Phi?
    {
      forall i :: 0 <= i < |g[l.v].incoming| ==> EdgeApart(l, m, i, vs)
    }

    /** Phi nodes of one block, edge by edge, under the assumption that they are apart. */
    method AliasPhis(l: Loc, m: Loc) returns (r: Alias)
      requires Valid() && Asked(l) && Asked(m) && g[l.v].Phi? && g[m.v].Phi? && g[l.v].block == g[m.v].block
      requires InOrder(l, m) in cache
      modifies this
      ensures Valid() && ExtendsBut(old(cache), cache, InOrder(l, m))
      ensures Good(r, l, m, g, o) && (EdgesApart(l, m, old(visited)) ==> r.NoAlias?)
      ensures cache[InOrder(l, m)] == if r.NoAlias? then r else old(cache)[InOrder(l, m)]
      decreases Left(), 3
    {
      var pair := InOrder(l, m);
      var original := cache[pair];
      assert GoodAt(cache, pair, g, o);
      Assume(pair, NoAlias);
      r := NoAlias;
      var i := 0;
      while i < |g[l.v].incoming| && !r.MayAlias?
        invariant 0 <= i <= |g[l.v].incoming| && Valid() && Sharp(r, l, m)
        invariant ExtendsBut(old(cache), cache, pair) && cache[pair] == NoAlias
        invariant EdgesApart(l, m, old(visited)) ==> r.NoAlias? && visited == old(visited)
      {
        NotMore(old(cache.Keys), cache.Keys);
        assert EdgesApart(l, m, old(visited)) ==> EdgeApart(l, m, i, old(visited));
        r := NextEdge(l, m, i, r);
        i := i + 1;
      }
      if !r.NoAlias? {
        Assume(pair, original);
      }
    }

    /** Phi nodes have no meaning in an execution, so any answer about them can be assumed. */
    method Assume(pair: Pair, r: Alias)
      requires Valid() && pair in cache && Good(r, pair.0, pair.1, g, o)
      modifies this`cache
      ensures Valid() && cache == old(cache)[pair := r] && cache.Keys == old(cache.Keys)
    {
      GoodPut(cache, pair, r, g, o);
      cache := cache[pair := r];
    }

    method NextEdge(l: Loc, m: Loc, i: nat, r0: Alias) returns (r: Alias)
      requires Valid() && Asked(l) && Asked(m) && g[l.v].Phi? && g[m.v].Phi? && g[l.v].block == g[m.v].block
      requires i < |g[l.v].incoming| && Sharp(r0, l, m)
      requires InOrder(l, m) in cache && cache[InOrder(l, m)] == NoAlias
      modifies this
      ensures Valid() && Extends(old(cache), cache) && Sharp(r, l, m)
      ensures EdgeApart(l, m, i, old(visited)) && r0.NoAlias? ==> r.NoAlias? && visited == old(visited)
      decreases Left(), 2
    {
      assert NodeClosed(l.v, g, o) && NodeClosed(m.v, g, o) && SameEdges(l.v, m.v, g);
      var e := g[l.v].incoming[i];
      ForBlockIsIncoming(g[m.v].incoming, e.0);
      var edge := AliasCheck(l.(v := e.1), m.(v := ForBlock(g[m.v].incoming, e.0)));
      r := Merge(edge, r0);
    }

    /** A query from outside starts from an empty cache and leaves one; a query from within one
        that is being answered finds its answer in the cache. */
    method Alias(l: Loc, m: Loc) returns (r: Alias)
      requires Valid() && Asked(l) && Asked(m)
      modifies this
      ensures Valid() && Good(r, l, m, g, o)
      ensures if (l, m) in old(cache) then r == old(cache)[(l, m)] && cache == old(cache)
              else cache == map[] && visited == {}
    {
      if (l, m) in cache {
        assert GoodAt(cache, (l, m), g, o);
        return cache[(l, m)];
      }
      r := AliasCheck(l, m);
      cache, visited := map[], {};
    }
  }

  // -------------------------------------------------------------------------- an example

  /** Two objects, a place computed in the first, and a selection between the two pointers into
      the first. */
  const EXAMPLE_GRAPH: Graph := map[0 := Plain, 1 := Plain, 2 := Computed(0), 3 := Select(7, 0, 2)]

  predicate FirstObject(v: Value) { v == 0 || v == 2 }

  /** All that is known is that pointers into the first object are apart from the second. */
  function ExampleOracles(): Oracles {
    Oracles(
      (x: Execution) => x.at(0).obj != x.at(1).obj,
      v => v,
      (l: Loc, m: Loc, vs) => ((FirstObject(l.v) && m.v == 1) || (l.v == 1 && FirstObject(m.v)),
                               NoAlias),
      (l, m) => false, v => false, (u, v) => false, (l, m) => MayAlias, (u, v) => false,
      (l, m) => false, (l, m) => MayAlias)
  }

  /** The answers can be trusted, and the program has an execution. */
  lemma ExampleIsTrusted()
    ensures Closed(EXAMPLE_GRAPH, ExampleOracles()) && Trusted(EXAMPLE_GRAPH, ExampleOracles())
    ensures PhiFree(EXAMPLE_GRAPH)
    ensures exists x: Execution :: Follows(x, EXAMPLE_GRAPH, ExampleOracles())
  {
    var g, o := EXAMPLE_GRAPH, ExampleOracles();
    ExampleIsClosed();
    forall l: Loc, m: Loc, vs: set<nat> | l.v in g && m.v in g && o.early(l, m, vs).0
      ensures Good(o.early(l, m, vs).1, l, m, g, o)
    {
      ExampleIsRight(l, m);
    }
    forall l: Loc, m: Loc | l.v in g && m.v in g && g[l.v].Computed? ensures TailTrusted(l, m, g, o) {
      assert o.tail(l, m) == MayAlias;
      assert TailSays(MayAlias, l, m, g, o);
    }
    ExampleHappens();
  }

  lemma ExampleIsClosed()
    ensures Closed(EXAMPLE_GRAPH, ExampleOracles()) && PhiFree(EXAMPLE_GRAPH)
  {
    var g, o := EXAMPLE_GRAPH, ExampleOracles();
    forall v | v in g ensures NodeClosed(v, g, o) {
    }
  }

  lemma ExampleIsRight(l: Loc, m: Loc)
    requires (FirstObject(l.v) && m.v == 1) || (l.v == 1 && FirstObject(m.v))
    ensures Good(NoAlias, l, m, EXAMPLE_GRAPH, ExampleOracles())
  {
    var g, o := EXAMPLE_GRAPH, ExampleOracles();
    forall x: Execution | Follows(x, g, o) ensures Says(NoAlias, x.at(l.v), l.size, x.at(m.v), m.size) {
      assert Obeys(x, 2, g, o);
      assert x.at(2).obj == x.at(0).obj && x.at(0).obj != x.at(1).obj;
    }
  }

  lemma ExampleHappens()
    ensures exists x: Execution :: Follows(x, EXAMPLE_GRAPH, ExampleOracles())
  {
    var g, o := EXAMPLE_GRAPH, ExampleOracles();
    var x := Execution(v => if v == 1 then Place(1, 0) else Place(0, 0), c => true);
    forall v | v in g ensures Obeys(x, v, g, o) {
    }
    assert Follows(x, g, o);
  }

  /** The query answers that the selection and the second object are apart. */
  method NoAliasIsAnswered() returns (r: Alias)
    ensures r == NoAlias
  {
    ExampleIsTrusted();
    var query := new Query(EXAMPLE_GRAPH, ExampleOracles(), {Unknown, Known(4)}, {NO_TAG});
    var l, m := Loc(3, Known(4), NO_TAG), Loc(1, Known(4), NO_TAG);
    assert query.SelectTells(l, m, query.visited, NoAlias);
    assert query.Tells(l, m, query.visited, NoAlias);
    r := query.AliasCheck(l, m);
  }

  /** Two members of one object. */
  const MEMBERS_GRAPH: Graph := map[0 := Plain, 1 := Computed(0), 2 := Computed(0)]

  predicate TwoMembers(l: Loc, m: Loc) {
    l.size == Known(4) == m.size && ((l.v == 1 && m.v == 2) || (l.v == 2 && m.v == 1))
  }

  /** A value is itself, and comparing the two members finds them apart. */
  function MembersOracles(): Oracles {
    Oracles(
      (x: Execution) => x.at(1) == x.at(0) && x.at(2) == Place(x.at(0).obj, x.at(0).off + 4),
      v => v,
      (l: Loc, m: Loc, vs) => (l.v == m.v, MustAlias),
      (l, m) => false, v => false, (u, v) => false,
      (l: Loc, m: Loc) => if TwoMembers(l, m) then NoAlias else MayAlias,
      (u, v) => false, (l, m) => false, (l, m) => MayAlias)
  }

  lemma MembersAreTrusted()
    ensures Closed(MEMBERS_GRAPH, MembersOracles()) && Trusted(MEMBERS_GRAPH, MembersOracles())
    ensures PhiFree(MEMBERS_GRAPH)
    ensures exists x: Execution :: Follows(x, MEMBERS_GRAPH, MembersOracles())
  {
    var g, o := MEMBERS_GRAPH, MembersOracles();
    MembersAreClosed();
    forall l: Loc, m: Loc | l.v in g && m.v in g && g[l.v].Computed? ensures TailTrusted(l, m, g, o) {
      MembersApart(l, m);
    }
    MembersHappen();
  }

  lemma MembersAreClosed()
    ensures Closed(MEMBERS_GRAPH, MembersOracles()) && PhiFree(MEMBERS_GRAPH)
  {
    var g, o := MEMBERS_GRAPH, MembersOracles();
    forall v | v in g ensures NodeClosed(v, g, o) {
    }
  }

  lemma MembersHappen()
    ensures exists x: Execution :: Follows(x, MEMBERS_GRAPH, MembersOracles())
  {
    var g, o := MEMBERS_GRAPH, MembersOracles();
    var x := Execution(v => if v == 2 then Place(0, 4) else Place(0, 0), c => true);
    forall v | v in g ensures Obeys(x, v, g, o) {
    }
    assert Follows(x, g, o);
  }

  lemma MembersApart(l: Loc, m: Loc)
    requires l.v in MEMBERS_GRAPH && m.v in MEMBERS_GRAPH && MEMBERS_GRAPH[l.v].Computed?
    ensures TailTrusted(l, m, MEMBERS_GRAPH, MembersOracles())
  {
    var g, o := MEMBERS_GRAPH, MembersOracles();
    var r := o.tail(l, m);
    forall x: Execution | Follows(x, g, o) ensures Says(r, x.at(l.v), l.size, x.at(m.v), m.size) {
    }
    assert TailSays(r, l, m, g, o);
  }

  /** The bases are the same, so the query goes on to the comparison, which is its answer. */
  method ComparisonIsAnswered() returns (r: Alias)
    ensures r == NoAlias
  {
    MembersAreTrusted();
    var query := new Query(MEMBERS_GRAPH, MembersOracles(), {Unknown, Known(4)}, {NO_TAG});
    var l, m := Loc(1, Known(4), NO_TAG), Loc(2, Known(4), NO_TAG);
    assert query.ComputedTells(l, m, query.visited, NoAlias);
    assert query.Tells(l, m, query.visited, NoAlias);
    r := query.AliasCheck(l, m);
  }
}
