/** The comparison of computed addresses is one that the recursive query can trust. */
module AliasTail {
  import opened Basics
  import opened Modular
  import opened GepDecomposition
  import opened GepPointers
  import opened GepDifference
  import opened GepVerdict
  import opened GepAlias
  import opened GepFields
  import opened AliasQuery

  // ------------------------------------------------------------------ places and addresses

  /** What the values of a graph compute, and in every execution the values of variables, where
      pointers that are not computed point, and where objects lie. */
  datatype Setting = Setting(
    ptr: Value -> Ptr,
    env: Execution -> Env,
    at: Execution -> (nat -> int),
    base: (Execution, nat) -> int)

  /** The address of a value is where its place is. */
  ghost predicate Placed(z: Setting, x: Execution, v: Value, w: nat)
    requires w > 0
  {
    Cong(Address(z.ptr(v), w, z.env(x), z.at(x)), z.base(x, x.at(v).obj) + x.at(v).off, Pow2(w))
  }

  /** The graph knows which values are computed and from what. */
  ghost predicate Describes(z: Setting, g: Graph, v: Value)
    requires v in g
  {
    && (z.ptr(v).Gep? <==> g[v].Computed?)
    && (g[v].Computed? ==> Underlying(z.ptr(v), MAX_LOOKUP) == z.ptr(g[v].base))
  }

  /** In an execution the facts are true, the values are where they point, and objects take less
      than half of memory. */
  ghost predicate Sited(z: Setting, f: Facts, x: Execution, l: Loc, m: Loc, g: Graph, w: nat)
    requires w > 0 && l.v in g && m.v in g && g[l.v].Computed?
  {
    && TrueOf(f, z.env(x))
    && Placed(z, x, l.v, w) && Placed(z, x, m.v, w) && Placed(z, x, g[l.v].base, w) && Placed(z, x, Under(g, m.v), w)
    && -Pow2(w - 1) < x.at(l.v).off - x.at(m.v).off < Pow2(w - 1)
  }

  // ---------------------------------------------------------------------- exact differences

  /** Accesses that share a byte of an object have addresses that do. */
  lemma SharedByte(a: int, n: nat, b: int, m: nat, base: int, p: int, q: int, w: nat)
    requires n > 0 && m > 0 && Cong(a, base + p, Pow2(w)) && Cong(b, base + q, Pow2(w)) && q < p + n && p < q + m
    ensures Overlap(a, n, b, m, w)
  {
    var g, i, j := Pow2(w), if p < q then q - p else 0, if p < q then 0 else p - q;
    CongRefl(i, g);
    CongRefl(j, g);
    CongAdd(a, base + p, i, i, g);
    CongAdd(b, base + q, j, j, g);
    CongSym(b + j, base + q + j, g);
    CongTrans(a + i, base + p + i, b + j, g);
    assert Meet(a, i, b, j, w);
  }

  /** The rules are right about two places in an object that are the computed difference apart,
      for all sizes, also those that are not known. */
  lemma VerdictSays(f: Facts, vs: seq<Variable>, d: int, p: Place, s: Size, q: Place, t: Size, w: nat, env: Env)
    requires OnlySame(f) && TrueOf(f, env) && 0 < w <= 64 && Usable(vs, w) && Abs(d) <= WORD / 2
    requires (s.Known? ==> s.n < WORD / 2) && (t.Known? ==> t.n < WORD / 2)
    requires p.obj == q.obj && p.off - q.off == d + Sum(vs, w, env)
    ensures Says(Verdict(f, vs, d, s, t, w), p, s, q, t)
  {
    if vs == [] {
    } else if ModuloRule(vs, d, s, t) {
      CongRefl(p.off, Pow2(w));
      ModuloIsRight(vs, d, s, t, p.off, s.n, q.off, t.n, w, env);
      CongRefl(q.off, Pow2(w));
      if s.n > 0 && t.n > 0 && !Disjoint(p, s.n, q, t.n) {
        SharedByte(p.off, s.n, q.off, t.n, 0, p.off, q.off, w);
      }
    } else if AllPositive(f, vs, w) && d > 0 && t.Known? && t.n <= d {
      PositiveSum(f, vs, w, env);
    } else if ConstantOffsetRule(f, vs, d, s, t, w) {
      ConstantOffsetSeparates(f, vs, d, s, t, w, env);
    }
  }

  lemma ExactOffsets(a: int, b: int, x: int, y: int, base: int, moved: int, w: nat)
    requires w > 0 && Cong(a, base + x, Pow2(w)) && Cong(b, base + y, Pow2(w)) && Cong(a, b + moved, Pow2(w))
    requires -Pow2(w - 1) < x - y < Pow2(w - 1) && -Pow2(w - 1) <= moved <= Pow2(w - 1)
    ensures x - y == moved
  {
    var g := Pow2(w);
    CongSym(a, base + x, g);
    CongTrans(base + x, a, b + moved, g);
    CongRefl(moved, g);
    CongAdd(b, base + y, moved, moved, g);
    CongTrans(base + x, b + moved, base + y + moved, g);
    CongRefl(-base - y, g);
    CongAdd(base + x, base + y + moved, -base - y, -base - y, g);
    CongClose(x - y, moved, g);
  }

  /** In an execution with the bases in one place, the places are the computed difference apart. */
  lemma PlacesDiffer(z: Setting, f: Facts, x: Execution, l: Loc, m: Loc, g: Graph, o: Oracles, d: int,
                     vs: seq<Variable>, w: nat)
    requires 0 < w <= 64 && Closed(g, o) && l.v in g && m.v in g && g[l.v].Computed?
    requires Follows(x, g, o) && x.at(g[l.v].base) == x.at(Under(g, m.v))
    requires Describes(z, g, l.v) && Describes(z, g, m.v) && Sited(z, f, x, l, m, g, w)
    requires DifferBy(f, z.ptr(l.v), z.ptr(m.v), d, vs, w) && Abs(d + Sum(vs, w, z.env(x))) <= Pow2(w - 1)
    ensures x.at(l.v).obj == x.at(m.v).obj && x.at(l.v).off - x.at(m.v).off == d + Sum(vs, w, z.env(x))
  {
    var p, q, env, at := z.ptr(l.v), z.ptr(m.v), z.env(x), z.at(x);
    assert Obeys(x, l.v, g, o) && Obeys(x, m.v, g, o);
    var u, v := z.ptr(g[l.v].base), z.ptr(Under(g, m.v));
    var here := z.base(x, x.at(g[l.v].base).obj) + x.at(g[l.v].base).off;
    CongSym(Address(v, w, env, at), here, Pow2(w));
    CongTrans(Address(u, w, env, at), here, Address(v, w, env, at), Pow2(w));
    assert Underlying(p, MAX_LOOKUP) == u && Anchor(q) == v;
    assert SameBase(p, q, w, env, at);
    ExactOffsets(Address(p, w, env, at), Address(q, w, env, at), x.at(l.v).off, x.at(m.v).off,
                 z.base(x, x.at(l.v).obj), d + Sum(vs, w, env), w);
  }

  // ---------------------------------------------------------------------------- the same base

  /** Two computed addresses as paths from the same pointer. */
  datatype Paths = Paths(base: Ptr, one: Path, two: Path)

  ghost predicate Follow(z: Setting, k: Paths, u: Value, v: Value) {
    && WellTyped(k.one) && WellTyped(k.two) && k.one.source == k.two.source
    && z.ptr(u) == Pointer(k.base, k.one) && z.ptr(v) == Pointer(k.base, k.two)
  }

  /** No execution takes index arithmetic along the paths around memory. */
  ghost predicate PathsStay(z: Setting, k: Paths, g: Graph, o: Oracles, w: nat)
    requires w > 0 && WellTyped(k.one) && WellTyped(k.two)
  {
    forall x: Execution {:trigger Follows(x, g, o)} :: Follows(x, g, o) ==>
      Abs(Address(Pointer(k.base, k.one), w, z.env(x), z.at(x)) - Address(Pointer(k.base, k.two), w, z.env(x), z.at(x)))
        <= Pow2(w - 1)
  }

  lemma PlacesOverlap(z: Setting, x: Execution, u: Value, n: nat, v: Value, m: nat, w: nat)
    requires w > 0 && Placed(z, x, u, w) && Placed(z, x, v, w) && n > 0 && m > 0
    requires !Overlap(Address(z.ptr(u), w, z.env(x), z.at(x)), n, Address(z.ptr(v), w, z.env(x), z.at(x)), m, w)
    ensures Disjoint(x.at(u), n, x.at(v), m)
  {
    if !Disjoint(x.at(u), n, x.at(v), m) {
      SharedByte(Address(z.ptr(u), w, z.env(x), z.at(x)), n, Address(z.ptr(v), w, z.env(x), z.at(x)), m,
                 z.base(x, x.at(u).obj), x.at(u).off, x.at(v).off, w);
    }
  }

  /** The comparison of paths is one that the recursive query can trust. */
  method TailOfPaths(z: Setting, f: Facts, differ: (Expr, Expr) -> bool, k: Paths, l: Loc, m: Loc, g: Graph,
                     ghost o: Oracles, w: nat) returns (r: Alias)
    requires w > 0 && l.v in g && m.v in g && g[l.v].Computed? && Follow(z, k, l.v, m.v)
    requires (l.size.Known? ==> l.size.n < Pow2(w - 1)) && (m.size.Known? ==> m.size.n < Pow2(w - 1))
    requires forall x: Execution {:trigger Follows(x, g, o)} :: Follows(x, g, o) ==>
      Sited(z, f, x, l, m, g, w) && TrulyDiffer(differ, w, z.env(x))
    ensures PathsStay(z, k, g, o, w) ==> TailSays(r, l, m, g, o)
  {
    r := AliasSameBase(differ, k.one, l.size, k.two, m.size, w);
    if r.NoAlias? && PathsStay(z, k, g, o, w) {
      forall x: Execution | Follows(x, g, o) && x.at(g[l.v].base) == x.at(Under(g, m.v))
        ensures Says(r, x.at(l.v), l.size, x.at(m.v), m.size)
      {
        var a, b := Address(Pointer(k.base, k.one), w, z.env(x), z.at(x)),
          Address(Pointer(k.base, k.two), w, z.env(x), z.at(x));
        if l.size.n > 0 && m.size.n > 0 {
          assert Fits(l.size, l.size.n, w) && Fits(m.size, m.size.n, w);
          assert Right(r, a, l.size.n, b, m.size.n, w);
          PlacesOverlap(z, x, l.v, l.size.n, m.v, m.size.n, w);
        }
      }
    }
  }

  // ----------------------------------------------------------------------------- the instance

  /** No execution takes the computed difference around memory. */
  ghost predicate Stays(z: Setting, d: int, vs: seq<Variable>, g: Graph, o: Oracles, w: nat)
    requires w > 0
  {
    forall x: Execution {:trigger Follows(x, g, o)} :: Follows(x, g, o) ==> Abs(d + Sum(vs, w, z.env(x))) <= Pow2(w - 1)
  }

  /** The answer about two computed addresses, with the offset and the variables of their
      difference; paths from the same pointer are compared first.  If no execution takes the
      difference around memory, the answer is what the recursive query asks of `tail`. */
  method Tail(z: Setting, f: Facts, differ: (Expr, Expr) -> bool, same: Option<Paths>, l: Loc, m: Loc, g: Graph,
              ghost o: Oracles, w: nat)
    returns (r: Alias, d: int, vs: seq<Variable>)
    requires 0 < w <= 64 && OnlySame(f) && Closed(g, o) && l.v in g && m.v in g && g[l.v].Computed?
    requires Describes(z, g, l.v) && Describes(z, g, m.v) && (same.Some? ==> Follow(z, same.value, l.v, m.v))
    requires (l.size.Known? ==> l.size.n < Pow2(w - 1)) && (m.size.Known? ==> m.size.n < Pow2(w - 1))
    requires forall x: Execution {:trigger Follows(x, g, o)} :: Follows(x, g, o) ==>
      Sited(z, f, x, l, m, g, w) && TrulyDiffer(differ, w, z.env(x))
    ensures (same.Some? ==> PathsStay(z, same.value, g, o, w)) && Stays(z, d, vs, g, o, w) ==> TailSays(r, l, m, g, o)
  {
    if same.Some? {
      r := TailOfPaths(z, f, differ, same.value, l, m, g, o, w);
      if !r.MayAlias? { return r, 0, []; }
    }
    r, d, vs := AliasGep(f, z.ptr(l.v), l.size, z.ptr(m.v), m.size, w);
    if Stays(z, d, vs, g, o, w) && !r.MayAlias? {
      TailIsTrusted(z, f, l, m, g, o, r, d, vs, w);
    }
  }

  lemma TailIsTrusted(z: Setting, f: Facts, l: Loc, m: Loc, g: Graph, o: Oracles, r: Alias, d: int, vs: seq<Variable>,
                      w: nat)
    requires 0 < w <= 64 && OnlySame(f) && Closed(g, o) && l.v in g && m.v in g && g[l.v].Computed?
    requires Describes(z, g, l.v) && Describes(z, g, m.v)
    requires (l.size.Known? ==> l.size.n < Pow2(w - 1)) && (m.size.Known? ==> m.size.n < Pow2(w - 1))
    requires forall x: Execution {:trigger Follows(x, g, o)} :: Follows(x, g, o) ==> Sited(z, f, x, l, m, g, w)
    requires DifferBy(f, z.ptr(l.v), z.ptr(m.v), d, vs, w) && Usable(vs, w) && Abs(d) <= WORD / 2
    requires Stays(z, d, vs, g, o, w)
    requires r == Verdict(f, vs, d, l.size, m.size, w)
    ensures TailSays(r, l, m, g, o)
  {
    HalfWord(w);
    forall x: Execution | Follows(x, g, o) && x.at(g[l.v].base) == x.at(Under(g, m.v))
      ensures Says(r, x.at(l.v), l.size, x.at(m.v), m.size)
    {
      PlacesDiffer(z, f, x, l, m, g, o, d, vs, w);
      VerdictSays(f, vs, d, x.at(l.v), l.size, x.at(m.v), m.size, w, z.env(x));
    }
  }
}
