/** Two paths from the same pointer through arrays into a structure or an array. */
module GepFields {
  import opened Basics
  import opened Modular
  import opened OddMultiples
  import opened GepDecomposition
  import opened GepPointers
  import opened GepVerdict

  // ------------------------------------------------------------------- types and paths

  datatype Type =
    | Scalar(store: nat, alloc: nat)
    | Array(count: nat, elem: Type)
    | Struct(size: nat, offsets: seq<nat>, members: seq<Type>)

  /** The distance between elements of this type. */
  function AllocSize(t: Type): nat {
    match t case Scalar(_, n) => n case Array(k, e) => ArraySize(k, AllocSize(e)) case Struct(n, _, _) => n
  }

  function ArraySize(count: nat, each: nat): (r: nat) { SignRule(count, each); count * each }

  /** The bytes that a value of this type fills. */
  function StoreSize(t: Type): nat {
    match t case Scalar(n, _) => n case Array(k, e) => AllocSize(t) case Struct(n, _, _) => n
  }

  predicate LaidOut(t: Type) {
    match t
    case Scalar(n, m) => n <= m
    case Array(_, e) => LaidOut(e)
    case Struct(n, offs, ms) => |ms| == |offs| && (forall i :: 0 <= i < |offs| ==> offs[i] <= n && LaidOut(ms[i]))
  }

  /** The first index steps over whole objects of the source type. */
  datatype Path = Path(source: Type, indices: seq<Expr>)

  predicate Selects(t: Type, e: Expr) { t.Struct? && e.Const? && e.c < |t.offsets| && e.c < |t.members| }

  function Inside(t: Type, e: Expr): Type {
    if t.Array? then t.elem else if Selects(t, e) then t.members[e.c] else t
  }

  function StepIn(t: Type, e: Expr): Index {
    if t.Array? then Element(AllocSize(t.elem), e) else Field(if Selects(t, e) then t.offsets[e.c] else 0)
  }

  predicate Typed(t: Type, xs: seq<Expr>) {
    xs == [] || ((t.Array? || Selects(t, xs[0])) && Typed(Inside(t, xs[0]), xs[1..]))
  }

  function Lower(t: Type, xs: seq<Expr>): seq<Index> {
    if xs == [] then [] else [StepIn(t, xs[0])] + Lower(Inside(t, xs[0]), xs[1..])
  }

  /** The pointer that a path computes. */
  function Pointer(base: Ptr, g: Path): Ptr
    requires g.indices != []
  {
    Gep(base, true, [Element(AllocSize(g.source), g.indices[0])] + Lower(g.source, g.indices[1..]))
  }

  predicate WellTyped(g: Path) { LaidOut(g.source) && g.indices != [] && Typed(g.source, g.indices[1..]) }

  // ------------------------------------------------------------------------- the rule

  predicate FieldsApart(size: nat, a: nat, n: nat, b: nat, m: nat) {
    a < b && a + n <= b && (b + m <= size || b + m - size <= a)
  }

  /** Two fields of a structure are apart wherever in an array their structures are, exactly
      when one of them ends before the other begins, also across the end of a structure. */
  lemma FieldRuleIsExact(size: nat, a: nat, n: nat, b: nat, m: nat)
    requires n > 0 && m > 0 && a <= size && b <= size
    ensures FieldsApart(size, a, n, b, m) || FieldsApart(size, b, m, a, n)
      <==> forall k: int :: Separate(Times(k, size) + a, n, b, m)
  {
    if FieldsApart(size, a, n, b, m) || FieldsApart(size, b, m, a, n) {
      forall k: int ensures Separate(Times(k, size) + a, n, b, m) {
        TimesApart(k, size);
      }
    }
    if forall k: int :: Separate(Times(k, size) + a, n, b, m) {
      TimesApart(0, size);
      TimesApart(1, size);
      TimesApart(-1, size);
      assert Separate(Times(0, size) + a, n, b, m);
      assert Separate(Times(1, size) + a, n, b, m);
      assert Separate(Times(-1, size) + a, n, b, m);
    }
  }

  lemma TimesApart(k: int, size: int)
    requires size >= 0
    ensures k == 0 ==> Times(k, size) == 0
    ensures k >= 1 ==> Times(k, size) >= size
    ensures k <= -1 ==> Times(k, size) <= -size
    ensures k == 1 || k == -1 ==> Times(k, size) == k * size
  {
    if k != 0 {
      MultipleApart(size, k);
      SignRule(size, if k > 0 then k - 1 else -(k + 1));
    }
  }

  predicate Separate(a: int, n: nat, b: int, m: nat) { a + n <= b || b + m <= a }

  /** Go through `k` arrays. */
  function Peel(t: Type, k: nat): Type { if k == 0 || !t.Array? then t else Peel(t.elem, k - 1) }

  predicate AllArrays(t: Type, k: nat) { k == 0 || (t.Array? && AllArrays(t.elem, k - 1)) }

  function Offset(t: Type, xs: seq<Expr>, w: nat, env: Env): int
    requires w > 0
  {
    Offsets(Lower(t, xs), w, env)
  }

  lemma OffsetStep(t: Type, xs: seq<Expr>, w: nat, env: Env)
    requires w > 0 && xs != []
    ensures Offset(t, xs, w, env) == IndexOffset(StepIn(t, xs[0]), w, env) + Offset(Inside(t, xs[0]), xs[1..], w, env)
  {
    assert Lower(t, xs)[1..] == Lower(Inside(t, xs[0]), xs[1..]);
  }

  /** What lies at the end of a walk through arrays divides every step of the walk. */
  lemma {:induction false} StridesDivide(t: Type, xs: seq<Expr>, k: nat, w: nat, env: Env)
    requires w > 0 && k <= |xs| && AllArrays(t, k)
    ensures Cong(AllocSize(t), 0, AllocSize(Peel(t, k)))
    ensures Cong(Offset(t, xs, w, env), Offset(Peel(t, k), xs[k..], w, env), AllocSize(Peel(t, k)))
    decreases k
  {
    var s := AllocSize(Peel(t, k));
    if k == 0 {
      CongBy(AllocSize(t), 0, s, 1);
      assert xs[k..] == xs;
      CongRefl(Offset(t, xs, w, env), s);
    } else {
      var x, each := Signed(xs[0], w, env), AllocSize(t.elem);
      StridesDivide(t.elem, xs[1..], k - 1, w, env);
      assert xs[1..][k - 1..] == xs[k..];
      CongMul(each, 0, t.count, s);
      CongMul(each, 0, x, s);
      OffsetStep(t, xs, w, env);
      CongAdd(each * x, 0, Offset(t.elem, xs[1..], w, env), Offset(Peel(t, k), xs[k..], w, env), s);
    }
  }

  /** Paths with the same indices but the last differ by the last step. */
  lemma {:induction false} SamePrefix(t: Type, xs: seq<Expr>, ys: seq<Expr>, w: nat, env: Env)
    requires w > 0 && |xs| == |ys| > 0 && AllArrays(t, |xs| - 1) && xs[..|xs| - 1] == ys[..|xs| - 1]
    ensures var p := Peel(t, |xs| - 1);
      Offset(t, xs, w, env) - Offset(t, ys, w, env)
        == IndexOffset(StepIn(p, xs[|xs| - 1]), w, env) - IndexOffset(StepIn(p, ys[|xs| - 1]), w, env)
    decreases |xs|
  {
    OffsetStep(t, xs, w, env);
    OffsetStep(t, ys, w, env);
    if |xs| > 1 {
      assert xs[0] == xs[..|xs| - 1][0] == ys[0];
      assert xs[1..][..|xs| - 2] == xs[..|xs| - 1][1..];
      assert ys[1..][..|xs| - 2] == ys[..|xs| - 1][1..];
      SamePrefix(t.elem, xs[1..], ys[1..], w, env);
    }
  }

  // ----------------------------------------------------------------------- the answer

  /** Values known to be different are, in a valuation. */
  ghost predicate TrulyDiffer(differ: (Expr, Expr) -> bool, w: nat, env: Env)
    requires w > 0
  {
    forall a, b {:trigger differ(a, b)} :: differ(a, b) ==> Signed(a, w, env) != Signed(b, w, env)
  }

  function Last(g: Path): Expr
    requires g.indices != []
  {
    g.indices[|g.indices| - 1]
  }

  predicate Alike(g: Path, h: Path) { g.source == h.source && |g.indices| == |h.indices| >= 2 }

  /** Both paths go through arrays only, to different elements of the same array or to members
      of a structure that are apart in every pair of structures. */
  predicate ApartAtEnd(differ: (Expr, Expr) -> bool, g: Path, n: nat, h: Path, m: nat, w: nat)
    requires w > 0 && Alike(g, h)
  {
    var k, x, y := |g.indices| - 2, Last(g), Last(h);
    var ty := Peel(g.source, k);
    && AllArrays(g.source, k)
    && (x.Const? && y.Const? ==> Wrap(x.c % Pow2(w), w) != Wrap(y.c % Pow2(w), w))
    && match ty
       case Scalar(_, _) => false
       case Array(_, e) => n == m == StoreSize(e) && g.indices[..k + 1] == h.indices[..k + 1]
         && ((x.Const? && y.Const?) || differ(x, y))
       case Struct(size, offs, _) =>
         && Selects(ty, x) && Selects(ty, y)
         && (FieldsApart(size, offs[x.c], n, offs[y.c], m) || FieldsApart(size, offs[y.c], m, offs[x.c], n))
  }

  /** When fields are told apart: exactly if they are apart wherever their structures are. */
  lemma FieldPathsApart(differ: (Expr, Expr) -> bool, g: Path, n: nat, h: Path, m: nat, w: nat)
    requires w > 0 && Alike(g, h) && n > 0 && m > 0
    requires AllArrays(g.source, |g.indices| - 2)
    requires var ty := Peel(g.source, |g.indices| - 2);
      && LaidOut(ty) && Selects(ty, Last(g)) && Selects(ty, Last(h))
      && Last(g).c < Pow2(w - 1) && Last(h).c < Pow2(w - 1)
    ensures var ty := Peel(g.source, |g.indices| - 2);
      (forall k: int :: Separate(Times(k, ty.size) + ty.offsets[Last(g).c], n, ty.offsets[Last(h).c], m))
        <==> ApartAtEnd(differ, g, n, h, m, w)
  {
    var ty, x, y := Peel(g.source, |g.indices| - 2), Last(g), Last(h);
    FieldRuleIsExact(ty.size, ty.offsets[x.c], n, ty.offsets[y.c], m);
    SmallIndex(x.c, w);
    SmallIndex(y.c, w);
    if x.c == y.c {
      TimesApart(0, ty.size);
      assert !Separate(Times(0, ty.size) + ty.offsets[x.c], n, ty.offsets[y.c], m);
    }
  }

  lemma SmallIndex(c: nat, w: nat)
    requires w > 0 && c < Pow2(w - 1)
    ensures Wrap(c % Pow2(w), w) == c
  {
    CongMod(c, Pow2(w));
    CongClose(c % Pow2(w), c, Pow2(w));
    WrapId(c, w);
  }

  /** When elements of one array are told apart: exactly if whole elements are accessed, on the way
      there all indices are the same, and the last are constants that differ or known to. */
  lemma ElementPathsApart(differ: (Expr, Expr) -> bool, g: Path, n: nat, h: Path, m: nat, w: nat)
    requires w > 0 && Alike(g, h) && AllArrays(g.source, |g.indices| - 2)
    requires Peel(g.source, |g.indices| - 2).Array?
    ensures ApartAtEnd(differ, g, n, h, m, w)
       <==> && n == m == StoreSize(Peel(g.source, |g.indices| - 2).elem)
            && (forall i :: 0 <= i < |g.indices| - 1 ==> g.indices[i] == h.indices[i])
            && (if Last(g).Const? && Last(h).Const? then
                  forall env: Env :: Signed(Last(g), w, env) != Signed(Last(h), w, env)
                else differ(Last(g), Last(h)))
  {
    var k := |g.indices| - 1;
    assert g.indices[..k] == h.indices[..k] <==> forall i :: 0 <= i < k ==> g.indices[i] == h.indices[i] by {
      if g.indices[..k] == h.indices[..k] {
        forall i | 0 <= i < k ensures g.indices[i] == h.indices[i] {
          assert g.indices[..k][i] == h.indices[..k][i];
        }
      }
    }
    if Last(g).Const? && Last(h).Const? {
      forall env: Env
        ensures Signed(Last(g), w, env) == Wrap(Last(g).c % Pow2(w), w)
        ensures Signed(Last(h), w, env) == Wrap(Last(h).c % Pow2(w), w)
      {
      }
      var env: Env := id => 0;
      assert Signed(Last(g), w, env) == Wrap(Last(g).c % Pow2(w), w);
      assert Signed(Last(h), w, env) == Wrap(Last(h).c % Pow2(w), w);
    }
  }

  /** Compare two paths from the same pointer.  An answer of no alias holds for every valuation
      that what is known is true of and in which the difference of the addresses, before it is cut
      to a pointer, does not go around memory; `IndexWrapBreaksFields` is one in which it does. */
  method AliasSameBase(differ: (Expr, Expr) -> bool, g: Path, s: Size, h: Path, t: Size, w: nat) returns (r: Alias)
    requires w > 0 && WellTyped(g) && WellTyped(h) && g.source == h.source
    ensures r.NoAlias? || r.MayAlias?
    ensures r.NoAlias? <==> Alike(g, h) && s.Known? && t.Known? && ApartAtEnd(differ, g, s.n, h, t.n, w)
    ensures forall base: Ptr, env: Env, at: nat -> int, n: nat, m: nat
      {:trigger Address(Pointer(base, g), w, env, at), Fits(s, n, w), Fits(t, m, w)} ::
      && TrulyDiffer(differ, w, env) && Fits(s, n, w) && Fits(t, m, w)
      && Within(Address(Pointer(base, g), w, env, at) - Address(Pointer(base, h), w, env, at), n, m, w)
      ==> Right(r, Address(Pointer(base, g), w, env, at), n, Address(Pointer(base, h), w, env, at), m, w)
  {
    if |g.indices| != |h.indices| || |g.indices| < 2 || s.Unknown? || t.Unknown? { return MayAlias; }
    var x, y, k := Last(g), Last(h), |g.indices| - 2;
    if x.Const? && y.Const? && Wrap(x.c % Pow2(w), w) == Wrap(y.c % Pow2(w), w) { return MayAlias; }
    var ty, i := g.source, 0;
    while i < k
      invariant 0 <= i <= k && AllArrays(g.source, i) && ty == Peel(g.source, i)
    {
      if !ty.Array? { PeelStops(g.source, i, k); return MayAlias; }
      PeelStep(g.source, i);
      ty := ty.elem;
      i := i + 1;
    }
    if ty.Array? {
      if s.n != StoreSize(ty.elem) || t.n != StoreSize(ty.elem) { return MayAlias; }
      if g.indices[..k + 1] != h.indices[..k + 1] { return MayAlias; }
      if !(x.Const? && y.Const?) && !differ(x, y) { return MayAlias; }
      r := NoAlias;
      forall base: Ptr, env: Env, at: nat -> int, n: nat, m: nat
        | TrulyDiffer(differ, w, env) && Fits(s, n, w) && Fits(t, m, w)
          && Within(Address(Pointer(base, g), w, env, at) - Address(Pointer(base, h), w, env, at), n, m, w)
        ensures !Overlap(Address(Pointer(base, g), w, env, at), n, Address(Pointer(base, h), w, env, at), m, w)
      {
        ElementsApart(base, g, n, h, m, w, env, at);
      }
    } else if !ty.Struct? || !x.Const? || !y.Const? {
      return MayAlias;
    } else {
      LastSelects(g, k);
      LastSelects(h, k);
      var a, b := ty.offsets[x.c], ty.offsets[y.c];
      if !FieldsApart(ty.size, a, s.n, b, t.n) && !FieldsApart(ty.size, b, t.n, a, s.n) { return MayAlias; }
      r := NoAlias;
      forall base: Ptr, env: Env, at: nat -> int, n: nat, m: nat
        | TrulyDiffer(differ, w, env) && Fits(s, n, w) && Fits(t, m, w)
          && Within(Address(Pointer(base, g), w, env, at) - Address(Pointer(base, h), w, env, at), n, m, w)
        ensures !Overlap(Address(Pointer(base, g), w, env, at), n, Address(Pointer(base, h), w, env, at), m, w)
      {
        FieldsStayApart(base, g, n, h, m, w, env, at);
      }
    }
  }

  lemma {:induction false} PeelStep(t: Type, k: nat)
    requires AllArrays(t, k) && Peel(t, k).Array?
    ensures AllArrays(t, k + 1) && Peel(t, k + 1) == Peel(t, k).elem
    decreases k
  {
    if k > 0 {
      PeelStep(t.elem, k - 1);
    }
  }

  /** A walk that meets something else on the way is not through arrays only. */
  lemma {:induction false} PeelStops(t: Type, i: nat, k: nat)
    requires i < k && !Peel(t, i).Array?
    ensures !AllArrays(t, k)
    decreases k
  {
    if t.Array? && i > 0 {
      PeelStops(t.elem, i - 1, k - 1);
    }
  }

  lemma {:induction false} PeelTyped(t: Type, xs: seq<Expr>, k: nat)
    requires LaidOut(t) && AllArrays(t, k) && k <= |xs| && Typed(t, xs)
    ensures LaidOut(Peel(t, k)) && Typed(Peel(t, k), xs[k..])
    decreases k
  {
    if k > 0 {
      PeelTyped(t.elem, xs[1..], k - 1);
      assert xs[1..][k - 1..] == xs[k..];
    } else {
      assert xs[k..] == xs;
    }
  }

  /** A structure at the end of the walk is entered by a constant that names a member. */
  lemma LastSelects(g: Path, k: nat)
    requires WellTyped(g) && |g.indices| == k + 2 && AllArrays(g.source, k) && Peel(g.source, k).Struct?
    ensures Selects(Peel(g.source, k), Last(g)) && LaidOut(Peel(g.source, k))
  {
    PeelTyped(g.source, g.indices[1..], k);
    assert g.indices[1..][k..] == [Last(g)];
  }

  lemma ElementsApart(base: Ptr, g: Path, n: nat, h: Path, m: nat, w: nat, env: Env, at: nat -> int)
    requires w > 0 && WellTyped(g) && WellTyped(h) && Alike(g, h)
    requires var k := |g.indices| - 2;
      && AllArrays(g.source, k) && Peel(g.source, k).Array? && g.indices[..k + 1] == h.indices[..k + 1]
      && n == m == StoreSize(Peel(g.source, k).elem)
    requires Signed(Last(g), w, env) != Signed(Last(h), w, env)
    requires Within(Address(Pointer(base, g), w, env, at) - Address(Pointer(base, h), w, env, at), n, m, w)
    ensures !Overlap(Address(Pointer(base, g), w, env, at), n, Address(Pointer(base, h), w, env, at), m, w)
  {
    var ty := Peel(g.source, |g.indices| - 2);
    var p, q := Address(Pointer(base, g), w, env, at), Address(Pointer(base, h), w, env, at);
    ElementStep(base, g, h, w, env, at);
    StepsApart(AllocSize(ty.elem), Signed(Last(g), w, env), Signed(Last(h), w, env));
    StoredWithin(ty.elem) by {
      PeelTyped(g.source, g.indices[1..], |g.indices| - 2);
    }
    CongRefl(p, Pow2(w));
    MovedApart(p, n, q, m, p - q, w);
  }

  /** Elements of one array are as far apart as their indices. */
  lemma ElementStep(base: Ptr, g: Path, h: Path, w: nat, env: Env, at: nat -> int)
    requires w > 0 && Alike(g, h)
    requires var k := |g.indices| - 2;
      AllArrays(g.source, k) && Peel(g.source, k).Array? && g.indices[..k + 1] == h.indices[..k + 1]
    ensures var each := AllocSize(Peel(g.source, |g.indices| - 2).elem);
      Address(Pointer(base, g), w, env, at) - Address(Pointer(base, h), w, env, at)
        == each * Signed(Last(g), w, env) - each * Signed(Last(h), w, env)
  {
    var k, xs, ys := |g.indices| - 2, g.indices[1..], h.indices[1..];
    assert xs[..k] == g.indices[..k + 1][1..] && ys[..k] == h.indices[..k + 1][1..];
    assert g.indices[0] == g.indices[..k + 1][0] == h.indices[..k + 1][0] == h.indices[0];
    SamePrefix(g.source, xs, ys, w, env);
    PointerAddress(base, g, w, env, at);
    PointerAddress(base, h, w, env, at);
  }

  lemma StoredWithin(t: Type)
    requires LaidOut(t)
    ensures StoreSize(t) <= AllocSize(t)
  {
  }

  lemma StepsApart(each: int, x: int, y: int)
    requires x != y && each >= 0
    ensures each * x - each * y >= each || each * x - each * y <= -each
  {
    MultipleApart(each, x - y);
    assert each * (x - y) == each * x - each * y;
  }

  lemma MultipleApart(each: int, d: int)
    requires d != 0 && each >= 0
    ensures each * d >= each || each * d <= -each
  {
    if d > 0 {
      SignRule(each, d - 1);
      assert each * d == each * (d - 1) + each;
    } else {
      SignRule(-each, d + 1);
      assert each * d == each * (d + 1) - each;
    }
  }

  lemma PointerAddress(base: Ptr, g: Path, w: nat, env: Env, at: nat -> int)
    requires w > 0 && g.indices != []
    ensures Address(Pointer(base, g), w, env, at)
         == Address(base, w, env, at) + AllocSize(g.source) * Signed(g.indices[0], w, env) + Offset(g.source,
           g.indices[1..], w, env)
  {
    assert Pointer(base, g).indices[1..] == Lower(g.source, g.indices[1..]);
  }

  lemma FieldsStayApart(base: Ptr, g: Path, n: nat, h: Path, m: nat, w: nat, env: Env, at: nat -> int)
    requires w > 0 && WellTyped(g) && WellTyped(h) && Alike(g, h) && n > 0 && m > 0
    requires AllArrays(g.source, |g.indices| - 2) && Selects(Peel(g.source, |g.indices| - 2), Last(g))
    requires Selects(Peel(g.source, |g.indices| - 2), Last(h))
    requires var ty := Peel(g.source, |g.indices| - 2);
      && LaidOut(ty)
      && (FieldsApart(ty.size, ty.offsets[Last(g).c], n, ty.offsets[Last(h).c], m)
           || FieldsApart(ty.size, ty.offsets[Last(h).c], m, ty.offsets[Last(g).c], n))
    requires Within(Address(Pointer(base, g), w, env, at) - Address(Pointer(base, h), w, env, at), n, m, w)
    ensures !Overlap(Address(Pointer(base, g), w, env, at), n, Address(Pointer(base, h), w, env, at), m, w)
  {
    var ty := Peel(g.source, |g.indices| - 2);
    var a, b := ty.offsets[Last(g).c], ty.offsets[Last(h).c];
    AtField(base, g, w, env, at);
    AtField(base, h, w, env, at);
    var p, q, z := Address(Pointer(base, g), w, env, at), Address(Pointer(base, h), w, env, at),
      Address(base, w, env, at);
    CongNeg(q, z + b, ty.size);
    CongAdd(p, z + a, -q, -(z + b), ty.size);
    var k :| Times(k, ty.size) == (p - q) - (a - b);
    FieldRuleIsExact(ty.size, a, n, b, m);
    assert Separate(Times(k, ty.size) + a, n, b, m);
    CongRefl(p, Pow2(w));
    MovedApart(p, n, q, m, p - q, w);
  }

  /** A member lies at its offset in some structure of the array. */
  lemma AtField(base: Ptr, g: Path, w: nat, env: Env, at: nat -> int)
    requires w > 0 && |g.indices| >= 2 && AllArrays(g.source, |g.indices| - 2)
    requires Selects(Peel(g.source, |g.indices| - 2), Last(g))
    ensures var ty := Peel(g.source, |g.indices| - 2);
      Cong(Address(Pointer(base, g), w, env, at), Address(base, w, env, at) + ty.offsets[Last(g).c], ty.size)
  {
    var k, xs := |g.indices| - 2, g.indices[1..];
    var ty := Peel(g.source, k);
    var x, z, off := Signed(g.indices[0], w, env), Address(base, w, env, at), ty.offsets[Last(g).c];
    StridesDivide(g.source, xs, k, w, env);
    assert xs[k..] == [Last(g)];
    OffsetStep(ty, xs[k..], w, env);
    assert Offset(ty, xs[k..], w, env) == off;
    CongMul(AllocSize(g.source), 0, x, ty.size);
    CongAdd(AllocSize(g.source) * x, 0, Offset(g.source, xs, w, env), off, ty.size);
    CongRefl(z, ty.size);
    CongAdd(z, z, AllocSize(g.source) * x + Offset(g.source, xs, w, env), off, ty.size);
    PointerAddress(base, g, w, env, at);
  }

  // ------------------------------------------------------------ differences that go around memory

  /** Some byte of two accesses is the same, at a distance less than their sizes. */
  lemma NearOverlaps(moved: int, e: int, a: int, n: nat, b: int, m: nat, w: nat)
    requires w > 0 && Fits(Known(n), n, w) && Fits(Known(m), m, w) && Cong(a, b + moved, Pow2(w))
    requires Cong(moved, e, Pow2(w)) && 0 < e + n && e < m
    ensures Overlap(a, n, b, m, w)
  {
    CongRefl(b, Pow2(w));
    CongAdd(b, b, moved, e, Pow2(w));
    CongTrans(a, b + moved, b + e, Pow2(w));
    WrapId(e, w);
    NoAliasIsRightExactly(e, a, n, b, m, w);
  }

  /** Two fields are apart however far their structures are, in addresses cut to a pointer, exactly
      when they lie in different parts of every block of the largest power of two in the size. */
  lemma FieldRuleInMemory(size: nat, a: nat, n: nat, b: nat, m: nat, w: nat)
    requires w > 0 && 0 < size < Pow2(w) && Fits(Known(n), n, w) && Fits(Known(m), m, w)
    ensures (forall k: int :: !Overlap(Times(k, size) + a, n, b, m, w))
       <==> var off := (a - b) % LowBit(size); m <= off && n <= LowBit(size) - off
  {
    var j := LowBitExactly(size, w);
    var g, off := LowBit(size), (a - b) % LowBit(size);
    CongMod(a - b, g);
    if m <= off && n <= g - off {
      forall k: int ensures !Overlap(Times(k, size) + a, n, b, m, w) {
        FieldsInBlocks(k, size, a, n, b, m, off, j, w);
      }
    } else {
      var k := FieldsMeet(size, a, n, b, m, off, j, w);
    }
  }

  lemma FieldsMeet(size: nat, a: nat, n: nat, b: nat, m: nat, off: int, j: nat, w: nat) returns (k: int)
    requires 0 < w && j <= w && Exactly(size, j) && Cong(off, a - b, Pow2(j)) && 0 <= off < Pow2(j)
    requires Fits(Known(n), n, w) && Fits(Known(m), m, w) && !(m <= off && n <= Pow2(j) - off)
    ensures Overlap(Times(k, size) + a, n, b, m, w)
  {
    var e := if off < m then off else off - Pow2(j);
    k := FieldsBrought(size, a, b, off, e, j, w);
    var p := Times(k, size) + a;
    CongRefl(p, Pow2(w));
    assert b + (p - b) == p;
    NearOverlaps(p - b, e, p, n, b, m, w);
  }

  lemma FieldsInBlocks(k: int, size: nat, a: nat, n: nat, b: nat, m: nat, off: int, j: nat, w: nat)
    requires j <= w && Cong(size, 0, Pow2(j)) && Cong(off, a - b, Pow2(j)) && m <= off && n <= Pow2(j) - off
    ensures !Overlap(Times(k, size) + a, n, b, m, w)
  {
    var p, g := Times(k, size) + a, Pow2(j);
    assert Cong(p, b + off, g) by {
      CongMul(size, 0, k, g);
      CongSym(off, a - b, g);
      CongRefl(b, g);
      CongAdd(a - b, off, b, b, g);
      CongAdd(size * k, 0, a, b + off, g);
      assert size * k == Times(k, size);
    }
    forall i, l | 0 <= i < n && 0 <= l < m ensures !Meet(p, i, b, l, w) {
      if Meet(p, i, b, l, w) {
        CoarserStep(p + i, b + l, w, j);
        ApartBy(p, b, off, i, l, g);
        CongClose(off + i, l, g);
      }
    }
  }

  /** Some distance of the structures brings the fields together. */
  lemma FieldsBrought(size: nat, a: nat, b: nat, off: int, e: int, j: nat, w: nat) returns (k: int)
    requires j <= w && Exactly(size, j) && Cong(off, a - b, Pow2(j)) && (e == off || e == off - Pow2(j))
    ensures Cong(Times(k, size) + a - b, e, Pow2(w))
  {
    var g, t := Pow2(j), e - (a - b);
    CongBy(e, off, g, if e == off then 0 else -1);
    CongTrans(e, off, a - b, g);
    CongShift(e, a - b, g);
    k := SolveMultiple(size, j, t, w);
    assert size * k == Times(k, size);
    CongRefl(a - b, Pow2(w));
    CongAdd(Times(k, size), t, a - b, a - b, Pow2(w));
  }

  predicate IsIndex(x: int, w: nat)
    requires w > 0
  {
    -Pow2(w - 1) <= x < Pow2(w - 1)
  }

  /** Elements at different indices are apart, in addresses cut to a pointer, exactly when they are
      single bytes an odd distance apart. */
  lemma ElementRuleInMemory(each: nat, n: nat, w: nat)
    requires w > 0 && 0 < n <= each < Pow2(w) && Fits(Known(n), n, w)
    ensures (forall x, y :: IsIndex(x, w) && IsIndex(y, w) && x != y ==>
              !Overlap(Times(each, x), n, Times(each, y), n, w))
       <==> each % 2 == 1 && n == 1
  {
    if each % 2 == 1 && n == 1 {
      forall x, y | IsIndex(x, w) && IsIndex(y, w) && x != y
        ensures !Overlap(Times(each, x), n, Times(each, y), n, w)
      {
        BytesApart(each, x, y, w);
      }
    } else {
      var y := ElementsMeet(each, n, w);
      assert Overlap(Times(each, 0), n, Times(each, y), n, w);
    }
  }

  lemma BytesApart(each: nat, x: int, y: int, w: nat)
    requires w > 0 && each % 2 == 1 && IsIndex(x, w) && IsIndex(y, w) && x != y
    ensures !Overlap(Times(each, x), 1, Times(each, y), 1, w)
  {
    if Cong(Times(each, x), Times(each, y), Pow2(w)) {
      OddCancels(each, x, y, w);
      CongClose(x, y, Pow2(w));
    }
    forall i, j | 0 <= i < 1 && 0 <= j < 1 ensures !Meet(Times(each, x), i, Times(each, y), j, w) {
    }
  }

  /** An index whose element meets the first one. */
  lemma ElementsMeet(each: nat, n: nat, w: nat) returns (y: int)
    requires w > 0 && 0 < each < Pow2(w) && Fits(Known(n), n, w) && !(each % 2 == 1 && n == 1)
    ensures IsIndex(y, w) && y != 0 && Overlap(Times(each, 0), n, Times(each, y), n, w)
  {
    var g := Pow2(w);
    var j := LowBitExactly(each, w);
    if each % 2 == 0 {
      y := -Pow2(w - j);
      Pow2Grows(w - j, w - 1);
      Pow2Add(w - j, j);
      ExactlyTimes(each, j);
      var o := each / Pow2(j);
      FullTurn(each, o, Pow2(j), Pow2(w - j), g);
      NearOverlaps(o * g, 0, 0, n, Times(each, y), n, w);
    } else {
      var x := Solve(each, -1, w);
      CutFactor(each, x, -1, w);
      y := Wrap(x, w);
      assert y != 0 by { NotZero(each, y, w); }
      CongNeg(each * y, -1, g);
      CongRefl(0, g);
      NearOverlaps(-(each * y), 1, 0, n, Times(each, y), n, w);
    }
  }

  lemma FullTurn(each: int, o: int, p: int, q: int, g: int)
    requires each == o * p && g == q * p
    ensures Times(each, -q) == -(o * g) && Cong(o * g, 0, g) && Cong(0, Times(each, -q) + o * g, g)
  {
    assert o * p * (-q) == -(o * (q * p));
    CongBy(o * g, 0, g, o);
    CongRefl(0, g);
  }

  lemma NotZero(each: int, y: int, w: nat)
    requires w > 0 && Cong(each * y, -1, Pow2(w))
    ensures y != 0
  {
    if y == 0 {
      assert Pow2(w) == 2 * Pow2(w - 1);
      CongClose(0, -1, Pow2(w));
    }
  }

  /** A structure of three words of four bytes. */
  const EXAMPLE_TYPE := Struct(12, [0, 4, 8], [Scalar(4, 4), Scalar(4, 4), Scalar(4, 4)])

  /** The first word of the structure at a variable index, and the second of the structure there. */
  const EXAMPLE_FIRST := Path(EXAMPLE_TYPE, [Leaf(0), Const(0)])

  const EXAMPLE_SECOND := Path(EXAMPLE_TYPE, [Const(0), Const(1)])

  /** The rule for fields answers no alias about different words of structures in an array; for an
      index that takes the address around memory they are the same word. */
  lemma IndexWrapBreaksFields(differ: (Expr, Expr) -> bool, env: Env, at: nat -> int)
    requires env(0) == 3074457345618258603 && at(0) == 0
    ensures var p, q := Pointer(Root(0), EXAMPLE_FIRST), Pointer(Root(0), EXAMPLE_SECOND);
      && WellTyped(EXAMPLE_FIRST) && WellTyped(EXAMPLE_SECOND)
      && ApartAtEnd(differ, EXAMPLE_FIRST, 4, EXAMPLE_SECOND, 4, 64)
      && Cong(Address(p, 64, env, at), 4, Pow2(64)) && Address(q, 64, env, at) == 4
      && !Right(NoAlias, Address(p, 64, env, at), 4, Address(q, 64, env, at), 4, 64)
  {
    ExamplePaths(differ);
    ExampleAddresses(env, at);
    var a := Address(Pointer(Root(0), EXAMPLE_FIRST), 64, env, at);
    WordIsPow2();
    CongBy(a, 4, Pow2(64), 2);
    assert Meet(a, 0, 4, 0, 64);
    assert Overlap(a, 4, 4, 4, 64);
  }

  lemma ExamplePaths(differ: (Expr, Expr) -> bool)
    ensures WellTyped(EXAMPLE_FIRST) && WellTyped(EXAMPLE_SECOND)
    ensures ApartAtEnd(differ, EXAMPLE_FIRST, 4, EXAMPLE_SECOND, 4, 64)
  {
    assert EXAMPLE_FIRST.indices[1..] == [Const(0)] && EXAMPLE_SECOND.indices[1..] == [Const(1)];
    WordIsPow2();
    WrapId(0, 64);
    WrapId(1, 64);
  }

  lemma ExampleAddresses(env: Env, at: nat -> int)
    requires env(0) == 3074457345618258603 && at(0) == 0
    ensures Address(Pointer(Root(0), EXAMPLE_FIRST), 64, env, at) == 12 * 3074457345618258603
    ensures Address(Pointer(Root(0), EXAMPLE_SECOND), 64, env, at) == 4
  {
    WordIsPow2();
    WrapId(3074457345618258603, 64);
    WrapId(0, 64);
    assert EXAMPLE_FIRST.indices[1..] == [Const(0)] && EXAMPLE_SECOND.indices[1..] == [Const(1)];
    OffsetStep(EXAMPLE_TYPE, [Const(0)], 64, env);
    OffsetStep(EXAMPLE_TYPE, [Const(1)], 64, env);
    PointerAddress(Root(0), EXAMPLE_FIRST, 64, env, at);
    PointerAddress(Root(0), EXAMPLE_SECOND, 64, env, at);
  }
}
