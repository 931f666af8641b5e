/** Exactly when no alias is right for every value of variables of which at most the sign is known. */
module GepReach {
  import opened Basics
  import opened Modular
  import opened OddMultiples
  import opened GepDecomposition
  import opened GepPointers
  import opened GepDifference
  import opened GepVerdict
  import opened GepAnswers
  import opened GepAlias

  // -------------------------------------------------------------------- values of variables

  /** A value that what is known of the variable's sign allows. */
  predicate Allowed(f: Facts, x: Variable, c: int, w: nat)
    requires w > 0
  {
    -Pow2(w - 1) <= c < Pow2(w - 1) && (f.nonNegative(x.v, w) ==> c >= 0) && (f.negative(x.v, w) ==> c < 0)
  }

  predicate AllAllowed(f: Facts, vs: seq<Variable>, cs: seq<int>, w: nat)
    requires w > 0
  {
    |cs| == |vs| && forall i :: 0 <= i < |vs| ==> Allowed(f, vs[i], cs[i], w)
  }

  /** The variables have these values in a valuation that the facts are true of. */
  ghost predicate Takes(f: Facts, vs: seq<Variable>, cs: seq<int>, w: nat, env: Env) {
    |cs| == |vs| && TrueOf(f, env) && forall i :: 0 <= i < |vs| ==> ValueOf(vs[i].v, 0, 0, w, env) == cs[i]
  }

  predicate Consistent(f: Facts, vs: seq<Variable>, w: nat) {
    forall i :: 0 <= i < |vs| ==> !(f.nonNegative(vs[i].v, w) && f.negative(vs[i].v, w))
  }

  /** Variables as wide as a pointer that take all values independently, but for known signs. */
  ghost predicate Free(f: Facts, vs: seq<Variable>, w: nat)
    requires w > 0
  {
    && PointerWide(vs) && Consistent(f, vs, w)
    && (forall cs: seq<int> {:trigger AllAllowed(f, vs, cs, w)} ::
         AllAllowed(f, vs, cs, w) ==> exists env: Env :: Takes(f, vs, cs, w, env))
  }

  function Dot(vs: seq<Variable>, cs: seq<int>): int
    requires |cs| == |vs|
  {
    if vs == [] then 0
    else var k := |vs| - 1; Dot(vs[..k], cs[..k]) + vs[k].scale * cs[k]
  }

  lemma {:induction false} SumIsDot(vs: seq<Variable>, cs: seq<int>, w: nat, env: Env)
    requires |cs| == |vs| && forall i :: 0 <= i < |vs| ==> ValueOf(vs[i].v, 0, 0, w, env) == cs[i]
    requires PointerWide(vs)
    ensures Sum(vs, w, env) == Dot(vs, cs)
    decreases |vs|
  {
    if vs != [] {
      var k := |vs| - 1;
      SumIsDot(vs[..k], cs[..k], w, env);
    }
  }

  lemma {:induction false} DotReplace(vs: seq<Variable>, cs: seq<int>, i: nat, c: int)
    requires |cs| == |vs| && i < |vs|
    ensures Dot(vs, cs[i := cs[i] + c]) == Dot(vs, cs) + vs[i].scale * c
    decreases |vs|
  {
    var k := |vs| - 1;
    var us := cs[i := cs[i] + c];
    if i == k {
      assert us[..k] == cs[..k];
      assert vs[k].scale * (cs[k] + c) == vs[k].scale * cs[k] + vs[k].scale * c;
    } else {
      DotReplace(vs[..k], cs[..k], i, c);
      assert us[..k] == cs[..k][i := cs[..k][i] + c];
    }
  }

  lemma {:induction false} DotDivides(vs: seq<Variable>, cs: seq<int>, g: int)
    requires |cs| == |vs| && forall x :: x in vs ==> Cong(x.scale, 0, g)
    ensures Cong(Dot(vs, cs), 0, g)
    decreases |vs|
  {
    if vs == [] {
      CongRefl(0, g);
    } else {
      var k := |vs| - 1;
      DotDivides(vs[..k], cs[..k], g);
      CongMul(vs[k].scale, 0, cs[k], g);
      CongAdd(Dot(vs[..k], cs[..k]), 0, vs[k].scale * cs[k], 0, g);
    }
  }

  /** The smallest value in the half of all values that the variable is sure to take. */
  function Low(f: Facts, x: Variable, w: nat): int
    requires w > 0
  {
    if f.negative(x.v, w) then -Pow2(w - 1) else 0
  }

  function Lows(f: Facts, vs: seq<Variable>, w: nat): (r: seq<int>)
    requires w > 0
    ensures |r| == |vs|
  {
    seq(|vs|, i requires 0 <= i < |vs| => Low(f, vs[i], w))
  }

  // ----------------------------------------------------------------------- the condition

  /** One variable with an odd factor: only values of the other sign bring the accesses together. */
  predicate OneMisses(f: Facts, vs: seq<Variable>, d: int, n: nat, m: nat, w: nat)
    requires w > 0
  {
    && |vs| == 1 && vs[0].scale % 2 == 1
    && forall e :: 0 < e + n && e < m ==> Misses(f, vs[0], d, e, w)
  }

  predicate Misses(f: Facts, x: Variable, d: int, e: int, w: nat)
    requires w > 0 && x.scale % 2 == 1
  {
    !Allowed(f, x, Wrap(Solve(x.scale, e - d, w), w), w)
  }

  predicate SignKnown(f: Facts, x: Variable, w: nat) { f.nonNegative(x.v, w) || f.negative(x.v, w) }

  /** Two variables with the same or opposite odd factors and accesses of one byte, at the one
      distance that such variables cannot bridge. */
  predicate TwoMiss(f: Facts, vs: seq<Variable>, d: int, n: nat, m: nat, w: nat)
    requires w > 0
  {
    && |vs| == 2 && n == 1 == m && vs[0].scale % 2 == 1 == vs[1].scale % 2
    && SignKnown(f, vs[0], w) && SignKnown(f, vs[1], w)
    && Missed(vs[0].scale, vs[1].scale, -(d + Dot(vs, Lows(f, vs, w))), w)
  }

  /** What keeps the accesses apart. */
  predicate KeptApart(f: Facts, vs: seq<Variable>, d: int, n: nat, m: nat, w: nat)
    requires w > 0
  {
    ModuloRule(vs, d, Known(n), Known(m)) || OneMisses(f, vs, d, n, m, w) || TwoMiss(f, vs, d, n, m, w)
  }

  ghost predicate Distance(vs: seq<Variable>, d: int, a: int, b: int, w: nat, env: Env) {
    Cong(a, b + d + Sum(vs, w, env), Pow2(w))
  }

  /** The answer is right for every valuation that the facts are true of. */
  ghost predicate AlwaysRight(r: Alias, f: Facts, vs: seq<Variable>, d: int, n: nat, m: nat, w: nat) {
    forall env: Env, a: int, b: int {:trigger Distance(vs, d, a, b, w, env)} ::
      TrueOf(f, env) && Distance(vs, d, a, b, w, env) ==> Right(r, a, n, b, m, w)
  }

  // -------------------------------------------------------------------- sufficient

  /** Accesses that overlap are at some distance less than their sizes. */
  lemma OverlapDistance(moved: int, a: int, n: nat, b: int, m: nat, w: nat) returns (e: int)
    requires w > 0 && Fits(Known(n), n, w) && Fits(Known(m), m, w) && Cong(a, b + moved, Pow2(w))
    requires Overlap(a, n, b, m, w)
    ensures 0 < e + n && e < m && Cong(moved, e, Pow2(w))
  {
    NoAliasIsRightExactly(moved, a, n, b, m, w);
    e := Wrap(moved, w);
    WrapCong(moved, w);
    CongSym(e, moved, Pow2(w));
  }

  /** In a valuation that the facts are true of, the variables have values that are allowed. */
  lemma ValuesAllowed(f: Facts, vs: seq<Variable>, w: nat, env: Env) returns (cs: seq<int>)
    requires w > 0 && TrueOf(f, env) && PointerWide(vs)
    ensures AllAllowed(f, vs, cs, w) && Sum(vs, w, env) == Dot(vs, cs)
  {
    cs := seq(|vs|, i requires 0 <= i < |vs| => ValueOf(vs[i].v, 0, 0, w, env));
    forall i | 0 <= i < |vs| ensures Allowed(f, vs[i], cs[i], w) {
      assert cs[i] == Signed(vs[i].v, w, env);
    }
    SumIsDot(vs, cs, w, env);
  }

  lemma OneStaysApart(f: Facts, vs: seq<Variable>, d: int, n: nat, m: nat, w: nat, cs: seq<int>, e: int)
    requires w > 0 && OneMisses(f, vs, d, n, m, w) && AllAllowed(f, vs, cs, w) && 0 < e + n && e < m
    ensures !Cong(d + Dot(vs, cs), e, Pow2(w))
  {
    if Cong(d + Dot(vs, cs), e, Pow2(w)) {
      assert Dot(vs, cs) == vs[0].scale * cs[0] by { assert Dot(vs[..0], cs[..0]) == 0; }
      OneMeets(f, vs[0], cs[0], d, e, w);
    }
  }

  lemma OneMeets(f: Facts, x: Variable, c: int, d: int, e: int, w: nat)
    requires w > 0 && x.scale % 2 == 1 && Allowed(f, x, c, w) && Cong(d + x.scale * c, e, Pow2(w))
    ensures !Misses(f, x, d, e, w)
  {
    CongRefl(-d, Pow2(w));
    CongAdd(d + x.scale * c, e, -d, -d, Pow2(w));
    OnlySolution(x.scale, c, e - d, w);
  }

  /** A value is the cut of the factor found. */
  lemma OnlySolution(s: int, c: int, t: int, w: nat)
    requires w > 0 && s % 2 == 1 && -Pow2(w - 1) <= c < Pow2(w - 1) && Cong(s * c, t, Pow2(w))
    ensures c == Wrap(Solve(s, t, w), w)
  {
    var x, g := Solve(s, t, w), Pow2(w);
    CongSym(s * x, t, g);
    CongTrans(s * c, t, s * x, g);
    OddCancels(s, c, x, w);
    WrapCong(x, w);
    CongSym(Wrap(x, w), x, g);
    CongTrans(c, x, Wrap(x, w), g);
    CongClose(c, Wrap(x, w), g);
  }

  lemma TwoStayApart(f: Facts, vs: seq<Variable>, d: int, n: nat, m: nat, w: nat, cs: seq<int>, e: int)
    requires w > 0 && TwoMiss(f, vs, d, n, m, w) && AllAllowed(f, vs, cs, w) && 0 < e + n && e < m
    ensures !Cong(d + Dot(vs, cs), e, Pow2(w))
  {
    var low := Lows(f, vs, w);
    var x, y := cs[0] - low[0], cs[1] - low[1];
    assert Allowed(f, vs[0], cs[0], w) && Allowed(f, vs[1], cs[1], w);
    DotReplace(vs, low, 0, x);
    DotReplace(vs, low[0 := cs[0]], 1, y);
    assert low[0 := low[0] + x][1 := low[1] + y] == cs;
    MissedIsMissed(vs[0].scale, vs[1].scale, d + Dot(vs, low), x, y, w);
  }

  lemma MissedIsMissed(s: int, t: int, c: int, x: int, y: int, w: nat)
    requires w > 0 && s % 2 == 1 && 0 <= x < Pow2(w - 1) && 0 <= y < Pow2(w - 1) && Missed(s, t, -c, w)
    ensures !Cong(c + s * x + t * y, 0, Pow2(w))
  {
    var h, g := Pow2(w - 1), Pow2(w);
    if Cong(c + s * x + t * y, 0, g) {
      if (t - s) % g == 0 && (-c + s) % g == 0 {
        SameTogether(s, t, c, x, y, g);
        OddCancels(s, 1 + x + y, 0, w);
        CongClose(1 + x + y, 0, g);
      } else {
        OppositeTogether(s, t, c, x, y, h, g);
        OddCancels(s, h + x - y, 0, w);
        CongClose(h + x - y, 0, g);
      }
    }
  }

  lemma SameTogether(s: int, t: int, c: int, x: int, y: int, g: int)
    requires g > 0 && (t - s) % g == 0 && (-c + s) % g == 0 && Cong(c + s * x + t * y, 0, g)
    ensures Cong(s * (1 + x + y), s * 0, g)
  {
    var i, j := (t - s) / g, (-c + s) / g;
    var k :| Times(k, g) == c + s * x + t * y - 0;
    assert t * y == s * y + (i * g) * y;
    assert s * (1 + x + y) == s + s * x + s * y;
    assert (k + j - i * y) * g == k * g + j * g - (i * g) * y;
    CongBy(s * (1 + x + y), s * 0, g, k + j - i * y);
  }

  lemma OppositeTogether(s: int, t: int, c: int, x: int, y: int, h: int, g: int)
    requires h > 0 && g == 2 * h && s % 2 == 1
    requires (t + s) % g == 0 && (-c - h) % g == 0 && Cong(c + s * x + t * y, 0, g)
    ensures Cong(s * (h + x - y), s * 0, g)
  {
    var i, j, r := (t + s) / g, (-c - h) / g, s / 2;
    var k :| Times(k, g) == c + s * x + t * y - 0;
    assert t * y == (i * g) * y - s * y;
    assert s * h == h + r * g by { assert s * h == (2 * r + 1) * h; }
    assert s * (h + x - y) == s * h + s * x - s * y;
    assert (k + j + 1 + r - i * y) * g == k * g + j * g + g + r * g - (i * g) * y;
    CongBy(s * (h + x - y), s * 0, g, k + j + 1 + r - i * y);
  }

  // -------------------------------------------------------------------- necessary

  /** Values that bring the accesses together. */
  ghost predicate Together(f: Facts, vs: seq<Variable>, d: int, cs: seq<int>, e: int, w: nat)
    requires w > 0
  {
    AllAllowed(f, vs, cs, w) && Cong(d + Dot(vs, cs), e, Pow2(w))
  }

  lemma TogetherIsWrong(f: Facts, vs: seq<Variable>, d: int, n: nat, m: nat, w: nat, cs: seq<int>, e: int)
    requires w > 0 && Free(f, vs, w) && Fits(Known(n), n, w) && Fits(Known(m), m, w)
    requires Together(f, vs, d, cs, e, w) && 0 < e + n && e < m
    ensures !AlwaysRight(NoAlias, f, vs, d, n, m, w)
  {
    var env: Env :| Takes(f, vs, cs, w, env);
    SumIsDot(vs, cs, w, env);
    var a := d + Dot(vs, cs);
    CongRefl(a, Pow2(w));
    assert Distance(vs, d, a, 0, w, env);
    WrapId(e, w);
    CutTheSame(a, e, w);
    NoAliasIsRightExactly(a, a, n, 0, m, w);
  }

  lemma CutTheSame(x: int, y: int, w: nat)
    requires w > 0 && Cong(x, y, Pow2(w))
    ensures Wrap(x, w) == Wrap(y, w)
  {
    WrapCong(x, w);
    WrapCong(y, w);
    CongTrans(Wrap(x, w), x, y, Pow2(w));
    CongSym(Wrap(y, w), y, Pow2(w));
    CongTrans(Wrap(x, w), y, Wrap(y, w), Pow2(w));
    CongClose(Wrap(x, w), Wrap(y, w), Pow2(w));
  }

  /** Raise two of the values to reach a distance. */
  lemma Raise(f: Facts, vs: seq<Variable>, d: int, from: seq<int>, i: nat, x: int, j: nat, y: int, e: int, w: nat)
    returns (cs: seq<int>)
    requires w > 0 && AllAllowed(f, vs, from, w) && i < |vs| && j < |vs| && i != j
    requires Allowed(f, vs[i], from[i] + x, w) && Allowed(f, vs[j], from[j] + y, w)
    requires Cong(vs[i].scale * x + vs[j].scale * y, e - d - Dot(vs, from), Pow2(w))
    ensures Together(f, vs, d, cs, e, w)
  {
    var mid := from[i := from[i] + x];
    cs := mid[j := mid[j] + y];
    DotReplace(vs, from, i, x);
    DotReplace(vs, mid, j, y);
    CongRefl(d + Dot(vs, from), Pow2(w));
    CongAdd(vs[i].scale * x + vs[j].scale * y, e - d - Dot(vs, from), d + Dot(vs, from), d + Dot(vs, from), Pow2(w));
  }

  lemma LowsAllowed(f: Facts, vs: seq<Variable>, w: nat)
    requires w > 0 && Free(f, vs, w)
    ensures AllAllowed(f, vs, Lows(f, vs, w), w)
    ensures forall i, c {:trigger Allowed(f, vs[i], c, w)} ::
      0 <= i < |vs| && Low(f, vs[i], w) <= c < Low(f, vs[i], w) + Pow2(w - 1) ==> Allowed(f, vs[i], c, w)
  {
  }

  lemma RaiseLow(f: Facts, vs: seq<Variable>, i: nat, x: int, w: nat) returns (cs: seq<int>)
    requires w > 0 && Free(f, vs, w) && i < |vs| && 0 <= x < Pow2(w - 1)
    ensures AllAllowed(f, vs, cs, w) && forall j :: 0 <= j < |vs| && j != i ==> cs[j] == Low(f, vs[j], w)
    ensures Dot(vs, cs) == Dot(vs, Lows(f, vs, w)) + vs[i].scale * x
  {
    var low := Lows(f, vs, w);
    LowsAllowed(f, vs, w);
    cs := low[i := low[i] + x];
    DotReplace(vs, low, i, x);
    assert Allowed(f, vs[i], low[i] + x, w);
  }

  /** An even modulus: one variable alone reaches every distance with the right remainder. */
  lemma EvenReaches(f: Facts, vs: seq<Variable>, d: int, e: int, i: nat, k: nat, w: nat) returns (cs: seq<int>)
    requires 0 < k < w && Free(f, vs, w) && i < |vs| && Exactly(vs[i].scale, k) && Cong(e, d, Pow2(k))
    requires forall x :: x in vs ==> Cong(x.scale, 0, Pow2(k))
    ensures Together(f, vs, d, cs, e, w)
  {
    var low := Lows(f, vs, w);
    var t := e - d - Dot(vs, low);
    assert Cong(t, 0, Pow2(k)) by {
      DotDivides(vs, low, Pow2(k));
      CongShift(e, d, Pow2(k));
      CongNeg(Dot(vs, low), 0, Pow2(k));
      CongAdd(e - d, 0, -Dot(vs, low), 0, Pow2(k));
    }
    var x := SolveMultiple(vs[i].scale, k, t, w);
    Pow2Grows(w - k, w - 1);
    cs := RaiseLow(f, vs, i, x, w);
    CongRefl(d + Dot(vs, low), Pow2(w));
    CongAdd(vs[i].scale * x, t, d + Dot(vs, low), d + Dot(vs, low), Pow2(w));
  }

  /** Two factors of which one is odd. */
  lemma PairReaches(s: int, t: int, target: int, w: nat) returns (x: int, y: int)
    requires w > 0 && (s % 2 == 1 || t % 2 == 1) && !Missed(s, t, target, w)
    requires !Cong(s, 0, Pow2(w)) && !Cong(t, 0, Pow2(w))
    ensures 0 <= x < Pow2(w - 1) && 0 <= y < Pow2(w - 1) && Cong(s * x + t * y, target, Pow2(w))
  {
    if s % 2 == 1 && t % 2 == 1 {
      x, y := TwoOdd(s, t, target, w);
    } else if s % 2 == 1 {
      var j := SomeExactly(t, w);
      x, y := OddAndEven(s, t, j, target, w);
    } else {
      var j := SomeExactly(s, w);
      y, x := OddAndEven(t, s, j, target, w);
    }
  }

  /** No two distances are missed. */
  lemma MissedOnce(s: int, t: int, p: int, q: int, w: nat)
    requires w > 1 && s % 2 == 1 && Missed(s, t, p, w) && Missed(s, t, q, w)
    ensures Cong(p, q, Pow2(w))
  {
    var g := Pow2(w);
    NotBoth(s, t, w);
    if (t - s) % g == 0 {
      Difference(p + s, q + s, g);
    } else {
      Difference(p - Pow2(w - 1), q - Pow2(w - 1), g);
    }
  }

  lemma Difference(x: int, y: int, g: int)
    requires g > 0 && x % g == 0 && y % g == 0
    ensures forall p, q :: p - q == x - y ==> Cong(p, q, g)
  {
    var i, j := x / g, y / g;
    assert x - y == (i - j) * g;
    forall p, q | p - q == x - y ensures Cong(p, q, g) {
      CongBy(p, q, g, i - j);
    }
  }

  /** An odd number is not its own opposite. */
  lemma NotBoth(s: int, t: int, w: nat)
    requires w > 1 && s % 2 == 1
    ensures !((t - s) % Pow2(w) == 0 && (t + s) % Pow2(w) == 0)
  {
    if (t - s) % Pow2(w) == 0 && (t + s) % Pow2(w) == 0 {
      Difference(t + s, t - s, Pow2(w));
      assert Cong(2 * s, 0, Pow2(w));
      HalveCong(2 * s, Pow2(w - 1));
      HalveCong(s, Pow2(w - 2));
    }
  }

  lemma OneOfTwo(s: int, t: int, target: int, r: int, w: nat) returns (y: int)
    requires w > 1 && s % 2 == 1 && !Cong(r, 0, Pow2(w))
    ensures 0 <= y <= 1 && !Missed(s, t, target - r * y, w)
  {
    y := if Missed(s, t, target, w) then 1 else 0;
    if Missed(s, t, target, w) && Missed(s, t, target - r, w) {
      MissedOnce(s, t, target, target - r, w);
      CongShift(target, target - r, Pow2(w));
    }
  }

  lemma ScaleNotZero(vs: seq<Variable>, i: nat, w: nat)
    requires Usable(vs, w) && i < |vs|
    ensures !Cong(vs[i].scale, 0, Pow2(w))
  {
    if Cong(vs[i].scale, 0, Pow2(w)) {
      CongClose(vs[i].scale, 0, Pow2(w));
    }
  }

  /** Two variables of which one has an odd factor, the others as given. */
  lemma TwoReach(f: Facts, vs: seq<Variable>, d: int, e: int, from: seq<int>, i: nat, j: nat, w: nat)
    returns (cs: seq<int>)
    requires w > 0 && Free(f, vs, w) && Usable(vs, w) && i < |vs| && j < |vs| && i != j
    requires AllAllowed(f, vs, from, w) && from[i] == Low(f, vs[i], w) && from[j] == Low(f, vs[j], w)
    requires vs[i].scale % 2 == 1 || vs[j].scale % 2 == 1
    requires !Missed(vs[i].scale, vs[j].scale, e - d - Dot(vs, from), w)
    ensures Together(f, vs, d, cs, e, w)
  {
    ScaleNotZero(vs, i, w);
    ScaleNotZero(vs, j, w);
    LowsAllowed(f, vs, w);
    var x, y := PairReaches(vs[i].scale, vs[j].scale, e - d - Dot(vs, from), w);
    cs := Raise(f, vs, d, from, i, x, j, y, e, w);
  }

  /** A third variable moves the distance away from the one that two miss. */
  lemma ThirdHelps(f: Facts, vs: seq<Variable>, t: int, i: nat, j: nat, l: nat, w: nat) returns (from: seq<int>)
    requires w > 1 && Free(f, vs, w) && i < |vs| && j < |vs| && l < |vs| && l != i && l != j
    requires !Cong(vs[l].scale, 0, Pow2(w)) && vs[i].scale % 2 == 1
    ensures AllAllowed(f, vs, from, w) && from[i] == Low(f, vs[i], w) && from[j] == Low(f, vs[j], w)
    ensures !Missed(vs[i].scale, vs[j].scale, t - Dot(vs, from), w)
  {
    var y := OneOfTwo(vs[i].scale, vs[j].scale, t - Dot(vs, Lows(f, vs, w)), vs[l].scale, w);
    assert Pow2(w - 1) == 2 * Pow2(w - 2);
    from := RaiseLow(f, vs, l, y, w);
  }

  /** Three variables of which one has an odd factor reach every distance. */
  lemma ThreeReach(f: Facts, vs: seq<Variable>, d: int, e: int, i: nat, w: nat) returns (cs: seq<int>)
    requires w > 1 && Free(f, vs, w) && Usable(vs, w) && |vs| >= 3 && i < |vs| && vs[i].scale % 2 == 1
    ensures Together(f, vs, d, cs, e, w)
  {
    var j, l := if i == 0 then 1 else 0, if i == 2 then 1 else 2;
    ScaleNotZero(vs, l, w);
    var from := ThirdHelps(f, vs, e - d, i, j, l, w);
    cs := TwoReach(f, vs, d, e, from, i, j, w);
  }

  /** A variable of unknown sign with an odd factor reaches every distance alone. */
  lemma UnknownReaches(f: Facts, vs: seq<Variable>, d: int, e: int, i: nat, w: nat) returns (cs: seq<int>)
    requires w > 0 && Free(f, vs, w) && i < |vs| && vs[i].scale % 2 == 1 && !SignKnown(f, vs[i], w)
    ensures Together(f, vs, d, cs, e, w)
  {
    var low := Lows(f, vs, w);
    LowsAllowed(f, vs, w);
    var t := e - d - Dot(vs, low);
    var x := Solve(vs[i].scale, t, w);
    cs := low[i := Wrap(x, w)];
    DotReplace(vs, low, i, Wrap(x, w));
    CutFactor(vs[i].scale, x, t, w);
    CongRefl(d + Dot(vs, low), Pow2(w));
    CongAdd(vs[i].scale * Wrap(x, w), t, d + Dot(vs, low), d + Dot(vs, low), Pow2(w));
  }

  // ------------------------------------------------------------------------- both directions

  /** The remainder of the offset leaves no room: one of the two nearest distances is too small. */
  lemma NoRoom(vs: seq<Variable>, d: int, n: nat, m: nat, k: nat) returns (e: int)
    requires n > 0 && k <= 64 && Modulo(vs) == Pow2(k) && !ModuloRule(vs, d, Known(n), Known(m))
    ensures 0 < e + n && e < m && Cong(e, d, Pow2(k))
  {
    var g, off := Pow2(k), Unsigned(d) % Pow2(k);
    MaskIsMod(Unsigned(d), k);
    CongMod(Unsigned(d), g);
    UnsignedCong(d, k);
    CongTrans(off, Unsigned(d), d, g);
    if off < m {
      e := off;
    } else {
      e := off - g;
      CongBy(e, off, g, -1);
      CongTrans(e, off, d, g);
    }
  }

  lemma OneMeetsSomewhere(f: Facts, vs: seq<Variable>, d: int, n: nat, m: nat, w: nat) returns (cs: seq<int>, e: int)
    requires w > 0 && |vs| == 1 && vs[0].scale % 2 == 1 && !OneMisses(f, vs, d, n, m, w)
    ensures 0 < e + n && e < m && Together(f, vs, d, cs, e, w)
  {
    e :| 0 < e + n && e < m && !Misses(f, vs[0], d, e, w);
    var s := vs[0].scale;
    var x := Solve(s, e - d, w);
    cs := [Wrap(x, w)];
    CutFactor(s, x, e - d, w);
    assert Dot(vs, cs) == s * Wrap(x, w) by { assert Dot(vs[..0], cs[..0]) == 0; }
    CongRefl(d, Pow2(w));
    CongAdd(d, d, s * Wrap(x, w), e - d, Pow2(w));
  }

  /** A distance that two variables do not miss. */
  lemma NotMissedNear(s: int, t: int, c: int, n: nat, m: nat, w: nat) returns (e: int)
    requires w > 1 && s % 2 == 1 && n > 0 && m > 0 && !(n == 1 == m && Missed(s, t, -c, w))
    ensures 0 < e + n && e < m && !Missed(s, t, e - c, w)
  {
    e := if !Missed(s, t, -c, w) then 0 else if m > 1 then 1 else -1;
    if Missed(s, t, e - c, w) {
      MissedOnce(s, t, e - c, -c, w);
      assert Pow2(w) == 2 * Pow2(w - 1) && Pow2(w - 1) == 2 * Pow2(w - 2);
      CongClose(e - c, -c, Pow2(w));
    }
  }

  lemma TwoMeetSomewhere(f: Facts, vs: seq<Variable>, d: int, n: nat, m: nat, i: nat, w: nat)
    returns (cs: seq<int>, e: int)
    requires w > 1 && |vs| == 2 && i < 2 && vs[i].scale % 2 == 1 && Free(f, vs, w) && Usable(vs, w) && n > 0 && m > 0
    requires !TwoMiss(f, vs, d, n, m, w)
    ensures 0 < e + n && e < m && Together(f, vs, d, cs, e, w)
  {
    var j, low := 1 - i, Lows(f, vs, w);
    if !SignKnown(f, vs[i], w) {
      e := 0;
      cs := UnknownReaches(f, vs, d, e, i, w);
    } else if vs[j].scale % 2 == 1 && !SignKnown(f, vs[j], w) {
      e := 0;
      cs := UnknownReaches(f, vs, d, e, j, w);
    } else {
      LowsAllowed(f, vs, w);
      e := BothMeet(vs[0].scale, vs[1].scale, d + Dot(vs, low), n, m, w);
      cs := TwoReach(f, vs, d, e, low, 0, 1, w);
    }
  }

  lemma BothMeet(s: int, t: int, c: int, n: nat, m: nat, w: nat) returns (e: int)
    requires w > 1 && (s % 2 == 1 || t % 2 == 1) && n > 0 && m > 0
    requires s % 2 == 1 == t % 2 ==> !(n == 1 == m && Missed(s, t, -c, w))
    ensures 0 < e + n && e < m && !Missed(s, t, e - c, w)
  {
    if s % 2 == 1 == t % 2 {
      e := NotMissedNear(s, t, c, n, m, w);
    } else {
      e := 0;
      OneIsEven(s, t, w);
    }
  }

  lemma OneIsEven(s: int, t: int, w: nat)
    requires w > 0 && s % 2 != t % 2
    ensures (t - s) % Pow2(w) != 0 && (t + s) % Pow2(w) != 0
  {
    OddIsNoMultiple(t - s, w);
    OddIsNoMultiple(t + s, w);
  }

  lemma OddIsNoMultiple(x: int, w: nat)
    requires w > 0 && x % 2 == 1
    ensures x % Pow2(w) != 0
  {
    ModCong(x, Pow2(w));
    if Cong(x, 0, Pow2(w)) {
      HalveCong(x, Pow2(w - 1));
    }
  }

  lemma MeetSomewhere(f: Facts, vs: seq<Variable>, d: int, n: nat, m: nat, w: nat) returns (cs: seq<int>, e: int)
    requires 1 < w <= 64 && vs != [] && Usable(vs, w) && Free(f, vs, w) && n > 0 && m > 0
    requires !KeptApart(f, vs, d, n, m, w)
    ensures 0 < e + n && e < m && Together(f, vs, d, cs, e, w)
  {
    var k, i := ModuloIsExact(vs, w);
    if k > 0 {
      e := NoRoom(vs, d, n, m, k);
      cs := EvenReaches(f, vs, d, e, i, k, w);
    } else if |vs| == 1 {
      cs, e := OneMeetsSomewhere(f, vs, d, n, m, w);
    } else if |vs| == 2 {
      cs, e := TwoMeetSomewhere(f, vs, d, n, m, i, w);
    } else {
      e := 0;
      cs := ThreeReach(f, vs, d, e, i, w);
    }
  }

  /** No alias is right for every value of the variables exactly when the modulo rule applies, or
      one or two odd factors cannot bridge the distance. */
  lemma NoAliasExactly(f: Facts, vs: seq<Variable>, d: int, n: nat, m: nat, w: nat)
    requires 0 < w <= 64 && vs != [] && Usable(vs, w) && Free(f, vs, w)
    requires Fits(Known(n), n, w) && Fits(Known(m), m, w)
    ensures AlwaysRight(NoAlias, f, vs, d, n, m, w) <==> KeptApart(f, vs, d, n, m, w)
  {
    if KeptApart(f, vs, d, n, m, w) {
      forall env: Env, a: int, b: int | TrueOf(f, env) && Distance(vs, d, a, b, w, env)
        ensures !Overlap(a, n, b, m, w)
      {
        KeptIsApart(f, vs, d, n, m, w, env, a, b);
      }
    } else {
      var cs, e := MeetSomewhere(f, vs, d, n, m, w);
      TogetherIsWrong(f, vs, d, n, m, w, cs, e);
    }
  }

  lemma KeptIsApart(f: Facts, vs: seq<Variable>, d: int, n: nat, m: nat, w: nat, env: Env, a: int, b: int)
    requires 0 < w <= 64 && Usable(vs, w) && Free(f, vs, w) && KeptApart(f, vs, d, n, m, w)
    requires Fits(Known(n), n, w) && Fits(Known(m), m, w) && TrueOf(f, env) && Distance(vs, d, a, b, w, env)
    ensures !Overlap(a, n, b, m, w)
  {
    if ModuloRule(vs, d, Known(n), Known(m)) {
      ModuloIsRight(vs, d, Known(n), Known(m), a, n, b, m, w, env);
    } else if Overlap(a, n, b, m, w) {
      var cs := ValuesAllowed(f, vs, w, env);
      var e := OverlapDistance(d + Dot(vs, cs), a, n, b, m, w);
      if OneMisses(f, vs, d, n, m, w) {
        OneStaysApart(f, vs, d, n, m, w, cs, e);
      } else {
        TwoStayApart(f, vs, d, n, m, w, cs, e);
      }
    }
  }

  // ------------------------------------------------------------------------- the rules

  /** Values that variables of this kind can take are a constant apart. */
  lemma ConstantApart(f: Facts, vs: seq<Variable>, cs: seq<int>, w: nat)
    requires w > 0 && |vs| == 2 && Free(f, vs, w) && OnlySame(f) && SameButConstant(f, vs[0], vs[1], w)
    requires AllAllowed(f, vs, cs, w)
    ensures Cong(cs[0] - cs[1], Shift(f, vs[0], vs[1], w), Pow2(w))
  {
    var env: Env :| Takes(f, vs, cs, w, env);
    TakenApart(f, vs, cs, w, env);
  }

  lemma TakenApart(f: Facts, vs: seq<Variable>, cs: seq<int>, w: nat, env: Env)
    requires w > 0 && |vs| == 2 && PointerWide(vs) && OnlySame(f) && SameButConstant(f, vs[0], vs[1], w)
    requires Takes(f, vs, cs, w, env)
    ensures Cong(cs[0] - cs[1], Shift(f, vs[0], vs[1], w), Pow2(w))
  {
    WideShiftIsExact(f, vs[0], vs[1], w, env);
  }

  /** Independent variables are not the same but for a constant. */
  lemma FreeIsNotConstant(f: Facts, vs: seq<Variable>, w: nat)
    requires w > 1 && Free(f, vs, w) && OnlySame(f) && |vs| == 2
    ensures !SameButConstant(f, vs[0], vs[1], w)
  {
    if SameButConstant(f, vs[0], vs[1], w) {
      var low, high := TwoValues(f, vs, w);
      ConstantApart(f, vs, low, w);
      ConstantApart(f, vs, high, w);
      OneNotZero(low[0] - high[1], Shift(f, vs[0], vs[1], w), w);
    }
  }

  lemma TwoValues(f: Facts, vs: seq<Variable>, w: nat) returns (low: seq<int>, high: seq<int>)
    requires w > 1 && Free(f, vs, w) && |vs| == 2
    ensures AllAllowed(f, vs, low, w) && AllAllowed(f, vs, high, w) && low[0] == high[0] && low[1] + 1 == high[1]
  {
    LowsAllowed(f, vs, w);
    low := Lows(f, vs, w);
    high := low[1 := low[1] + 1];
    assert Pow2(w - 1) == 2 * Pow2(w - 2);
    assert Allowed(f, vs[1], low[1] + 1, w);
  }

  lemma OneNotZero(x: int, c: int, w: nat)
    requires w > 0
    ensures !(Cong(x, c, Pow2(w)) && Cong(x + 1, c, Pow2(w)))
  {
    if Cong(x, c, Pow2(w)) && Cong(x + 1, c, Pow2(w)) {
      CongSym(x, c, Pow2(w));
      CongTrans(x + 1, c, x, Pow2(w));
      assert Pow2(w) == 2 * Pow2(w - 1);
      CongClose(x + 1, x, Pow2(w));
    }
  }

  /** With known sizes and variables of which at most the sign is known, the answer is right for
      all their values exactly when something keeps the accesses apart, or no rule applies. */
  lemma VerdictIsRightExactly(f: Facts, vs: seq<Variable>, d: int, n: nat, m: nat, w: nat)
    requires 0 < w <= 64 && vs != [] && Usable(vs, w) && Free(f, vs, w) && OnlySame(f)
    requires Fits(Known(n), n, w) && Fits(Known(m), m, w)
    ensures AlwaysRight(Verdict(f, vs, d, Known(n), Known(m), w), f, vs, d, n, m, w)
       <==> KeptApart(f, vs, d, n, m, w) || !(AllPositive(f, vs, w) && m <= d)
  {
    NoAliasExactly(f, vs, d, n, m, w);
    if |vs| == 2 {
      FreeIsNotConstant(f, vs, w);
    }
    assert !ConstantOffsetRule(f, vs, d, Known(n), Known(m), w);
  }

  /** A factor of one and a known sign: the offset and the first access must fit in what the
      variable leaves of memory. */
  lemma UnitExactly(f: Facts, x: Variable, d: int, n: nat, m: nat, w: nat, least: int)
    requires w > 0 && Free(f, [x], w) && Fits(Known(n), n, w) && Fits(Known(m), m, w)
    requires || (x.scale == 1 && f.nonNegative(x.v, w) && least == 0)
             || (x.scale == -1 && f.negative(x.v, w) && least == 1)
    requires m <= d <= Pow2(w) - least
    ensures AlwaysRight(NoAlias, f, [x], d, n, m, w) <==> d + least + n <= Pow2(w - 1) + 1
  {
    var h := Pow2(w - 1);
    if d + least + n <= h + 1 {
      forall env: Env, a: int, b: int | TrueOf(f, env) && Distance([x], d, a, b, w, env)
        ensures !Overlap(a, n, b, m, w)
      {
        var cs := ValuesAllowed(f, [x], w, env);
        UnitDot(x, cs);
        MovedApart(a, n, b, m, d + Dot([x], cs), w);
      }
    } else {
      var y := if d + least + n <= 2 * h + 1 then 2 * h + 1 - n - d else least;
      var cs := [if x.scale == 1 then y else -y];
      UnitDot(x, cs);
      CongBy(d + y, d + y - 2 * h, 2 * h, 1);
      TogetherIsWrong(f, [x], d, n, m, w, cs, d + y - 2 * h);
    }
  }

  lemma UnitDot(x: Variable, cs: seq<int>)
    requires |cs| == 1 && (x.scale == 1 || x.scale == -1)
    ensures Dot([x], cs) == if x.scale == 1 then cs[0] else -cs[0]
  {
    assert Dot([x][..0], cs[..0]) == 0;
  }

  // -------------------------------------------------------------------- variables that are free

  /** A value whose computation is not looked into. */
  predicate Opaque(e: Expr) { e.Leaf? || (e.Bin? && e.op.Other?) }

  /** The facts are true as soon as the signs of the variables are. */
  ghost predicate SignsOnly(f: Facts, vs: seq<Variable>, w: nat)
    requires w > 0
  {
    forall env: Env {:trigger TrueOf(f, env)} ::
      (forall i :: 0 <= i < |vs| ==> Allowed(f, vs[i], Signed(vs[i].v, w, env), w)) ==> TrueOf(f, env)
  }

  /** Different values, none of which is looked into. */
  predicate AllOpaque(vs: seq<Variable>) {
    && (forall i :: 0 <= i < |vs| ==> Opaque(vs[i].v))
    && (forall i, j :: 0 <= i < j < |vs| ==> vs[i].v.id != vs[j].v.id)
  }

  function Pick(vs: seq<Variable>, cs: seq<int>, id: int): int
    requires |cs| == |vs| && AllOpaque(vs)
  {
    if vs == [] then 0
    else var k := |vs| - 1; if vs[k].v.id == id then cs[k] else Pick(vs[..k], cs[..k], id)
  }

  lemma {:induction false} PickFinds(vs: seq<Variable>, cs: seq<int>, i: nat)
    requires |cs| == |vs| && i < |vs| && AllOpaque(vs)
    ensures Pick(vs, cs, vs[i].v.id) == cs[i]
    decreases |vs|
  {
    var k := |vs| - 1;
    if i < k {
      PickFinds(vs[..k], cs[..k], i);
    }
  }

  /** Different opaque values of which nothing but signs is known are free. */
  lemma OpaqueIsFree(f: Facts, vs: seq<Variable>, w: nat)
    requires w > 0 && SignsOnly(f, vs, w) && AllOpaque(vs)
    requires PointerWide(vs) && Consistent(f, vs, w)
    ensures Free(f, vs, w)
  {
    forall cs: seq<int> | AllAllowed(f, vs, cs, w) ensures exists env: Env :: Takes(f, vs, cs, w, env) {
      var env: Env := id => Pick(vs, cs, id);
      forall i | 0 <= i < |vs| ensures Signed(vs[i].v, w, env) == cs[i] {
        PickFinds(vs, cs, i);
        SignedBack(cs[i], w);
        assert Eval(vs[i].v, w, env) == cs[i] % Pow2(w);
      }
      assert Takes(f, vs, cs, w, env);
    }
  }

  lemma SignedBack(c: int, w: nat)
    requires w > 0 && -Pow2(w - 1) <= c < Pow2(w - 1)
    ensures Wrap(c % Pow2(w), w) == c
  {
    CongMod(c, Pow2(w));
    CutTheSame(c % Pow2(w), c, w);
    WrapId(c, w);
  }

  // ----------------------------------------------------------------------------- pointers

  /** The answer is right about two pointers, wherever their common base is and for every valuation
      that the facts are true of. */
  ghost predicate RightOfPointers(r: Alias, f: Facts, p: Ptr, q: Ptr, n: nat, m: nat, w: nat)
    requires w > 0
  {
    forall env: Env, at: nat -> int {:trigger Address(p, w, env, at)} ::
      TrueOf(f, env) ==> Right(r, Address(p, w, env, at), n, Address(q, w, env, at), m, w)
  }

  lemma PointersAreRightExactly(f: Facts, p: Ptr, q: Ptr, d: int, vs: seq<Variable>, n: nat, m: nat, w: nat)
    requires 0 < w <= 64 && vs != [] && Usable(vs, w) && Free(f, vs, w) && OnlySame(f)
    requires Fits(Known(n), n, w) && Fits(Known(m), m, w)
    requires DifferBy(f, p, q, d, vs, w) && Underlying(p, MAX_LOOKUP) == Anchor(q)
    ensures RightOfPointers(Verdict(f, vs, d, Known(n), Known(m), w), f, p, q, n, m, w)
       <==> KeptApart(f, vs, d, n, m, w) || !(AllPositive(f, vs, w) && m <= d)
  {
    var r := Verdict(f, vs, d, Known(n), Known(m), w);
    VerdictIsRightExactly(f, vs, d, n, m, w);
    if AlwaysRight(r, f, vs, d, n, m, w) {
      forall env: Env, at: nat -> int | TrueOf(f, env)
        ensures Right(r, Address(p, w, env, at), n, Address(q, w, env, at), m, w)
      {
        PointersDiffer(f, p, q, d, vs, w, env, at);
      }
    }
    if RightOfPointers(r, f, p, q, n, m, w) && r.NoAlias? {
      forall env: Env, a: int, b: int | TrueOf(f, env) && Distance(vs, d, a, b, w, env)
        ensures Right(r, a, n, b, m, w)
      {
        var at := (id: nat) => 0;
        PointersDiffer(f, p, q, d, vs, w, env, at);
        NoAliasIsRightExactly(d + Sum(vs, w, env), a, n, b, m, w);
        NoAliasIsRightExactly(d + Sum(vs, w, env), Address(p, w, env, at), n, Address(q, w, env, at), m, w);
      }
    }
  }

  lemma PointersDiffer(f: Facts, p: Ptr, q: Ptr, d: int, vs: seq<Variable>, w: nat, env: Env, at: nat -> int)
    requires w > 0 && DifferBy(f, p, q, d, vs, w) && Underlying(p, MAX_LOOKUP) == Anchor(q) && TrueOf(f, env)
    ensures Distance(vs, d, Address(p, w, env, at), Address(q, w, env, at), w, env)
  {
    CongRefl(Address(Anchor(q), w, env, at), Pow2(w));
    assert SameBase(p, q, w, env, at);
  }

  // ------------------------------------------------------------------------------ an example

  lemma ExampleIsFree()
    ensures Free(ExampleFacts(), EXAMPLE_VARS, 64)
  {
    var f, vs := ExampleFacts(), EXAMPLE_VARS;
    forall env: Env | forall i :: 0 <= i < |vs| ==> Allowed(f, vs[i], Signed(vs[i].v, 64, env), 64)
      ensures TrueOf(f, env)
    {
      assert Allowed(f, vs[0], Signed(vs[0].v, 64, env), 64);
    }
    OpaqueIsFree(f, vs, 64);
  }

  /** The failing input of the all-positive rule has such variables, and nothing keeps its accesses
      apart. */
  lemma ExampleIsNotKeptApart()
    ensures Free(ExampleFacts(), EXAMPLE_VARS, 64) && !KeptApart(ExampleFacts(), EXAMPLE_VARS, 8, 8, 8, 64)
  {
    var f, vs, p := ExampleFacts(), EXAMPLE_VARS, Gep(Root(0), true, [Element(1, EXAMPLE_INDEX)]);
    var env: Env, at: nat -> int := id => 0x7fff_ffff_ffff_fffc, (id: nat) => 0;
    IndexWrapBreaksPositive(env, at);
    PointersDiffer(f, p, Root(0), 8, vs, 64, env, at);
    ExampleIsFree();
    WordIsPow2();
    NoAliasExactly(f, vs, 8, 8, 8, 64);
  }
}
