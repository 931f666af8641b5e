/** The symbolic difference of two addresses with a common base. */
module GepDifference {
  import opened Modular
  import opened GepDecomposition
  import opened GepPointers

  // ------------------------------------------------------------- what others know

  /** What other analyses know of values: which are certainly the same one, and which have a
      known sign in their own width. */
  datatype Facts = Facts(known: KnownZero, equal: (Expr, Expr) -> bool,
                         nonNegative: (Expr, nat) -> bool, negative: (Expr, nat) -> bool)

  /** Only a value is equal to itself. */
  ghost predicate OnlySame(f: Facts) { forall a, b :: f.equal(a, b) ==> a == b }

  /** A value is known to be equal to itself. */
  ghost predicate KnowsItself(f: Facts) { forall a: Expr {:trigger f.equal(a, a)} :: f.equal(a, a) }

  /** The facts are true of a valuation. */
  ghost predicate TrueOf(f: Facts, env: Env) {
    && TrueBits(f.known, env)
    && (forall v: Expr, n: nat {:trigger f.nonNegative(v, n)} ::
         n > 0 && f.nonNegative(v, n) ==> Signed(v, n, env) >= 0)
    && (forall v: Expr, n: nat {:trigger f.negative(v, n)} :: n > 0 && f.negative(v, n) ==> Signed(v, n, env) < 0)
  }

  ghost predicate Usable(vs: seq<Variable>, w: nat) {
    forall i :: 0 <= i < |vs| ==> vs[i].scale != 0 && -Pow2(w) < vs[i].scale < Pow2(w)
  }

  predicate Narrow(x: Variable, w: nat)
    requires w > 0
  {
    -Pow2(w - 1) <= x.scale < Pow2(w - 1)
  }

  /** An entry is narrow unless one of `src` was already subtracted from it. */
  ghost predicate Fresh(x: Variable, src: seq<Variable>, w: nat)
    requires w > 0
  {
    Narrow(x, w) || exists j :: 0 <= j < |src| && SameKey(x, src[j])
  }

  ghost predicate Differs(dest: seq<Variable>, src: seq<Variable>, r: seq<Variable>, w: nat) {
    forall env: Env :: Cong(Sum(dest, w, env) - Sum(src, w, env), Sum(r, w, env), Pow2(w))
  }

  /** Subtract the second list of scaled variables from the first. */
  method GetIndexDifference(f: Facts, dest: seq<Variable>, src: seq<Variable>, w: nat) returns (r: seq<Variable>)
    requires 0 < w <= 64 && OnlySame(f) && Distinct(dest, w) && Distinct(src, w)
    ensures Usable(r, w) && Differs(dest, src, r, w) && (PointerWide(dest) && PointerWide(src) ==> PointerWide(r))
    ensures forall k :: 0 <= k < |r| ==> Entry(dest, r[k].v) || Entry(src, r[k].v)
    ensures KnowsItself(f) ==> OneEntryEach(r)
  {
    r := dest;
    forall env: Env ensures Cong(Sum(dest, w, env) - Sum(src[..0], w, env), Sum(r, w, env), Pow2(w)) {
      CongRefl(Sum(dest, w, env), Pow2(w));
    }
    var i := 0;
    while i < |src|
      invariant 0 <= i <= |src| && Usable(r, w) && Differs(dest, src[..i], r, w)
      invariant forall k :: 0 <= k < |r| ==> Fresh(r[k], src[..i], w)
      invariant PointerWide(dest) && PointerWide(src) ==> PointerWide(r)
      invariant forall k :: 0 <= k < |r| ==> Entry(dest, r[k].v) || Entry(src, r[k].v)
      invariant KnowsItself(f) ==> OneEntryEach(r)
    {
      r := SubtractVariable(f, dest, src, i, r, w);
      i := i + 1;
    }
    assert src[..i] == src;
  }

  /** Subtract one scaled variable: from the entry it already has, which is dropped if nothing is
      left of it, or as a new one. */
  method SubtractVariable(f: Facts, ghost dest: seq<Variable>, src: seq<Variable>, i: nat, was: seq<Variable>, w: nat)
    returns (r: seq<Variable>)
    requires 0 < w <= 64 && OnlySame(f) && Distinct(src, w) && i < |src|
    requires Usable(was, w) && Differs(dest, src[..i], was, w)
    requires forall k :: 0 <= k < |was| ==> Fresh(was[k], src[..i], w)
    ensures Usable(r, w) && Differs(dest, src[..i + 1], r, w)
    ensures forall k :: 0 <= k < |r| ==> Fresh(r[k], src[..i + 1], w)
    ensures PointerWide(was) && PointerWide(src) ==> PointerWide(r)
    ensures forall k :: 0 <= k < |r| ==> Entry(was, r[k].v) || r[k].v == src[i].v
    ensures KnowsItself(f) && OneEntryEach(was) ==> OneEntryEach(r)
  {
    var x := src[i];
    var j := FindEntry(f, was, x);
    if j < |was| {
      assert Narrow(was[j], w);
      var left := Wrap(was[j].scale - x.scale, 64);
      WrapKeeps(was[j].scale - x.scale, w);
      if was[j].scale != x.scale {
        r := was[j := was[j].(scale := left)];
      } else {
        r := Erase(was, j);
        CongRefl(0, Pow2(w));
      }
      MatchedStep(dest, src, i, was, j, if was[j].scale != x.scale then left else 0, r, w);
    } else {
      var negated := Wrap(-x.scale, 64);
      WrapKeeps(-x.scale, w);
      r := was + [x.(scale := negated)];
      UnmatchedStep(dest, src, i, was, negated, r, w);
    }
    FreshStep(src, i, was, j, r, w);
  }

  method FindEntry(f: Facts, vs: seq<Variable>, x: Variable) returns (j: nat)
    requires OnlySame(f)
    ensures j <= |vs| && (j < |vs| ==> SameKey(vs[j], x))
    ensures forall k :: 0 <= k < j ==> !(f.equal(vs[k].v, x.v) && vs[k].zext == x.zext && vs[k].sext == x.sext)
  {
    j := 0;
    while j < |vs| && (!f.equal(vs[j].v, x.v) || vs[j].zext != x.zext || vs[j].sext != x.sext)
      invariant 0 <= j <= |vs|
      invariant forall k :: 0 <= k < j ==> !(f.equal(vs[k].v, x.v) && vs[k].zext == x.zext && vs[k].sext == x.sext)
    {
      j := j + 1;
    }
  }

  /** Subtracting narrow numbers in 64 bits neither overflows a pointer nor comes to zero. */
  lemma WrapKeeps(x: int, w: nat)
    requires 0 < w <= 64 && -Pow2(w) < x < Pow2(w)
    ensures -Pow2(w) < Wrap(x, 64) < Pow2(w) && (x != 0 ==> Wrap(x, 64) != 0)
    ensures Cong(Wrap(x, 64), x, Pow2(w))
  {
    WordCong(x, w);
    WrapWithin(x, w, 64);
  }

  lemma WrapWithin(x: int, w: nat, n: nat)
    requires 0 < w <= n && -Pow2(w) < x < Pow2(w)
    ensures -Pow2(w) < Wrap(x, n) < Pow2(w) && (x != 0 ==> Wrap(x, n) != 0)
  {
    if w < n {
      Pow2Grows(w, n - 1);
      WrapId(x, n);
    } else if Wrap(x, n) == 0 {
      WrapCong(x, n);
      CongClose(0, x, Pow2(n));
    }
  }

  lemma FreshStep(src: seq<Variable>, i: nat, was: seq<Variable>, j: nat, r: seq<Variable>, w: nat)
    requires w > 0 && i < |src| && j <= |was|
    requires forall k :: 0 <= k < |was| ==> Fresh(was[k], src[..i], w)
    requires j < |was| ==> SameKey(was[j], src[i])
    requires j < |was| ==> r == Erase(was, j) || (exists s: int :: r == was[j := was[j].(scale := s)])
    requires j == |was| ==> exists s: int :: r == was + [src[i].(scale := s)]
    ensures forall k :: 0 <= k < |r| ==> Fresh(r[k], src[..i + 1], w)
  {
    forall k | 0 <= k < |r| ensures Fresh(r[k], src[..i + 1], w) {
      if SameKey(r[k], src[i]) {
        assert src[..i + 1][i] == src[i];
      } else {
        assert exists q :: 0 <= q < |was| && r[k] == was[q] by {
          if j < |was| && r == Erase(was, j) {
            assert r[k] == was[if k < j then k else k + 1];
          } else {
            assert r[k] == was[k];
          }
        }
        var q :| 0 <= q < |was| && r[k] == was[q];
        assert Fresh(was[q], src[..i], w);
        if !Narrow(r[k], w) {
          var n :| 0 <= n < |src[..i]| && SameKey(r[k], src[..i][n]);
          assert src[..i + 1][n] == src[..i][n];
        }
      }
    }
  }

  lemma MatchedStep(dest: seq<Variable>, src: seq<Variable>, i: nat, was: seq<Variable>, j: nat, s: int,
                    r: seq<Variable>, w: nat)
    requires i < |src| && j < |was| && Differs(dest, src[..i], was, w) && SameKey(was[j], src[i])
    requires Cong(s, was[j].scale - src[i].scale, Pow2(w))
    requires r == was[j := was[j].(scale := s)] || (s == 0 && r == Erase(was, j))
    ensures Differs(dest, src[..i + 1], r, w)
  {
    assert src[..i + 1] == src[..i] + [src[i]];
    forall env: Env ensures Cong(Sum(dest, w, env) - Sum(src[..i + 1], w, env), Sum(r, w, env), Pow2(w)) {
      MatchedSum(Sum(dest, w, env), src[..i], src[i], was, j, s, r, w, env);
    }
  }

  lemma MatchedSum(a: int, src: seq<Variable>, x: Variable, was: seq<Variable>, j: nat, s: int, r: seq<Variable>,
                   w: nat, env: Env)
    requires j < |was| && SameKey(was[j], x) && Cong(a - Sum(src, w, env), Sum(was, w, env), Pow2(w))
    requires Cong(s, was[j].scale - x.scale, Pow2(w))
    requires r == was[j := was[j].(scale := s)] || (s == 0 && r == Erase(was, j))
    ensures Cong(a - Sum(src + [x], w, env), Sum(r, w, env), Pow2(w))
  {
    var v := ValueOf(x.v, x.zext, x.sext, w, env);
    SumPush(src, x, w, env);
    RescaledSum(was, j, s, r, v, w, env);
    ShiftedTerm(s, was[j].scale, x.scale, v, Pow2(w));
    Shifted(a - Sum(src, w, env), Sum(was, w, env), x.scale * v, was[j].scale * v, s * v, Pow2(w));
  }

  lemma RescaledSum(was: seq<Variable>, j: nat, s: int, r: seq<Variable>, v: int, w: nat, env: Env)
    requires j < |was| && v == ValueOf(was[j].v, was[j].zext, was[j].sext, w, env)
    requires r == was[j := was[j].(scale := s)] || (s == 0 && r == Erase(was, j))
    ensures Sum(r, w, env) == Sum(was, w, env) + s * v - was[j].scale * v
  {
    if r == was[j := was[j].(scale := s)] {
      SumReplace(was, j, was[j].(scale := s), w, env);
    } else {
      SumErase(was, j, w, env);
    }
  }

  lemma MinusTimes(s: int, v: int)
    ensures (0 - s) * v == -(s * v)
  {
  }

  lemma ShiftedTerm(s: int, ws: int, xs: int, v: int, m: int)
    requires Cong(s, ws - xs, m)
    ensures Cong(s * v, ws * v - xs * v, m)
  {
    CongMul(s, ws - xs, v, m);
    assert (ws - xs) * v == ws * v - xs * v;
  }

  lemma Shifted(a: int, b: int, gone: int, was: int, left: int, m: int)
    requires Cong(a, b, m) && Cong(left, was - gone, m)
    ensures Cong(a - gone, b + left - was, m)
  {
    CongRefl(-was, m);
    CongAdd(left, was - gone, -was, -was, m);
    CongSym(left - was, -gone, m);
    CongAdd(a, b, -gone, left - was, m);
  }

  lemma UnmatchedStep(dest: seq<Variable>, src: seq<Variable>, i: nat, was: seq<Variable>, s: int, r: seq<Variable>,
                      w: nat)
    requires i < |src| && Differs(dest, src[..i], was, w)
    requires Cong(s, -src[i].scale, Pow2(w)) && r == was + [src[i].(scale := s)]
    ensures Differs(dest, src[..i + 1], r, w)
  {
    assert src[..i + 1] == src[..i] + [src[i]];
    forall env: Env ensures Cong(Sum(dest, w, env) - Sum(src[..i + 1], w, env), Sum(r, w, env), Pow2(w)) {
      UnmatchedSum(Sum(dest, w, env), src[..i], src[i], was, s, w, env);
    }
  }

  lemma UnmatchedSum(a: int, src: seq<Variable>, x: Variable, was: seq<Variable>, s: int, w: nat, env: Env)
    requires Cong(a - Sum(src, w, env), Sum(was, w, env), Pow2(w)) && Cong(s, -x.scale, Pow2(w))
    ensures Cong(a - Sum(src + [x], w, env), Sum(was + [x.(scale := s)], w, env), Pow2(w))
  {
    var v := ValueOf(x.v, x.zext, x.sext, w, env);
    var gone, left := x.scale * v, s * v;
    assert Sum(src + [x], w, env) == Sum(src, w, env) + gone by { SumPush(src, x, w, env); }
    assert Sum(was + [x.(scale := s)], w, env) == Sum(was, w, env) + left by { SumPush(was, x.(scale := s), w, env); }
    ShiftedTerm(s, 0, x.scale, v, Pow2(w));
    Shifted(a - Sum(src, w, env), Sum(was, w, env), gone, 0, left, Pow2(w));
  }
}
