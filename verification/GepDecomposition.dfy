/** Pointers as a base plus constant offsets plus scaled variables. */
module GepDecomposition {
  import opened Modular

  // ----------------------------------------------------------------- index expressions

  datatype Op = Add | Sub | Mul | Shl | Or | Other

  /** Integers of the pointer's width; `id` tells instructions apart. */
  datatype Expr = Const(c: nat) | Leaf(id: nat) | Bin(id: nat, op: Op, lhs: Expr, rhs: Expr)

  /** The value of every variable, and of every instruction that is not understood. */
  type Env = nat -> int

  function Eval(e: Expr, w: nat, env: Env): (r: int)
    ensures 0 <= r < Pow2(w)
  {
    var m := Pow2(w);
    CongMod(0, m);
    match e
    case Const(c) => CongMod(c, m); c % m
    case Leaf(id) => CongMod(env(id), m); env(id) % m
    case Bin(id, op, lhs, rhs) =>
      var l, r := Eval(lhs, w, env), Eval(rhs, w, env);
      var x := match op
        case Add => l + r
        case Sub => l - r
        case Mul => l * r
        case Shl => l * Pow2(r)
        case Or => BitOr(l, r)
        case Other => env(id);
      CongMod(x, m);
      x % m
  }

  /** What another analysis knows of a value of some width: the bits of a mask are zero. */
  type KnownZero = (Expr, nat, nat) -> bool

  /** What is known is true of a valuation.  Facts may come from how values are made, from
      conditions that were tested or from what is assumed, so they are not asked of all. */
  ghost predicate TrueBits(known: KnownZero, env: Env) {
    forall e: Expr, n: nat, c: nat {:trigger known(e, n, c), Eval(e, n, env)} ::
      known(e, n, c) ==> BitAnd(Eval(e, n, env), c) == 0
  }

  /** `scale * v + offset`, in integers of the same width. */
  datatype Linear = Linear(v: Expr, scale: int, offset: int)

  const LINEAR_DEPTH: nat := 6

  /** Take a value apart as a linear expression in one variable, looking through at most six
      operations with a constant on the right. */
  function GetLinear(known: KnownZero, e: Expr, w: nat, depth: nat): Linear {
    var m := Pow2(w);
    if depth >= LINEAR_DEPTH then Linear(e, 1, 0)
    else if e.Const? then Linear(e, 0, e.c % m)
    else if e.Leaf? || !e.rhs.Const? || e.op.Other? || (e.op.Or? && !known(e.lhs, w, e.rhs.c % m)) then Linear(e, 1, 0)
    else
      CongMod(e.rhs.c, m);
      var c: nat := e.rhs.c % m;
      var r := GetLinear(known, e.lhs, w, depth + 1);
      match e.op
      case Sub => r.(offset := (r.offset - c) % m)
      case Mul => r.(scale := (r.scale * c) % m, offset := (r.offset * c) % m)
      case Shl => r.(scale := (r.scale * Pow2(c)) % m, offset := (r.offset * Pow2(c)) % m)
      case _ => r.(offset := (r.offset + c) % m)
  }

  function LinearValue(l: Linear, w: nat, env: Env): int { l.scale * Eval(l.v, w, env) + l.offset }

  lemma LinearAdd(l: Linear, x: int, w: nat, env: Env, k: int)
    requires Cong(x, LinearValue(l, w, env), Pow2(w))
    ensures Cong(x + k, LinearValue(l.(offset := (l.offset + k) % Pow2(w)), w, env), Pow2(w))
  {
    CongMod(l.offset + k, Pow2(w));
    AddedOffset(x, l.scale * Eval(l.v, w, env), l.offset, k, (l.offset + k) % Pow2(w), Pow2(w));
  }

  lemma AddedOffset(x: int, sv: int, o: int, k: int, o': int, m: int)
    requires Cong(x, sv + o, m) && Cong(o', o + k, m)
    ensures Cong(x + k, sv + o', m)
  {
    CongRefl(k, m);
    CongAdd(x, sv + o, k, k, m);
    CongSym(o', o + k, m);
    CongRefl(sv, m);
    CongAdd(sv, sv, o + k, o', m);
    CongTrans(x + k, sv + o + k, sv + o', m);
  }

  lemma LinearMul(l: Linear, x: int, w: nat, env: Env, k: int)
    requires Cong(x, LinearValue(l, w, env), Pow2(w))
    ensures Cong(x * k, LinearValue(l.(scale := (l.scale * k) % Pow2(w), offset := (l.offset * k) % Pow2(w)), w, env),
      Pow2(w))
  {
    CongMod(l.scale * k, Pow2(w));
    CongMod(l.offset * k, Pow2(w));
    Multiplied(x, l.scale, Eval(l.v, w, env), l.offset, k, (l.scale * k) % Pow2(w), (l.offset * k) % Pow2(w), Pow2(w));
  }

  lemma Multiplied(x: int, s: int, v: int, o: int, k: int, s': int, o': int, m: int)
    requires Cong(x, s * v + o, m) && Cong(s', s * k, m) && Cong(o', o * k, m)
    ensures Cong(x * k, s' * v + o', m)
  {
    CongMul(x, s * v + o, k, m);
    CongSym(s', s * k, m);
    CongMul(s * k, s', v, m);
    CongSym(o', o * k, m);
    CongAdd(s * k * v, s' * v, o * k, o', m);
    Distribute(s, v, o, k);
    CongTrans(x * k, (s * v + o) * k, s' * v + o', m);
  }

  lemma Distribute(s: int, v: int, o: int, k: int)
    ensures (s * v + o) * k == s * k * v + o * k
  {
    assert s * v * k == s * k * v;
  }

  /** The linear form has the value of the expression, for every valuation that the facts are true
      of, wherever the walk stopped. */
  lemma {:induction false} LinearIsExact(known: KnownZero, e: Expr, w: nat, depth: nat, env: Env)
    requires TrueBits(known, env)
    ensures Cong(Eval(e, w, env), LinearValue(GetLinear(known, e, w, depth), w, env), Pow2(w))
    decreases e
  {
    var m, r := Pow2(w), GetLinear(known, e, w, depth);
    if r == Linear(e, 1, 0) {
      CongRefl(Eval(e, w, env), m);
    } else if e.Const? {
      CongRefl(e.c % m, m);
      assert LinearValue(r, w, env) == e.c % m;
    } else {
      LinearIsExact(known, e.lhs, w, depth + 1, env);
      LinearStep(known, e, w, depth, env);
    }
  }

  lemma LinearStep(known: KnownZero, e: Expr, w: nat, depth: nat, env: Env)
    requires TrueBits(known, env) && e.Bin? && e.rhs.Const? && depth < LINEAR_DEPTH && !e.op.Other?
    requires e.op.Or? ==> known(e.lhs, w, e.rhs.c % Pow2(w))
    requires Cong(Eval(e.lhs, w, env), LinearValue(GetLinear(known, e.lhs, w, depth + 1), w, env), Pow2(w))
    ensures Cong(Eval(e, w, env), LinearValue(GetLinear(known, e, w, depth), w, env), Pow2(w))
  {
    var m, c, l := Pow2(w), Eval(e.rhs, w, env), Eval(e.lhs, w, env);
    var r := GetLinear(known, e.lhs, w, depth + 1);
    var x := match e.op case Sub => l - c case Mul => l * c case Shl => l * Pow2(c) case _ => l + c;
    match e.op {
      case Sub => LinearAdd(r, l, w, env, -c);
      case Mul => LinearMul(r, l, w, env, c);
      case Shl => LinearMul(r, l, w, env, Pow2(c));
      case _ => LinearAdd(r, l, w, env, c);
    }
    if e.op.Or? {
      OrIsAdd(l, c);
    }
    CongMod(x, m);
    assert Eval(e, w, env) == x % m;
    CongTrans(x % m, x, LinearValue(GetLinear(known, e, w, depth), w, env), m);
  }

  /** The operations that are looked through, when there is room. */
  predicate LooksInto(known: KnownZero, e: Expr, w: nat) {
    && e.Bin? && e.rhs.Const?
    && match e.op
       case Other => false
       case Or => known(e.lhs, w, e.rhs.c % Pow2(w))
       case _ => true
  }

  /** The value `k` operations further in. */
  function Inner(e: Expr, k: nat): Expr { if k == 0 || !e.Bin? then e else Inner(e.lhs, k - 1) }

  /** The walk stops at the first value that it cannot look into, or after six operations. */
  lemma {:induction false} LinearIsDeepest(known: KnownZero, e: Expr, w: nat, depth: nat) returns (k: nat)
    requires depth <= LINEAR_DEPTH
    ensures k <= LINEAR_DEPTH - depth && GetLinear(known, e, w, depth).v == Inner(e, k)
    ensures forall j :: 0 <= j < k ==> LooksInto(known, Inner(e, j), w)
    ensures k == LINEAR_DEPTH - depth || !LooksInto(known, Inner(e, k), w)
    decreases LINEAR_DEPTH - depth
  {
    k := 0;
    if depth < LINEAR_DEPTH && LooksInto(known, e, w) {
      var j := LinearIsDeepest(known, e.lhs, w, depth + 1);
      k := j + 1;
      forall i | 0 <= i < k ensures LooksInto(known, Inner(e, i), w) {
        if i > 0 {
          assert Inner(e, i) == Inner(e.lhs, i - 1);
        }
      }
    }
  }
}
