/** Index arithmetic as polynomials over the loop indices, in a normal form. */
module Polynomials {
  import opened IR
  import opened Semantics
  import opened Substitution

  /** A number, or rest + v * quot. */
  datatype Poly = Num(n: int) | Plus(rest: Poly, v: LoopId, quot: Poly)

  /** The outermost variable is the smallest; it does not occur in rest, and quot is not zero. */
  predicate Normal(p: Poly)
  {
    p.Plus? ==>
      Normal(p.rest) && Normal(p.quot) && p.quot != Num(0) &&
      (p.rest.Plus? ==> p.v < p.rest.v) && (p.quot.Plus? ==> p.v <= p.quot.v)
  }

  function Value(p: Poly, env: Env): int
  {
    match p
    case Num(n) => n
    case Plus(r, v, q) => Value(r, env) + env.Get(v) * Value(q, env)
  }

  // ---- Arithmetic on normal forms ---------------------------------------------------------

  function Make(r: Poly, v: LoopId, q: Poly): Poly { if q == Num(0) then r else Plus(r, v, q) }

  function Sum(p: Poly, q: Poly): Poly
  {
    match (p, q)
    case (Num(a), Num(b)) => Num(a + b)
    case (Num(_), Plus(r, v, s)) => Plus(Sum(p, r), v, s)
    case (Plus(r, v, s), Num(_)) => Plus(Sum(r, q), v, s)
    case (Plus(r, v, s), Plus(r', v', s')) =>
      if v < v' then Plus(Sum(r, q), v, s)
      else if v' < v then Plus(Sum(p, r'), v', s')
      else Make(Sum(r, r'), v, Sum(s, s'))
  }

  function Scaled(p: Poly, k: int): Poly
  {
    if k == 0 then Num(0)
    else
      match p
      case Num(n) => Num(n * k)
      case Plus(r, v, q) => Plus(Scaled(r, k), v, Scaled(q, k))
  }

  /** l * p. */
  function TimesVar(p: Poly, l: LoopId): Poly
  {
    match p
    case Num(_) => Make(Num(0), l, p)
    case Plus(r, v, q) => if l <= v then Plus(Num(0), l, p) else Plus(TimesVar(r, l), v, TimesVar(q, l))
  }

  function Product(p: Poly, q: Poly): Poly
    decreases p
  {
    match p
    case Num(n) => Scaled(q, n)
    case Plus(r, v, s) => Sum(Product(r, q), TimesVar(Product(s, q), v))
  }

  /** No variable of p is below b. */
  predicate From(p: Poly, b: LoopId) { p.Plus? ==> b <= p.v }

  lemma {:induction false} SumNormal(p: Poly, q: Poly, b: LoopId)
    requires Normal(p) && Normal(q) && From(p, b) && From(q, b)
    ensures Normal(Sum(p, q)) && From(Sum(p, q), b)
  {
    match (p, q)
    case (Num(_), Num(_)) =>
    case (Num(_), Plus(r, v, s)) => SumNormal(p, r, v + 1);
    case (Plus(r, v, s), Num(_)) => SumNormal(r, q, v + 1);
    case (Plus(r, v, s), Plus(r', v', s')) =>
      if v < v' { SumNormal(r, q, v + 1); }
      else if v' < v { SumNormal(p, r', v' + 1); }
      else { SumNormal(r, r', v + 1); SumNormal(s, s', v); }
  }

  lemma {:induction false} SumValue(p: Poly, q: Poly, env: Env)
    ensures Value(Sum(p, q), env) == Value(p, env) + Value(q, env)
  {
    match (p, q)
    case (Num(_), Num(_)) =>
    case (Num(_), Plus(r, v, s)) => SumValue(p, r, env);
    case (Plus(r, v, s), Num(_)) => SumValue(r, q, env);
    case (Plus(r, v, s), Plus(r', v', s')) =>
      if v < v' { SumValue(r, q, env); }
      else if v' < v { SumValue(p, r', env); }
      else { SumValue(r, r', env); SumValue(s, s', env); Distribute(env.Get(v), Value(s, env), Value(s', env)); }
  }

  lemma {:induction false} Distribute(k: int, x: int, y: int)
    ensures k * (x + y) == k * x + k * y
  {}

  lemma {:induction false} Through(k: int, r: int, x: int, q: int)
    ensures (r + x * q) * k == r * k + x * (q * k)
    ensures k * (r + x * q) == k * r + x * (k * q)
  {
    Distribute(k, r, x * q);
    assert (x * q) * k == x * (q * k);
  }

  lemma {:induction false} ScaledNormal(p: Poly, k: int, b: LoopId)
    requires Normal(p) && From(p, b)
    ensures Normal(Scaled(p, k)) && From(Scaled(p, k), b) && (k != 0 && p != Num(0) ==> Scaled(p, k) != Num(0))
  {
    if p.Plus? && k != 0 {
      ScaledNormal(p.rest, k, p.v + 1);
      ScaledNormal(p.quot, k, p.v);
    }
  }

  lemma {:induction false} ScaledValue(p: Poly, k: int, env: Env)
    ensures Value(Scaled(p, k), env) == Value(p, env) * k
  {
    if p.Plus? && k != 0 {
      ScaledValue(p.rest, k, env);
      ScaledValue(p.quot, k, env);
      Through(k, Value(p.rest, env), env.Get(p.v), Value(p.quot, env));
    }
  }

  lemma {:induction false} TimesVarNormal(p: Poly, l: LoopId, b: LoopId)
    requires Normal(p) && From(p, b) && b <= l
    ensures Normal(TimesVar(p, l)) && From(TimesVar(p, l), b) && (p != Num(0) ==> TimesVar(p, l) != Num(0))
  {
    if p.Plus? && p.v < l {
      TimesVarNormal(p.rest, l, p.v + 1);
      TimesVarNormal(p.quot, l, p.v);
    }
  }

  lemma {:induction false} TimesVarValue(p: Poly, l: LoopId, env: Env)
    ensures Value(TimesVar(p, l), env) == env.Get(l) * Value(p, env)
  {
    if p.Plus? && p.v < l {
      TimesVarValue(p.rest, l, env);
      TimesVarValue(p.quot, l, env);
      Through(env.Get(l), Value(p.rest, env), env.Get(p.v), Value(p.quot, env));
    }
  }

  /** The normal form of l * k. */
  lemma {:induction false} TimesNumber(l: LoopId, k: int)
    requires k != 0
    ensures Product(Plus(Num(0), l, Num(1)), Num(k)) == Plus(Num(0), l, Num(k))
  {
    assert Scaled(Num(k), 0) == Num(0) && Scaled(Num(k), 1) == Num(k);
    assert Product(Num(0), Num(k)) == Num(0) && Product(Num(1), Num(k)) == Num(k);
    assert TimesVar(Num(k), l) == Plus(Num(0), l, Num(k));
    assert Sum(Num(0), Plus(Num(0), l, Num(k))) == Plus(Sum(Num(0), Num(0)), l, Num(k));
  }

  lemma {:induction false} ProductNormal(p: Poly, q: Poly)
    requires Normal(p) && Normal(q)
    ensures Normal(Product(p, q))
    decreases p
  {
    match p
    case Num(n) => ScaledNormal(q, n, 0);
    case Plus(r, v, s) =>
      ProductNormal(r, q);
      ProductNormal(s, q);
      TimesVarNormal(Product(s, q), v, 0);
      SumNormal(Product(r, q), TimesVar(Product(s, q), v), 0);
  }

  lemma {:induction false} ProductValue(p: Poly, q: Poly, env: Env)
    ensures Value(Product(p, q), env) == Value(p, env) * Value(q, env)
    decreases p
  {
    hide Sum, Scaled, TimesVar;
    match p
    case Num(n) => ScaledValue(q, n, env);
    case Plus(r, v, s) =>
      ProductValue(r, q, env);
      ProductValue(s, q, env);
      TimesVarValue(Product(s, q), v, env);
      SumValue(Product(r, q), TimesVar(Product(s, q), v), env);
      Through(Value(q, env), Value(r, env), env.Get(v), Value(s, env));
  }

  // ---- A normal form that vanishes is zero ----------------------------------------------------

  function Vars(p: Poly): set<LoopId> { if p.Num? then {} else {p.v} + Vars(p.rest) + Vars(p.quot) }

  /** The indices of V have at least the value n. */
  predicate NotBelow(env: Env, V: set<LoopId>, n: int) { forall l | l in V :: env.Get(l) >= n }

  /** p is zero wherever the indices of V are large enough. */
  ghost predicate Vanishes(p: Poly, m: Machine, V: set<LoopId>, n: int)
  {
    forall idx: map<LoopId, int> :: NotBelow(Env(m, idx), V, n) ==> Value(p, Env(m, idx)) == 0
  }

  lemma {:induction false} ValueFree(p: Poly, env: Env, l: LoopId, i: int)
    requires l !in Vars(p)
    ensures Value(p, env.At(l, i)) == Value(p, env)
  {
    if p.Plus? {
      ValueFree(p.rest, env, l, i);
      ValueFree(p.quot, env, l, i);
    }
  }

  lemma {:induction false} VarsFrom(p: Poly, b: LoopId)
    requires Normal(p) && From(p, b)
    ensures forall l | l in Vars(p) :: b <= l
  {
    if p.Plus? {
      VarsFrom(p.rest, p.v);
      VarsFrom(p.quot, p.v);
    }
  }

  lemma {:induction false} TooSmall(a: int, k: int, z: int)
    requires a + k * z == 0 && k > (if a < 0 then -a else a)
    ensures a == 0 && z == 0
  {
    assert z > 0 ==> k * z >= k;
    assert z < 0 ==> k * z <= -k;
  }

  /** The rest and the quotient of a vanishing sum vanish. */
  lemma {:induction false} PartsVanish(p: Poly, m: Machine, V: set<LoopId>, n: int)
    requires p.Plus? && Normal(p) && Vars(p) <= V && n >= 0 && Vanishes(p, m, V, n)
    ensures Vanishes(p.rest, m, V, n) && Vanishes(p.quot, m, V, n + 1)
  {
    VarsFrom(p.rest, p.v + 1);
    assert p.v !in Vars(p.rest);
    forall idx: map<LoopId, int> | NotBelow(Env(m, idx), V, n)
      ensures Value(p.rest, Env(m, idx)) == 0
    {
      var env := Env(m, idx);
      var a := Value(p.rest, env);
      var k := n + 1 + if a < 0 then -a else a;
      var e1 := env.At(p.v, k);
      ValueFree(p.rest, env, p.v, k);
      assert NotBelow(Env(m, e1.idx), V, n);
      assert Value(p, Env(m, e1.idx)) == 0;
      TooSmall(a, k, Value(p.quot, e1));
    }
    forall idx: map<LoopId, int> | NotBelow(Env(m, idx), V, n + 1)
      ensures Value(p.quot, Env(m, idx)) == 0
    {
      var env := Env(m, idx);
      assert NotBelow(env, V, n);
      assert Value(p, env) == 0 && Value(p.rest, env) == 0;
      assert env.Get(p.v) >= 1;
      if Value(p.quot, env) != 0 { NoZeroProduct(env.Get(p.v), Value(p.quot, env)); }
    }
  }

  lemma {:induction false} NoZeroProduct(x: int, y: int)
    requires x != 0 && y != 0
    ensures x * y != 0
  {}

  /** A normal form that is zero wherever its indices are large enough is the number zero. */
  lemma {:induction false} ZeroOnly(p: Poly, m: Machine, V: set<LoopId>, n: int)
    requires Normal(p) && Vars(p) <= V && n >= 0 && Vanishes(p, m, V, n)
    ensures p == Num(0)
    decreases p
  {
    match p
    case Num(k) =>
      var idx := map l | l in V :: n;
      assert NotBelow(Env(m, idx), V, n);
      assert Value(p, Env(m, idx)) == k;
    case Plus(r, v, q) =>
      PartsVanish(p, m, V, n);
      ZeroOnly(q, m, V, n + 1);
  }

  // ---- The coefficient of an index ------------------------------------------------------------

  /** What is multiplied by l: p is Without(p, l) + l * Coefficient(p, l). */
  function Coefficient(p: Poly, l: LoopId): Poly
  {
    match p
    case Num(_) => Num(0)
    case Plus(r, v, q) =>
      if v == l then q else if v < l then Make(Coefficient(r, l), v, Coefficient(q, l)) else Num(0)
  }

  function Without(p: Poly, l: LoopId): Poly
  {
    match p
    case Num(_) => p
    case Plus(r, v, q) =>
      if v == l then r else if v < l then Make(Without(r, l), v, Without(q, l)) else p
  }

  lemma {:induction false} CoefficientNormal(p: Poly, l: LoopId, b: LoopId)
    requires Normal(p) && From(p, b)
    ensures Normal(Coefficient(p, l)) && From(Coefficient(p, l), b) && Vars(Coefficient(p, l)) <= Vars(p)
  {
    if p.Plus? && p.v < l {
      CoefficientNormal(p.rest, l, p.v + 1);
      CoefficientNormal(p.quot, l, p.v);
    }
  }

  lemma {:induction false} WithoutFree(p: Poly, l: LoopId)
    requires Normal(p)
    ensures l !in Vars(Without(p, l))
  {
    if p.Plus? {
      if p.v == l { VarsFrom(p.rest, l + 1); }
      else if p.v < l { WithoutFree(p.rest, l); WithoutFree(p.quot, l); }
      else { VarsFrom(p, p.v); }
    }
  }

  lemma {:induction false} SplitValue(p: Poly, l: LoopId, env: Env)
    ensures Value(p, env) == Value(Without(p, l), env) + env.Get(l) * Value(Coefficient(p, l), env)
  {
    if p.Plus? && p.v < l {
      SplitValue(p.rest, l, env);
      SplitValue(p.quot, l, env);
      var x, y := env.Get(p.v), env.Get(l);
      var a, b := Value(Without(p.quot, l), env), Value(Coefficient(p.quot, l), env);
      Through(x, a, y, b);
      Distribute(y, Value(Coefficient(p.rest, l), env), x * b);
      assert Value(Without(p, l), env) == Value(Without(p.rest, l), env) + x * a;
      assert Value(Coefficient(p, l), env) == Value(Coefficient(p.rest, l), env) + x * b;
    }
  }

  predicate GrowsAt(p: Poly, l: LoopId, env: Env, i: int)
  {
    Value(p, env.At(l, i + 1)) == Value(p, env.At(l, i)) + 1
  }

  /** From one value of l to the next, p grows by one. */
  ghost predicate GrowsByOne(p: Poly, l: LoopId, m: Machine)
  {
    forall idx: map<LoopId, int>, i: int :: GrowsAt(p, l, Env(m, idx), i)
  }

  lemma {:induction false} GrowsBy(p: Poly, l: LoopId, m: Machine, idx: map<LoopId, int>, i: nat)
    requires GrowsByOne(p, l, m)
    ensures Value(p, Env(m, idx).At(l, i)) == Value(p, Env(m, idx).At(l, 0)) + i
  {
    if i > 0 {
      GrowsBy(p, l, m, idx, i - 1);
      assert GrowsAt(p, l, Env(m, idx), i - 1);
    }
  }

  /** p grows by one with l exactly when the coefficient of l is the number one. */
  lemma {:induction false} GrowsByOneExactly(p: Poly, l: LoopId, m: Machine)
    requires Normal(p)
    ensures GrowsByOne(p, l, m) <==> Coefficient(p, l) == Num(1)
  {
    if Coefficient(p, l) == Num(1) {
      forall idx: map<LoopId, int>, i: int
        ensures GrowsAt(p, l, Env(m, idx), i)
      {
        LinearValue(p, l, Env(m, idx), i);
        LinearValue(p, l, Env(m, idx), i + 1);
      }
    }
    if GrowsByOne(p, l, m) { OneOnly(p, l, m); }
  }

  lemma {:induction false} LinearValue(p: Poly, l: LoopId, env: Env, i: int)
    requires Normal(p) && Coefficient(p, l) == Num(1)
    ensures Value(p, env.At(l, i)) == Value(Without(p, l), env) + i
  {
    SplitValue(p, l, env.At(l, i));
    WithoutFree(p, l);
    ValueFree(Without(p, l), env, l, i);
  }

  lemma {:induction false} OneOnly(p: Poly, l: LoopId, m: Machine)
    requires Normal(p) && GrowsByOne(p, l, m)
    ensures Coefficient(p, l) == Num(1)
  {
    hide Coefficient, Sum, GrowsByOne;
    var c := Coefficient(p, l);
    CoefficientNormal(p, l, 0);
    var d := Sum(c, Num(-1));
    SumNormal(c, Num(-1), 0);
    var V := Vars(d) + {l};
    forall idx: map<LoopId, int> | NotBelow(Env(m, idx), V, 1)
      ensures Value(d, Env(m, idx)) == 0
    {
      CoefficientOne(p, l, m, idx);
      SumValue(c, Num(-1), Env(m, idx));
    }
    assert Vanishes(d, m, V, 1);
    ZeroOnly(d, m, V, 1);
    MinusOne(c);
  }

  lemma {:induction false} MinusOne(c: Poly)
    requires Sum(c, Num(-1)) == Num(0)
    ensures c == Num(1)
  {}

  lemma {:induction false} CoefficientOne(p: Poly, l: LoopId, m: Machine, idx: map<LoopId, int>)
    requires Normal(p) && GrowsByOne(p, l, m) && Env(m, idx).Get(l) >= 1
    ensures Value(Coefficient(p, l), Env(m, idx)) == 1
  {
    var env := Env(m, idx);
    var i := env.Get(l);
    assert env.At(l, i) == Env(m, idx[l := i]) && l in idx && idx[l := i] == idx;
    GrowsBy(p, l, m, idx, i);
    SplitValue(p, l, env);
    SplitValue(p, l, env.At(l, 0));
    WithoutFree(p, l);
    ValueFree(Without(p, l), env, l, 0);
    var c := Value(Coefficient(p, l), env);
    assert i * c == i;
    if c != 1 { NoZeroProduct(i, c - 1); Distribute(i, c, -1); }
  }

  /** l occurs in p to the first degree at most. */
  predicate Affine(p: Poly, l: LoopId) { l !in Vars(Coefficient(p, l)) }

  lemma {:induction false} AffineValue(p: Poly, l: LoopId, env: Env, i: int)
    requires Normal(p) && Affine(p, l)
    ensures Value(p, env.At(l, i)) == Value(Without(p, l), env) + i * Value(Coefficient(p, l), env)
  {
    SplitValue(p, l, env.At(l, i));
    WithoutFree(p, l);
    ValueFree(Without(p, l), env, l, i);
    ValueFree(Coefficient(p, l), env, l, i);
  }

  /** A coefficient that is not the number one differs from one for some indices. */
  lemma {:induction false} NotOneSomewhere(c: Poly, m: Machine)
    requires Normal(c) && c != Num(1)
    ensures exists idx: map<LoopId, int> :: Value(c, Env(m, idx)) != 1
  {
    hide Sum;
    if forall idx: map<LoopId, int> :: Value(c, Env(m, idx)) == 1 {
      var d := Sum(c, Num(-1));
      SumNormal(c, Num(-1), 0);
      forall idx: map<LoopId, int> ensures Value(d, Env(m, idx)) == 0 {
        SumValue(c, Num(-1), Env(m, idx));
      }
      ZeroOnly(d, m, Vars(d), 1);
      MinusOne(c);
    }
  }

  // ---- Index expressions ------------------------------------------------------------------------

  /** Sums, differences and products of indices and constants. */
  predicate Polynomial(e: Expr)
  {
    match e
    case Const(_) => true
    case Index(_, _) => true
    case Binary(op, a, b) => (op == Add || op == Sub || op == Mul) && Polynomial(a) && Polynomial(b)
    case _ => false
  }

  function PolyOf(e: Expr): Poly
    requires Polynomial(e)
  {
    match e
    case Const(i) => Num(i)
    case Index(l, _) => Plus(Num(0), l, Num(1))
    case Binary(op, a, b) =>
      if op == Add then Sum(PolyOf(a), PolyOf(b))
      else if op == Sub then Sum(PolyOf(a), Scaled(PolyOf(b), -1))
      else Product(PolyOf(a), PolyOf(b))
  }

  lemma {:induction false} PolyNormal(e: Expr)
    requires Polynomial(e)
    ensures Normal(PolyOf(e))
  {
    if e.Binary? {
      PolyNormal(e.lhs);
      PolyNormal(e.rhs);
      var p, q := PolyOf(e.lhs), PolyOf(e.rhs);
      SumNormal(p, q, 0);
      ScaledNormal(q, -1, 0);
      SumNormal(p, Scaled(q, -1), 0);
      ProductNormal(p, q);
    }
  }

  lemma {:induction false} PolyValue(e: Expr, env: Env, st: State)
    requires Polynomial(e)
    ensures Eval(e, env, st, 0) == I(Value(PolyOf(e), env))
  {
    if e.Binary? {
      PolyValue(e.lhs, env, st);
      PolyValue(e.rhs, env, st);
      var p, q := PolyOf(e.lhs), PolyOf(e.rhs);
      SumValue(p, q, env);
      ScaledValue(q, -1, env);
      SumValue(p, Scaled(q, -1), env);
      ProductValue(p, q, env);
    }
  }

  /** Iteration i + 1 of l puts e one further than iteration i. */
  predicate NextIsOneFurther(e: Expr, l: LoopId, env: Env, st: State, i: int)
  {
    AsInt(Eval(e, env.At(l, i + 1), st, 0)) == AsInt(Eval(e, env.At(l, i), st, 0)) + 1
  }

  /** One more iteration of l moves e by one, whatever the other loops and the memory are. */
  ghost predicate StepsByOne(e: Expr, l: LoopId)
  {
    forall env: Env, st: State, i: int :: NextIsOneFurther(e, l, env, st, i)
  }

  /** An index expression steps by one with l exactly when the coefficient of l is one. */
  lemma {:induction false} StepsByOneExactly(e: Expr, l: LoopId)
    requires Polynomial(e)
    ensures StepsByOne(e, l) <==> Coefficient(PolyOf(e), l) == Num(1)
  {
    hide PolyOf, Coefficient, Eval;
    var p := PolyOf(e);
    PolyNormal(e);
    if StepsByOne(e, l) {
      var m := EmptyMachine();
      forall idx: map<LoopId, int>, i: int
        ensures GrowsAt(p, l, Env(m, idx), i)
      {
        var st := State(map[], []);
        assert NextIsOneFurther(e, l, Env(m, idx), st, i);
        PolyValue(e, Env(m, idx).At(l, i), st);
        PolyValue(e, Env(m, idx).At(l, i + 1), st);
      }
      GrowsByOneExactly(p, l, m);
    }
    if Coefficient(p, l) == Num(1) {
      forall env: Env, st: State, i: int
        ensures NextIsOneFurther(e, l, env, st, i)
      {
        LinearValue(p, l, env, i);
        LinearValue(p, l, env, i + 1);
        PolyValue(e, env.At(l, i), st);
        PolyValue(e, env.At(l, i + 1), st);
      }
    }
  }
}
