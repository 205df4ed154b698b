/** simplifyExpr: constant folding, arithmetic identities, constants to the right. */
module SimplifyExpr {
  import opened IR
  import opened Semantics
  import opened Types

  /** The simplified expression; moved means that the root is another node than before.
      Undefined stands for undefined behaviour of the source: an integer division by zero, or
      Min, Max or Pow of two float constants, which reads the (null) integer operands. */
  datatype Outcome = Undefined | Node(e: Expr, moved: bool)

  predicate IsConst(e: Expr) { e.Const? || e.ConstFP? }
  predicate IsOne(e: Expr) { e == Const(1) || e == ConstFP(1.0) }
  predicate IsZero(e: Expr) { e == Const(0) || e == ConstFP(0.0) }
  predicate IsCommutative(op: BinOp) { op == Mul || op == Add || op == Max || op == Min }

  function FoldInt(op: BinOp, x: int, y: int): Option<int>
  {
    match op
    case Mul => Some(x * y)
    case Add => Some(x + y)
    case Div => if y == 0 then None else Some(TruncDiv(x, y))
    case Sub => Some(x - y)
    case Min => Some(if y < x then y else x)
    case Max => Some(if x < y then y else x)
    case Pow =>
      if y >= 0 then Some(NatPow(x, y))
      else if NatPow(x, -y) == 0 then None
      else Some(TruncDiv(1, NatPow(x, -y)))
  }

  function FoldReal(op: BinOp, x: real, y: real): Option<real>
  {
    match op
    case Mul => Some(x * y)
    case Add => Some(x + y)
    case Div => if y == 0.0 then None else Some(x / y)
    case Sub => Some(x - y)
    case _ => None
  }

  /** Moves a constant to the right of a commutative operator. */
  predicate Swaps(op: BinOp, a: Expr, b: Expr) { !IsConst(b) && IsConst(a) && IsCommutative(op) }

  /** What becomes of an operator whose operands are simplified and arranged. */
  function Reduce(op: BinOp, a: Expr, b: Expr): Outcome
  {
    if a.Const? && b.Const? then
      var v := FoldInt(op, a.i, b.i);
      if v.None? then Undefined else Node(Const(v.value), true)
    else if a.ConstFP? && b.ConstFP? then
      var v := FoldReal(op, a.f, b.f);
      if v.None? then Undefined else Node(ConstFP(v.value), true)
    else
      match op
      case Mul =>
        if IsZero(a) then Node(a, true)
        else if IsZero(b) then Node(b, true)
        else if IsOne(a) then Node(b, true)
        else if IsOne(b) then Node(a, true)
        else Node(Binary(op, a, b), false)
      case Add =>
        if IsZero(a) then Node(b, true)
        else if IsZero(b) then Node(a, true)
        else Node(Binary(op, a, b), false)
      case Div =>
        if IsZero(a) then Node(a, true)
        else if IsOne(b) then Node(a, true)
        else Node(Binary(op, a, b), false)
      case _ => Node(Binary(op, a, b), false)
  }

  function SimplifyE(e: Expr): Outcome
  {
    match e
    case Binary(op, l, r) =>
      var a, b := SimplifyE(l), SimplifyE(r);
      if a.Undefined? || b.Undefined? then Undefined
      else if Swaps(op, a.e, b.e) then Reduce(op, b.e, a.e)
      else Reduce(op, a.e, b.e)
    case _ => Node(e, false)
  }

  // ---- Size --------------------------------------------------------------------------------

  function SizeE(e: Expr): (n: nat)
    ensures n > 0
  {
    match e
    case Binary(_, a, b) => 1 + SizeE(a) + SizeE(b)
    case Unary(_, v) => 1 + SizeE(v)
    case Load(_, subs, _) => 1 + SizeAll(subs)
    case Broadcast(x, _) => 1 + SizeE(x)
    case _ => 1
  }

  function SizeAll(es: seq<Expr>): nat
  {
    if es == [] then 0 else SizeE(es[0]) + SizeAll(es[1..])
  }

  /** A new root means fewer nodes. */
  lemma {:induction false} SimplifySize(e: Expr)
    requires SimplifyE(e).Node?
    ensures var r := SimplifyE(e); SizeE(r.e) <= SizeE(e) && (r.moved ==> SizeE(r.e) < SizeE(e))
  {
    if e.Binary? {
      SimplifySize(e.lhs);
      SimplifySize(e.rhs);
    }
  }

  // ---- Idempotence ---------------------------------------------------------------------------

  /** Simplifying a simplified expression changes nothing and reports nothing. */
  lemma {:induction false} SimplifyIdempotent(e: Expr)
    requires SimplifyE(e).Node?
    ensures SimplifyE(SimplifyE(e).e) == Node(SimplifyE(e).e, false)
  {
    if e.Binary? {
      SimplifyIdempotent(e.lhs);
      SimplifyIdempotent(e.rhs);
    }
  }

  // ---- Nothing left to simplify ---------------------------------------------------------------

  /** What can be simplified at an operator with operands a and b: two constants, a constant on the left
      of an operator that does not mind, a factor zero or one, a zero summand, a zero dividend, or a
      divisor one. */
  predicate RedexAt(op: BinOp, a: Expr, b: Expr)
  {
    (a.Const? && b.Const?) || (a.ConstFP? && b.ConstFP?) ||
    ((a.Const? || a.ConstFP?) && !(b.Const? || b.ConstFP?) && op in {BinOp.Mul, BinOp.Add, BinOp.Max, BinOp.Min}) ||
    (op == Mul && (IsZero(a) || IsZero(b) || IsOne(a) || IsOne(b))) ||
    (op == Add && (IsZero(a) || IsZero(b))) ||
    (op == Div && (IsZero(a) || IsOne(b)))
  }

  /** Some operator of e, below operators only, can be simplified. */
  predicate Redex(e: Expr)
  {
    e.Binary? && (RedexAt(e.op, e.lhs, e.rhs) || Redex(e.lhs) || Redex(e.rhs))
  }

  /** simplifyExpr leaves nothing that can be simplified. */
  lemma {:induction false} SimplifyNormal(e: Expr)
    requires SimplifyE(e).Node?
    ensures !Redex(SimplifyE(e).e)
  {
    if e.Binary? {
      SimplifyNormal(e.lhs);
      SimplifyNormal(e.rhs);
      var a, b := SimplifyE(e.lhs).e, SimplifyE(e.rhs).e;
      if Swaps(e.op, a, b) { ReduceNormal(e.op, b, a); } else { ReduceNormal(e.op, a, b); }
    }
  }

  lemma {:induction false} ReduceNormal(op: BinOp, a: Expr, b: Expr)
    requires Reduce(op, a, b).Node? && !Redex(a) && !Redex(b) && !Swaps(op, a, b)
    ensures !Redex(Reduce(op, a, b).e)
  {}

  /** It leaves an expression alone, and says so, exactly when there is nothing to simplify. */
  lemma {:induction false} UnchangedExactly(e: Expr)
    ensures SimplifyE(e) == Node(e, false) <==> !Redex(e)
  {
    if SimplifyE(e) == Node(e, false) { SimplifyNormal(e); }
    if e.Binary? && !Redex(e) {
      UnchangedExactly(e.lhs);
      UnchangedExactly(e.rhs);
    }
  }

  // ---- Meaning -----------------------------------------------------------------------------------

  predicate IsZeroNum(v: Num) { v == I(0) || v == F(0.0) }

  /** Evaluating lane `lane` of e divides by zero nowhere. */
  ghost predicate SafeE(e: Expr, env: Env, st: State, lane: nat)
  {
    match e
    case Binary(op, a, b) =>
      SafeE(a, env, st, lane) && SafeE(b, env, st, lane) && (op == Div ==> !IsZeroNum(Eval(b, env, st, lane)))
    case Unary(_, v) => SafeE(v, env, st, lane)
    case Load(_, subs, _) => forall x | x in subs :: SafeE(x, env, st, 0)
    case Broadcast(x, _) => SafeE(x, env, st, 0)
    case _ => true
  }

  ghost predicate SafeAll(es: seq<Expr>, env: Env, st: State)
  {
    forall x | x in es :: SafeE(x, env, st, 0)
  }

  /** b may stand for a: the same type and scope, and the same value wherever a is safe. */
  ghost predicate SameValue(a: Expr, b: Expr)
  {
    TypeOf(b) == TypeOf(a) && (Typed(a) ==> Typed(b)) && (Scalar(a) ==> Scalar(b)) &&
    (forall scope :: InScope(a, scope) ==> InScope(b, scope)) &&
    forall env: Env, st: State, lane: nat | GoodMachine(env.m) && Typed(a) && SafeE(a, env, st, lane) ::
      SafeE(b, env, st, lane) && Eval(b, env, st, lane) == Eval(a, env, st, lane)
  }

  lemma {:induction false} DivByOne(x: int)
    ensures TruncDiv(x, 1) == x
  {}

  lemma {:induction false} ZeroDiv(y: int)
    requires y != 0
    ensures TruncDiv(0, y) == 0
  {
    if y > 0 { assert 0 / y == 0; } else { assert 0 / -y == 0; }
  }

  /** Reducing keeps the value. */
  lemma {:induction false} ReduceValue(op: BinOp, a: Expr, b: Expr, env: Env, st: State, lane: nat)
    requires Reduce(op, a, b).Node? && GoodMachine(env.m) && Typed(Binary(op, a, b)) &&
      SafeE(Binary(op, a, b), env, st, lane)
    ensures var r := Reduce(op, a, b).e;
      SafeE(r, env, st, lane) && Eval(r, env, st, lane) == Eval(Binary(op, a, b), env, st, lane)
  {
    KindSound(a, env, st, lane);
    KindSound(b, env, st, lane);
    var x, y := Eval(a, env, st, lane), Eval(b, env, st, lane);
    if x.I? && y.I? {
      DivByOne(x.i);
      if y.i != 0 { ZeroDiv(y.i); }
    }
  }

  /** Reducing picks an operand, makes a constant, or keeps the operator. */
  lemma {:induction false} ReduceShape(op: BinOp, a: Expr, b: Expr)
    requires Reduce(op, a, b).Node?
    ensures var r := Reduce(op, a, b).e;
      r == a || r == b || r == Binary(op, a, b) || (r.Const? && a.Const?) || (r.ConstFP? && a.ConstFP?)
  {}

  /** Exchanging the operands of a commutative operator keeps the value. */
  lemma {:induction false} SwapValue(op: BinOp, a: Expr, b: Expr, env: Env, st: State, lane: nat)
    requires IsCommutative(op) && Typed(Binary(op, a, b)) && GoodMachine(env.m)
    ensures Eval(Binary(op, b, a), env, st, lane) == Eval(Binary(op, a, b), env, st, lane)
  {
    KindSound(a, env, st, lane);
    KindSound(b, env, st, lane);
  }

  lemma {:induction false} SimplifyShape(e: Expr)
    requires SimplifyE(e).Node? && Typed(e)
    ensures var r := SimplifyE(e).e; TypeOf(r) == TypeOf(e) && Typed(r)
  {
    if e.Binary? {
      SimplifyShape(e.lhs);
      SimplifyShape(e.rhs);
      var a, b := SimplifyE(e.lhs).e, SimplifyE(e.rhs).e;
      if Swaps(e.op, a, b) { ReduceShape(e.op, b, a); } else { ReduceShape(e.op, a, b); }
    }
  }

  lemma {:induction false} SimplifyScope(e: Expr, scope: set<LoopId>)
    requires SimplifyE(e).Node?
    ensures var r := SimplifyE(e).e; (Scalar(e) ==> Scalar(r)) && (InScope(e, scope) ==> InScope(r, scope))
  {
    if e.Binary? {
      SimplifyScope(e.lhs, scope);
      SimplifyScope(e.rhs, scope);
      var a, b := SimplifyE(e.lhs).e, SimplifyE(e.rhs).e;
      if Swaps(e.op, a, b) { ReduceShape(e.op, b, a); } else { ReduceShape(e.op, a, b); }
    }
  }

  lemma {:induction false} SimplifyValue(e: Expr, env: Env, st: State, lane: nat)
    requires SimplifyE(e).Node? && Typed(e) && GoodMachine(env.m) && SafeE(e, env, st, lane)
    ensures var r := SimplifyE(e).e;
      SafeE(r, env, st, lane) && Eval(r, env, st, lane) == Eval(e, env, st, lane)
  {
    if e.Binary? {
      SimplifyValue(e.lhs, env, st, lane);
      SimplifyValue(e.rhs, env, st, lane);
      SimplifyShape(e.lhs);
      SimplifyShape(e.rhs);
      var a, b := SimplifyE(e.lhs).e, SimplifyE(e.rhs).e;
      if Swaps(e.op, a, b) {
        SwapValue(e.op, a, b, env, st, lane);
        ReduceValue(e.op, b, a, env, st, lane);
      } else {
        ReduceValue(e.op, a, b, env, st, lane);
      }
    }
  }

  /** simplifyExpr keeps type, scope and, where no division by zero happens, value. */
  lemma {:induction false} SimplifySame(e: Expr)
    requires SimplifyE(e).Node? && Typed(e)
    ensures SameValue(e, SimplifyE(e).e)
  {
    SimplifyShape(e);
    forall scope ensures InScope(e, scope) ==> InScope(SimplifyE(e).e, scope) { SimplifyScope(e, scope); }
    SimplifyScope(e, {});
    forall env: Env, st: State, lane: nat | GoodMachine(env.m) && Typed(e) && SafeE(e, env, st, lane)
      ensures SafeE(SimplifyE(e).e, env, st, lane) && Eval(SimplifyE(e).e, env, st, lane) == Eval(e, env, st, lane)
    {
      SimplifyValue(e, env, st, lane);
    }
  }

  function ZeroOver(x: Expr): Expr { Binary(Div, Const(0), x) }

  /** Simplifying e keeps its value here. */
  ghost predicate KeepsValue(e: Expr, env: Env, st: State)
  {
    SimplifyE(e).Node? && Eval(SimplifyE(e).e, env, st, 0) == Eval(e, env, st, 0)
  }

  /** 0 / i becomes 0: that is right for every i exactly when the machine says 0 / 0 is 0. */
  lemma {:induction false} ZeroQuotientExactly(l: LoopId, m: Machine)
    ensures m.intByZero(0) == 0 <==>
      forall idx: map<LoopId, int>, st: State :: KeepsValue(ZeroOver(Idx(l)), Env(m, idx), st)
  {
    var e, z, i := ZeroOver(Idx(l)), Const(0), Idx(l);
    assert SimplifyE(z) == Node(z, false) && SimplifyE(i) == Node(i, false);
    assert SimplifyE(e) == Node(z, true);
    forall idx: map<LoopId, int>, st: State
      ensures Eval(z, Env(m, idx), st, 0) == I(0)
      ensures Eval(e, Env(m, idx), st, 0) == I(if Env(m, idx).Get(l) == 0 then m.intByZero(0) else 0)
    {
      var env := Env(m, idx);
      assert Eval(i, env, st, 0) == I(env.Get(l));
      if env.Get(l) != 0 { ZeroDiv(env.Get(l)); }
    }
    var none := State(map[], []);
    assert Env(m, map[]).Get(l) == 0;
    assert KeepsValue(e, Env(m, map[]), none) <==> m.intByZero(0) == 0;
  }

  predicate NonZeroConst(e: Expr) { (e.Const? && e.i != 0) || (e.ConstFP? && e.f != 0.0) }

  /** No power, no Min or Max of floats, and no division but by a constant that is not zero. */
  predicate Plain(e: Expr)
  {
    match e
    case Binary(op, a, b) => PlainOp(op, a, b) && Plain(a) && Plain(b)
    case Unary(_, v) => Plain(v)
    case Load(_, subs, _) => forall x | x in subs :: Plain(x)
    case Broadcast(x, _) => Plain(x)
    case _ => true
  }

  predicate PlainOp(op: BinOp, a: Expr, b: Expr)
  {
    op != Pow && (op == Div ==> NonZeroConst(b)) && ((op == Min || op == Max) ==> TypeOf(a).elem == IndexTy)
  }

  /** For such expressions simplifyExpr is defined, and the result is one again. */
  lemma {:induction false} PlainDefined(e: Expr)
    requires Plain(e) && Typed(e)
    ensures SimplifyE(e).Node? && Plain(SimplifyE(e).e)
  {
    if e.Binary? {
      PlainDefined(e.lhs);
      PlainDefined(e.rhs);
      SimplifyShape(e.lhs);
      SimplifyShape(e.rhs);
      var a, b := SimplifyE(e.lhs).e, SimplifyE(e.rhs).e;
      if Swaps(e.op, a, b) { PlainReduce(e.op, b, a); } else { PlainReduce(e.op, a, b); }
    }
  }

  lemma {:induction false} PlainReduce(op: BinOp, a: Expr, b: Expr)
    requires PlainOp(op, a, b) && Plain(a) && Plain(b) && TypeOf(a) == TypeOf(b)
    ensures Reduce(op, a, b).Node? && Plain(Reduce(op, a, b).e)
  {}

  /** Two float constants: undefined exactly for Min, Max, Pow and a zero divisor. */
  lemma {:induction false} FloatPairExactly(op: BinOp, x: real, y: real)
    ensures SimplifyE(Binary(op, ConstFP(x), ConstFP(y))).Undefined? <==>
            op == Min || op == Max || op == Pow || (op == Div && y == 0.0)
  {
    var a, b := ConstFP(x), ConstFP(y);
    assert SimplifyE(a) == Node(a, false) && SimplifyE(b) == Node(b, false);
    assert SimplifyE(Binary(op, a, b)) == Reduce(op, a, b);
  }

  // ---- The visitor: subscripts of every load -----------------------------------------------------

  /** A visited expression, and whether some handle got another root. */
  datatype Visited = Broken | Visited(e: Expr, changed: bool)
  datatype VisitedAll = BrokenAll | VisitedAll(es: seq<Expr>, changed: bool)

  /** Simplifies the subscripts of all loads in e, outermost first; e itself stays. */
  function VisitE(e: Expr): Visited
    decreases SizeE(e), 0
  {
    match e
    case Binary(op, a, b) =>
      var x, y := VisitE(a), VisitE(b);
      if x.Broken? || y.Broken? then Broken else Visited(Binary(op, x.e, y.e), x.changed || y.changed)
    case Unary(op, v) =>
      var x := VisitE(v);
      if x.Broken? then Broken else Visited(Unary(op, x.e), x.changed)
    case Load(arg, subs, ty) =>
      var xs := ProcessAll(subs);
      if xs.BrokenAll? then Broken else Visited(Load(arg, xs.es, ty), xs.changed)
    case Broadcast(v, vf) =>
      var x := VisitE(v);
      if x.Broken? then Broken else Visited(Broadcast(x.e, vf), x.changed)
    case _ => Visited(e, false)
  }

  /** process and then visit. */
  function ProcessE(e: Expr): Visited
    decreases SizeE(e), 1
  {
    var r := SimplifyE(e);
    if r.Undefined? then Broken
    else
      SimplifySize(e);
      var x := VisitE(r.e);
      if x.Broken? then Broken else Visited(x.e, r.moved || x.changed)
  }

  function ProcessAll(es: seq<Expr>): VisitedAll
    decreases SizeAll(es), 2, |es|
  {
    if es == [] then VisitedAll([], false)
    else
      var x, ys := ProcessE(es[0]), ProcessAll(es[1..]);
      if x.Broken? || ys.BrokenAll? then BrokenAll else VisitedAll([x.e] + ys.es, x.changed || ys.changed)
  }

  function VisitAll(es: seq<Expr>): VisitedAll
  {
    if es == [] then VisitedAll([], false)
    else
      var x, ys := VisitE(es[0]), VisitAll(es[1..]);
      if x.Broken? || ys.BrokenAll? then BrokenAll else VisitedAll([x.e] + ys.es, x.changed || ys.changed)
  }
}
