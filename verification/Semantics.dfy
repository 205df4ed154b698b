/** Exact-arithmetic execution of the loop-nest IR. */
module Semantics {
  import opened IR
  import opened Families

  // ---- Values and machine ---------------------------------------------------

  /** A scalar: an index, a tensor element, or a string constant. */
  datatype Num = I(i: int) | F(f: real) | S(s: string)

  /** What exact arithmetic leaves open: transcendental functions and division by zero. */
  datatype Machine = Machine(
    unary: (UnOp, Num) -> Num,
    powF: (real, real) -> real,
    intByZero: int -> int,
    realByZero: real -> real)

  /** Integer division of the target rounds toward zero. */
  function TruncDiv(x: int, y: int): int
    requires y != 0
  {
    if x >= 0 then (if y > 0 then x / y else -(x / -y))
    else (if y > 0 then -(-x / y) else -x / -y)
  }

  function NatPow(x: int, n: nat): int
  {
    if n == 0 then 1 else x * NatPow(x, n - 1)
  }

  function IntPow(m: Machine, x: int, y: int): int
  {
    if y >= 0 then NatPow(x, y)
    else if NatPow(x, -y) == 0 then m.intByZero(1)
    else TruncDiv(1, NatPow(x, -y))
  }

  function IntOp(m: Machine, op: BinOp, x: int, y: int): int
  {
    match op
    case Mul => x * y
    case Add => x + y
    case Sub => x - y
    case Div => if y == 0 then m.intByZero(x) else TruncDiv(x, y)
    case Max => if x >= y then x else y
    case Min => if x < y then x else y
    case Pow => IntPow(m, x, y)
  }

  function RealOp(m: Machine, op: BinOp, x: real, y: real): real
  {
    match op
    case Mul => x * y
    case Add => x + y
    case Sub => x - y
    case Div => if y == 0.0 then m.realByZero(x) else x / y
    case Max => if x >= y then x else y
    case Min => if x < y then x else y
    case Pow => m.powF(x, y)
  }

  /** Operands of different kinds are ill typed and give an arbitrary fixed value. */
  function Apply(m: Machine, op: BinOp, a: Num, b: Num): Num
  {
    match (a, b)
    case (I(x), I(y)) => I(IntOp(m, op, x, y))
    case (F(x), F(y)) => F(RealOp(m, op, x, y))
    case _ => I(0)
  }

  /** Memory is read at the type of the access. */
  function Coerce(elem: ElemKind, v: Num): Num
  {
    if elem == IndexTy then
      (match v case I(_) => v case F(x) => I(x.Floor) case S(_) => I(0))
    else
      (match v case F(_) => v case I(x) => F(x as real) case S(_) => F(0.0))
  }

  function AsInt(v: Num): int { if v.I? then v.i else 0 }

  // ---- State ------------------------------------------------------------------

  /** One element of a buffer, or one lane of a local variable. */
  datatype Loc = Elem(arg: nat, idx: seq<int>) | Local(name: string, lane: nat)

  /** Memory, and the external calls made so far with their scalar parameters. */
  datatype State = State(mem: map<Loc, Num>, calls: seq<(string, seq<Num>)>)

  function Read(st: State, l: Loc): Num
  {
    if l in st.mem then st.mem[l] else I(0)
  }

  /** The machine and the current value of every loop index. */
  datatype Env = Env(m: Machine, idx: map<LoopId, int>) {
    function Get(l: LoopId): int { if l in idx then idx[l] else 0 }
    function At(l: LoopId, i: int): Env { Env(m, idx[l := i]) }
  }

  // ---- Expressions --------------------------------------------------------------

  /** The element `lane` places after idx in the last dimension. */
  function Bump(idx: seq<int>, lane: int): seq<int>
  {
    if idx == [] then idx else idx[|idx| - 1 := idx[|idx| - 1] + lane]
  }

  /** The lane of a scalar is always its only one. */
  function LaneOf(ty: ExprType, lane: nat): nat { if ty.IsVector() then lane else 0 }

  function Eval(e: Expr, env: Env, st: State, lane: nat): Num
  {
    match e
    case Const(i) => I(i)
    case ConstFP(f) => F(f)
    case ConstStr(s) => S(s)
    case Index(l, w) => I(env.Get(l) + if w != 1 then lane else 0)
    case Binary(op, a, b) => Apply(env.m, op, Eval(a, env, st, lane), Eval(b, env, st, lane))
    case Unary(op, v) => env.m.unary(op, Eval(v, env, st, lane))
    case Load(arg, subs, ty) =>
      var idx := seq(|subs|, i requires 0 <= i < |subs| => AsInt(Eval(subs[i], env, st, 0)));
      Coerce(ty.elem, Read(st, Elem(arg, Bump(idx, LaneOf(ty, lane)))))
    case LoadLocal(v) => Coerce(v.ty.elem, Read(st, Local(v.name, LaneOf(v.ty, lane))))
    case Broadcast(x, _) => Eval(x, env, st, 0)
  }

  function EvalSubs(subs: seq<Expr>, env: Env, st: State): seq<int>
  {
    seq(|subs|, i requires 0 <= i < |subs| => AsInt(Eval(subs[i], env, st, 0)))
  }

  function EvalParams(ps: seq<Expr>, env: Env, st: State): seq<Num>
  {
    seq(|ps|, i requires 0 <= i < |ps| => Eval(ps[i], env, st, 0))
  }

  // ---- Statements ----------------------------------------------------------------

  /** What a store writes to one location: the value, or the old contents read at the
      kind of the value plus the value. */
  function NewValue(m: Machine, acc: bool, old_: Num, v: Num): Num
  {
    if !acc then v
    else Apply(m, Add, Coerce(if v.I? then IndexTy else Float32Ty, old_), v)
  }

  function ElemAt(arg: nat, idx: seq<int>, lane: nat): Loc { Elem(arg, Bump(idx, lane)) }

  /** Memory after the first n lanes of a store are written; every lane is computed in st. */
  function WriteElems(st: State, arg: nat, idx: seq<int>, value: Expr, acc: bool, env: Env, n: nat): map<Loc, Num>
  {
    if n == 0 then st.mem
    else
      var l := ElemAt(arg, idx, n - 1);
      WriteElems(st, arg, idx, value, acc, env, n - 1)
        [l := NewValue(env.m, acc, Read(st, l), Eval(value, env, st, n - 1))]
  }

  function WriteLocals(st: State, v: LocalVar, value: Expr, acc: bool, env: Env, n: nat): map<Loc, Num>
  {
    if n == 0 then st.mem
    else
      var l := Local(v.name, n - 1);
      WriteLocals(st, v, value, acc, env, n - 1)
        [l := NewValue(env.m, acc, Read(st, l), Eval(value, env, st, n - 1))]
  }

  /** How many times a loop over 0, stride, 2*stride, ... < end runs its body. */
  function Trip(end: nat, stride: nat): nat
  {
    if stride == 0 then 0 else (end + stride - 1) / stride
  }

  ghost function ExecS(s: Stmt, env: Env, st: State): State
    decreases s
  {
    match s
    case Loop(id, end, stride, body) =>
      Iter((k: nat, x: State) => Exec(body, env.At(id, k * stride), x), Trip(end, stride), st)
    case IfRange(v, start, stop, body) =>
      if start <= AsInt(Eval(v, env, st, 0)) < stop then Exec(body, env, st) else st
    case Store(arg, subs, value, acc) =>
      st.(mem := WriteElems(st, arg, EvalSubs(subs, env, st), value, acc, env, Width(value)))
    case StoreLocal(v, value, acc) =>
      st.(mem := WriteLocals(st, v, value, acc, env, Width(value)))
    case Call(name, ps) =>
      st.(calls := st.calls + [(name, EvalParams(ps, env, st))])
  }

  ghost function Exec(ss: seq<Stmt>, env: Env, st: State): State
    decreases ss
  {
    if ss == [] then st else Exec(ss[1..], env, ExecS(ss[0], env, st))
  }

  /** The k-th iteration of a loop body. */
  ghost function Body(body: seq<Stmt>, id: LoopId, stride: nat, env: Env): (nat, State) -> State
  {
    (k: nat, x: State) => Exec(body, env.At(id, k * stride), x)
  }

  lemma {:induction false} ExecLoop(id: LoopId, end: nat, stride: nat, body: seq<Stmt>, env: Env, st: State)
    ensures ExecS(Loop(id, end, stride, body), env, st) == Iter(Body(body, id, stride, env), Trip(end, stride), st)
  {
    var f := (k: nat, x: State) => Exec(body, env.At(id, k * stride), x);
    IterCong(f, Body(body, id, stride, env), Trip(end, stride), st);
  }

  lemma {:induction false} ExecOne(s: Stmt, env: Env, st: State)
    ensures Exec([s], env, st) == ExecS(s, env, st)
  {
    assert [s][1..] == [];
  }

  lemma {:induction false} ExecAppend(a: seq<Stmt>, b: seq<Stmt>, env: Env, st: State)
    ensures Exec(a + b, env, st) == Exec(b, env, Exec(a, env, st))
  {
    if a == [] {
      assert a + b == b;
    } else {
      assert (a + b)[0] == a[0] && (a + b)[1..] == a[1..] + b;
      ExecAppend(a[1..], b, env, ExecS(a[0], env, st));
    }
  }
}
