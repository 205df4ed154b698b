/** The type rules of verify(), and which buffers and locals a block depends on. */
module Types {
  import opened IR
  import opened Families
  import opened Semantics
  import opened Substitution
  import opened Footprint
  import opened Fusion

  // ---- Well-typed expressions -----------------------------------------------------------

  /** Operands of one type, scalar index subscripts, scalar broadcasts, and no strings. */
  predicate Typed(e: Expr)
  {
    match e
    case ConstStr(_) => false
    case Binary(_, a, b) => TypeOf(a) == TypeOf(b) && Typed(a) && Typed(b)
    case Unary(_, v) => Typed(v)
    case Load(_, subs, _) => TypedSubs(subs)
    case Broadcast(x, _) => Typed(x) && TypeOf(x).width == 1
    case _ => true
  }

  predicate TypedSubs(subs: seq<Expr>)
  {
    subs != [] && forall x | x in subs :: Typed(x) && TypeOf(x) == ExprType(IndexTy, 1)
  }

  predicate IsKind(v: Num, elem: ElemKind) { if elem == IndexTy then v.I? else v.F? }

  /** The unary functions keep the kind of their operand. */
  ghost predicate GoodMachine(m: Machine)
  {
    forall op: UnOp, v: Num :: (v.I? ==> m.unary(op, v).I?) && (v.F? ==> m.unary(op, v).F?)
  }

  /** A well-typed expression has a value of the kind of its type. */
  lemma {:induction false} KindSound(e: Expr, env: Env, st: State, lane: nat)
    requires Typed(e) && GoodMachine(env.m)
    ensures IsKind(Eval(e, env, st, lane), TypeOf(e).elem)
  {
    match e
    case Binary(_, a, b) =>
      KindSound(a, env, st, lane);
      KindSound(b, env, st, lane);
    case Unary(_, v) => KindSound(v, env, st, lane);
    case Load(_, _, _) => EvalLoad(e, env, st, lane);
    case Broadcast(x, _) => KindSound(x, env, st, 0);
    case _ =>
  }

  // ---- Buffers -----------------------------------------------------------------------------

  function ArgsReadE(e: Expr): set<nat>
  {
    match e
    case Binary(_, a, b) => ArgsReadE(a) + ArgsReadE(b)
    case Unary(_, v) => ArgsReadE(v)
    case Load(arg, subs, _) => {arg} + ArgsReadAll(subs)
    case Broadcast(x, _) => ArgsReadE(x)
    case _ => {}
  }

  function ArgsReadAll(es: seq<Expr>): set<nat>
  {
    if es == [] then {} else ArgsReadE(es[0]) + ArgsReadAll(es[1..])
  }

  function ArgsReadS(s: Stmt): set<nat>
  {
    match s
    case Loop(_, _, _, body) => ArgsRead(body)
    case IfRange(v, _, _, body) => ArgsReadE(v) + ArgsRead(body)
    case Store(_, subs, v, _) => ArgsReadAll(subs) + ArgsReadE(v)
    case StoreLocal(_, v, _) => ArgsReadE(v)
    case Call(_, ps) => ArgsReadAll(ps)
  }

  /** The buffers that loads of the block read (a store that accumulates is no load). */
  function ArgsRead(ss: seq<Stmt>): set<nat>
  {
    if ss == [] then {} else ArgsReadS(ss[0]) + ArgsRead(ss[1..])
  }

  function ArgsWrittenS(s: Stmt): set<nat>
  {
    match s
    case Loop(_, _, _, body) => ArgsWritten(body)
    case IfRange(_, _, _, body) => ArgsWritten(body)
    case Store(arg, _, _, _) => {arg}
    case _ => {}
  }

  function ArgsWritten(ss: seq<Stmt>): set<nat>
  {
    if ss == [] then {} else ArgsWrittenS(ss[0]) + ArgsWritten(ss[1..])
  }

  lemma {:induction false} ArgsAt(es: seq<Expr>, i: nat)
    requires i < |es|
    ensures ArgsReadE(es[i]) <= ArgsReadAll(es) && VarsReadE(es[i]) <= VarsReadAll(es)
  {
    if i > 0 { ArgsAt(es[1..], i - 1); }
  }

  lemma {:induction false} UsesAppend(a: seq<Stmt>, b: seq<Stmt>)
    ensures ArgsRead(a + b) == ArgsRead(a) + ArgsRead(b) && ArgsWritten(a + b) == ArgsWritten(a) + ArgsWritten(b)
    ensures VarsRead(a + b) == VarsRead(a) + VarsRead(b) && VarsWritten(a + b) == VarsWritten(a) + VarsWritten(b)
  {
    if a == [] {
      assert a + b == b;
    } else {
      assert (a + b)[0] == a[0] && (a + b)[1..] == a[1..] + b;
      UsesAppend(a[1..], b);
    }
  }

  lemma {:induction false} UsesOne(s: Stmt)
    ensures ArgsRead([s]) == ArgsReadS(s) && ArgsWritten([s]) == ArgsWrittenS(s)
    ensures VarsRead([s]) == VarsReadS(s) && VarsWritten([s]) == VarsWrittenS(s)
  {
    assert [s][1..] == [];
    assert ArgsRead([]) == {} && ArgsWritten([]) == {} && VarsRead([]) == {} && VarsWritten([]) == {};
  }

  // ---- States that agree except on some buffers and locals ---------------------------------

  predicate Hidden(W: set<nat>, T: set<string>, x: Loc)
  {
    match x
    case Elem(arg, _) => arg in W
    case Local(name, _) => name in T
  }

  ghost predicate Alike(W: set<nat>, T: set<string>, a: State, b: State)
  {
    a.calls == b.calls && forall x: Loc | !Hidden(W, T, x) :: Look(a, x) == Look(b, x)
  }

  lemma {:induction false} AlikeTrans(W: set<nat>, T: set<string>, a: State, b: State, c: State)
    requires Alike(W, T, a, b) && Alike(W, T, b, c)
    ensures Alike(W, T, a, c) && Alike(W, T, b, a)
  {}

  lemma {:induction false} EvalAlike(e: Expr, W: set<nat>, T: set<string>, env: Env, a: State, b: State, lane: nat)
    requires Alike(W, T, a, b) && ArgsReadE(e) !! W && VarsReadE(e) !! T
    ensures Eval(e, env, a, lane) == Eval(e, env, b, lane)
    decreases e
  {
    match e
    case Binary(_, x, y) =>
      EvalAlike(x, W, T, env, a, b, lane);
      EvalAlike(y, W, T, env, a, b, lane);
    case Unary(_, v) => EvalAlike(v, W, T, env, a, b, lane);
    case Load(arg, subs, ty) =>
      SubsAlike(subs, W, T, env, a, b);
      EvalLoad(e, env, a, lane);
      EvalLoad(e, env, b, lane);
      assert arg in ArgsReadE(e);
      var x := Elem(arg, Bump(EvalSubs(subs, env, a), LaneOf(ty, lane)));
      assert !Hidden(W, T, x);
      assert Look(a, x) == Look(b, x);
    case LoadLocal(v) =>
      var x := Local(v.name, LaneOf(v.ty, lane));
      assert v.name in VarsReadE(e);
      assert !Hidden(W, T, x);
      assert Look(a, x) == Look(b, x);
    case Broadcast(x, _) => EvalAlike(x, W, T, env, a, b, 0);
    case _ =>
  }

  lemma {:induction false} SubsAlike(es: seq<Expr>, W: set<nat>, T: set<string>, env: Env, a: State, b: State)
    requires Alike(W, T, a, b) && ArgsReadAll(es) !! W && VarsReadAll(es) !! T
    ensures EvalSubs(es, env, a) == EvalSubs(es, env, b) && EvalParams(es, env, a) == EvalParams(es, env, b)
    decreases es
  {
    forall i | 0 <= i < |es|
      ensures Eval(es[i], env, a, 0) == Eval(es[i], env, b, 0)
    {
      ArgsAt(es, i);
      EvalAlike(es[i], W, T, env, a, b, 0);
    }
  }

  // ---- What one store leaves behind ------------------------------------------------------------

  /** The last of the first n lanes that a store at idx puts at x. */
  function LastLane(arg: nat, idx: seq<int>, n: nat, x: Loc): Option<nat>
  {
    if n == 0 then None
    else if ElemAt(arg, idx, n - 1) == x then Some(n - 1)
    else LastLane(arg, idx, n - 1, x)
  }

  /** The last lane at a location decides what is there. */
  lemma {:induction false} LookElems(st: State, arg: nat, idx: seq<int>, value: Expr, acc: bool, env: Env, n: nat,
                                     x: Loc)
    ensures var k := LastLane(arg, idx, n, x);
      Look(State(WriteElems(st, arg, idx, value, acc, env, n), st.calls), x) ==
      if k.None? then Look(st, x) else Some(NewValue(env.m, acc, Read(st, x), Eval(value, env, st, k.value)))
    ensures var k := LastLane(arg, idx, n, x);
      k.Some? ==> k.value < n && x.Elem? && x.arg == arg
  {
    if n > 0 { LookElems(st, arg, idx, value, acc, env, n - 1, x); }
  }

  lemma {:induction false} LookLocals(st: State, v: LocalVar, value: Expr, acc: bool, env: Env, n: nat, x: Loc)
    ensures Look(State(WriteLocals(st, v, value, acc, env, n), st.calls), x) ==
      if x.Local? && x.name == v.name && x.lane < n
      then Some(NewValue(env.m, acc, Read(st, x), Eval(value, env, st, x.lane))) else Look(st, x)
  {
    if n > 0 { LookLocals(st, v, value, acc, env, n - 1, x); }
  }

  // ---- Blocks and states that agree -------------------------------------------------------------

  /** The block reads no buffer of W and no local of T. */
  predicate Blind(W: set<nat>, T: set<string>, ss: seq<Stmt>)
  {
    ArgsRead(ss) !! W && VarsRead(ss) !! T
  }

  predicate BlindS(W: set<nat>, T: set<string>, s: Stmt)
  {
    ArgsReadS(s) !! W && VarsReadS(s) !! T
  }

  lemma {:induction false} ExecAlikeS(s: Stmt, W: set<nat>, T: set<string>, env: Env, a: State, b: State)
    requires Alike(W, T, a, b) && BlindS(W, T, s)
    ensures Alike(W, T, ExecS(s, env, a), ExecS(s, env, b))
    decreases s, 1
  {
    var a', b' := ExecS(s, env, a), ExecS(s, env, b);
    match s
    case Loop(id, end, stride, body) =>
      ExecLoop(id, end, stride, body, env, a);
      ExecLoop(id, end, stride, body, env, b);
      IterAlike(s, Trip(end, stride), W, T, env, a, b);
    case IfRange(v, _, _, body) =>
      EvalAlike(v, W, T, env, a, b, 0);
      ExecAlike(body, W, T, env, a, b);
    case Store(arg, subs, value, acc) =>
      SubsAlike(subs, W, T, env, a, b);
      var idx, n := EvalSubs(subs, env, a), Width(value);
      forall x: Loc | !Hidden(W, T, x)
        ensures Look(a', x) == Look(b', x)
      {
        LookElems(a, arg, idx, value, acc, env, n, x);
        LookElems(b, arg, idx, value, acc, env, n, x);
        var k := LastLane(arg, idx, n, x);
        assert Look(a, x) == Look(b, x);
        if k.Some? { EvalAlike(value, W, T, env, a, b, k.value); }
      }
    case StoreLocal(v, value, acc) =>
      forall x: Loc | !Hidden(W, T, x)
        ensures Look(a', x) == Look(b', x)
      {
        LookLocals(a, v, value, acc, env, Width(value), x);
        LookLocals(b, v, value, acc, env, Width(value), x);
        assert Look(a, x) == Look(b, x);
        if x.Local? { EvalAlike(value, W, T, env, a, b, x.lane); }
      }
    case Call(_, ps) =>
      SubsAlike(ps, W, T, env, a, b);
      forall x: Loc | !Hidden(W, T, x)
        ensures Look(a', x) == Look(b', x)
      {
        assert Look(a, x) == Look(b, x);
      }
  }

  lemma {:induction false} IterAlike(L: Stmt, n: nat, W: set<nat>, T: set<string>, env: Env, a: State, b: State)
    requires L.Loop? && Alike(W, T, a, b) && BlindS(W, T, L)
    ensures var f := Body(L.body, L.id, L.stride, env); Alike(W, T, Iter(f, n, a), Iter(f, n, b))
    decreases L, 0, n
  {
    if n > 0 {
      var f := Body(L.body, L.id, L.stride, env);
      IterAlike(L, n - 1, W, T, env, a, b);
      ExecAlike(L.body, W, T, env.At(L.id, (n - 1) * L.stride), Iter(f, n - 1, a), Iter(f, n - 1, b));
    }
  }

  /** States that agree outside W and T still do after a block that reads nothing there. */
  lemma {:induction false} ExecAlike(ss: seq<Stmt>, W: set<nat>, T: set<string>, env: Env, a: State, b: State)
    requires Alike(W, T, a, b) && Blind(W, T, ss)
    ensures Alike(W, T, Exec(ss, env, a), Exec(ss, env, b))
    decreases ss, 2
  {
    if ss != [] {
      ExecAlikeS(ss[0], W, T, env, a, b);
      ExecAlike(ss[1..], W, T, env, ExecS(ss[0], env, a), ExecS(ss[0], env, b));
    }
  }

  predicate IsStore(s: Stmt) { s.Store? || s.StoreLocal? }

  /** Only stores, to buffers or locals. */
  predicate AllStores(ss: seq<Stmt>) { forall s | s in ss :: IsStore(s) }

  /** Stores leave everything alone but what they write. */
  lemma {:induction false} StoresFrame(ss: seq<Stmt>, W: set<nat>, T: set<string>, env: Env, st: State)
    requires AllStores(ss) && ArgsWritten(ss) <= W && VarsWritten(ss) <= T
    ensures Alike(W, T, st, Exec(ss, env, st))
  {
    if ss != [] {
      var s := ss[0];
      assert s in ss;
      var st' := ExecS(s, env, st);
      forall x: Loc | !Hidden(W, T, x)
        ensures Look(st, x) == Look(st', x)
      {
        match s {
          case Store(arg, subs, value, acc) =>
            LookElems(st, arg, EvalSubs(subs, env, st), value, acc, env, Width(value), x);
          case StoreLocal(v, value, acc) =>
            LookLocals(st, v, value, acc, env, Width(value), x);
        }
      }
      StoresFrame(ss[1..], W, T, env, st');
    }
  }

  lemma {:induction false} StoreLoopFrame(L: Stmt, n: nat, W: set<nat>, T: set<string>, env: Env, st: State)
    requires L.Loop? && AllStores(L.body) && ArgsWritten(L.body) <= W && VarsWritten(L.body) <= T
    ensures Alike(W, T, st, Iter(Body(L.body, L.id, L.stride, env), n, st))
  {
    if n > 0 {
      StoreLoopFrame(L, n - 1, W, T, env, st);
      var mid := Iter(Body(L.body, L.id, L.stride, env), n - 1, st);
      StoresFrame(L.body, W, T, env.At(L.id, (n - 1) * L.stride), mid);
    }
  }
}
