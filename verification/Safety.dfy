/** Runs that never divide by zero, and programs that do the same thing on such runs. */
module Safety {
  import opened IR
  import opened Families
  import opened Semantics
  import opened Substitution
  import opened Context
  import opened Types
  import opened SimplifyExpr

  /** Nothing that the run of s from st evaluates divides by zero. */
  ghost predicate SafeS(s: Stmt, env: Env, st: State)
    decreases s
  {
    match s
    case Loop(id, end, stride, body) =>
      forall k: nat | k < Trip(end, stride) ::
        SafeB(body, env.At(id, k * stride), Iter(Body(body, id, stride, env), k, st))
    case IfRange(v, start, stop, body) =>
      SafeE(v, env, st, 0) && (start <= AsInt(Eval(v, env, st, 0)) < stop ==> SafeB(body, env, st))
    case Store(_, subs, value, _) => SafeAll(subs, env, st) &&
      forall k: nat | k < Width(value) :: SafeE(value, env, st, k)
    case StoreLocal(_, value, _) => forall k: nat | k < Width(value) :: SafeE(value, env, st, k)
    case Call(_, ps) => SafeAll(ps, env, st)
  }

  ghost predicate SafeB(ss: seq<Stmt>, env: Env, st: State)
    decreases ss
  {
    ss == [] || (SafeS(ss[0], env, st) && SafeB(ss[1..], env, ExecS(ss[0], env, st)))
  }

  lemma {:induction false} SafeOne(s: Stmt, env: Env, st: State)
    ensures SafeB([s], env, st) == SafeS(s, env, st)
  {
    assert [s][1..] == [];
  }

  lemma {:induction false} SafeAppend(a: seq<Stmt>, b: seq<Stmt>, env: Env, st: State)
    ensures SafeB(a + b, env, st) == (SafeB(a, env, st) && SafeB(b, env, Exec(a, env, st)))
  {
    if a == [] {
      assert a + b == b;
    } else {
      assert (a + b)[0] == a[0] && (a + b)[1..] == a[1..] + b;
      SafeAppend(a[1..], b, env, ExecS(a[0], env, st));
    }
  }

  /** On every run of a without a division by zero, b does the same, and is safe as well. */
  ghost predicate Follows(t: Table, a: seq<Stmt>, b: seq<Stmt>)
  {
    forall env: Env, st: State | ValidEnv(t, env) && GoodMachine(env.m) && SafeB(a, env, st) ::
      SafeB(b, env, st) && Exec(b, env, st) == Exec(a, env, st)
  }

  lemma {:induction false} FollowsTrans(t: Table, a: seq<Stmt>, b: seq<Stmt>, c: seq<Stmt>)
    requires Follows(t, a, b) && Follows(t, b, c)
    ensures Follows(t, a, c)
  {}

  lemma {:induction false} FollowsAppend(t: Table, a: seq<Stmt>, b: seq<Stmt>, a': seq<Stmt>, b': seq<Stmt>)
    requires Follows(t, a, a') && Follows(t, b, b')
    ensures Follows(t, a + b, a' + b')
  {
    forall env: Env, st: State | ValidEnv(t, env) && GoodMachine(env.m) && SafeB(a + b, env, st)
      ensures SafeB(a' + b', env, st) && Exec(a' + b', env, st) == Exec(a + b, env, st)
    {
      SafeAppend(a, b, env, st);
      SafeAppend(a', b', env, st);
      ExecAppend(a, b, env, st);
      ExecAppend(a', b', env, st);
    }
  }

  lemma {:induction false} FollowsLoop(t: Table, id: LoopId, end: nat, stride: nat, a: seq<Stmt>, b: seq<Stmt>)
    requires Follows(t[id := Extent(end, stride)], a, b)
    ensures Follows(t, [Loop(id, end, stride, a)], [Loop(id, end, stride, b)])
  {
    hide Exec, ExecS, ValidEnv, GoodMachine;
    var x, y := Loop(id, end, stride, a), Loop(id, end, stride, b);
    forall env: Env, st: State | ValidEnv(t, env) && GoodMachine(env.m) && SafeB([x], env, st)
      ensures SafeB([y], env, st) && Exec([y], env, st) == Exec([x], env, st)
    {
      SafeOne(x, env, st);
      SafeOne(y, env, st);
      ExecOne(x, env, st);
      ExecOne(y, env, st);
      ExecLoop(id, end, stride, a, env, st);
      ExecLoop(id, end, stride, b, env, st);
      FollowsIter(t, id, end, stride, a, b, env, st, Trip(end, stride));
      forall k: nat | k < Trip(end, stride)
        ensures SafeB(b, env.At(id, k * stride), Iter(Body(b, id, stride, env), k, st))
      {
        FollowsIter(t, id, end, stride, a, b, env, st, k);
        ValidAt(t, env, id, end, stride, k);
        SafeIteration(x, env, st, k);
        FollowsAt(t[id := Extent(end, stride)], a, b, env.At(id, k * stride), Iter(Body(a, id, stride, env), k, st));
      }
    }
  }

  lemma {:induction false} FollowsIter(t: Table, id: LoopId, end: nat, stride: nat, a: seq<Stmt>, b: seq<Stmt>,
                                       env: Env, st: State, n: nat)
    requires Follows(t[id := Extent(end, stride)], a, b) && n <= Trip(end, stride)
    requires ValidEnv(t, env) && GoodMachine(env.m) && SafeS(Loop(id, end, stride, a), env, st)
    ensures Iter(Body(b, id, stride, env), n, st) == Iter(Body(a, id, stride, env), n, st)
  {
    hide Follows, SafeB, SafeS, Exec, ValidEnv, GoodMachine;
    if n > 0 {
      FollowsIter(t, id, end, stride, a, b, env, st, n - 1);
      ValidAt(t, env, id, end, stride, n - 1);
      SafeIteration(Loop(id, end, stride, a), env, st, n - 1);
      FollowsAt(t[id := Extent(end, stride)], a, b, env.At(id, (n - 1) * stride),
        Iter(Body(a, id, stride, env), n - 1, st));
    }
  }

  lemma {:induction false} FollowsAt(t: Table, a: seq<Stmt>, b: seq<Stmt>, env: Env, st: State)
    requires Follows(t, a, b) && ValidEnv(t, env) && GoodMachine(env.m) && SafeB(a, env, st)
    ensures SafeB(b, env, st) && Exec(b, env, st) == Exec(a, env, st)
  {}

  lemma {:induction false} SafeIteration(L: Stmt, env: Env, st: State, k: nat)
    requires L.Loop? && SafeS(L, env, st) && k < Trip(L.end, L.stride)
    ensures SafeB(L.body, env.At(L.id, k * L.stride), Iter(Body(L.body, L.id, L.stride, env), k, st))
  {}

  lemma {:induction false} FollowsIf(t: Table, v: Expr, v': Expr, start: int, stop: int, a: seq<Stmt>, b: seq<Stmt>)
    requires Follows(t, a, b) && Typed(v) && SameValue(v, v')
    ensures Follows(t, [IfRange(v, start, stop, a)], [IfRange(v', start, stop, b)])
  {
    var x, y := IfRange(v, start, stop, a), IfRange(v', start, stop, b);
    forall env: Env, st: State | ValidEnv(t, env) && GoodMachine(env.m) && SafeB([x], env, st)
      ensures SafeB([y], env, st) && Exec([y], env, st) == Exec([x], env, st)
    {
      SafeOne(x, env, st);
      SafeOne(y, env, st);
      ExecOne(x, env, st);
      ExecOne(y, env, st);
    }
  }

  // ---- Substitution and safety ----------------------------------------------------------------

  lemma {:induction false} SafeSubstE(e: Expr, l: LoopId, r: Expr, env: Env, st: State, lane: nat)
    requires Scalar(e) && IndexOnly(r)
    requires SafeE(r, env, st, lane) && SafeE(r, env, st, 0)
    ensures SafeE(Subst(e, l, r), env, st, lane) == SafeE(e, env.At(l, IndexValue(r, env)), st, lane)
  {
    match e
    case Binary(_, a, b) =>
      SafeSubstE(a, l, r, env, st, lane);
      SafeSubstE(b, l, r, env, st, lane);
      EvalSubst(b, l, r, env, st, lane);
    case Unary(_, v) => SafeSubstE(v, l, r, env, st, lane);
    case Load(_, subs, _) =>
      var subs' := Subst(e, l, r).subs;
      forall i | 0 <= i < |subs|
        ensures SafeE(subs'[i], env, st, 0) == SafeE(subs[i], env.At(l, IndexValue(r, env)), st, 0)
      {
        assert subs[i] in subs;
        SafeSubstE(subs[i], l, r, env, st, 0);
      }
      SafePointwise(subs', env, subs, env.At(l, IndexValue(r, env)), st);
    case Broadcast(x, _) => SafeSubstE(x, l, r, env, st, 0);
    case _ =>
  }

  lemma {:induction false} SafePointwise(a: seq<Expr>, ea: Env, b: seq<Expr>, eb: Env, st: State)
    requires |a| == |b| && forall i | 0 <= i < |a| :: SafeE(a[i], ea, st, 0) == SafeE(b[i], eb, st, 0)
    ensures SafeAll(a, ea, st) == SafeAll(b, eb, st)
  {
    if SafeAll(a, ea, st) {
      forall x | x in b ensures SafeE(x, eb, st, 0) {
        var i :| 0 <= i < |b| && b[i] == x;
        assert a[i] in a;
      }
    }
    if SafeAll(b, eb, st) {
      forall x | x in a ensures SafeE(x, ea, st, 0) {
        var i :| 0 <= i < |a| && a[i] == x;
        assert b[i] in b;
      }
    }
  }

  /** The index of a loop at its constant value i: safe before, safe after. */
  lemma {:induction false} SafeSubstAll(es: seq<Expr>, l: LoopId, i: int, env: Env, st: State)
    requires ScalarAll(es)
    ensures SafeAll(SubstAll(es, l, Const(i)), env, st) == SafeAll(es, env.At(l, i), st)
  {
    var r := Const(i);
    assert IndexValue(r, env) == i;
    var es' := SubstAll(es, l, r);
    forall k | 0 <= k < |es|
      ensures SafeE(es'[k], env, st, 0) == SafeE(es[k], env.At(l, i), st, 0)
    {
      assert es[k] in es;
      SafeSubstE(es[k], l, r, env, st, 0);
    }
    SafePointwise(es', env, es, env.At(l, i), st);
  }

  lemma {:induction false} SafeSubstS(s: Stmt, l: LoopId, i: int, env: Env, st: State)
    requires ScalarS(s) && l !in Bound(s)
    ensures SafeS(SubstS(s, l, Const(i)), env, st) == SafeS(s, env.At(l, i), st)
    decreases s, 1
  {
    var r, e' := Const(i), env.At(l, i);
    assert IndexValue(r, env) == i && Substitutable(Bound(s), l, r);
    match s
    case Loop(id, end, stride, body) =>
      var body' := SubstB(body, l, r);
      forall k: nat
        ensures SafeB(body', env.At(id, k * stride), Iter(Body(body', id, stride, env), k, st)) ==
                SafeB(body, e'.At(id, k * stride), Iter(Body(body, id, stride, e'), k, st))
      {
        SafeSubstIter(s, l, i, env, st, k);
      }
    case IfRange(v, _, _, body) =>
      SafeSubstE(v, l, r, env, st, 0);
      EvalSubst(v, l, r, env, st, 0);
      SafeSubst(body, l, i, env, st);
    case Store(_, subs, value, _) =>
      SafeSubstAll(subs, l, i, env, st);
      SubstType(value, l, r);
      forall k: nat { SafeSubstE(value, l, r, env, st, k); }
    case StoreLocal(_, value, _) =>
      SubstType(value, l, r);
      forall k: nat { SafeSubstE(value, l, r, env, st, k); }
    case Call(_, ps) => SafeSubstAll(ps, l, i, env, st);
  }

  lemma {:induction false} SafeSubstIter(s: Stmt, l: LoopId, i: int, env: Env, st: State, k: nat)
    requires s.Loop? && ScalarS(s) && l !in Bound(s)
    ensures var body' := SubstB(s.body, l, Const(i));
      SafeB(body', env.At(s.id, k * s.stride), Iter(Body(body', s.id, s.stride, env), k, st)) ==
      SafeB(s.body, env.At(l, i).At(s.id, k * s.stride), Iter(Body(s.body, s.id, s.stride, env.At(l, i)), k, st))
    decreases s, 0
  {
    var r, e' := Const(i), env.At(l, i);
    var body' := SubstB(s.body, l, r);
    assert IndexValue(r, env) == i;
    forall j: nat, x: State
      ensures Body(body', s.id, s.stride, env)(j, x) == Body(s.body, s.id, s.stride, e')(j, x)
    {
      ExecSubst(s.body, l, r, env.At(s.id, j * s.stride), x);
      AtAt(env, s.id, j * s.stride, l, i);
    }
    IterCong(Body(body', s.id, s.stride, env), Body(s.body, s.id, s.stride, e'), k, st);
    AtAt(env, s.id, k * s.stride, l, i);
    SafeSubst(s.body, l, i, env.At(s.id, k * s.stride), Iter(Body(body', s.id, s.stride, env), k, st));
  }

  lemma {:induction false} SafeSubst(ss: seq<Stmt>, l: LoopId, i: int, env: Env, st: State)
    requires ScalarB(ss) && l !in BoundB(ss)
    ensures SafeB(SubstB(ss, l, Const(i)), env, st) == SafeB(ss, env.At(l, i), st)
    decreases ss, 2
  {
    if ss != [] {
      var r := Const(i);
      assert IndexValue(r, env) == i && Substitutable(Bound(ss[0]), l, r);
      SafeSubstS(ss[0], l, i, env, st);
      ExecSubstS(ss[0], l, r, env, st);
      assert SubstB(ss, l, r)[1..] == SubstB(ss[1..], l, r);
      SafeSubst(ss[1..], l, i, env, ExecS(ss[0], env.At(l, i), st));
    }
  }
}
