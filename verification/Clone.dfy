/** Cloning statements: every cloned loop is a new loop, and index expressions follow it. */
module Clone {
  import opened IR
  import opened Families
  import opened Semantics
  import opened Substitution

  /** The loop that l is mapped to, or l itself (CloneCtx::get). */
  function Mapped(ctx: map<LoopId, LoopId>, l: LoopId): LoopId { if l in ctx then ctx[l] else l }

  /** Cloned statements, the clone map after them, and the next unused loop identity. */
  datatype Cloned = Cloned(out: seq<Stmt>, ctx: map<LoopId, LoopId>, next: LoopId)

  function CloneE(e: Expr, ctx: map<LoopId, LoopId>): Expr
  {
    match e
    case Index(l, _) => Idx(Mapped(ctx, l))
    case Binary(op, a, b) => Binary(op, CloneE(a, ctx), CloneE(b, ctx))
    case Unary(op, v) => Unary(op, CloneE(v, ctx))
    case Load(arg, subs, ty) =>
      Load(arg, seq(|subs|, i requires 0 <= i < |subs| => CloneE(subs[i], ctx)), ty)
    case Broadcast(x, vf) => Broadcast(CloneE(x, ctx), vf)
    case _ => e
  }

  function CloneAll(es: seq<Expr>, ctx: map<LoopId, LoopId>): seq<Expr>
  {
    seq(|es|, i requires 0 <= i < |es| => CloneE(es[i], ctx))
  }

  function CloneS(s: Stmt, ctx: map<LoopId, LoopId>, next: LoopId): Cloned
    decreases s
  {
    match s
    case Loop(id, end, stride, body) =>
      var c := CloneB(body, ctx[id := next], next + 1);
      Cloned([Loop(next, end, stride, c.out)], c.ctx, c.next)
    case IfRange(v, start, stop, body) =>
      var c := CloneB(body, ctx, next);
      Cloned([IfRange(CloneE(v, ctx), start, stop, c.out)], c.ctx, c.next)
    case Store(arg, subs, v, acc) => Cloned([Store(arg, CloneAll(subs, ctx), CloneE(v, ctx), acc)], ctx, next)
    case StoreLocal(x, v, acc) => Cloned([StoreLocal(x, CloneE(v, ctx), acc)], ctx, next)
    case Call(n, ps) => Cloned([Call(n, CloneAll(ps, ctx))], ctx, next)
  }

  function CloneB(ss: seq<Stmt>, ctx: map<LoopId, LoopId>, next: LoopId): Cloned
    decreases ss
  {
    if ss == [] then Cloned([], ctx, next)
    else
      var a := CloneS(ss[0], ctx, next);
      var b := CloneB(ss[1..], a.ctx, a.next);
      Cloned(a.out + b.out, b.ctx, b.next)
  }

  /** The clone map changes only at the loops that are cloned. */
  lemma {:induction false} CloneCtxB(ss: seq<Stmt>, ctx: map<LoopId, LoopId>, next: LoopId)
    ensures var c := CloneB(ss, ctx, next);
      c.next >= next && forall l :: l !in BoundB(ss) ==> Mapped(c.ctx, l) == Mapped(ctx, l)
    decreases ss
  {
    if ss != [] {
      CloneCtxS(ss[0], ctx, next);
      var a := CloneS(ss[0], ctx, next);
      CloneCtxB(ss[1..], a.ctx, a.next);
    }
  }

  lemma {:induction false} CloneCtxS(s: Stmt, ctx: map<LoopId, LoopId>, next: LoopId)
    ensures var c := CloneS(s, ctx, next);
      c.next >= next && |c.out| == 1 && forall l :: l !in Bound(s) ==> Mapped(c.ctx, l) == Mapped(ctx, l)
    decreases s
  {
    match s
    case Loop(id, _, _, body) => CloneCtxB(body, ctx[id := next], next + 1);
    case IfRange(_, _, _, body) => CloneCtxB(body, ctx, next);
    case _ =>
  }

  /** The clone of an enclosing scope: mapped loops of scope are loops of scope', and
      every loop of scope' is older than next. */
  ghost predicate Maps(ctx: map<LoopId, LoopId>, scope: set<LoopId>, scope': set<LoopId>, next: LoopId)
  {
    (forall l | l in scope :: Mapped(ctx, l) in scope') && Below(scope', next)
  }

  lemma {:induction false} CloneEWf(e: Expr, ctx: map<LoopId, LoopId>, scope: set<LoopId>, scope': set<LoopId>)
    requires WfE(e, scope) && forall l | l in scope :: Mapped(ctx, l) in scope'
    ensures WfE(CloneE(e, ctx), scope') && TypeOf(CloneE(e, ctx)) == TypeOf(e)
  {
    match e
    case Binary(_, a, b) => CloneEWf(a, ctx, scope, scope'); CloneEWf(b, ctx, scope, scope');
    case Unary(_, v) => CloneEWf(v, ctx, scope, scope');
    case Load(_, subs, _) =>
      forall i | 0 <= i < |subs|
        ensures WfE(CloneE(e, ctx).subs[i], scope')
      {
        assert subs[i] in subs;
        CloneEWf(subs[i], ctx, scope, scope');
      }
    case Broadcast(x, _) => CloneEWf(x, ctx, scope, scope');
    case _ =>
  }

  lemma {:induction false} CloneAllWf(es: seq<Expr>, ctx: map<LoopId, LoopId>, scope: set<LoopId>, scope': set<LoopId>)
    requires WfAll(es, scope) && forall l | l in scope :: Mapped(ctx, l) in scope'
    ensures WfAll(CloneAll(es, ctx), scope')
  {
    forall i | 0 <= i < |es|
      ensures WfE(CloneAll(es, ctx)[i], scope')
    {
      assert es[i] in es;
      CloneEWf(es[i], ctx, scope, scope');
    }
  }

  /** A clone of a well-formed block is well formed and declares only new loops. */
  lemma {:induction false} CloneWf(ss: seq<Stmt>, ctx: map<LoopId, LoopId>, next: LoopId,
                                   scope: set<LoopId>, scope': set<LoopId>)
    requires WfB(ss, scope) && Maps(ctx, scope, scope', next)
    ensures var c := CloneB(ss, ctx, next);
      WfB(c.out, scope') && |c.out| == |ss| && Between(BoundB(c.out), next, c.next)
    decreases ss
  {
    if ss != [] {
      CloneWfS(ss[0], ctx, next, scope, scope');
      CloneCtxS(ss[0], ctx, next);
      var a := CloneS(ss[0], ctx, next);
      Single(ss[0]);
      WfBoundFresh([ss[0]], scope);
      CloneWf(ss[1..], a.ctx, a.next, scope, scope');
      CloneCtxB(ss[1..], a.ctx, a.next);
      var b := CloneB(ss[1..], a.ctx, a.next);
      Single(a.out[0]);
      assert a.out == [a.out[0]];
      WfAppend(a.out, b.out, scope');
      BoundAppend(a.out, b.out);
    }
  }

  lemma {:induction false} CloneWfS(s: Stmt, ctx: map<LoopId, LoopId>, next: LoopId,
                                    scope: set<LoopId>, scope': set<LoopId>)
    requires WfS(s, scope) && Maps(ctx, scope, scope', next)
    ensures var c := CloneS(s, ctx, next);
      |c.out| == 1 && WfS(c.out[0], scope') && WfB(c.out, scope') &&
      Between(Bound(c.out[0]), next, c.next)
    decreases s
  {
    CloneCtxS(s, ctx, next);
    var out := CloneS(s, ctx, next).out;
    Single(out[0]);
    assert out == [out[0]];
    match s
    case Loop(id, _, _, body) =>
      CloneWf(body, ctx[id := next], next + 1, scope + {id}, scope' + {next});
      CloneCtxB(body, ctx[id := next], next + 1);
    case IfRange(v, _, _, body) =>
      CloneEWf(v, ctx, scope, scope');
      CloneWf(body, ctx, next, scope, scope');
      CloneCtxB(body, ctx, next);
    case Store(_, subs, v, _) => CloneAllWf(subs, ctx, scope, scope'); CloneEWf(v, ctx, scope, scope');
    case StoreLocal(_, v, _) => CloneEWf(v, ctx, scope, scope');
    case Call(_, ps) => CloneAllWf(ps, ctx, scope, scope');
  }

  /** env' gives every mapped loop the value env gives the original. */
  ghost predicate Follows(ctx: map<LoopId, LoopId>, scope: set<LoopId>, env: Env, env': Env)
  {
    env.m == env'.m && forall l | l in scope :: env'.Get(Mapped(ctx, l)) == env.Get(l)
  }

  lemma {:induction false} CloneEval(e: Expr, ctx: map<LoopId, LoopId>, scope: set<LoopId>,
                                     env: Env, env': Env, st: State, lane: nat)
    requires WfE(e, scope) && Follows(ctx, scope, env, env')
    ensures Eval(CloneE(e, ctx), env', st, lane) == Eval(e, env, st, lane)
  {
    match e
    case Binary(_, a, b) =>
      CloneEval(a, ctx, scope, env, env', st, lane);
      CloneEval(b, ctx, scope, env, env', st, lane);
    case Unary(_, v) => CloneEval(v, ctx, scope, env, env', st, lane);
    case Load(_, subs, _) =>
      var subs' := CloneE(e, ctx).subs;
      forall i | 0 <= i < |subs|
        ensures Eval(subs'[i], env', st, 0) == Eval(subs[i], env, st, 0)
      {
        assert subs[i] in subs;
        CloneEval(subs[i], ctx, scope, env, env', st, 0);
      }
      assert EvalSubs(subs', env', st) == EvalSubs(subs, env, st);
      EvalLoad(e, env, st, lane);
      EvalLoad(CloneE(e, ctx), env', st, lane);
    case Broadcast(x, _) => CloneEval(x, ctx, scope, env, env', st, 0);
    case _ =>
  }

  lemma {:induction false} CloneSubs(es: seq<Expr>, ctx: map<LoopId, LoopId>, scope: set<LoopId>,
                                     env: Env, env': Env, st: State)
    requires WfAll(es, scope) && Follows(ctx, scope, env, env')
    ensures EvalSubs(CloneAll(es, ctx), env', st) == EvalSubs(es, env, st)
    ensures EvalParams(CloneAll(es, ctx), env', st) == EvalParams(es, env, st)
  {
    forall i | 0 <= i < |es|
      ensures Eval(CloneAll(es, ctx)[i], env', st, 0) == Eval(es[i], env, st, 0)
    {
      assert es[i] in es;
      CloneEval(es[i], ctx, scope, env, env', st, 0);
    }
  }

  lemma {:induction false} CloneExecS(s: Stmt, ctx: map<LoopId, LoopId>, next: LoopId, scope: set<LoopId>,
                                      scope': set<LoopId>, env: Env, env': Env, st: State)
    requires WfS(s, scope) && Maps(ctx, scope, scope', next) && Follows(ctx, scope, env, env')
    ensures Exec(CloneS(s, ctx, next).out, env', st) == ExecS(s, env, st)
    decreases s
  {
    var out := CloneS(s, ctx, next).out;
    CloneCtxS(s, ctx, next);
    assert out == [out[0]];
    ExecOne(out[0], env', st);
    match s
    case Loop(id, end, stride, body) =>
      var ctx' := ctx[id := next];
      var body' := CloneB(body, ctx', next + 1).out;
      ExecLoop(id, end, stride, body, env, st);
      ExecLoop(next, end, stride, body', env', st);
      forall k: nat, x: State
        ensures Body(body', next, stride, env')(k, x) == Body(body, id, stride, env)(k, x)
      {
        CloneExec(body, ctx', next + 1, scope + {id}, scope' + {next},
                  env.At(id, k * stride), env'.At(next, k * stride), x);
      }
      IterCong(Body(body', next, stride, env'), Body(body, id, stride, env), Trip(end, stride), st);
    case IfRange(v, _, _, body) =>
      CloneEval(v, ctx, scope, env, env', st, 0);
      CloneExec(body, ctx, next, scope, scope', env, env', st);
    case Store(arg, subs, v, acc) =>
      CloneSubs(subs, ctx, scope, env, env', st);
      forall lane: nat { CloneEval(v, ctx, scope, env, env', st, lane); }
      CloneEWf(v, ctx, scope, scope');
      WriteElemsCong(st, arg, EvalSubs(subs, env, st), CloneE(v, ctx), v, acc, env', env, Width(v));
    case StoreLocal(x, v, acc) =>
      forall lane: nat { CloneEval(v, ctx, scope, env, env', st, lane); }
      CloneEWf(v, ctx, scope, scope');
      WriteLocalsCong(st, x, CloneE(v, ctx), v, acc, env', env, Width(v));
    case Call(_, ps) =>
      CloneSubs(ps, ctx, scope, env, env', st);
  }

  /** A clone does what the original does, with the mapped loops in place of the originals. */
  lemma {:induction false} CloneExec(ss: seq<Stmt>, ctx: map<LoopId, LoopId>, next: LoopId, scope: set<LoopId>,
                                     scope': set<LoopId>, env: Env, env': Env, st: State)
    requires WfB(ss, scope) && Maps(ctx, scope, scope', next) && Follows(ctx, scope, env, env')
    ensures Exec(CloneB(ss, ctx, next).out, env', st) == Exec(ss, env, st)
    decreases ss
  {
    if ss != [] {
      var a := CloneS(ss[0], ctx, next);
      CloneExecS(ss[0], ctx, next, scope, scope', env, env', st);
      CloneCtxS(ss[0], ctx, next);
      Single(ss[0]);
      WfBoundFresh([ss[0]], scope);
      var b := CloneB(ss[1..], a.ctx, a.next);
      ExecAppend(a.out, b.out, env', st);
      CloneExec(ss[1..], a.ctx, a.next, scope, scope', env, env', ExecS(ss[0], env, st));
    }
  }
}
