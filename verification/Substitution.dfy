/** Environments, substitution of loop indices, and cloning. */
module Substitution {
  import opened IR
  import opened Families
  import opened Semantics

  // ---- Blocks ------------------------------------------------------------------

  lemma {:induction false} BoundAppend(a: seq<Stmt>, b: seq<Stmt>)
    ensures BoundB(a + b) == BoundB(a) + BoundB(b)
  {
    if a == [] {
      assert a + b == b;
    } else {
      assert (a + b)[0] == a[0] && (a + b)[1..] == a[1..] + b;
      BoundAppend(a[1..], b);
    }
  }

  lemma {:induction false} WfAppend(a: seq<Stmt>, b: seq<Stmt>, scope: set<LoopId>)
    ensures WfB(a + b, scope) == (WfB(a, scope) && WfB(b, scope) && BoundB(a) !! BoundB(b))
  {
    if a == [] {
      assert a + b == b;
    } else {
      assert (a + b)[0] == a[0] && (a + b)[1..] == a[1..] + b;
      WfAppend(a[1..], b, scope);
      BoundAppend(a[1..], b);
    }
  }

  lemma {:induction false} VerifiedAppend(a: seq<Stmt>, b: seq<Stmt>, scope: set<LoopId>)
    ensures VerifiedB(a + b, scope) == (VerifiedB(a, scope) && VerifiedB(b, scope) && BoundB(a) !! BoundB(b))
  {
    if a == [] {
      assert a + b == b;
    } else {
      assert (a + b)[0] == a[0] && (a + b)[1..] == a[1..] + b;
      VerifiedAppend(a[1..], b, scope);
      BoundAppend(a[1..], b);
    }
  }

  lemma {:induction false} VerifiedOne(s: Stmt, scope: set<LoopId>)
    ensures VerifiedB([s], scope) == VerifiedS(s, scope)
  {
    assert [s][1..] == [];
  }

  /** Well formed is verified with scalar index expressions. */
  lemma {:induction false} WfExactly(ss: seq<Stmt>, scope: set<LoopId>)
    ensures WfB(ss, scope) <==> VerifiedB(ss, scope) && ScalarB(ss)
    decreases ss
  {
    if ss != [] {
      WfExactly(ss[1..], scope);
      match ss[0] {
        case Loop(id, _, _, body) => WfExactly(body, scope + {id});
        case IfRange(_, _, _, body) => WfExactly(body, scope);
        case _ =>
      }
    }
  }

  /** A one-statement block is its statement. */
  lemma {:induction false} Single(s: Stmt)
    ensures BoundB([s]) == Bound(s)
    ensures forall l :: MentionsB([s], l) == MentionsS(s, l)
    ensures forall scope :: WfB([s], scope) == WfS(s, scope)
    ensures ScalarB([s]) == ScalarS(s)
    ensures forall l, r :: SubstB([s], l, r) == [SubstS(s, l, r)]
  {
    assert [s][1..] == [];
    assert BoundB([s]) == Bound(s) + BoundB([]);
    forall scope ensures WfB([s], scope) == WfS(s, scope) {
      assert WfB([], scope);
    }
    forall l, r ensures SubstB([s], l, r) == [SubstS(s, l, r)] {
      assert SubstB([], l, r) == [];
    }
  }

  // ---- Only the mentioned loops matter -------------------------------------------

  /** Same machine, and the same value for every loop that e mentions. */
  ghost predicate AgreeE(e: Expr, a: Env, b: Env)
  {
    a.m == b.m && forall l :: Mentions(e, l) ==> a.Get(l) == b.Get(l)
  }

  ghost predicate AgreeB(ss: seq<Stmt>, a: Env, b: Env)
  {
    a.m == b.m && forall l :: MentionsB(ss, l) ==> a.Get(l) == b.Get(l)
  }

  ghost predicate AgreeS(s: Stmt, a: Env, b: Env)
  {
    a.m == b.m && forall l :: MentionsS(s, l) ==> a.Get(l) == b.Get(l)
  }

  lemma {:induction false} EvalAgree(e: Expr, a: Env, b: Env, st: State, lane: nat)
    requires AgreeE(e, a, b)
    ensures Eval(e, a, st, lane) == Eval(e, b, st, lane)
  {
    match e
    case Index(l, w) => assert Mentions(e, l);
    case Binary(_, x, y) =>
      assert forall l :: Mentions(x, l) ==> Mentions(e, l);
      assert forall l :: Mentions(y, l) ==> Mentions(e, l);
      EvalAgree(x, a, b, st, lane);
      EvalAgree(y, a, b, st, lane);
    case Unary(_, v) =>
      assert forall l :: Mentions(v, l) ==> Mentions(e, l);
      EvalAgree(v, a, b, st, lane);
    case Load(arg, subs, ty) =>
      forall i | 0 <= i < |subs|
        ensures Eval(subs[i], a, st, 0) == Eval(subs[i], b, st, 0)
      {
        assert forall l :: Mentions(subs[i], l) ==> Mentions(e, l);
        EvalAgree(subs[i], a, b, st, 0);
      }
      assert EvalSubs(subs, a, st) == EvalSubs(subs, b, st);
      EvalLoad(e, a, st, lane);
      EvalLoad(e, b, st, lane);
    case Broadcast(x, _) =>
      assert forall l :: Mentions(x, l) ==> Mentions(e, l);
      EvalAgree(x, a, b, st, 0);
    case _ =>
  }

  lemma {:induction false} EvalLoad(e: Expr, env: Env, st: State, lane: nat)
    requires e.Load?
    ensures Eval(e, env, st, lane) ==
            Coerce(e.ty.elem, Read(st, Elem(e.arg, Bump(EvalSubs(e.subs, env, st), LaneOf(e.ty, lane)))))
  {
    assert seq(|e.subs|, i requires 0 <= i < |e.subs| => AsInt(Eval(e.subs[i], env, st, 0)))
        == EvalSubs(e.subs, env, st);
  }

  lemma {:induction false} SubsAgree(es: seq<Expr>, a: Env, b: Env, st: State)
    requires a.m == b.m && forall l :: MentionsAny(es, l) ==> a.Get(l) == b.Get(l)
    ensures EvalSubs(es, a, st) == EvalSubs(es, b, st) && EvalParams(es, a, st) == EvalParams(es, b, st)
  {
    forall i | 0 <= i < |es|
      ensures Eval(es[i], a, st, 0) == Eval(es[i], b, st, 0)
    {
      assert forall l :: Mentions(es[i], l) ==> MentionsAny(es, l);
      EvalAgree(es[i], a, b, st, 0);
    }
  }

  lemma {:induction false} WriteElemsCong(st: State, arg: nat, idx: seq<int>, e: Expr, e': Expr,
                                          acc: bool, a: Env, b: Env, n: nat)
    requires a.m == b.m
    requires forall lane: nat | lane < n :: Eval(e, a, st, lane) == Eval(e', b, st, lane)
    ensures WriteElems(st, arg, idx, e, acc, a, n) == WriteElems(st, arg, idx, e', acc, b, n)
  {
    hide Eval, NewValue, ElemAt, Bump, Read;
    if n > 0 {
      WriteElemsCong(st, arg, idx, e, e', acc, a, b, n - 1);
      assert Eval(e, a, st, n - 1) == Eval(e', b, st, n - 1);
    }
  }

  lemma {:induction false} WriteLocalsCong(st: State, v: LocalVar, e: Expr, e': Expr,
                                           acc: bool, a: Env, b: Env, n: nat)
    requires a.m == b.m
    requires forall lane: nat | lane < n :: Eval(e, a, st, lane) == Eval(e', b, st, lane)
    ensures WriteLocals(st, v, e, acc, a, n) == WriteLocals(st, v, e', acc, b, n)
  {
    hide Eval, NewValue, Read;
    if n > 0 {
      WriteLocalsCong(st, v, e, e', acc, a, b, n - 1);
      assert Eval(e, a, st, n - 1) == Eval(e', b, st, n - 1);
    }
  }

  lemma {:induction false} ExecAgreeS(s: Stmt, a: Env, b: Env, st: State)
    requires AgreeS(s, a, b)
    ensures ExecS(s, a, st) == ExecS(s, b, st)
    decreases s
  {
    match s
    case Loop(id, end, stride, body) =>
      ExecLoop(id, end, stride, body, a, st);
      ExecLoop(id, end, stride, body, b, st);
      forall k: nat, x: State
        ensures Body(body, id, stride, a)(k, x) == Body(body, id, stride, b)(k, x)
      {
        assert forall l :: MentionsB(body, l) ==> MentionsS(s, l);
        ExecAgree(body, a.At(id, k * stride), b.At(id, k * stride), x);
      }
      IterCong(Body(body, id, stride, a), Body(body, id, stride, b), Trip(end, stride), st);
    case IfRange(v, _, _, body) =>
      assert forall l :: Mentions(v, l) ==> MentionsS(s, l);
      assert forall l :: MentionsB(body, l) ==> MentionsS(s, l);
      EvalAgree(v, a, b, st, 0);
      ExecAgree(body, a, b, st);
    case Store(arg, subs, value, acc) =>
      assert forall l :: MentionsAny(subs, l) ==> MentionsS(s, l);
      assert forall l :: Mentions(value, l) ==> MentionsS(s, l);
      SubsAgree(subs, a, b, st);
      forall lane: nat { EvalAgree(value, a, b, st, lane); }
      WriteElemsCong(st, arg, EvalSubs(subs, a, st), value, value, acc, a, b, Width(value));
    case StoreLocal(v, value, acc) =>
      assert forall l :: Mentions(value, l) ==> MentionsS(s, l);
      forall lane: nat { EvalAgree(value, a, b, st, lane); }
      WriteLocalsCong(st, v, value, value, acc, a, b, Width(value));
    case Call(_, ps) =>
      assert forall l :: MentionsAny(ps, l) ==> MentionsS(s, l);
      SubsAgree(ps, a, b, st);
  }

  /** Running a block depends only on the loops it mentions. */
  lemma {:induction false} ExecAgree(ss: seq<Stmt>, a: Env, b: Env, st: State)
    requires AgreeB(ss, a, b)
    ensures Exec(ss, a, st) == Exec(ss, b, st)
    decreases ss
  {
    if ss != [] {
      assert forall l :: MentionsS(ss[0], l) ==> MentionsB(ss, l);
      assert forall l :: MentionsB(ss[1..], l) ==> MentionsB(ss, l);
      ExecAgreeS(ss[0], a, b, st);
      ExecAgree(ss[1..], a, b, ExecS(ss[0], a, st));
    }
  }

  /** A loop that the block never mentions may have any value. */
  lemma {:induction false} ExecUnmentioned(ss: seq<Stmt>, env: Env, l: LoopId, i: int, st: State)
    requires !MentionsB(ss, l)
    ensures Exec(ss, env.At(l, i), st) == Exec(ss, env, st)
  {
    ExecAgree(ss, env.At(l, i), env, st);
  }

  // ---- Substituting an index expression --------------------------------------------

  /** An index-only expression: its value depends on loop indices alone. */
  predicate IndexOnly(r: Expr)
  {
    match r
    case Const(_) => true
    case Index(_, w) => w == 1
    case Binary(op, a, b) => (op == Add || op == Mul) && IndexOnly(a) && IndexOnly(b)
    case _ => false
  }

  function IndexValue(r: Expr, env: Env): int
    requires IndexOnly(r)
  {
    match r
    case Const(i) => i
    case Index(l, _) => env.Get(l)
    case Binary(op, a, b) =>
      if op == Add then IndexValue(a, env) + IndexValue(b, env) else IndexValue(a, env) * IndexValue(b, env)
  }

  lemma {:induction false} IndexOnlyValue(r: Expr, env: Env, st: State, lane: nat)
    requires IndexOnly(r)
    ensures Eval(r, env, st, lane) == I(IndexValue(r, env))
    ensures TypeOf(r) == ExprType(IndexTy, 1)
  {
    if r.Binary? {
      IndexOnlyValue(r.lhs, env, st, lane);
      IndexOnlyValue(r.rhs, env, st, lane);
    }
  }

  lemma {:induction false} SubstType(e: Expr, l: LoopId, r: Expr)
    requires Scalar(e) && IndexOnly(r)
    ensures TypeOf(Subst(e, l, r)) == TypeOf(e)
  {
    match e
    case Binary(_, a, _) => SubstType(a, l, r);
    case Unary(_, v) => SubstType(v, l, r);
    case Broadcast(x, _) => SubstType(x, l, r);
    case Index(k, _) => IndexOnlyValue(r, Env(EmptyMachine(), map[]), State(map[], []), 0);
    case _ =>
  }

  function EmptyMachine(): Machine
  {
    Machine((u: UnOp, n: Num) => n, (x: real, y: real) => x, (x: int) => x, (x: real) => x)
  }

  lemma {:induction false} EvalSubst(e: Expr, l: LoopId, r: Expr, env: Env, st: State, lane: nat)
    requires Scalar(e) && IndexOnly(r)
    ensures Eval(Subst(e, l, r), env, st, lane) == Eval(e, env.At(l, IndexValue(r, env)), st, lane)
  {
    match e
    case Index(k, _) => IndexOnlyValue(r, env, st, lane);
    case Binary(_, a, b) =>
      EvalSubst(a, l, r, env, st, lane);
      EvalSubst(b, l, r, env, st, lane);
    case Unary(_, v) => EvalSubst(v, l, r, env, st, lane);
    case Load(arg, subs, ty) =>
      var env' := env.At(l, IndexValue(r, env));
      var subs' := Subst(e, l, r).subs;
      forall i | 0 <= i < |subs|
        ensures Eval(subs'[i], env, st, 0) == Eval(subs[i], env', st, 0)
      {
        assert subs[i] in subs;
        EvalSubst(subs[i], l, r, env, st, 0);
      }
      assert EvalSubs(subs', env, st) == EvalSubs(subs, env', st);
      EvalLoad(e, env', st, lane);
      EvalLoad(Subst(e, l, r), env, st, lane);
    case Broadcast(x, _) => EvalSubst(x, l, r, env, st, 0);
    case _ =>
  }

  lemma {:induction false} SubsSubst(es: seq<Expr>, l: LoopId, r: Expr, env: Env, st: State)
    requires ScalarAll(es) && IndexOnly(r)
    ensures EvalSubs(SubstAll(es, l, r), env, st) == EvalSubs(es, env.At(l, IndexValue(r, env)), st)
    ensures EvalParams(SubstAll(es, l, r), env, st) == EvalParams(es, env.At(l, IndexValue(r, env)), st)
  {
    forall i | 0 <= i < |es|
      ensures Eval(SubstAll(es, l, r)[i], env, st, 0) == Eval(es[i], env.At(l, IndexValue(r, env)), st, 0)
    {
      assert es[i] in es;
      EvalSubst(es[i], l, r, env, st, 0);
    }
  }

  lemma {:induction false} AtAt(env: Env, a: LoopId, i: int, b: LoopId, j: int)
    requires a != b
    ensures env.At(a, i).At(b, j) == env.At(b, j).At(a, i)
  {
    assert env.idx[a := i][b := j] == env.idx[b := j][a := i];
  }

  lemma {:induction false} IndexValueAt(r: Expr, env: Env, l: LoopId, i: int)
    requires IndexOnly(r) && !Mentions(r, l)
    ensures IndexValue(r, env.At(l, i)) == IndexValue(r, env)
  {
    if r.Binary? {
      IndexValueAt(r.lhs, env, l, i);
      IndexValueAt(r.rhs, env, l, i);
    }
  }

  /** r may replace the index of l inside a block that declares the loops bound. */
  ghost predicate Substitutable(bound: set<LoopId>, l: LoopId, r: Expr)
  {
    IndexOnly(r) && l !in bound && forall k | k in bound :: !Mentions(r, k)
  }

  lemma {:induction false} ExecSubstS(s: Stmt, l: LoopId, r: Expr, env: Env, st: State)
    requires ScalarS(s) && Substitutable(Bound(s), l, r)
    ensures ExecS(SubstS(s, l, r), env, st) == ExecS(s, env.At(l, IndexValue(r, env)), st)
    decreases s
  {
    var v := IndexValue(r, env);
    match s
    case Loop(id, end, stride, body) =>
      var body' := SubstB(body, l, r);
      ExecLoop(id, end, stride, body', env, st);
      ExecLoop(id, end, stride, body, env.At(l, v), st);
      forall k: nat, x: State
        ensures Body(body', id, stride, env)(k, x) == Body(body, id, stride, env.At(l, v))(k, x)
      {
        ExecSubst(body, l, r, env.At(id, k * stride), x);
        IndexValueAt(r, env, id, k * stride);
        AtAt(env, id, k * stride, l, v);
      }
      IterCong(Body(body', id, stride, env), Body(body, id, stride, env.At(l, v)), Trip(end, stride), st);
    case IfRange(g, _, _, body) =>
      EvalSubst(g, l, r, env, st, 0);
      ExecSubst(body, l, r, env, st);
    case Store(arg, subs, value, acc) =>
      SubsSubst(subs, l, r, env, st);
      forall lane: nat { EvalSubst(value, l, r, env, st, lane); }
      SubstType(value, l, r);
      WriteElemsCong(st, arg, EvalSubs(subs, env.At(l, v), st), Subst(value, l, r), value, acc,
                     env, env.At(l, v), Width(value));
    case StoreLocal(x, value, acc) =>
      forall lane: nat { EvalSubst(value, l, r, env, st, lane); }
      SubstType(value, l, r);
      WriteLocalsCong(st, x, Subst(value, l, r), value, acc, env, env.At(l, v), Width(value));
    case Call(_, ps) =>
      SubsSubst(ps, l, r, env, st);
  }

  /** Replacing the index of l by r runs the block with l at the value of r. */
  lemma {:induction false} ExecSubst(ss: seq<Stmt>, l: LoopId, r: Expr, env: Env, st: State)
    requires ScalarB(ss) && Substitutable(BoundB(ss), l, r)
    ensures Exec(SubstB(ss, l, r), env, st) == Exec(ss, env.At(l, IndexValue(r, env)), st)
    decreases ss
  {
    if ss != [] {
      ExecSubstS(ss[0], l, r, env, st);
      ExecSubst(ss[1..], l, r, env, ExecS(SubstS(ss[0], l, r), env, st));
      assert SubstB(ss, l, r)[1..] == SubstB(ss[1..], l, r);
    }
  }

  lemma {:induction false} WfScalar(ss: seq<Stmt>, scope: set<LoopId>)
    requires WfB(ss, scope)
    ensures ScalarB(ss)
    decreases ss
  {
    if ss != [] {
      match ss[0] {
        case Loop(id, _, _, body) => WfScalar(body, scope + {id});
        case IfRange(_, _, _, body) => WfScalar(body, scope);
        case _ =>
      }
      WfScalar(ss[1..], scope);
    }
  }

  lemma {:induction false} InScopeMentions(e: Expr, scope: set<LoopId>, l: LoopId)
    requires InScope(e, scope) && Mentions(e, l)
    ensures l in scope
  {
    match e
    case Binary(_, a, b) => if Mentions(a, l) { InScopeMentions(a, scope, l); } else { InScopeMentions(b, scope, l); }
    case Unary(_, v) => InScopeMentions(v, scope, l);
    case Load(_, subs, _) =>
      var x :| x in subs && Mentions(x, l);
      InScopeMentions(x, scope, l);
    case Broadcast(x, _) => InScopeMentions(x, scope, l);
    case _ =>
  }

  /** A well-formed block mentions only enclosing loops and its own. */
  lemma {:induction false} WfMentions(ss: seq<Stmt>, scope: set<LoopId>, l: LoopId)
    requires WfB(ss, scope) && MentionsB(ss, l)
    ensures l in scope || l in BoundB(ss)
    decreases ss
  {
    if !MentionsS(ss[0], l) {
      WfMentions(ss[1..], scope, l);
    } else {
      match ss[0] {
        case Loop(id, _, _, body) => WfMentions(body, scope + {id}, l);
        case IfRange(v, _, _, body) =>
          if Mentions(v, l) { InScopeMentions(v, scope, l); } else { WfMentions(body, scope, l); }
        case Store(_, subs, v, _) =>
          if Mentions(v, l) { InScopeMentions(v, scope, l); }
          else { var x :| x in subs && Mentions(x, l); InScopeMentions(x, scope, l); }
        case StoreLocal(_, v, _) => InScopeMentions(v, scope, l);
        case Call(_, ps) => var x :| x in ps && Mentions(x, l); InScopeMentions(x, scope, l);
      }
    }
  }

  lemma {:induction false} WfBoundFresh(ss: seq<Stmt>, scope: set<LoopId>)
    requires WfB(ss, scope)
    ensures BoundB(ss) !! scope
    decreases ss
  {
    if ss != [] {
      match ss[0] {
        case Loop(id, _, _, body) => WfBoundFresh(body, scope + {id});
        case IfRange(_, _, _, body) => WfBoundFresh(body, scope);
        case _ =>
      }
      WfBoundFresh(ss[1..], scope);
    }
  }

  lemma {:induction false} SubstWfE(e: Expr, l: LoopId, r: Expr, scope: set<LoopId>, scope': set<LoopId>)
    requires WfE(e, scope) && WfE(r, scope') && scope - {l} <= scope'
    ensures WfE(Subst(e, l, r), scope')
  {
    match e
    case Index(k, _) =>
    case Binary(_, a, b) => SubstWfE(a, l, r, scope, scope'); SubstWfE(b, l, r, scope, scope');
    case Unary(_, v) => SubstWfE(v, l, r, scope, scope');
    case Load(_, subs, _) =>
      forall i | 0 <= i < |subs|
        ensures WfE(Subst(e, l, r).subs[i], scope')
      {
        assert subs[i] in subs;
        SubstWfE(subs[i], l, r, scope, scope');
      }
    case Broadcast(x, _) => SubstWfE(x, l, r, scope, scope');
    case _ =>
  }

  lemma {:induction false} SubstWfAll(es: seq<Expr>, l: LoopId, r: Expr, scope: set<LoopId>, scope': set<LoopId>)
    requires WfAll(es, scope) && WfE(r, scope') && scope - {l} <= scope'
    ensures WfAll(SubstAll(es, l, r), scope')
  {
    forall i | 0 <= i < |es|
      ensures WfE(SubstAll(es, l, r)[i], scope')
    {
      assert es[i] in es;
      SubstWfE(es[i], l, r, scope, scope');
    }
  }

  /** Substitution keeps a block well formed, in the scope where r makes sense. */
  lemma {:induction false} SubstWf(ss: seq<Stmt>, l: LoopId, r: Expr, scope: set<LoopId>, scope': set<LoopId>)
    requires WfB(ss, scope) && WfE(r, scope') && scope - {l} <= scope' && BoundB(ss) !! scope'
    ensures WfB(SubstB(ss, l, r), scope') && BoundB(SubstB(ss, l, r)) == BoundB(ss)
    decreases ss
  {
    if ss != [] {
      SubstWf(ss[1..], l, r, scope, scope');
      var s := SubstS(ss[0], l, r);
      assert SubstB(ss, l, r) == [s] + SubstB(ss[1..], l, r);
      assert WfS(s, scope') && Bound(s) == Bound(ss[0]) by {
        match ss[0] {
          case Loop(id, _, _, body) =>
            WfBoundFresh(body, scope + {id});
            ScopeGrowsE(r, scope', scope' + {id});
            SubstWf(body, l, r, scope + {id}, scope' + {id});
          case IfRange(v, _, _, body) =>
            SubstWfE(v, l, r, scope, scope');
            SubstWf(body, l, r, scope, scope');
          case Store(_, subs, v, _) =>
            SubstWfAll(subs, l, r, scope, scope');
            SubstWfE(v, l, r, scope, scope');
          case StoreLocal(_, v, _) => SubstWfE(v, l, r, scope, scope');
          case Call(_, ps) => SubstWfAll(ps, l, r, scope, scope');
        }
      }
    }
  }

  lemma {:induction false} ScopeGrowsE(e: Expr, scope: set<LoopId>, scope': set<LoopId>)
    requires WfE(e, scope) && scope <= scope'
    ensures WfE(e, scope')
  {
    match e
    case Binary(_, a, b) => ScopeGrowsE(a, scope, scope'); ScopeGrowsE(b, scope, scope');
    case Unary(_, v) => ScopeGrowsE(v, scope, scope');
    case Load(_, subs, _) => forall x | x in subs ensures WfE(x, scope') { ScopeGrowsE(x, scope, scope'); }
    case Broadcast(x, _) => ScopeGrowsE(x, scope, scope');
    case _ =>
  }
}
