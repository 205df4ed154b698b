/** ExprSimplify: simplifyExpr on every value, subscript and condition of a program. */
module ExprPass {
  import opened IR
  import opened Semantics
  import opened Substitution
  import opened Context
  import opened Types
  import opened SimplifyExpr
  import opened Safety

  // ---- Same values under every operator -------------------------------------------------------

  lemma {:induction false} SameTrans(a: Expr, b: Expr, c: Expr)
    requires SameValue(a, b) && SameValue(b, c)
    ensures SameValue(a, c)
  {}

  lemma {:induction false} SameSelf(e: Expr)
    ensures SameValue(e, e)
  {}

  lemma {:induction false} SameBinary(op: BinOp, a: Expr, b: Expr, a': Expr, b': Expr)
    requires SameValue(a, a') && SameValue(b, b')
    ensures SameValue(Binary(op, a, b), Binary(op, a', b'))
  {
    var x, y := Binary(op, a, b), Binary(op, a', b');
    forall env: Env, st: State, lane: nat | GoodMachine(env.m) && Typed(x) && SafeE(x, env, st, lane)
      ensures SafeE(y, env, st, lane) && Eval(y, env, st, lane) == Eval(x, env, st, lane)
    {
      assert SafeE(a, env, st, lane) && SafeE(b, env, st, lane);
    }
  }

  lemma {:induction false} SameUnary(op: UnOp, a: Expr, a': Expr)
    requires SameValue(a, a')
    ensures SameValue(Unary(op, a), Unary(op, a'))
  {
    var x, y := Unary(op, a), Unary(op, a');
    forall env: Env, st: State, lane: nat | GoodMachine(env.m) && Typed(x) && SafeE(x, env, st, lane)
      ensures SafeE(y, env, st, lane) && Eval(y, env, st, lane) == Eval(x, env, st, lane)
    {
      assert SafeE(a, env, st, lane);
    }
  }

  lemma {:induction false} SameBroadcast(a: Expr, a': Expr, vf: nat)
    requires SameValue(a, a')
    ensures SameValue(Broadcast(a, vf), Broadcast(a', vf))
  {
    var x, y := Broadcast(a, vf), Broadcast(a', vf);
    forall env: Env, st: State, lane: nat | GoodMachine(env.m) && Typed(x) && SafeE(x, env, st, lane)
      ensures SafeE(y, env, st, lane) && Eval(y, env, st, lane) == Eval(x, env, st, lane)
    {
      assert SafeE(a, env, st, 0);
    }
  }

  /** Position by position the same value. */
  ghost predicate SameValues(a: seq<Expr>, b: seq<Expr>)
  {
    |a| == |b| && forall i | 0 <= i < |a| :: SameAt(a, b, i)
  }

  ghost predicate SameAt(a: seq<Expr>, b: seq<Expr>, i: nat)
    requires i < |a| && i < |b|
  {
    a[i] == b[i] || (Typed(a[i]) && SameValue(a[i], b[i]))
  }

  lemma {:induction false} SameSubs(a: seq<Expr>, b: seq<Expr>, env: Env, st: State)
    requires SameValues(a, b) && GoodMachine(env.m) && SafeAll(a, env, st)
    ensures SafeAll(b, env, st) && EvalSubs(b, env, st) == EvalSubs(a, env, st) &&
      EvalParams(b, env, st) == EvalParams(a, env, st)
  {
    forall i | 0 <= i < |a|
      ensures SafeE(b[i], env, st, 0) && Eval(b[i], env, st, 0) == Eval(a[i], env, st, 0)
    {
      assert a[i] in a && SameAt(a, b, i);
    }
  }

  lemma {:induction false} SameTyped(a: seq<Expr>, b: seq<Expr>)
    requires SameValues(a, b)
    ensures TypedSubs(a) ==> TypedSubs(b)
    ensures ScalarAll(a) ==> ScalarAll(b)
    ensures forall scope :: InScopeAll(a, scope) ==> InScopeAll(b, scope)
  {
    forall x | x in b
      ensures exists y :: y in a && (y == x || (Typed(y) && SameValue(y, x)))
    {
      var i :| 0 <= i < |b| && b[i] == x;
      assert SameAt(a, b, i) && a[i] in a;
    }
  }

  lemma {:induction false} SameLoad(arg: nat, a: seq<Expr>, b: seq<Expr>, ty: ExprType)
    requires SameValues(a, b)
    ensures SameValue(Load(arg, a, ty), Load(arg, b, ty))
  {
    var x, y := Load(arg, a, ty), Load(arg, b, ty);
    SameTyped(a, b);
    forall scope ensures InScope(x, scope) ==> InScope(y, scope) {
      assert InScope(x, scope) == InScopeAll(a, scope) && InScope(y, scope) == InScopeAll(b, scope);
    }
    forall env: Env, st: State, lane: nat | GoodMachine(env.m) && Typed(x) && SafeE(x, env, st, lane)
      ensures SafeE(y, env, st, lane) && Eval(y, env, st, lane) == Eval(x, env, st, lane)
    {
      assert SafeAll(a, env, st);
      SameSubs(a, b, env, st);
      EvalLoad(x, env, st, lane);
      EvalLoad(y, env, st, lane);
    }
  }

  // ---- The visitor keeps values -------------------------------------------------------------------

  lemma {:induction false} VisitSame(e: Expr)
    requires VisitE(e).Visited? && Typed(e)
    ensures SameValue(e, VisitE(e).e)
    decreases SizeE(e), 0, 0
  {
    match e
    case Binary(op, a, b) =>
      VisitSame(a);
      VisitSame(b);
      SameBinary(op, a, b, VisitE(a).e, VisitE(b).e);
    case Unary(op, v) =>
      VisitSame(v);
      SameUnary(op, v, VisitE(v).e);
    case Load(arg, subs, ty) =>
      ProcessAllSame(subs);
      SameLoad(arg, subs, ProcessAll(subs).es, ty);
    case Broadcast(v, vf) =>
      VisitSame(v);
      SameBroadcast(v, VisitE(v).e, vf);
    case _ => SameSelf(e);
  }

  /** process and visit keep type, scope and, where no division by zero happens, value. */
  lemma {:induction false} ProcessSame(e: Expr)
    requires ProcessE(e).Visited? && Typed(e)
    ensures SameValue(e, ProcessE(e).e)
    decreases SizeE(e), 1, 0
  {
    var r := SimplifyE(e).e;
    SimplifySize(e);
    SimplifySame(e);
    VisitSame(r);
    SameTrans(e, r, VisitE(r).e);
  }

  lemma {:induction false} ProcessAllSame(es: seq<Expr>)
    requires ProcessAll(es).VisitedAll? && forall x | x in es :: Typed(x)
    ensures SameValues(es, ProcessAll(es).es)
    decreases SizeAll(es), 2, |es|
  {
    if es != [] {
      ProcessSame(es[0]);
      ProcessAllSame(es[1..]);
      var out, rest := ProcessAll(es).es, ProcessAll(es[1..]).es;
      assert out == [ProcessE(es[0]).e] + rest;
      forall i | 0 <= i < |es| ensures SameAt(es, out, i) {
        if i > 0 { assert SameAt(es[1..], rest, i - 1); }
      }
    }
  }

  predicate TypedParam(e: Expr) { e.ConstStr? || Typed(e) }

  lemma {:induction false} VisitAllSame(es: seq<Expr>)
    requires VisitAll(es).VisitedAll? && forall x | x in es :: TypedParam(x)
    ensures SameValues(es, VisitAll(es).es)
    decreases |es|
  {
    if es != [] {
      assert TypedParam(es[0]);
      if Typed(es[0]) { VisitSame(es[0]); }
      VisitAllSame(es[1..]);
      var out, rest := VisitAll(es).es, VisitAll(es[1..]).es;
      assert out == [VisitE(es[0]).e] + rest;
      forall i | 0 <= i < |es| ensures SameAt(es, out, i) {
        if i > 0 { assert SameAt(es[1..], rest, i - 1); }
      }
    }
  }

  // ---- Sizes ------------------------------------------------------------------------------------------

  /** A reported change means fewer nodes. */
  lemma {:induction false} VisitSize(e: Expr)
    requires VisitE(e).Visited?
    ensures var r := VisitE(e); SizeE(r.e) <= SizeE(e) && (r.changed ==> SizeE(r.e) < SizeE(e))
    decreases SizeE(e), 0, 0
  {
    match e
    case Binary(_, a, b) => VisitSize(a); VisitSize(b);
    case Unary(_, v) => VisitSize(v);
    case Load(_, subs, _) => ProcessAllSize(subs);
    case Broadcast(v, _) => VisitSize(v);
    case _ =>
  }

  lemma {:induction false} ProcessSize(e: Expr)
    requires ProcessE(e).Visited?
    ensures var r := ProcessE(e); SizeE(r.e) <= SizeE(e) && (r.changed ==> SizeE(r.e) < SizeE(e))
    decreases SizeE(e), 1, 0
  {
    SimplifySize(e);
    VisitSize(SimplifyE(e).e);
  }

  lemma {:induction false} ProcessAllSize(es: seq<Expr>)
    requires ProcessAll(es).VisitedAll?
    ensures var r := ProcessAll(es); SizeAll(r.es) <= SizeAll(es) && (r.changed ==> SizeAll(r.es) < SizeAll(es))
    decreases SizeAll(es), 2, |es|
  {
    if es != [] {
      ProcessSize(es[0]);
      ProcessAllSize(es[1..]);
      assert ProcessAll(es).es[1..] == ProcessAll(es[1..]).es;
    }
  }

  lemma {:induction false} VisitAllSize(es: seq<Expr>)
    requires VisitAll(es).VisitedAll?
    ensures var r := VisitAll(es); SizeAll(r.es) <= SizeAll(es) && (r.changed ==> SizeAll(r.es) < SizeAll(es))
  {
    if es != [] {
      VisitSize(es[0]);
      VisitAllSize(es[1..]);
      assert VisitAll(es).es[1..] == VisitAll(es[1..]).es;
    }
  }

  // ---- Nothing left to do after one visit -----------------------------------------------------------

  /** A visit keeps the root as it is, up to subscripts. */
  lemma {:induction false} VisitRoot(e: Expr)
    requires VisitE(e).Visited?
    ensures var r := VisitE(e).e;
      (IsConst(e) || IsConst(r) ==> r == e) && (SimplifyE(e) == Node(e, false) ==> SimplifyE(r) == Node(r, false))
    decreases SizeE(e)
  {
    if e.Binary? {
      VisitRoot(e.lhs);
      VisitRoot(e.rhs);
      if SimplifyE(e) == Node(e, false) {
        StillKept(e);
      }
    }
  }

  /** An operator that stays has operands that stay. */
  lemma {:induction false} StillKept(e: Expr)
    requires e.Binary? && SimplifyE(e) == Node(e, false)
    ensures SimplifyE(e.lhs).Node? && SimplifyE(e.rhs).Node?
    ensures SimplifyE(e.lhs) == Node(e.lhs, false) && SimplifyE(e.rhs) == Node(e.rhs, false)
    ensures !Swaps(e.op, e.lhs, e.rhs) && Reduce(e.op, e.lhs, e.rhs) == Node(e, false)
  {
    var a, b := SimplifyE(e.lhs), SimplifyE(e.rhs);
    SimplifySize(e.lhs);
    SimplifySize(e.rhs);
    if !Swaps(e.op, a.e, b.e) {
      assert e == Binary(e.op, a.e, b.e);
    }
  }

  /** Visiting again changes nothing. */
  lemma {:induction false} VisitSettles(e: Expr)
    requires VisitE(e).Visited?
    ensures VisitE(VisitE(e).e) == Visited(VisitE(e).e, false)
    decreases SizeE(e), 0, 0
  {
    match e
    case Binary(_, a, b) => VisitSettles(a); VisitSettles(b);
    case Unary(_, v) => VisitSettles(v);
    case Load(_, subs, _) => ProcessAllSettles(subs);
    case Broadcast(v, _) => VisitSettles(v);
    case _ =>
  }

  lemma {:induction false} ProcessSettles(e: Expr)
    requires ProcessE(e).Visited?
    ensures ProcessE(ProcessE(e).e) == Visited(ProcessE(e).e, false)
    decreases SizeE(e), 1, 0
  {
    var r := SimplifyE(e).e;
    SimplifySize(e);
    SimplifyIdempotent(e);
    VisitRoot(r);
    VisitSettles(r);
  }

  lemma {:induction false} ProcessAllSettles(es: seq<Expr>)
    requires ProcessAll(es).VisitedAll?
    ensures ProcessAll(ProcessAll(es).es) == VisitedAll(ProcessAll(es).es, false)
    decreases SizeAll(es), 2, |es|
  {
    if es != [] {
      ProcessSettles(es[0]);
      ProcessAllSettles(es[1..]);
      assert ProcessAll(es).es[1..] == ProcessAll(es[1..]).es;
    }
  }

  lemma {:induction false} VisitAllSettles(es: seq<Expr>)
    requires VisitAll(es).VisitedAll?
    ensures VisitAll(VisitAll(es).es) == VisitedAll(VisitAll(es).es, false)
  {
    if es != [] {
      VisitSettles(es[0]);
      VisitAllSettles(es[1..]);
      assert VisitAll(es).es[1..] == VisitAll(es[1..]).es;
    }
  }

  // ---- Statements --------------------------------------------------------------------------------------

  /** What a pass makes of a block, and whether it reports a change. */
  datatype Pass = Failed | Pass(out: seq<Stmt>, changed: bool)

  function ExprsS(s: Stmt): Pass
    decreases s, 1
  {
    match s
    case Loop(id, end, stride, body) =>
      var r := ExprsB(body);
      if r.Failed? then Failed else Pass([Loop(id, end, stride, r.out)], r.changed)
    case IfRange(v, start, stop, body) =>
      // The condition is visited before it is processed.
      var x := VisitE(v);
      if x.Broken? then Failed
      else
        var y, r := SimplifyE(x.e), ExprsB(body);
        if y.Undefined? || r.Failed? then Failed
        else Pass([IfRange(y.e, start, stop, r.out)], x.changed || y.moved || r.changed)
    case Store(arg, subs, value, acc) =>
      var xs, y := ProcessAll(subs), ProcessE(value);
      if xs.BrokenAll? || y.Broken? then Failed
      else Pass([Store(arg, xs.es, y.e, acc)], xs.changed || y.changed)
    case StoreLocal(v, value, acc) =>
      var y := ProcessE(value);
      if y.Broken? then Failed else Pass([StoreLocal(v, y.e, acc)], y.changed)
    case Call(name, ps) =>
      var xs := VisitAll(ps);
      if xs.BrokenAll? then Failed else Pass([Call(name, xs.es)], xs.changed)
  }

  function ExprsB(ss: seq<Stmt>): Pass
    decreases ss, 0
  {
    if ss == [] then Pass([], false)
    else
      var x, y := ExprsS(ss[0]), ExprsB(ss[1..]);
      if x.Failed? || y.Failed? then Failed else Pass(x.out + y.out, x.changed || y.changed)
  }

  /** The type rules for statements. */
  predicate TypedS(s: Stmt)
    decreases s, 1
  {
    match s
    case Loop(_, _, _, body) => TypedB(body)
    case IfRange(v, _, _, body) => Typed(v) && TypedB(body)
    case Store(_, subs, value, _) => TypedSubs(subs) && Typed(value)
    case StoreLocal(_, value, _) => Typed(value)
    case Call(_, ps) => forall x | x in ps :: TypedParam(x)
  }

  predicate TypedB(ss: seq<Stmt>)
    decreases ss, 0
  {
    ss == [] || (TypedS(ss[0]) && TypedB(ss[1..]))
  }

  function SizeS(s: Stmt): (n: nat)
    ensures n > 0
    decreases s, 1
  {
    match s
    case Loop(_, _, _, body) => 1 + SizeB(body)
    case IfRange(v, _, _, body) => 1 + SizeE(v) + SizeB(body)
    case Store(_, subs, value, _) => 1 + SizeAll(subs) + SizeE(value)
    case StoreLocal(_, value, _) => 1 + SizeE(value)
    case Call(_, ps) => 1 + SizeAll(ps)
  }

  /** The number of nodes of a block. */
  function SizeB(ss: seq<Stmt>): nat
    decreases ss, 0
  {
    if ss == [] then 0 else SizeS(ss[0]) + SizeB(ss[1..])
  }

  lemma {:induction false} SizeAppend(a: seq<Stmt>, b: seq<Stmt>)
    ensures SizeB(a + b) == SizeB(a) + SizeB(b)
  {
    if a == [] {
      assert a + b == b;
    } else {
      assert (a + b)[0] == a[0] && (a + b)[1..] == a[1..] + b;
      SizeAppend(a[1..], b);
    }
  }

  lemma {:induction false} TypedAppend(a: seq<Stmt>, b: seq<Stmt>)
    ensures TypedB(a + b) == (TypedB(a) && TypedB(b))
  {
    if a == [] {
      assert a + b == b;
    } else {
      assert (a + b)[0] == a[0] && (a + b)[1..] == a[1..] + b;
      TypedAppend(a[1..], b);
    }
  }

  lemma {:induction false} TypedOne(s: Stmt)
    ensures TypedB([s]) == TypedS(s) && SizeB([s]) == SizeS(s)
  {
    assert [s][1..] == [];
  }

  lemma {:induction false} ExprsSize(ss: seq<Stmt>)
    requires ExprsB(ss).Pass?
    ensures var r := ExprsB(ss); SizeB(r.out) <= SizeB(ss) && (r.changed ==> SizeB(r.out) < SizeB(ss))
    decreases ss, 0
  {
    if ss != [] {
      ExprsSizeS(ss[0]);
      ExprsSize(ss[1..]);
      SizeAppend(ExprsS(ss[0]).out, ExprsB(ss[1..]).out);
    }
  }

  lemma {:induction false} ExprsSizeS(s: Stmt)
    requires ExprsS(s).Pass?
    ensures var r := ExprsS(s);
      |r.out| == 1 && SizeB(r.out) <= SizeS(s) && (r.changed ==> SizeB(r.out) < SizeS(s))
    decreases s, 1
  {
    TypedOne(ExprsS(s).out[0]);
    match s
    case Loop(_, _, _, body) => ExprsSize(body);
    case IfRange(v, _, _, body) =>
      VisitSize(v);
      SimplifySize(VisitE(v).e);
      ExprsSize(body);
    case Store(_, subs, value, _) =>
      ProcessAllSize(subs);
      ProcessSize(value);
    case StoreLocal(_, value, _) => ProcessSize(value);
    case Call(_, ps) => VisitAllSize(ps);
  }

  lemma {:induction false} StoreFollows(t: Table, s: Stmt, s': Stmt)
    requires s.Store? && s'.Store? && s.arg == s'.arg && s.acc == s'.acc && Typed(s.value)
    requires SameValues(s.subs, s'.subs) && SameValue(s.value, s'.value)
    ensures Follows(t, [s], [s'])
  {
    forall env: Env, st: State | ValidEnv(t, env) && GoodMachine(env.m) && SafeB([s], env, st)
      ensures SafeB([s'], env, st) && Exec([s'], env, st) == Exec([s], env, st)
    {
      SafeOne(s, env, st);
      SafeOne(s', env, st);
      ExecOne(s, env, st);
      ExecOne(s', env, st);
      SameSubs(s.subs, s'.subs, env, st);
      assert forall k: nat | k < Width(s.value) :: SafeE(s.value, env, st, k);
      WriteElemsCong(st, s.arg, EvalSubs(s.subs, env, st), s.value, s'.value, s.acc, env, env, Width(s.value));
    }
  }

  lemma {:induction false} StoreLocalFollows(t: Table, s: Stmt, s': Stmt)
    requires s.StoreLocal? && s'.StoreLocal? && s.v == s'.v && s.acc == s'.acc && Typed(s.value)
    requires SameValue(s.value, s'.value)
    ensures Follows(t, [s], [s'])
  {
    forall env: Env, st: State | ValidEnv(t, env) && GoodMachine(env.m) && SafeB([s], env, st)
      ensures SafeB([s'], env, st) && Exec([s'], env, st) == Exec([s], env, st)
    {
      SafeOne(s, env, st);
      SafeOne(s', env, st);
      ExecOne(s, env, st);
      ExecOne(s', env, st);
      assert forall k: nat | k < Width(s.value) :: SafeE(s.value, env, st, k);
      WriteLocalsCong(st, s.v, s.value, s'.value, s.acc, env, env, Width(s.value));
    }
  }

  lemma {:induction false} CallFollows(t: Table, s: Stmt, s': Stmt)
    requires s.Call? && s'.Call? && s.name == s'.name && SameValues(s.params, s'.params)
    ensures Follows(t, [s], [s'])
  {
    forall env: Env, st: State | ValidEnv(t, env) && GoodMachine(env.m) && SafeB([s], env, st)
      ensures SafeB([s'], env, st) && Exec([s'], env, st) == Exec([s], env, st)
    {
      SafeOne(s, env, st);
      SafeOne(s', env, st);
      ExecOne(s, env, st);
      ExecOne(s', env, st);
      SameSubs(s.params, s'.params, env, st);
    }
  }

  /** ExprSimplify keeps what the program does. */
  lemma {:induction false} ExprsFollow(t: Table, ss: seq<Stmt>)
    requires ExprsB(ss).Pass? && TypedB(ss)
    ensures Follows(t, ss, ExprsB(ss).out) && TypedB(ExprsB(ss).out)
    decreases ss, 0
  {
    if ss != [] {
      ExprsFollowS(t, ss[0]);
      ExprsFollow(t, ss[1..]);
      assert ss == [ss[0]] + ss[1..];
      FollowsAppend(t, [ss[0]], ss[1..], ExprsS(ss[0]).out, ExprsB(ss[1..]).out);
      TypedAppend(ExprsS(ss[0]).out, ExprsB(ss[1..]).out);
    }
  }

  lemma {:induction false} ExprsFollowS(t: Table, s: Stmt)
    requires ExprsS(s).Pass? && TypedS(s)
    ensures Follows(t, [s], ExprsS(s).out) && TypedB(ExprsS(s).out)
    decreases s, 1
  {
    var s' := ExprsS(s).out[0];
    TypedOne(s');
    assert ExprsS(s).out == [s'];
    match s
    case Loop(id, end, stride, body) =>
      ExprsFollow(t[id := Extent(end, stride)], body);
      FollowsLoop(t, id, end, stride, body, ExprsB(body).out);
    case IfRange(v, start, stop, body) =>
      ConditionSame(v);
      ExprsFollow(t, body);
      FollowsIf(t, v, s'.val, start, stop, body, ExprsB(body).out);
    case Store(_, subs, value, _) =>
      ProcessAllSame(subs);
      ProcessSame(value);
      SameTyped(subs, s'.subs);
      StoreFollows(t, s, s');
    case StoreLocal(_, value, _) =>
      ProcessSame(value);
      StoreLocalFollows(t, s, s');
    case Call(_, ps) =>
      VisitAllSame(ps);
      CallFollows(t, s, s');
      forall x | x in s'.params ensures TypedParam(x) {
        var i :| 0 <= i < |ps| && s'.params[i] == x;
        assert SameAt(ps, s'.params, i) && TypedParam(ps[i]);
      }
  }

  lemma {:induction false} ConditionSame(v: Expr)
    requires VisitE(v).Visited? && SimplifyE(VisitE(v).e).Node? && Typed(v)
    ensures SameValue(v, SimplifyE(VisitE(v).e).e)
  {
    VisitSame(v);
    SimplifySame(VisitE(v).e);
    SameTrans(v, VisitE(v).e, SimplifyE(VisitE(v).e).e);
  }

  lemma {:induction false} ExprsWf(ss: seq<Stmt>, scope: set<LoopId>)
    requires ExprsB(ss).Pass? && TypedB(ss) && WfB(ss, scope)
    ensures WfB(ExprsB(ss).out, scope) && BoundB(ExprsB(ss).out) == BoundB(ss)
    decreases ss, 0
  {
    if ss != [] {
      var x, y := ExprsS(ss[0]).out, ExprsB(ss[1..]).out;
      ExprsWfS(ss[0], scope);
      ExprsWf(ss[1..], scope);
      WfAppend(x, y, scope);
      BoundAppend(x, y);
    }
  }

  lemma {:induction false} ExprsWfS(s: Stmt, scope: set<LoopId>)
    requires ExprsS(s).Pass? && TypedS(s) && WfS(s, scope)
    ensures WfB(ExprsS(s).out, scope) && BoundB(ExprsS(s).out) == Bound(s)
    decreases s, 1
  {
    var s' := ExprsS(s).out[0];
    assert ExprsS(s).out == [s'];
    Single(s');
    match s
    case Loop(id, end, stride, body) => ExprsWf(body, scope + {id});
    case IfRange(v, start, stop, body) =>
      ConditionSame(v);
      ExprsWf(body, scope);
    case Store(_, subs, value, _) =>
      ProcessAllSame(subs);
      ProcessSame(value);
      SameTyped(subs, s'.subs);
    case StoreLocal(_, value, _) => ProcessSame(value);
    case Call(_, ps) =>
      VisitAllSame(ps);
      SameTyped(ps, s'.params);
  }

  /** Simplifying the expressions of a simplified program changes nothing. */
  lemma {:induction false} ExprsSettle(ss: seq<Stmt>)
    requires ExprsB(ss).Pass?
    ensures ExprsB(ExprsB(ss).out) == Pass(ExprsB(ss).out, false)
    decreases ss, 0
  {
    if ss != [] {
      var x, y := ExprsS(ss[0]).out, ExprsB(ss[1..]).out;
      ExprsSettleS(ss[0]);
      ExprsSettle(ss[1..]);
      assert (x + y)[0] == x[0] && (x + y)[1..] == y && x == [x[0]];
    }
  }

  lemma {:induction false} ExprsSettleS(s: Stmt)
    requires ExprsS(s).Pass?
    ensures |ExprsS(s).out| == 1 && ExprsS(ExprsS(s).out[0]) == Pass(ExprsS(s).out, false)
    decreases s, 1
  {
    match s
    case Loop(_, _, _, body) => ExprsSettle(body);
    case IfRange(v, _, _, body) =>
      ConditionSettles(v);
      ExprsSettle(body);
    case Store(_, subs, value, _) =>
      ProcessAllSettles(subs);
      ProcessSettles(value);
    case StoreLocal(_, value, _) => ProcessSettles(value);
    case Call(_, ps) => VisitAllSettles(ps);
  }

  lemma {:induction false} ConditionSettles(v: Expr)
    requires VisitE(v).Visited? && SimplifyE(VisitE(v).e).Node?
    ensures var r := SimplifyE(VisitE(v).e).e; VisitE(r) == Visited(r, false) && SimplifyE(r) == Node(r, false)
  {
    VisitSettles(v);
    SimplifyIdempotent(VisitE(v).e);
    SimplifyVisited(VisitE(v).e);
  }

  /** Simplifying the root keeps the subscripts simplified. */
  lemma {:induction false} SimplifyVisited(e: Expr)
    requires VisitE(e) == Visited(e, false) && SimplifyE(e).Node?
    ensures VisitE(SimplifyE(e).e) == Visited(SimplifyE(e).e, false)
  {
    if e.Binary? {
      SimplifyVisited(e.lhs);
      SimplifyVisited(e.rhs);
      var a, b := SimplifyE(e.lhs).e, SimplifyE(e.rhs).e;
      if Swaps(e.op, a, b) { ReduceShape(e.op, b, a); } else { ReduceShape(e.op, a, b); }
    }
  }

  // ---- What a pass leaves as it is ---------------------------------------------------------------

  /** simplifyExpr has something to do at e or at an operand. */
  predicate Busy(e: Expr)
  {
    e.Binary? &&
    (Busy(e.lhs) || Busy(e.rhs) || Swaps(e.op, e.lhs, e.rhs) || Reduce(e.op, e.lhs, e.rhs) != Node(e, false))
  }

  /** So it has in the subscripts of a load in e. */
  predicate BusyInside(e: Expr)
    decreases e, 0
  {
    match e
    case Binary(_, a, b) => BusyInside(a) || BusyInside(b)
    case Unary(_, v) => BusyInside(v)
    case Load(_, subs, _) => exists x | x in subs :: BusyAnywhere(x)
    case Broadcast(v, _) => BusyInside(v)
    case _ => false
  }

  predicate BusyAnywhere(e: Expr)
    decreases e, 1
  {
    Busy(e) || BusyInside(e)
  }

  predicate BusyS(s: Stmt)
    decreases s, 1
  {
    match s
    case Loop(_, _, _, body) => BusyB(body)
    case IfRange(v, _, _, body) => BusyAnywhere(v) || BusyB(body)
    case Store(_, subs, value, _) => BusyAnywhere(value) || exists x | x in subs :: BusyAnywhere(x)
    case StoreLocal(_, value, _) => BusyAnywhere(value)
    case Call(_, ps) => exists x | x in ps :: BusyInside(x)
  }

  predicate BusyB(ss: seq<Stmt>)
    decreases ss, 0
  {
    ss != [] && (BusyS(ss[0]) || BusyB(ss[1..]))
  }

  lemma {:induction false} SimplifyKeepsExactly(e: Expr)
    requires SimplifyE(e).Node?
    ensures SimplifyE(e).e == e <==> !Busy(e)
    ensures !Busy(e) ==> SimplifyE(e) == Node(e, false)
  {
    if e.Binary? {
      SimplifyKeepsExactly(e.lhs);
      SimplifyKeepsExactly(e.rhs);
      SimplifyIdempotent(e);
      if SimplifyE(e).e == e { StillKept(e); }
    }
  }

  lemma {:induction false} VisitKeepsExactly(e: Expr)
    requires VisitE(e).Visited?
    ensures VisitE(e).e == e <==> !BusyInside(e)
    decreases SizeE(e), 0, 0
  {
    match e
    case Binary(_, a, b) => VisitKeepsExactly(a); VisitKeepsExactly(b);
    case Unary(_, v) => VisitKeepsExactly(v);
    case Load(_, subs, _) => ProcessAllKeepsExactly(subs);
    case Broadcast(v, _) => VisitKeepsExactly(v);
    case _ =>
  }

  lemma {:induction false} ProcessKeepsExactly(e: Expr)
    requires ProcessE(e).Visited?
    ensures ProcessE(e).e == e <==> !BusyAnywhere(e)
    decreases SizeE(e), 1, 0
  {
    var r := SimplifyE(e).e;
    SimplifySize(e);
    SimplifyIdempotent(e);
    VisitRoot(r);
    SimplifyKeepsExactly(e);
    if r == e { VisitKeepsExactly(e); }
  }

  lemma {:induction false} ProcessAllKeepsExactly(es: seq<Expr>)
    requires ProcessAll(es).VisitedAll?
    ensures ProcessAll(es).es == es <==> forall x | x in es :: !BusyAnywhere(x)
    decreases SizeAll(es), 2, |es|
  {
    if es != [] {
      ProcessKeepsExactly(es[0]);
      ProcessAllKeepsExactly(es[1..]);
      var x, ys := ProcessE(es[0]).e, ProcessAll(es[1..]).es;
      assert ProcessAll(es).es == [x] + ys && es == [es[0]] + es[1..];
      assert ([x] + ys)[0] == x && ([x] + ys)[1..] == ys;
      assert forall y :: y in es <==> y == es[0] || y in es[1..];
    }
  }

  lemma {:induction false} VisitAllKeepsExactly(es: seq<Expr>)
    requires VisitAll(es).VisitedAll?
    ensures VisitAll(es).es == es <==> forall x | x in es :: !BusyInside(x)
  {
    if es != [] {
      VisitKeepsExactly(es[0]);
      VisitAllKeepsExactly(es[1..]);
      var x, ys := VisitE(es[0]).e, VisitAll(es[1..]).es;
      assert VisitAll(es).es == [x] + ys && es == [es[0]] + es[1..];
      assert ([x] + ys)[0] == x && ([x] + ys)[1..] == ys;
      assert forall y :: y in es <==> y == es[0] || y in es[1..];
    }
  }

  lemma {:induction false} ConditionKeepsExactly(v: Expr)
    requires VisitE(v).Visited? && SimplifyE(VisitE(v).e).Node?
    ensures SimplifyE(VisitE(v).e).e == v <==> !BusyAnywhere(v)
  {
    VisitKeepsExactly(v);
    if SimplifyE(VisitE(v).e).e == v { ConditionSettles(v); }
    if SimplifyE(v).Node? { SimplifyKeepsExactly(v); }
  }

  /** The pass over the expressions leaves a program as it is exactly when nothing is busy. */
  lemma {:induction false} ExprsKeepExactly(ss: seq<Stmt>)
    requires ExprsB(ss).Pass?
    ensures ExprsB(ss).out == ss <==> !BusyB(ss)
    decreases ss, 0
  {
    if ss != [] {
      ExprsKeepExactlyS(ss[0]);
      ExprsKeepExactly(ss[1..]);
      var x, ys := ExprsS(ss[0]).out, ExprsB(ss[1..]).out;
      ExprsSizeS(ss[0]);
      assert (x + ys)[0] == x[0] && (x + ys)[1..] == ys && x == [x[0]];
      assert ss == [ss[0]] + ss[1..];
    }
  }

  lemma {:induction false} ExprsKeepExactlyS(s: Stmt)
    requires ExprsS(s).Pass?
    ensures ExprsS(s).out == [s] <==> !BusyS(s)
    decreases s, 1
  {
    match s
    case Loop(_, _, _, body) => ExprsKeepExactly(body);
    case IfRange(v, _, _, body) =>
      ConditionKeepsExactly(v);
      ExprsKeepExactly(body);
    case Store(_, subs, value, _) =>
      ProcessAllKeepsExactly(subs);
      ProcessKeepsExactly(value);
    case StoreLocal(_, value, _) => ProcessKeepsExactly(value);
    case Call(_, ps) => VisitAllKeepsExactly(ps);
  }
}
