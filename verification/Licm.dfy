/** promoteLICM: loads that do not move with an innermost loop are made once before it, and
    stores that do not move are kept in a local and flushed once after it. */
module Licm {
  import opened IR
  import opened Families
  import opened Semantics
  import opened Substitution
  import opened Context
  import opened Locals
  import opened Footprint
  import opened Fusion
  import opened Types
  import opened Hiding
  import opened Sinking

  // ---- hoistLoads ----------------------------------------------------------------------------

  /** A rewritten expression, the loads saved before the loop, and the names used so far. */
  datatype Hoisted = Hoisted(out: Expr, saves: seq<Stmt>, used: set<string>)
  datatype HoistedAll = HoistedAll(outs: seq<Expr>, saves: seq<Stmt>, used: set<string>)
  datatype HoistedBlock = HoistedBlock(outs: seq<Stmt>, saves: seq<Stmt>, used: set<string>)

  function HoistE(e: Expr, l: LoopId, names: nat -> string, used: set<string>): Hoisted
    decreases e
  {
    match e
    case Binary(op, a, b) =>
      var x := HoistE(a, l, names, used);
      var y := HoistE(b, l, names, x.used);
      Hoisted(Binary(op, x.out, y.out), x.saves + y.saves, y.used)
    case Unary(op, v) =>
      var x := HoistE(v, l, names, used);
      Hoisted(Unary(op, x.out), x.saves, x.used)
    case Load(arg, subs, ty) =>
      if !Mentions(e, l) then
        var v := LocalVar(TempName(names(arg), used), ty);
        Hoisted(LoadLocal(v), [StoreLocal(v, e, false)], used + {v.name})
      else
        var x := HoistAll(subs, l, names, used);
        Hoisted(Load(arg, x.outs, ty), x.saves, x.used)
    case Broadcast(v, vf) =>
      var x := HoistE(v, l, names, used);
      Hoisted(Broadcast(x.out, vf), x.saves, x.used)
    case _ => Hoisted(e, [], used)
  }

  function HoistAll(es: seq<Expr>, l: LoopId, names: nat -> string, used: set<string>): HoistedAll
    decreases es
  {
    if es == [] then HoistedAll([], [], used)
    else
      var x := HoistE(es[0], l, names, used);
      var y := HoistAll(es[1..], l, names, x.used);
      HoistedAll([x.out] + y.outs, x.saves + y.saves, y.used)
  }

  predicate OnlyStores(ss: seq<Stmt>) { forall s | s in ss :: s.Store? }

  function HoistS(s: Stmt, l: LoopId, names: nat -> string, used: set<string>): HoistedBlock
    requires s.Store?
  {
    var x := HoistAll(s.subs, l, names, used);
    var y := HoistE(s.value, l, names, x.used);
    HoistedBlock([Store(s.arg, x.outs, y.out, s.acc)], x.saves + y.saves, y.used)
  }

  function HoistB(ss: seq<Stmt>, l: LoopId, names: nat -> string, used: set<string>): HoistedBlock
    requires OnlyStores(ss)
  {
    if ss == [] then HoistedBlock([], [], used)
    else
      var x := HoistS(ss[0], l, names, used);
      var y := HoistB(ss[1..], l, names, x.used);
      HoistedBlock(x.outs + y.outs, x.saves + y.saves, y.used)
  }

  /** A load that is hoisted has no load inside it. */
  predicate Flat(e: Expr, l: LoopId)
  {
    match e
    case Binary(_, a, b) => Flat(a, l) && Flat(b, l)
    case Unary(_, v) => Flat(v, l)
    case Load(_, subs, _) => if !Mentions(e, l) then ArgsReadAll(subs) == {} else FlatAll(subs, l)
    case Broadcast(x, _) => Flat(x, l)
    case _ => true
  }

  predicate FlatAll(es: seq<Expr>, l: LoopId)
  {
    es == [] || (Flat(es[0], l) && FlatAll(es[1..], l))
  }

  /** What the store statements of verify() guarantee, and flat loads. */
  predicate StoreReady(s: Stmt, l: LoopId)
  {
    s.Store? && TypedSubs(s.subs) && Typed(s.value) && FlatAll(s.subs, l) && Flat(s.value, l) &&
    (TypeOf(s.value).elem == IndexTy || TypeOf(s.value).elem == Float32Ty)
  }

  predicate BlockReady(ss: seq<Stmt>, l: LoopId) { forall s | s in ss :: StoreReady(s, l) }

  // ---- The saved loads -----------------------------------------------------------------------

  /** Saves go to new locals, all different, and read only the given locals. */
  ghost predicate GoodSaves(saves: seq<Stmt>, used: set<string>, used': set<string>, vars: set<string>)
  {
    used <= used' &&
    (forall i | 0 <= i < |saves| ::
      saves[i].StoreLocal? && !saves[i].acc && saves[i].v.ty == TypeOf(saves[i].value) &&
      saves[i].v.name in used' && saves[i].v.name !in used && VarsReadE(saves[i].value) <= vars) &&
    (forall i, j | 0 <= i < j < |saves| :: saves[i].v.name != saves[j].v.name)
  }

  lemma {:induction false} GoodAppend(a: seq<Stmt>, b: seq<Stmt>, u: set<string>, u1: set<string>, u2: set<string>,
                                      va: set<string>, vb: set<string>, vars: set<string>)
    requires GoodSaves(a, u, u1, va) && GoodSaves(b, u1, u2, vb) && va <= vars && vb <= vars
    ensures GoodSaves(a + b, u, u2, vars)
  {
    var s := a + b;
    forall i | 0 <= i < |s|
      ensures s[i].StoreLocal? && !s[i].acc && s[i].v.ty == TypeOf(s[i].value) &&
        s[i].v.name in u2 && s[i].v.name !in u && VarsReadE(s[i].value) <= vars
    {
      if i < |a| { assert s[i] == a[i]; } else { assert s[i] == b[i - |a|]; }
    }
    forall i, j | 0 <= i < j < |s|
      ensures s[i].v.name != s[j].v.name
    {
      if j < |a| {
        assert s[i] == a[i] && s[j] == a[j];
      } else if i < |a| {
        assert s[i] == a[i] && s[j] == b[j - |a|];
      } else {
        assert s[i] == b[i - |a|] && s[j] == b[j - |a|];
      }
    }
  }

  lemma {:induction false} HoistFacts(e: Expr, l: LoopId, names: nat -> string, used: set<string>)
    requires Typed(e)
    ensures var r := HoistE(e, l, names, used);
      GoodSaves(r.saves, used, r.used, VarsReadE(e)) && Typed(r.out) && TypeOf(r.out) == TypeOf(e) &&
      ArgsReadE(r.out) <= ArgsReadE(e) && VarsReadE(r.out) <= VarsReadE(e) + (r.used - used)
    decreases e
  {
    match e
    case Binary(_, a, b) =>
      HoistFacts(a, l, names, used);
      var x := HoistE(a, l, names, used);
      HoistFacts(b, l, names, x.used);
      var y := HoistE(b, l, names, x.used);
      GoodAppend(x.saves, y.saves, used, x.used, y.used, VarsReadE(a), VarsReadE(b), VarsReadE(e));
    case Unary(_, v) => HoistFacts(v, l, names, used);
    case Load(arg, subs, ty) =>
      if !Mentions(e, l) {
        FirstFreeIs(names(arg), used, 1);
      } else {
        HoistAllFacts(subs, l, names, used);
      }
    case Broadcast(v, _) => HoistFacts(v, l, names, used);
    case _ =>
  }

  lemma {:induction false} HoistAllFacts(es: seq<Expr>, l: LoopId, names: nat -> string, used: set<string>)
    requires forall x | x in es :: Typed(x) && TypeOf(x) == ExprType(IndexTy, 1)
    ensures var r := HoistAll(es, l, names, used);
      GoodSaves(r.saves, used, r.used, VarsReadAll(es)) && |r.outs| == |es| &&
      (forall x | x in r.outs :: Typed(x) && TypeOf(x) == ExprType(IndexTy, 1)) &&
      ArgsReadAll(r.outs) <= ArgsReadAll(es) && VarsReadAll(r.outs) <= VarsReadAll(es) + (r.used - used)
    decreases es
  {
    if es != [] {
      HoistFacts(es[0], l, names, used);
      var x := HoistE(es[0], l, names, used);
      HoistAllFacts(es[1..], l, names, x.used);
      var y := HoistAll(es[1..], l, names, x.used);
      GoodAppend(x.saves, y.saves, used, x.used, y.used, VarsReadE(es[0]), VarsReadAll(es[1..]), VarsReadAll(es));
      assert ([x.out] + y.outs)[1..] == y.outs;
    }
  }

  lemma {:induction false} HoistSFacts(s: Stmt, l: LoopId, names: nat -> string, used: set<string>)
    requires StoreReady(s, l)
    ensures var r := HoistS(s, l, names, used);
      GoodSaves(r.saves, used, r.used, VarsReadS(s)) && |r.outs| == 1 && r.outs[0].Store? &&
      ArgsReadS(r.outs[0]) <= ArgsReadS(s) && VarsReadS(r.outs[0]) <= VarsReadS(s) + (r.used - used) &&
      SameStore(s, r.outs[0])
  {
    var a := HoistAll(s.subs, l, names, used);
    var b := HoistE(s.value, l, names, a.used);
    HoistAllFacts(s.subs, l, names, used);
    HoistFacts(s.value, l, names, a.used);
    GoodAppend(a.saves, b.saves, used, a.used, b.used, VarsReadAll(s.subs), VarsReadE(s.value), VarsReadS(s));
  }

  /** Hoisting reads no other buffers, and uses the index where it was used. */
  lemma {:induction false} HoistKeepsE(e: Expr, l: LoopId, names: nat -> string, used: set<string>)
    ensures var r := HoistE(e, l, names, used).out;
      ArgsReadE(r) <= ArgsReadE(e) && Mentions(r, l) == Mentions(e, l)
    decreases e
  {
    match e
    case Binary(_, a, b) => HoistKeepsE(a, l, names, used); HoistKeepsE(b, l, names, HoistE(a, l, names, used).used);
    case Unary(_, v) => HoistKeepsE(v, l, names, used);
    case Load(_, subs, _) => if Mentions(e, l) { HoistKeepsAll(subs, l, names, used); }
    case Broadcast(v, _) => HoistKeepsE(v, l, names, used);
    case _ =>
  }

  lemma {:induction false} HoistKeepsAll(es: seq<Expr>, l: LoopId, names: nat -> string, used: set<string>)
    ensures var r := HoistAll(es, l, names, used).outs;
      |r| == |es| && ArgsReadAll(r) <= ArgsReadAll(es) && MentionsAny(r, l) == MentionsAny(es, l)
    decreases es
  {
    if es != [] {
      var x := HoistE(es[0], l, names, used);
      var ys := HoistAll(es[1..], l, names, x.used).outs;
      HoistKeepsE(es[0], l, names, used);
      HoistKeepsAll(es[1..], l, names, x.used);
      assert ([x.out] + ys)[1..] == ys;
      MentionsFirst(es, l);
      MentionsFirst([x.out] + ys, l);
    }
  }

  lemma {:induction false} MentionsFirst(es: seq<Expr>, l: LoopId)
    requires es != []
    ensures MentionsAny(es, l) <==> Mentions(es[0], l) || MentionsAny(es[1..], l)
  {
    assert forall x :: x in es <==> x == es[0] || x in es[1..];
  }

  /** The stores stay stores to the same buffers, and move with the loop as before. */
  lemma {:induction false} HoistKeepsB(ss: seq<Stmt>, l: LoopId, names: nat -> string, used: set<string>)
    requires OnlyStores(ss)
    ensures var r := HoistB(ss, l, names, used).outs;
      |r| == |ss| && OnlyStores(r) && ArgsRead(r) <= ArgsRead(ss) && ArgsWritten(r) == ArgsWritten(ss) &&
      forall i | 0 <= i < |ss| :: ss[i].Store? && r[i].Store? && MentionsAny(r[i].subs, l) == MentionsAny(ss[i].subs, l)
  {
    if ss != [] {
      var s := ss[0];
      var x := HoistS(s, l, names, used);
      var ys := HoistB(ss[1..], l, names, x.used).outs;
      HoistKeepsAll(s.subs, l, names, used);
      HoistKeepsE(s.value, l, names, HoistAll(s.subs, l, names, used).used);
      HoistKeepsB(ss[1..], l, names, x.used);
      var r := HoistB(ss, l, names, used).outs;
      assert r == [x.outs[0]] + ys && r[1..] == ys;
      assert forall z :: z in r <==> z == r[0] || z in ys;
      forall i | 0 <= i < |ss|
        ensures ss[i].Store? && r[i].Store? && MentionsAny(r[i].subs, l) == MentionsAny(ss[i].subs, l)
      {
        if i > 0 { assert ss[i] == ss[1..][i - 1] && r[i] == ys[i - 1]; }
      }
    }
  }

  /** The same buffer, and a well-typed value of the same type. */
  predicate SameStore(s: Stmt, s': Stmt)
  {
    s.Store? && s'.Store? && s'.arg == s.arg && Typed(s'.value) && TypeOf(s'.value) == TypeOf(s.value)
  }

  lemma {:induction false} HoistBFacts(ss: seq<Stmt>, l: LoopId, names: nat -> string, used: set<string>)
    requires OnlyStores(ss) && BlockReady(ss, l)
    ensures var r := HoistB(ss, l, names, used);
      GoodSaves(r.saves, used, r.used, VarsRead(ss)) && OnlyStores(r.outs) && |r.outs| == |ss| &&
      ArgsRead(r.outs) <= ArgsRead(ss) && VarsRead(r.outs) <= VarsRead(ss) + (r.used - used) &&
      (forall i | 0 <= i < |ss| :: SameStore(ss[i], r.outs[i]))
  {
    if ss != [] {
      var s, rest := ss[0], ss[1..];
      assert s in ss && StoreReady(s, l);
      var x := HoistS(s, l, names, used);
      HoistSFacts(s, l, names, used);
      HoistBFacts(rest, l, names, x.used);
      var y := HoistB(rest, l, names, x.used);
      GoodAppend(x.saves, y.saves, used, x.used, y.used, VarsReadS(s), VarsRead(rest), VarsRead(ss));
      var outs := HoistB(ss, l, names, used).outs;
      assert outs == x.outs + y.outs && outs[1..] == y.outs && outs[0] == x.outs[0];
      forall i | 0 <= i < |ss| ensures SameStore(ss[i], outs[i]) {
        if i > 0 { assert SameStore(rest[i - 1], y.outs[i - 1]); }
      }
      assert OnlyStores(outs) by {
        forall z | z in outs ensures z.Store? { assert z == x.outs[0] || z in y.outs; }
      }
    }
  }

  /** The locals hold what the saved loads give in st. */
  ghost predicate Holding(saves: seq<Stmt>, env: Env, st: State, b: State)
  {
    forall i | 0 <= i < |saves| :: HoldingOne(saves[i], env, st, b)
  }

  ghost predicate HoldingOne(s: Stmt, env: Env, st: State, b: State)
  {
    s.StoreLocal? && s.v.ty == TypeOf(s.value) &&
    forall k: nat | k < s.v.ty.width :: Look(b, LocalAt(s.v, k)) == Some(Eval(s.value, env, st, k))
  }

  lemma {:induction false} HoldingSplit(a: seq<Stmt>, b: seq<Stmt>, env: Env, st: State, x: State)
    requires Holding(a + b, env, st, x)
    ensures Holding(a, env, st, x) && Holding(b, env, st, x)
  {
    forall i | 0 <= i < |a| ensures HoldingOne(a[i], env, st, x) { assert (a + b)[i] == a[i]; }
    forall i | 0 <= i < |b| ensures HoldingOne(b[i], env, st, x) { assert (a + b)[|a| + i] == b[i]; }
  }

  /** Running the saves fills the locals and changes nothing else. */
  lemma {:induction false} SavesRun(saves: seq<Stmt>, used: set<string>, used': set<string>, vars: set<string>,
                                    T: set<string>, env: Env, st: State, st': State)
    requires GoodSaves(saves, used, used', vars) && used' - used <= T && vars !! T && Alike({}, T, st, st')
    ensures Alike({}, T, st, Exec(saves, env, st')) && Holding(saves, env, st, Exec(saves, env, st'))
    decreases saves
  {
    if saves != [] {
      var s, rest := saves[0], saves[1..];
      var mid, end := ExecS(s, env, st'), Exec(saves, env, st');
      assert GoodSaves(rest, used, used', vars);
      SaveOneLook(s, env, st');
      forall x: Loc | !Hidden({}, T, x) ensures Look(st, x) == Look(mid, x) {
        assert Look(mid, x) == Look(st', x);
      }
      SavesRun(rest, used, used', vars, T, env, st, mid);
      SavesFrame(rest, used, used', vars, s.v.name, env, mid);
      forall k: nat | k < s.v.ty.width
        ensures Look(end, LocalAt(s.v, k)) == Some(Eval(s.value, env, st, k))
      {
        var base := st';
        EvalNoArgs(s.value, vars, T, env, st, base, k);
        assert Look(end, LocalAt(s.v, k)) == Look(mid, LocalAt(s.v, k));
      }
      forall i | 0 <= i < |saves| ensures HoldingOne(saves[i], env, st, end) {
        if i > 0 { assert HoldingOne(rest[i - 1], env, st, end); }
      }
    }
  }

  lemma {:induction false} EvalNoArgs(e: Expr, vars: set<string>, T: set<string>, env: Env, a: State, b: State,
                                      lane: nat)
    requires VarsReadE(e) <= vars && vars !! T && Alike({}, T, a, b)
    ensures Eval(e, env, a, lane) == Eval(e, env, b, lane)
  {
    EvalAlike(e, {}, T, env, a, b, lane);
  }

  lemma {:induction false} SaveOneLook(s: Stmt, env: Env, st: State)
    requires s.StoreLocal? && !s.acc && s.v.ty == TypeOf(s.value)
    ensures var st' := ExecS(s, env, st);
      st'.calls == st.calls &&
      (forall k: nat | k < s.v.ty.width :: Look(st', LocalAt(s.v, k)) == Some(Eval(s.value, env, st, k))) &&
      (forall x: Loc | !(x.Local? && x.name == s.v.name) :: Look(st', x) == Look(st, x))
  {
    forall x: Loc
      ensures Look(ExecS(s, env, st), x) ==
        if x.Local? && x.name == s.v.name && x.lane < s.v.ty.width then Some(Eval(s.value, env, st, x.lane))
          else Look(st, x)
    {
      LookLocals(st, s.v, s.value, false, env, s.v.ty.width, x);
    }
  }

  lemma {:induction false} SavesFrame(saves: seq<Stmt>, used: set<string>, used': set<string>, vars: set<string>,
                                      name: string, env: Env, st: State)
    requires GoodSaves(saves, used, used', vars)
    requires forall i | 0 <= i < |saves| :: saves[i].v.name != name
    ensures forall k: nat :: Look(Exec(saves, env, st), Local(name, k)) == Look(st, Local(name, k))
  {
    if saves != [] {
      assert GoodSaves(saves[1..], used, used', vars);
      SaveOneLook(saves[0], env, st);
      SavesFrame(saves[1..], used, used', vars, name, env, ExecS(saves[0], env, st));
    }
  }

  // ---- The loop with hoisted loads -------------------------------------------------------------

  /** st is where the loop started, a and b are where the two loops are now. */
  ghost predicate During(W: set<nat>, T: set<string>, st: State, a: State, b: State)
  {
    Alike(W, {}, st, a) && Alike({}, T, a, b)
  }

  lemma {:induction false} HoistEval(e: Expr, l: LoopId, names: nat -> string, used: set<string>, W: set<nat>,
                                     T: set<string>, env: Env, i: int, st: State, a: State, b: State, lane: nat)
    requires Typed(e) && Flat(e, l) && lane < Width(e) && ArgsReadE(e) !! W && VarsReadE(e) !! T
    requires During(W, T, st, a, b) && Holding(HoistE(e, l, names, used).saves, env, st, b)
    ensures Eval(HoistE(e, l, names, used).out, env.At(l, i), b, lane) == Eval(e, env.At(l, i), a, lane)
    decreases e
  {
    var e' := env.At(l, i);
    match e
    case Binary(_, x, y) =>
      var hx := HoistE(x, l, names, used);
      HoldingSplit(hx.saves, HoistE(y, l, names, hx.used).saves, env, st, b);
      HoistEval(x, l, names, used, W, T, env, i, st, a, b, lane);
      HoistEval(y, l, names, hx.used, W, T, env, i, st, a, b, lane);
    case Unary(_, v) => HoistEval(v, l, names, used, W, T, env, i, st, a, b, lane);
    case Load(arg, subs, ty) =>
      if !Mentions(e, l) {
        HoistedLoad(e, l, names, used, W, env, i, st, a, b, lane);
      } else {
        var h := HoistAll(subs, l, names, used);
        HoistEvalAll(subs, l, names, used, W, T, env, i, st, a, b);
        EvalLoad(e, e', a, lane);
        EvalLoad(Load(arg, h.outs, ty), e', b, lane);
        var x := Elem(arg, Bump(EvalSubs(subs, e', a), LaneOf(ty, lane)));
        assert !Hidden({}, T, x);
        LookRead(a, b, x);
      }
    case Broadcast(v, _) => HoistEval(v, l, names, used, W, T, env, i, st, a, b, 0);
    case LoadLocal(v) =>
      var x := Local(v.name, LaneOf(v.ty, lane));
      assert v.name in VarsReadE(e);
      assert !Hidden({}, T, x);
      LookRead(a, b, x);
    case _ =>
  }

  /** A hoisted load reads the same value in every iteration. */
  lemma {:induction false} HoistedLoad(e: Expr, l: LoopId, names: nat -> string, used: set<string>, W: set<nat>,
                                       env: Env, i: int, st: State, a: State, b: State, lane: nat)
    requires e.Load? && !Mentions(e, l) && lane < Width(e) && ArgsReadE(e) !! W
    requires Alike(W, {}, st, a) && Holding(HoistE(e, l, names, used).saves, env, st, b)
    ensures Eval(HoistE(e, l, names, used).out, env.At(l, i), b, lane) == Eval(e, env.At(l, i), a, lane)
  {
    var r := HoistE(e, l, names, used);
    var v := r.out.v;
    assert HoldingOne(r.saves[0], env, st, b);
    assert r.saves[0] == StoreLocal(v, e, false);
    assert LaneOf(e.ty, lane) == lane;
    assert Look(b, LocalAt(v, lane)) == Some(Eval(e, env, st, lane));
    EvalLoad(e, env, st, lane);
    EvalAlike(e, W, {}, env, st, a, lane);
    EvalAgree(e, env, env.At(l, i), a, lane);
  }

  lemma {:induction false} HoistEvalAll(es: seq<Expr>, l: LoopId, names: nat -> string, used: set<string>, W: set<nat>,
                                        T: set<string>, env: Env, i: int, st: State, a: State, b: State)
    requires (forall x | x in es :: Typed(x) && TypeOf(x) == ExprType(IndexTy, 1))
    requires FlatAll(es, l) && ArgsReadAll(es) !! W && VarsReadAll(es) !! T
    requires During(W, T, st, a, b) && Holding(HoistAll(es, l, names, used).saves, env, st, b)
    ensures EvalSubs(HoistAll(es, l, names, used).outs, env.At(l, i), b) == EvalSubs(es, env.At(l, i), a)
    decreases es
  {
    var e' := env.At(l, i);
    if es != [] {
      var x := HoistE(es[0], l, names, used);
      var y := HoistAll(es[1..], l, names, x.used);
      HoldingSplit(x.saves, y.saves, env, st, b);
      HoistEval(es[0], l, names, used, W, T, env, i, st, a, b, 0);
      HoistEvalAll(es[1..], l, names, x.used, W, T, env, i, st, a, b);
      var p, q := EvalSubs([x.out] + y.outs, e', b), EvalSubs(es, e', a);
      assert p[0] == q[0];
      assert EvalSubs(y.outs, e', b) == EvalSubs(es[1..], e', a);
      HoistAllFacts(es[1..], l, names, x.used);
      forall d | 0 <= d < |es| ensures p[d] == q[d] {
        if d > 0 {
          assert p[d] == EvalSubs(y.outs, e', b)[d - 1];
          assert q[d] == EvalSubs(es[1..], e', a)[d - 1];
        }
      }
      assert p == q;
    }
  }

  lemma {:induction false} HoistStore(s: Stmt, l: LoopId, names: nat -> string, used: set<string>, W: set<nat>,
                                      T: set<string>, env: Env, i: int, st: State, a: State, b: State)
    requires StoreReady(s, l) && ArgsReadS(s) !! W && VarsReadS(s) !! T
    requires During(W, T, st, a, b) && Holding(HoistS(s, l, names, used).saves, env, st, b)
    ensures Alike({}, T, ExecS(s, env.At(l, i), a), ExecS(HoistS(s, l, names, used).outs[0], env.At(l, i), b))
  {
    var e' := env.At(l, i);
    var x := HoistAll(s.subs, l, names, used);
    var y := HoistE(s.value, l, names, x.used);
    var s' := HoistS(s, l, names, used).outs[0];
    HoldingSplit(x.saves, y.saves, env, st, b);
    HoistEvalAll(s.subs, l, names, used, W, T, env, i, st, a, b);
    HoistFacts(s.value, l, names, x.used);
    var idx, w := EvalSubs(s.subs, e', a), Width(s.value);
    StoreLook(s, w, idx, e', a, Local("", 0));
    StoreLook(s', w, idx, e', b, Local("", 0));
    forall z: Loc | !Hidden({}, T, z)
      ensures Look(ExecS(s, e', a), z) == Look(ExecS(s', e', b), z)
    {
      StoreLook(s, w, idx, e', a, z);
      StoreLook(s', w, idx, e', b, z);
      LookRead(a, b, z);
      var k := LastLane(s.arg, idx, w, z);
      if k.Some? { HoistEval(s.value, l, names, x.used, W, T, env, i, st, a, b, k.value); }
    }
  }

  /** Stores to buffers leave the locals as they are. */
  lemma {:induction false} StoresKeepLocals(ss: seq<Stmt>, env: Env, st: State)
    requires OnlyStores(ss)
    ensures forall x: Loc | x.Local? :: Look(Exec(ss, env, st), x) == Look(st, x)
  {
    StoresWriteNoLocals(ss);
    StoresFrame(ss, ArgsWritten(ss), {}, env, st);
    forall x: Loc | x.Local? ensures Look(Exec(ss, env, st), x) == Look(st, x) {
      assert !Hidden(ArgsWritten(ss), {}, x);
    }
  }

  lemma {:induction false} StoresWriteNoLocals(ss: seq<Stmt>)
    requires OnlyStores(ss)
    ensures AllStores(ss) && VarsWritten(ss) == {}
  {
    if ss != [] {
      assert ss[0] in ss;
      StoresWriteNoLocals(ss[1..]);
    }
  }

  lemma {:induction false} HoldingKept(saves: seq<Stmt>, env: Env, st: State, b: State, b': State)
    requires Holding(saves, env, st, b) && forall x: Loc | x.Local? :: Look(b', x) == Look(b, x)
    ensures Holding(saves, env, st, b')
  {
    forall i | 0 <= i < |saves| ensures HoldingOne(saves[i], env, st, b') { assert HoldingOne(saves[i], env, st, b); }
  }

  lemma {:induction false} HoistBody(ss: seq<Stmt>, l: LoopId, names: nat -> string, used: set<string>, W: set<nat>,
                                     T: set<string>, env: Env, i: int, st: State, a: State, b: State)
    requires OnlyStores(ss) && BlockReady(ss, l) && ArgsRead(ss) !! W && VarsRead(ss) !! T && ArgsWritten(ss) <= W
    requires During(W, T, st, a, b) && Holding(HoistB(ss, l, names, used).saves, env, st, b)
    ensures During(W, T, st, Exec(ss, env.At(l, i), a), Exec(HoistB(ss, l, names, used).outs, env.At(l, i), b))
    decreases ss
  {
    if ss != [] {
      var e', s, rest := env.At(l, i), ss[0], ss[1..];
      assert s in ss && StoreReady(s, l);
      var x := HoistS(s, l, names, used);
      var y := HoistB(rest, l, names, x.used);
      HoldingSplit(x.saves, y.saves, env, st, b);
      HoistStore(s, l, names, used, W, T, env, i, st, a, b);
      var a', b' := ExecS(s, e', a), ExecS(x.outs[0], e', b);
      ExecOne(s, e', a);
      ExecOne(x.outs[0], e', b);
      UsesOne(s);
      StoresFrame([s], W, {}, e', a);
      AlikeTrans(W, {}, st, a, a');
      StoresKeepLocals([x.outs[0]], e', b);
      HoldingKept(y.saves, env, st, b, b');
      HoistBody(rest, l, names, x.used, W, T, env, i, st, a', b');
      assert (x.outs + y.outs)[0] == x.outs[0] && (x.outs + y.outs)[1..] == y.outs;
    }
  }

  function HoistedLoop(L: Stmt, names: nat -> string, used: set<string>): Stmt
    requires L.Loop? && OnlyStores(L.body)
  {
    Loop(L.id, L.end, L.stride, HoistB(L.body, L.id, names, used).outs)
  }

  lemma {:induction false} HoistIter(L: Stmt, names: nat -> string, used: set<string>, T: set<string>, n: nat, env: Env,
                                     st: State, b: State)
    requires L.Loop? && OnlyStores(L.body) && BlockReady(L.body, L.id) && ArgsRead(L.body) !! ArgsWritten(L.body) &&
      VarsRead(L.body) !! T
    requires Alike({}, T, st, b) && Holding(HoistB(L.body, L.id, names, used).saves, env, st, b)
    ensures var bn := Iter(Body(HoistedLoop(L, names, used).body, L.id, L.stride, env), n, b);
      During(ArgsWritten(L.body), T, st, Iter(Body(L.body, L.id, L.stride, env), n, st), bn) &&
      Holding(HoistB(L.body, L.id, names, used).saves, env, st, bn)
  {
    if n > 0 {
      var f, g := Body(L.body, L.id, L.stride, env), Body(HoistedLoop(L, names, used).body, L.id, L.stride, env);
      var a', b' := Iter(f, n - 1, st), Iter(g, n - 1, b);
      var h := HoistB(L.body, L.id, names, used);
      HoistIter(L, names, used, T, n - 1, env, st, b);
      HoistBody(L.body, L.id, names, used, ArgsWritten(L.body), T, env, (n - 1) * L.stride, st, a', b');
      HoistBFacts(L.body, L.id, names, used);
      StoresKeepLocals(h.outs, env.At(L.id, (n - 1) * L.stride), b');
      HoldingKept(h.saves, env, st, b', Iter(g, n, b));
    }
  }

  /** hoistLoads keeps what the loop does, but for the new locals. */
  lemma {:induction false} HoistSame(t: Table, L: Stmt, names: nat -> string, used: set<string>)
    requires L.Loop? && OnlyStores(L.body) && BlockReady(L.body, L.id)
    requires ArgsRead(L.body) !! ArgsWritten(L.body) && VarsRead(L.body) <= used
    ensures var h := HoistB(L.body, L.id, names, used);
      SameBut(h.used - used, t, [L], h.saves + [HoistedLoop(L, names, used)])
  {
    var h, L' := HoistB(L.body, L.id, names, used), HoistedLoop(L, names, used);
    var T := h.used - used;
    HoistBFacts(L.body, L.id, names, used);
    forall env: Env, st: State, st': State | ValidEnv(t, env) && GoodMachine(env.m) && Alike({}, T, st, st')
      ensures Alike({}, T, Exec([L], env, st), Exec(h.saves + [L'], env, st'))
    {
      SavesRun(h.saves, used, h.used, VarsRead(L.body), T, env, st, st');
      var b := Exec(h.saves, env, st');
      HoistIter(L, names, used, T, Trip(L.end, L.stride), env, st, b);
      ExecAppend(h.saves, [L'], env, st');
      ExecOne(L, env, st);
      ExecOne(L', env, b);
      ExecLoop(L.id, L.end, L.stride, L.body, env, st);
      ExecLoop(L.id, L.end, L.stride, L'.body, env, b);
    }
  }

  // ---- sinkStores --------------------------------------------------------------------------------

  datatype Rewritten = Rewritten(out: seq<Stmt>, used: set<string>)

  predicate Sinks(L: Stmt, pos: nat)
    requires L.Loop? && pos < |L.body|
  {
    L.body[pos].Store? && !MentionsAny(L.body[pos].subs, L.id)
  }

  /** Some store is sunk. */
  predicate SinksSome(L: Stmt)
    requires L.Loop?
  {
    exists k: nat :: k < |L.body| && Sinks(L, k)
  }

  function SinkVar(L: Stmt, pos: nat, names: nat -> string, used: set<string>): LocalVar
    requires L.Loop? && pos < |L.body| && L.body[pos].Store?
  {
    LocalVar(TempName(names(L.body[pos].arg), used), TypeOf(L.body[pos].value))
  }

  /** The initialisations come before the loop in order, the flushes after it in reverse order. */
  function SinkFrom(L: Stmt, pos: nat, names: nat -> string, used: set<string>): Rewritten
    requires L.Loop? && pos <= |L.body|
    decreases |L.body| - pos
  {
    if pos == |L.body| then Rewritten([L], used)
    else if Sinks(L, pos) then
      var v := SinkVar(L, pos, names, used);
      var r := SinkFrom(SinkAt(L, pos, v), pos + 1, names, used + {v.name});
      Rewritten([Init(v)] + r.out + [Flush(v, L.body[pos])], r.used)
    else SinkFrom(L, pos + 1, names, used)
  }

  /** At most one store goes to each buffer. */
  predicate OnePerBuffer(ss: seq<Stmt>)
  {
    forall i, j | 0 <= i < j < |ss| && ss[i].Store? && ss[j].Store? :: ss[i].arg != ss[j].arg
  }

  predicate SinkReady(L: Stmt, used: set<string>)
  {
    L.Loop? && AllStores(L.body) && OnePerBuffer(L.body) &&
    ArgsRead(L.body) !! ArgsWritten(L.body) && VarsRead(L.body) !! VarsWritten(L.body) &&
    VarsRead(L.body) <= used && VarsWritten(L.body) <= used &&
    (forall s | s in L.body && s.Store? ::
      Typed(s.value) && (TypeOf(s.value).elem == IndexTy || TypeOf(s.value).elem == Float32Ty))
  }

  lemma {:induction false} WritesElsewhere(ss: seq<Stmt>, arg: nat)
    requires AllStores(ss) && forall i | 0 <= i < |ss| && ss[i].Store? :: ss[i].arg != arg
    ensures arg !in ArgsWritten(ss)
  {
    if ss != [] {
      assert ss[0] in ss;
      WritesElsewhere(ss[1..], arg);
    }
  }

  /** What the body reads and writes, in parts. */
  lemma {:induction false} SinkParts(L: Stmt, pos: nat, s: Stmt)
    requires L.Loop? && pos < |L.body|
    ensures var pre, post, body := L.body[..pos], L.body[pos + 1..], L.body[pos := s];
      ArgsRead(body) == ArgsRead(pre) + ArgsReadS(s) + ArgsRead(post) &&
      VarsRead(body) == VarsRead(pre) + VarsReadS(s) + VarsRead(post) &&
      ArgsWritten(body) == ArgsWritten(pre) + ArgsWrittenS(s) + ArgsWritten(post) &&
      VarsWritten(body) == VarsWritten(pre) + VarsWrittenS(s) + VarsWritten(post)
  {
    var pre, post := L.body[..pos], L.body[pos + 1..];
    assert L.body[pos := s] == pre + ([s] + post);
    UsesAppend(pre, [s] + post);
    UsesAppend([s], post);
    UsesOne(s);
  }

  lemma {:induction false} NotTwice(L: Stmt, pos: nat)
    requires L.Loop? && AllStores(L.body) && OnePerBuffer(L.body) && pos < |L.body| && L.body[pos].Store?
    ensures AllStores(L.body[..pos]) && L.body[pos].arg !in ArgsWritten(L.body[..pos])
    ensures AllStores(L.body[pos + 1..]) && L.body[pos].arg !in ArgsWritten(L.body[pos + 1..])
  {
    var p, pre, post := L.body[pos], L.body[..pos], L.body[pos + 1..];
    forall s | s in pre || s in post ensures s in L.body {}
    WritesElsewhere(pre, p.arg);
    forall i | 0 <= i < |post| && post[i].Store? ensures post[i].arg != p.arg {
      assert L.body[pos + 1 + i] == post[i];
    }
    WritesElsewhere(post, p.arg);
  }

  lemma {:induction false} SinkStep(L: Stmt, pos: nat, v: LocalVar, used: set<string>)
    requires SinkReady(L, used) && pos < |L.body| && Sinks(L, pos)
    requires v.name !in used && v.ty == TypeOf(L.body[pos].value)
    ensures Sinkable(L, pos, v)
  {
    var p := L.body[pos];
    assert p in L.body;
    assert L.body[pos := p] == L.body;
    SinkParts(L, pos, p);
    NotTwice(L, pos);
    assert p.arg in ArgsWritten(L.body);
  }

  lemma {:induction false} SinkStepReady(L: Stmt, pos: nat, v: LocalVar, used: set<string>)
    requires SinkReady(L, used) && pos < |L.body| && Sinks(L, pos)
    requires v.name !in used && v.ty == TypeOf(L.body[pos].value)
    ensures SinkReady(SinkAt(L, pos, v), used + {v.name})
  {
    hide Typed, MentionsAny, ArgsRead, VarsRead, ArgsWritten, VarsWritten;
    SinkStepStores(L, pos, v);
    SinkStepUses(L, pos, v);
  }

  lemma {:induction false} SinkStepUses(L: Stmt, pos: nat, v: LocalVar)
    requires L.Loop? && pos < |L.body| && L.body[pos].Store?
    ensures var L' := SinkAt(L, pos, v);
      ArgsRead(L'.body) <= ArgsRead(L.body) && ArgsWritten(L'.body) <= ArgsWritten(L.body) &&
      VarsRead(L'.body) <= VarsRead(L.body) && VarsWritten(L'.body) <= VarsWritten(L.body) + {v.name}
  {
    assert L.body[pos := L.body[pos]] == L.body;
    SinkParts(L, pos, L.body[pos]);
    SinkParts(L, pos, Save(v, L.body[pos]));
  }

  lemma {:induction false} SinkStepStores(L: Stmt, pos: nat, v: LocalVar)
    requires L.Loop? && AllStores(L.body) && OnePerBuffer(L.body) && pos < |L.body| && L.body[pos].Store?
    ensures var L' := SinkAt(L, pos, v);
      AllStores(L'.body) && OnePerBuffer(L'.body) && forall s | s in L'.body && s.Store? :: s in L.body
  {
    var L' := SinkAt(L, pos, v);
    forall s | s in L'.body ensures s == Save(v, L.body[pos]) || s in L.body {}
  }

  /** sinkStores keeps what the loop does, but for the new locals. */
  lemma {:induction false} SinkSame(t: Table, L: Stmt, pos: nat, names: nat -> string, used: set<string>)
    requires SinkReady(L, used) && pos <= |L.body| && Trip(L.end, L.stride) > 0
    ensures var r := SinkFrom(L, pos, names, used);
      used <= r.used && SameBut(r.used - used, t, [L], r.out) && VarsRead(r.out) <= VarsRead(L.body) + (r.used - used)
    decreases |L.body| - pos
  {
    hide Sinkable, SameBut, ArgsRead, ArgsWritten, VarsWritten;
    var r := SinkFrom(L, pos, names, used);
    if pos == |L.body| {
      SameButSelf({}, t, [L]);
      assert used - used == {};
      UsesOne(L);
    } else if Sinks(L, pos) {
      var v := SinkVar(L, pos, names, used);
      FirstFreeIs(names(L.body[pos].arg), used, 1);
      SinkStep(L, pos, v, used);
      SinkStepReady(L, pos, v, used);
      SinkOneSame(t, L, pos, v);
      var L', u, p := SinkAt(L, pos, v), used + {v.name}, L.body[pos];
      var r' := SinkFrom(L', pos + 1, names, u);
      SinkSame(t, L', pos + 1, names, u);
      var T, T' := r.used - used, r'.used - u;
      UsesOne(Init(v));
      UsesOne(Flush(v, p));
      SinkUses(L, pos, v);
      SameButSelf(T', t, [Init(v)]);
      SameButSelf(T', t, [Flush(v, p)]);
      SameButAppend(T', t, [Init(v)], [L'], [Init(v)], r'.out);
      SameButAppend(T', t, [Init(v)] + [L'], [Flush(v, p)], [Init(v)] + r'.out, [Flush(v, p)]);
      SameButTrans({v.name}, T', t, [L], [Init(v)] + [L'] + [Flush(v, p)], r.out);
      assert {v.name} + T' == T;
      UsesAppend([Init(v)] + r'.out, [Flush(v, p)]);
      UsesAppend([Init(v)], r'.out);
    } else {
      SinkSame(t, L, pos + 1, names, used);
    }
  }

  lemma {:induction false} SinkUses(L: Stmt, pos: nat, v: LocalVar)
    requires L.Loop? && pos < |L.body| && L.body[pos].Store?
    ensures VarsRead(SinkAt(L, pos, v).body) <= VarsRead(L.body)
    ensures VarsReadS(L.body[pos]) <= VarsRead(L.body)
    ensures VarsReadE(Zero(v.ty)) == {}
  {
    assert L.body[pos := L.body[pos]] == L.body;
    SinkParts(L, pos, L.body[pos]);
    SinkParts(L, pos, Save(v, L.body[pos]));
  }
}
