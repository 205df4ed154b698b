/** Where fuse, vectorize and widen accept a program they change, and exactly when. */
module Pitfalls {
  import opened IR
  import opened Families
  import opened Semantics
  import opened Substitution
  import opened Context
  import opened Footprint
  import opened Dependence
  import opened Fusion
  import opened Interchange
  import opened Instances
  import opened Widening
  import opened Types
  import opened Vectorizing

  // ---- fuse: Equals without a separating dimension ------------------------------------

  function Bumping(l: LoopId): Stmt { Loop(l, 2, 1, [Store(0, [Const(0)], ConstFP(1.0), true)]) }

  function Copying(l: LoopId): Stmt
  {
    Loop(l, 2, 1, [Store(1, [Idx(l)], Load(0, [Const(0)], ExprType(Float32Ty, 1)), false)])
  }

  /** Running a loop of two iterations. */
  lemma {:induction false} TwiceLoop(l: LoopId, body: seq<Stmt>, env: Env, st: State)
    ensures Exec([Loop(l, 2, 1, body)], env, st) ==
            Exec(body, env.At(l, 1), Exec(body, env.At(l, 0), st))
  {
    var f := Body(body, l, 1, env);
    ExecOne(Loop(l, 2, 1, body), env, st);
    ExecLoop(l, 2, 1, body, env, st);
    assert Iter(f, 0, st) == st;
    assert Iter(f, 1, st) == f(0, st) && Iter(f, 2, st) == f(1, f(0, st));
  }

  lemma {:induction false} BumpOnce(env: Env, st: State)
    ensures ExecS(Bumping(0).body[0], env, st) ==
      st.(mem := st.mem[Elem(0, [0]) := NewValue(env.m, true, Read(st, Elem(0, [0])), F(1.0))])
  {
    var p := Bumping(0).body[0];
    StoreOne(p, env, st);
    assert EvalSubs(p.subs, env, st) == [0];
  }

  lemma {:induction false} CopyOnce(l: LoopId, i: int, env: Env, st: State)
    ensures ExecS(Copying(l).body[0], env.At(l, i), st) ==
      st.(mem := st.mem[Elem(1, [i]) := Coerce(Float32Ty, Read(st, Elem(0, [0])))])
  {
    var p := Copying(l).body[0];
    var e := env.At(l, i);
    StoreOne(p, e, st);
    assert EvalSubs(p.subs, e, st) == [i];
    EvalLoad(p.value, e, st, 0);
    assert EvalSubs(p.value.subs, e, st) == [0];
    BumpNone([0]);
  }

  /** for i: A[0] += 1 and for j: B[j] = A[0] pass the checks of fuse, because A[0] against
      A[0] is called Equals, and fusing them changes what B[0] ends up with. */
  lemma {:induction false} FuseEqualsUnsound()
    ensures var L, L2 := Bumping(0), Copying(1);
      WfB([L, L2], {}) && ChecksPass(L, L2, map[]) && !SameIn(map[], [L, L2], [Fused(L, L2)])
  {
    hide ExecS, Eval, WfB, ChecksPass, EvalSubs;
    var L, L2 := Bumping(0), Copying(1);
    FuseExampleChecks();
    var env := Env(EmptyMachine(), map[]);
    var st := State(map[], []);
    var a, b := L.body[0], L2.body[0];
    // The two loops: B[0] is written after both increments.
    var s1 := ExecS(a, env.At(0, 0), st);
    var s2 := ExecS(a, env.At(0, 1), s1);
    BumpOnce(env.At(0, 0), st);
    BumpOnce(env.At(0, 1), s1);
    var s3 := ExecS(b, env.At(1, 0), s2);
    var s4 := ExecS(b, env.At(1, 1), s3);
    CopyOnce(1, 0, env, s2);
    CopyOnce(1, 1, env, s3);
    assert Look(s4, Elem(1, [0])) == Some(F(2.0));
    assert [L, L2] == [L] + [L2];
    ExecAppend([L], [L2], env, st);
    TwiceLoop(0, [a], env, st);
    TwiceLoop(1, [b], env, s2);
    ExecOne(a, env.At(0, 0), st);
    ExecOne(a, env.At(0, 1), s1);
    ExecOne(b, env.At(1, 0), s2);
    ExecOne(b, env.At(1, 1), s3);
    assert Exec([L, L2], env, st) == s4;
    FusedExampleRun(env, st);
  }

  lemma {:induction false} FuseExampleWf()
    ensures WfB([Bumping(0), Copying(1)], {})
  {
    var L, L2 := Bumping(0), Copying(1);
    Single(L.body[0]);
    Single(L2.body[0]);
    assert [L, L2][1..] == [L2] && [L, L2][0] == L;
    assert Scalar(Const(0)) && Scalar(Idx(1)) && InScope(Idx(1), {1});
    assert WfS(L.body[0], {0}) && WfS(L2.body[0], {1});
    assert WfB(L.body, {0}) && WfB(L2.body, {1}) && {} + {0} == {0} && {} + {1} == {1};
    assert WfS(L, {}) && WfS(L2, {});
    Single(L);
    Single(L2);
    assert Bound(L) == {0} && Bound(L2) == {1};
  }

  lemma {:induction false} FuseExampleChecks()
    ensures WfB([Bumping(0), Copying(1)], {}) && ChecksPass(Bumping(0), Copying(1), map[])
  {
    hide WfB, WfS;
    FuseExampleWf();
    var L, L2 := Bumping(0), Copying(1);
    var t: Table := map[];
    assert L.body[1..] == [] && L2.body[1..] == [];
    assert LoadsOf(L, t) == [];
    var x, y := Access(0, [Const(0)], LoopTable(L, t)), Access(0, [Const(0)], LoopTable(L2, t));
    assert StoresOf(L, t) == [x];
    assert [Const(0)][1..] == [] && [Idx(1)][1..] == [];
    assert LoadsOf(L2, t) == [y];
    assert StoresOf(L2, t) == [Access(1, [Idx(1)], LoopTable(L2, t))];
    assert VarsRead(L.body) == {} && VarsRead(L2.body) == {} && VarsWritten(L.body) == {};
    assert !Conflicts(0, 1, x, y, 0);
    assert PairOk(0, 1, x, y);
  }

  lemma {:induction false} FusedExampleRun(env: Env, st: State)
    requires st == State(map[], [])
    ensures Look(Exec([Fused(Bumping(0), Copying(1))], env, st), Elem(1, [0])) == Some(F(1.0))
  {
    hide ExecS, Eval, EvalSubs;
    var a, b := Bumping(0).body[0], Copying(0).body[0];
    Single(Copying(1).body[0]);
    assert SubstS(Copying(1).body[0], 1, Idx(0)) == b;
    assert Fused(Bumping(0), Copying(1)) == Loop(0, 2, 1, [a, b]);
    TwiceLoop(0, [a, b], env, st);
    var s1 := ExecS(a, env.At(0, 0), st);
    var s2 := ExecS(b, env.At(0, 0), s1);
    var s3 := ExecS(a, env.At(0, 1), s2);
    BumpOnce(env.At(0, 0), st);
    CopyOnce(0, 0, env, s1);
    BumpOnce(env.At(0, 1), s2);
    CopyOnce(0, 1, env, s3);
    assert [a, b] == [a] + [b];
    ExecAppend([a], [b], env.At(0, 0), st);
    ExecAppend([a], [b], env.At(0, 1), s2);
    ExecOne(a, env.At(0, 0), st);
    ExecOne(b, env.At(0, 0), s1);
    ExecOne(a, env.At(0, 1), s2);
    ExecOne(b, env.At(0, 1), s3);
  }

  // ---- vectorize: a store whose last subscript does not use the index --------------------

  /** The last subscript steps by one or does not use the index; the others do not use it. */
  predicate UnitOrUniform(subs: seq<Expr>, l: LoopId)
  {
    subs != [] && (forall x | x in subs :: IndexTyped(x)) &&
    (Mentions(subs[|subs| - 1], l) ==> UnitStep(subs[|subs| - 1], l)) &&
    forall i | 0 <= i < |subs| - 1 :: !Mentions(subs[i], l)
  }

  /** No read can tell the states apart, whatever the type of the access is. */
  ghost predicate ReadsAlike(a: State, b: State)
  {
    a.calls == b.calls && forall x: Loc, elem: ElemKind :: Coerce(elem, Read(a, x)) == Coerce(elem, Read(b, x))
  }

  /** a and b leave states that no read can tell apart, wherever the loops of t have their index
      values. */
  ghost predicate ShowsSame(t: Table, a: seq<Stmt>, b: seq<Stmt>)
  {
    forall env: Env, st: State | ValidEnv(t, env) :: ReadsAlike(Exec(a, env, st), Exec(b, env, st))
  }

  lemma {:induction false} AddZero(m: Machine, old_: Num, elem: ElemKind)
    ensures Coerce(elem, NewValue(m, true, old_, F(0.0))) == Coerce(elem, old_)
  {}

  /** Adding anything but a float zero to one half shows. */
  lemma {:induction false} AddSome(m: Machine, v: Num)
    requires v != F(0.0)
    ensures Coerce(Float32Ty, NewValue(m, true, F(0.5), v)) != F(0.5)
  {}

  /** Lane j is the only one of a vector store that goes to its element. */
  lemma {:induction false} LaneFound(arg: nat, idx: seq<int>, n: nat, j: nat)
    requires j < n && idx != []
    ensures LastLane(arg, idx, n, ElemAt(arg, idx, j)) == Some(j)
  {
    if j < n - 1 {
      LaneFound(arg, idx, n - 1, j);
      assert Bump(idx, n - 1)[|idx| - 1] != Bump(idx, j)[|idx| - 1];
    }
  }

  /** What a vector store leaves at x: the value of the lane that goes there, if one does. */
  lemma {:induction false} VecLook(p: Stmt, l: LoopId, vf: nat, pe: Env, st: State, x: Loc)
    requires p.Store? && vf > 1 && VecValue(p.value, l) && MayVectorizeExpr(p.value, l)
    ensures var k := LastLane(p.arg, EvalSubs(p.subs, pe, st), vf, x);
      Look(ExecS(VecStore(p, l, vf), pe, st), x) ==
      if k.None? then Look(st, x)
      else Some(NewValue(pe.m, p.acc, Read(st, x), Eval(p.value, LaneEnv(pe, l, k.value), st, 0)))
    ensures ExecS(VecStore(p, l, vf), pe, st).calls == st.calls
    ensures LastLane(p.arg, EvalSubs(p.subs, pe, st), vf, x).Some? ==> x.Elem? && x.arg == p.arg
  {
    hide VecValue, MayVectorizeExpr, VecExpr;
    var v := VecStore(p, l, vf);
    var idx := EvalSubs(p.subs, pe, st);
    VecWidth(p.value, l, vf);
    assert Width(v.value) == vf;
    LookElems(st, p.arg, idx, v.value, p.acc, pe, vf, x);
    var k := LastLane(p.arg, idx, vf, x);
    if k.Some? { VecLane(p.value, l, vf, pe, st, k.value); }
  }

  /** Iterations of a store that does not use the index in its subscripts stay at one element. */
  lemma {:induction false} StaysPut(p: Stmt, l: LoopId, pe: Env, j: nat, a: State, b: State)
    requires p.Store? && MayVectorizeStore(p, l) && UnitOrUniform(p.subs, l) && !Mentions(p.subs[|p.subs| - 1], l)
    ensures EvalSubs(p.subs, LaneEnv(pe, l, j), a) == EvalSubs(p.subs, pe, b)
  {
    var e := LaneEnv(pe, l, j);
    forall d | 0 <= d < |p.subs|
      ensures Eval(p.subs[d], e, a, 0) == Eval(p.subs[d], pe, b, 0)
    {
      assert p.subs[d] in p.subs;
      EvalAgree(p.subs[d], e, pe, a, 0);
      AcceptedValue(p.subs[d], l, pe, a, b);
    }
  }

  lemma {:induction false} StayingRun(p: Stmt, l: LoopId, pe: Env, n: nat, st: State, x: Loc)
    requires p.Store? && MayVectorizeStore(p, l) && UnitOrUniform(p.subs, l) && !Mentions(p.subs[|p.subs| - 1], l)
    requires Width(p.value) == 1 && x != Elem(p.arg, EvalSubs(p.subs, pe, st))
    ensures Look(LaneRun(p, l, pe, n, st), x) == Look(st, x)
  {
    if n > 0 {
      StayingRun(p, l, pe, n - 1, st, x);
      var st' := LaneRun(p, l, pe, n - 1, st);
      LaneRunStep(p, l, pe, n, st);
      StoreOne(p, LaneEnv(pe, l, n - 1), st');
      StaysPut(p, l, pe, n - 1, st', st);
    }
  }

  /** Every lane but the first adds a float zero. */
  ghost predicate AddsOnce(p: Stmt, l: LoopId, vf: nat, pe: Env)
    requires p.Store?
  {
    p.acc && forall st: State, j: nat | 1 <= j < vf :: Eval(p.value, LaneEnv(pe, l, j), st, 0) == F(0.0)
  }

  /** A vector store does what its iterations do exactly when its last subscript uses the index,
      or when it accumulates and all lanes but the first add zero. */
  lemma {:induction false} VectorStoreExactly(p: Stmt, l: LoopId, vf: nat, pe: Env)
    requires p.Store? && vf > 1 && MayVectorizeStore(p, l) && VecValue(p.value, l) && UnitOrUniform(p.subs, l)
    requires Mentions(p.subs[|p.subs| - 1], l) ==> LanesApart(p, l, vf, pe)
    requires !Mentions(p.subs[|p.subs| - 1], l) ==> p.arg !in ArgsReadE(p.value)
    ensures Mentions(p.subs[|p.subs| - 1], l) ==>
      forall st: State :: Exec([VecStore(p, l, vf)], pe, st) == LaneRun(p, l, pe, vf, st)
    ensures Mentions(p.subs[|p.subs| - 1], l) || AddsOnce(p, l, vf, pe) <==>
      forall st: State :: ReadsAlike(Exec([VecStore(p, l, vf)], pe, st), LaneRun(p, l, pe, vf, st))
  {
    hide LaneRun, VecStore, Exec, ExecS, ReadsAlike, MayVectorizeStore, VecValue, LanesApart, AddsOnce;
    if Mentions(p.subs[|p.subs| - 1], l) {
      forall st: State
        ensures Exec([VecStore(p, l, vf)], pe, st) == LaneRun(p, l, pe, vf, st)
        ensures ReadsAlike(Exec([VecStore(p, l, vf)], pe, st), LaneRun(p, l, pe, vf, st))
      {
        VectorIsLanes(p, l, vf, pe, st);
        AlikeItself(LaneRun(p, l, pe, vf, st));
      }
    } else if AddsOnce(p, l, vf, pe) {
      forall st: State
        ensures ReadsAlike(Exec([VecStore(p, l, vf)], pe, st), LaneRun(p, l, pe, vf, st))
      {
        ExecOne(VecStore(p, l, vf), pe, st);
        VectorAddsOnce(p, l, vf, pe, st);
        OneWide(p, l);
        LanesAddOnce(p, l, vf, pe, st, vf);
        ReadsAlikeTrans(ExecS(VecStore(p, l, vf), pe, st), ExecS(p, LaneEnv(pe, l, 0), st), LaneRun(p, l, pe, vf, st));
      }
    } else {
      StoreShows(p, l, vf, pe);
    }
  }

  lemma {:induction false} VectorIsLanes(p: Stmt, l: LoopId, vf: nat, pe: Env, st: State)
    requires VecStorable(p, l) && vf > 1 && LanesApart(p, l, vf, pe)
    ensures Exec([VecStore(p, l, vf)], pe, st) == LaneRun(p, l, pe, vf, st)
  {
    VectorRun(p, l, vf, pe, st);
  }

  lemma {:induction false} OneWide(p: Stmt, l: LoopId)
    requires p.Store? && VecValue(p.value, l)
    ensures Width(p.value) == 1
  {}

  lemma {:induction false} AlikeItself(a: State)
    ensures ReadsAlike(a, a)
  {}

  lemma {:induction false} ReadsAlikeTrans(a: State, b: State, c: State)
    requires ReadsAlike(a, b) && ReadsAlike(c, b)
    ensures ReadsAlike(a, c)
  {}

  /** A vector store that adds zero in all lanes but the first leaves what its first iteration does. */
  lemma {:induction false} FirstLaneOnly(p: Stmt, l: LoopId, vf: nat, pe: Env, st: State)
    requires p.Store? && p.acc && vf > 1 && VecValue(p.value, l) && MayVectorizeExpr(p.value, l)
    requires EvalSubs(p.subs, LaneEnv(pe, l, 0), st) == EvalSubs(p.subs, pe, st) != []
    requires forall j: nat | 1 <= j < vf :: Eval(p.value, LaneEnv(pe, l, j), st, 0) == F(0.0)
    ensures ReadsAlike(ExecS(VecStore(p, l, vf), pe, st), ExecS(p, LaneEnv(pe, l, 0), st))
  {
    hide VecStore, MayVectorizeExpr, VecValue, Coerce, Eval, EvalSubs;
    var a, b := ExecS(VecStore(p, l, vf), pe, st), ExecS(p, LaneEnv(pe, l, 0), st);
    var idx := EvalSubs(p.subs, pe, st);
    OneWide(p, l);
    StoreOne(p, LaneEnv(pe, l, 0), st);
    VecLook(p, l, vf, pe, st, Elem(p.arg, idx));
    forall x: Loc, elem: ElemKind ensures Coerce(elem, Read(a, x)) == Coerce(elem, Read(b, x)) {
      VecLook(p, l, vf, pe, st, x);
      FirstLane(p.arg, idx, vf, x);
      if LastLane(p.arg, idx, vf, x).Some? { LaneAt(p.arg, idx, vf, x); }
      AddZero(pe.m, Read(st, x), elem);
    }
  }

  lemma {:induction false} VectorAddsOnce(p: Stmt, l: LoopId, vf: nat, pe: Env, st: State)
    requires p.Store? && vf > 1 && MayVectorizeStore(p, l) && VecValue(p.value, l) && UnitOrUniform(p.subs, l)
    requires !Mentions(p.subs[|p.subs| - 1], l) && AddsOnce(p, l, vf, pe)
    ensures ReadsAlike(ExecS(VecStore(p, l, vf), pe, st), ExecS(p, LaneEnv(pe, l, 0), st))
  {
    hide VecStore, VecValue, UnitOrUniform, ReadsAlike, Eval, EvalSubs;
    StaysPut(p, l, pe, 0, st, st);
    SubsThere(p.subs, l, pe, st);
    FirstLaneOnly(p, l, vf, pe, st);
  }

  lemma {:induction false} SubsThere(subs: seq<Expr>, l: LoopId, env: Env, st: State)
    requires UnitOrUniform(subs, l)
    ensures EvalSubs(subs, env, st) != []
  {}

  lemma {:induction false} FirstLane(arg: nat, idx: seq<int>, n: nat, x: Loc)
    requires idx != [] && n > 0
    ensures LastLane(arg, idx, n, x) == Some(0) <==> x == Elem(arg, idx)
  {
    BumpNone(idx);
    LaneFound(arg, idx, n, 0);
    if LastLane(arg, idx, n, x) == Some(0) { LaneAt(arg, idx, n, x); }
  }

  lemma {:induction false} LaneAt(arg: nat, idx: seq<int>, n: nat, x: Loc)
    requires LastLane(arg, idx, n, x).Some?
    ensures LastLane(arg, idx, n, x).value < n && x == ElemAt(arg, idx, LastLane(arg, idx, n, x).value)
  {
    if ElemAt(arg, idx, n - 1) != x { LaneAt(arg, idx, n - 1, x); }
  }

  /** So do the iterations it stands for. */
  lemma {:induction false} LanesAddOnce(p: Stmt, l: LoopId, vf: nat, pe: Env, st: State, n: nat)
    requires p.Store? && 1 <= n <= vf && Width(p.value) == 1 && AddsOnce(p, l, vf, pe)
    ensures ReadsAlike(LaneRun(p, l, pe, n, st), ExecS(p, LaneEnv(pe, l, 0), st))
  {
    hide LaneRun, Coerce, Eval, EvalSubs, ExecS;
    LaneRunStep(p, l, pe, n, st);
    if n == 1 {
      assert LaneRun(p, l, pe, 0, st) == st by { NoLanes(p, l, pe, st); }
      AlikeItself(ExecS(p, LaneEnv(pe, l, 0), st));
    } else {
      LanesAddOnce(p, l, vf, pe, st, n - 1);
      var st' := LaneRun(p, l, pe, n - 1, st);
      StoreOne(p, LaneEnv(pe, l, n - 1), st');
      forall x: Loc, elem: ElemKind
        ensures Coerce(elem, Read(LaneRun(p, l, pe, n, st), x)) ==
          Coerce(elem, Read(ExecS(p, LaneEnv(pe, l, 0), st), x))
      {
        AddZero(pe.m, Read(st', x), elem);
      }
    }
  }

  lemma {:induction false} NoLanes(p: Stmt, l: LoopId, pe: Env, st: State)
    ensures LaneRun(p, l, pe, 0, st) == st
  {}

  /** Otherwise some lane puts at its element what no iteration puts there. */
  lemma {:induction false} StoreShows(p: Stmt, l: LoopId, vf: nat, pe: Env)
    requires p.Store? && vf > 1 && MayVectorizeStore(p, l) && VecValue(p.value, l) && UnitOrUniform(p.subs, l)
    requires !Mentions(p.subs[|p.subs| - 1], l) && p.arg !in ArgsReadE(p.value) && !AddsOnce(p, l, vf, pe)
    ensures exists st: State :: !ReadsAlike(Exec([VecStore(p, l, vf)], pe, st), LaneRun(p, l, pe, vf, st))
  {
    var st0, j := State(map[], []), 1;
    if p.acc { st0, j :| 1 <= j < vf && Eval(p.value, LaneEnv(pe, l, j), st0, 0) != F(0.0); }
    var v := Eval(p.value, LaneEnv(pe, l, j), st0, 0);
    var x := ElemAt(p.arg, EvalSubs(p.subs, pe, st0), j);
    var r := if p.acc then 0.5 else Coerce(Float32Ty, v).f + 1.0;
    var st := st0.(mem := st0.mem[x := F(r)]);
    LaneShows(p, l, vf, pe, st0, j, st, r);
    assert !ReadsAlike(Exec([VecStore(p, l, vf)], pe, st), LaneRun(p, l, pe, vf, st));
  }

  lemma {:induction false} LaneShows(p: Stmt, l: LoopId, vf: nat, pe: Env, st0: State, j: nat, st: State, r: real)
    requires p.Store? && vf > 1 && MayVectorizeStore(p, l) && VecValue(p.value, l) && UnitOrUniform(p.subs, l)
    requires !Mentions(p.subs[|p.subs| - 1], l) && p.arg !in ArgsReadE(p.value) && 1 <= j < vf
    requires st == st0.(mem := st0.mem[ElemAt(p.arg, EvalSubs(p.subs, pe, st0), j) := F(r)])
    requires var v := Eval(p.value, LaneEnv(pe, l, j), st0, 0);
      if p.acc then v != F(0.0) && r == 0.5 else r == Coerce(Float32Ty, v).f + 1.0
    ensures !ReadsAlike(Exec([VecStore(p, l, vf)], pe, st), LaneRun(p, l, pe, vf, st))
  {
    hide VecStore, MayVectorizeExpr, MayVectorizeAccess, VecValue, UnitOrUniform, Eval, EvalSubs, LaneRun;
    var idx := EvalSubs(p.subs, pe, st0);
    var x := ElemAt(p.arg, idx, j);
    var e := LaneEnv(pe, l, j);
    StaysPut(p, l, pe, 0, st, st);
    StaysPut(p, l, pe, 0, st, st0);
    SubsThere(p.subs, l, pe, st0);
    LaneFound(p.arg, idx, vf, j);
    assert Alike({p.arg}, {}, st0, st);
    EvalAlike(p.value, {p.arg}, {}, e, st0, st, 0);
    ExecOne(VecStore(p, l, vf), pe, st);
    VecLook(p, l, vf, pe, st, x);
    assert Bump(idx, j)[|idx| - 1] != idx[|idx| - 1];
    StayingRun(p, l, pe, vf, st, x);
    if p.acc { AddSome(pe.m, Eval(p.value, e, st, 0)); }
    assert Coerce(Float32Ty, Read(Exec([VecStore(p, l, vf)], pe, st), x)) != F(r);
    assert Read(LaneRun(p, l, pe, vf, st), x) == F(r);
  }

  // ---- widen and vectorize: a store that never uses the index ------------------------------

  /** A loop over A[subs] = c or A[subs] += c. */
  function Tally(l: LoopId, end: nat, stride: nat, arg: nat, subs: seq<Expr>, c: real, acc: bool): Stmt
  {
    Loop(l, end, stride, [Store(arg, subs, ConstFP(c), acc)])
  }

  /** What n iterations put there. */
  function AllOf(acc: bool, n: nat, c: real): real { if acc then n as real * c else c }

  lemma {:induction false} TallyOnce(l: LoopId, arg: nat, subs: seq<Expr>, c: real, acc: bool, env: Env, i: int,
                                     st: State, none: State)
    requires Fixed(subs, l)
    ensures ExecS(Store(arg, subs, ConstFP(c), acc), env.At(l, i), st) ==
      Put(st, Elem(arg, EvalSubs(subs, env, none)), acc, c)
  {
    var p := Store(arg, subs, ConstFP(c), acc);
    FixedSubs(subs, l, env, i, st, none);
    StoreOne(p, env.At(l, i), st);
    var x := Elem(arg, EvalSubs(subs, env, none));
    assert WriteLoc(p, env.At(l, i), st) == x && Eval(p.value, env.At(l, i), st, 0) == F(c);
    assert NewValue(env.m, true, Read(st, x), F(c)) == F(Held(st, x) + c);
  }

  lemma {:induction false} TallyRun(l: LoopId, stride: nat, arg: nat, subs: seq<Expr>, c: real, acc: bool, env: Env,
                                    n: nat, st: State)
    requires n > 0 && Fixed(subs, l)
    ensures Iter(Body(Tally(l, 0, stride, arg, subs, c, acc).body, l, stride, env), n, st) ==
            Put(st, Elem(arg, EvalSubs(subs, env, st)), acc, AllOf(acc, n, c))
  {
    var p := Store(arg, subs, ConstFP(c), acc);
    var x := Elem(arg, EvalSubs(subs, env, st));
    var f := Body([p], l, stride, env);
    var st' := Iter(f, n - 1, st);
    var e := env.At(l, (n - 1) * stride);
    ExecOne(p, e, st');
    TallyOnce(l, arg, subs, c, acc, env, (n - 1) * stride, st', st);
    if n > 1 {
      TallyRun(l, stride, arg, subs, c, acc, env, n - 1, st);
      assert Tally(l, 0, stride, arg, subs, c, acc).body == [p];
      assert st' == Put(st, x, acc, AllOf(acc, n - 1, c));
    } else {
      assert st' == st;
    }
    PutTwice(st, st', x, acc, n - 1, c);
    assert Iter(f, n, st) == f(n - 1, st') == Put(st', x, acc, c);
  }

  lemma {:induction false} PutTwice(st: State, st': State, x: Loc, acc: bool, n: nat, c: real)
    requires st' == if n == 0 then st else Put(st, x, acc, AllOf(acc, n, c))
    ensures Put(st', x, acc, c) == Put(st, x, acc, AllOf(acc, n + 1, c))
  {
    var t := n as real * c;
    assert (n + 1) as real * c == t + c;
    if n > 0 {
      if acc {
        assert Held(st', x) == Held(st, x) + t;
        assert Held(st', x) + c == Held(st, x) + (t + c);
      }
      var v := Put(st', x, acc, c).mem[x];
      assert st'.mem[x := v] == st.mem[x := v] && st'.calls == st.calls;
    }
  }

  /** A store that never uses the index is left alone while the stride grows, so it runs fewer times:
      A[subs] = c does not mind, and A[subs] += c exactly when c is zero. */
  lemma {:induction false} IndexFreeStoreExactly(l: LoopId, end: nat, stride: nat, arg: nat, subs: seq<Expr>, c: real,
                                                 acc: bool, mode: Mode, next: LoopId, scope: set<LoopId>)
    requires WfS(Tally(l, end, stride, arg, subs, c, acc), scope) && Fixed(subs, l) && mode.count > 1 &&
      stride * mode.count > 0
    requires end % (stride * mode.count) == 0
    ensures var L := Tally(l, end, stride, arg, subs, c, acc);
      SameIn(map[], [L], GroupedLoops(L, mode, next)) <==> !acc || c == 0.0
  {
    var L := Tally(l, end, stride, arg, subs, c, acc);
    var g := stride * mode.count;
    assert L.body[1..] == [] && MapStores([], l, mode) == [];
    assert MapStores(L.body, l, mode) == L.body;
    var G := Loop(l, end, g, L.body);
    assert GroupedLoops(L, mode, next) == [G];
    TripExact(end, stride);
    TripExact(end, g);
    var n, m := Trip(end, stride), Trip(end, g);
    MulGap(0, m, g);
    MulGap(m, 0, g);
    FewerTrips(end, stride, mode.count, n, m);
    forall env: Env, st: State
      ensures Exec([L], env, st) == Put(st, Elem(arg, EvalSubs(subs, env, st)), acc, AllOf(acc, n, c))
      ensures Exec([G], env, st) == Put(st, Elem(arg, EvalSubs(subs, env, st)), acc, AllOf(acc, m, c))
    {
      ExecOne(L, env, st);
      ExecOne(G, env, st);
      ExecLoop(l, end, stride, L.body, env, st);
      ExecLoop(l, end, g, L.body, env, st);
      TallyRun(l, stride, arg, subs, c, acc, env, n, st);
      TallyRun(l, g, arg, subs, c, acc, env, m, st);
    }
    if acc && c != 0.0 {
      var env, st := Env(EmptyMachine(), map[]), State(map[], []);
      var x := Elem(arg, EvalSubs(subs, env, st));
      assert n as real * c != m as real * c by { assert (n - m) as real * c != 0.0; }
      assert Exec([L], env, st).mem[x] != Exec([G], env, st).mem[x];
    }
  }

  lemma {:induction false} FewerTrips(end: nat, stride: nat, count: nat, n: nat, m: nat)
    requires end > 0 && stride > 0 && count > 1
    requires end == n * stride && end == m * (stride * count)
    ensures 0 < m < n
  {
    var q := m * count;
    Regroup(m, stride, count);
    assert n * stride == q * stride;
    MulGap(n, q, stride);
    MulGap(q, n, stride);
    assert n == q;
    if m > 0 {
      MulGap(1, count, m);
      Regroup(m, 1, count);
      assert count * m == m * count;
    }
  }

  lemma {:induction false} Regroup(m: int, s: int, c: int)
    ensures m * (s * c) == (m * c) * s
  {}

  // ---- widen: why locals are refused -------------------------------------------------------

  const Total: LocalVar := LocalVar("v", ExprType(Float32Ty, 1))

  /** v += 1 */
  function CountUp(): Stmt { StoreLocal(Total, ConstFP(1.0), true) }

  /** A[x] = v */
  function PutTotal(x: Expr): Stmt { Store(0, [x], LoadLocal(Total), false) }

  /** for l in 0..4 { v += 1; A[l] = v } */
  function Counting(l: LoopId): Stmt { Loop(l, 4, 1, [CountUp(), PutTotal(Idx(l))]) }

  /** v holds x, and A holds vs. */
  predicate Shows(st: State, x: real, vs: seq<real>)
  {
    Read(st, Local("v", 0)) == F(x) && forall i: nat | i < |vs| :: Read(st, Elem(0, [i])) == F(vs[i])
  }

  lemma {:induction false} CountUpRun(env: Env, st: State, x: real, vs: seq<real>)
    requires Shows(st, x, vs)
    ensures Shows(ExecS(CountUp(), env, st), x + 1.0, vs)
  {
    var p := CountUp();
    assert WriteLocals(st, Total, p.value, true, env, 0) == st.mem;
    assert Eval(p.value, env, st, 0) == F(1.0) && NewValue(env.m, true, F(x), F(1.0)) == F(x + 1.0);
  }

  lemma {:induction false} PutTotalRun(e: Expr, env: Env, st: State, x: real, vs: seq<real>)
    requires Shows(st, x, vs) && Eval(e, env, st, 0) == I(|vs|)
    ensures Shows(ExecS(PutTotal(e), env, st), x, vs + [x])
  {
    var p := PutTotal(e);
    StoreOne(p, env, st);
    assert EvalSubs(p.subs, env, st) == [|vs|];
    assert Eval(p.value, env, st, 0) == F(x);
  }

  lemma {:induction false} CountingStep(l: LoopId, env: Env, i: nat, st: State, x: real, vs: seq<real>)
    requires Shows(st, x, vs) && |vs| == i
    ensures Shows(Exec(Counting(l).body, env.At(l, i), st), x + 1.0, vs + [x + 1.0])
  {
    hide ExecS, Shows;
    var e := env.At(l, i);
    var mid := ExecS(CountUp(), e, st);
    CountUpRun(e, st, x, vs);
    PutTotalRun(Idx(l), e, mid, x + 1.0, vs);
    RunTwo(CountUp(), PutTotal(Idx(l)), e, st);
  }

  lemma {:induction false} RunTwo(a: Stmt, b: Stmt, env: Env, st: State)
    ensures Exec([a, b], env, st) == ExecS(b, env, ExecS(a, env, st))
  {
    assert [a, b] == [a] + [b];
    ExecAppend([a], [b], env, st);
    ExecOne(a, env, st);
    ExecOne(b, env, ExecS(a, env, st));
  }

  /** The body of the widened loop. */
  function CountingByTwo(l: LoopId): seq<Stmt>
  {
    [CountUp(), PutTotal(Idx(l)), PutTotal(Binary(Add, Idx(l), Const(1)))]
  }

  lemma {:induction false} ByTwoStep(l: LoopId, env: Env, i: nat, st: State, x: real, vs: seq<real>)
    requires Shows(st, x, vs) && |vs| == i
    ensures Shows(Exec(CountingByTwo(l), env.At(l, i), st), x + 1.0, vs + [x + 1.0] + [x + 1.0])
  {
    hide ExecS, Shows;
    var e := env.At(l, i);
    var next := Binary(Add, Idx(l), Const(1));
    CountingStep(l, env, i, st, x, vs);
    var mid := Exec(Counting(l).body, e, st);
    assert Eval(next.lhs, e, mid, 0) == I(i) && Eval(next.rhs, e, mid, 0) == I(1);
    PutTotalRun(next, e, mid, x + 1.0, vs + [x + 1.0]);
    assert CountingByTwo(l) == Counting(l).body + [PutTotal(next)];
    ExecAppend(Counting(l).body, [PutTotal(next)], e, st);
    ExecOne(PutTotal(next), e, mid);
  }

  lemma {:induction false} CountingMapped(l: LoopId)
    ensures MapStores(Counting(l).body, l, Duplicate(2, 1)) == CountingByTwo(l)
  {
    var a, b, m := CountUp(), PutTotal(Idx(l)), Duplicate(2, 1);
    assert [a, b][1..] == [b] && [b][1..] == [] && MapStores([], l, m) == [];
    assert Idx(l) in b.subs;
    assert Subst(Idx(l), l, Binary(Add, Idx(l), Const(1))) == Binary(Add, Idx(l), Const(1));
    assert SubstAll([Idx(l)], l, Binary(Add, Idx(l), Const(1))) == [Binary(Add, Idx(l), Const(1))];
    assert Shifted(b, l, 0) == b && Shifted(b, l, 1) == CountingByTwo(l)[2];
    assert ShiftedCopies(b, l, 1, 0) == [] && ShiftedCopies(b, l, 1, 1) == [b];
    assert ShiftedCopies(b, l, 1, 2) == [b, CountingByTwo(l)[2]];
    assert MapStores([b], l, m) == [b, CountingByTwo(l)[2]];
    assert MapStores([a, b], l, m) == [a] + MapStores([b], l, m);
  }

  /** for l in 0..4 { v += 1; A[l] = v } is refused, for good reason: started with v at zero it leaves
      1, 2, 3, 4 in A and 4 in v, and duplicating its store by two would leave 1, 1, 2, 2 and 2. */
  lemma {:induction false} LocalsRefused(l: LoopId, next: LoopId, env: Env, st: State)
    requires Read(st, Local("v", 0)) == F(0.0)
    ensures var L := Counting(l);
      !CanWiden(L, 2) && L.end >= L.stride * 2 && IndexInStores(L.body, l) &&
      Shows(Exec([L], env, st), 4.0, [1.0, 2.0, 3.0, 4.0]) &&
      Shows(Exec(GroupedLoops(L, Duplicate(2, 1), next), env, st), 2.0, [1.0, 1.0, 2.0, 2.0])
  {
    hide Exec, Shows, MapStores;
    var L, m := Counting(l), Duplicate(2, 1);
    assert L.body[1..] == [PutTotal(Idx(l))] && L.body[1..][1..] == [];
    assert IndexInStores(L.body[1..], l) && L.body[0] == CountUp() && !Mentions(ConstFP(1.0), l);
    CountingMapped(l);
    var G := Loop(l, 4, 2, CountingByTwo(l));
    assert GroupedLoops(L, m, next) == [G];
    assert Shows(st, 0.0, []) by { ShowsNothing(st); }
    ExecOne(L, env, st);
    ExecOne(G, env, st);
    ExecLoop(l, 4, 1, L.body, env, st);
    ExecLoop(l, 4, 2, G.body, env, st);
    var f, g := Body(L.body, l, 1, env), Body(G.body, l, 2, env);
    var s1, s2, s3 := Iter(f, 1, st), Iter(f, 2, st), Iter(f, 3, st);
    assert Iter(f, 0, st) == st && Iter(g, 0, st) == st;
    var s4, t1, t2 := Iter(f, 4, st), Iter(g, 1, st), Iter(g, 2, st);
    assert s1 == f(0, st) && s2 == f(1, s1) && s3 == f(2, s2) && s4 == f(3, s3);
    assert t1 == g(0, st) && t2 == g(1, t1);
    CountingStep(l, env, 0, st, 0.0, []);
    assert Shows(s1, 1.0, [1.0]) by { assert [] + [1.0] == [1.0]; }
    CountingStep(l, env, 1, s1, 1.0, [1.0]);
    assert Shows(s2, 2.0, [1.0, 2.0]) by { assert [1.0] + [2.0] == [1.0, 2.0]; }
    CountingStep(l, env, 2, s2, 2.0, [1.0, 2.0]);
    assert Shows(s3, 3.0, [1.0, 2.0, 3.0]) by { assert [1.0, 2.0] + [3.0] == [1.0, 2.0, 3.0]; }
    CountingStep(l, env, 3, s3, 3.0, [1.0, 2.0, 3.0]);
    assert Shows(s4, 4.0, [1.0, 2.0, 3.0, 4.0]) by { assert [1.0, 2.0, 3.0] + [4.0] == [1.0, 2.0, 3.0, 4.0]; }
    ByTwoStep(l, env, 0, st, 0.0, []);
    assert Shows(t1, 1.0, [1.0, 1.0]) by { assert [] + [1.0] + [1.0] == [1.0, 1.0]; }
    ByTwoStep(l, env, 2, t1, 1.0, [1.0, 1.0]);
    assert Shows(t2, 2.0, [1.0, 1.0, 2.0, 2.0]) by { assert [1.0, 1.0] + [2.0] + [2.0] == [1.0, 1.0, 2.0, 2.0]; }
  }

  lemma {:induction false} ShowsNothing(st: State)
    requires Read(st, Local("v", 0)) == F(0.0)
    ensures Shows(st, 0.0, [])
  {}
}
