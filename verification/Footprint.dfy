/** Which locations a block may read and write, and what follows from it: blocks whose
    footprints do not conflict commute. */
module Footprint {
  import opened IR
  import opened Families
  import opened Semantics
  import opened Substitution

  /** What a location holds, if it was ever given a value. */
  function Look(st: State, l: Loc): Option<Num>
  {
    if l in st.mem then Some(st.mem[l]) else None
  }

  /** The float that reading l gives. */
  function Held(st: State, l: Loc): real { Coerce(Float32Ty, Read(st, l)).f }

  /** The float d is put at l, or added to what is there. */
  function Put(st: State, l: Loc, acc: bool, d: real): State
  {
    st.(mem := st.mem[l := F(if acc then Held(st, l) + d else d)])
  }

  ghost predicate AgreeOn(a: State, b: State, s: iset<Loc>)
  {
    forall l | l in s :: Look(a, l) == Look(b, l)
  }

  /** The locations that evaluating lane `lane` of e reads. */
  function Reads(e: Expr, env: Env, st: State, lane: nat): set<Loc>
  {
    match e
    case Binary(_, a, b) => Reads(a, env, st, lane) + Reads(b, env, st, lane)
    case Unary(_, v) => Reads(v, env, st, lane)
    case Load(arg, subs, ty) =>
      {Elem(arg, Bump(EvalSubs(subs, env, st), LaneOf(ty, lane)))} +
      (set i: int, l | 0 <= i < |subs| && l in Reads(subs[i], env, st, 0) :: l)
    case LoadLocal(v) => {Local(v.name, LaneOf(v.ty, lane))}
    case Broadcast(x, _) => Reads(x, env, st, 0)
    case _ => {}
  }

  ghost predicate ReadsIn(e: Expr, env: Env, st: State, lane: nat, R: iset<Loc>)
  {
    forall l | l in Reads(e, env, st, lane) :: l in R
  }

  ghost predicate ReadsAllIn(es: seq<Expr>, env: Env, st: State, R: iset<Loc>)
  {
    forall i | 0 <= i < |es| :: ReadsIn(es[i], env, st, 0, R)
  }

  /** Evaluation depends only on what it reads. */
  lemma {:induction false} EvalDepends(e: Expr, env: Env, a: State, b: State, lane: nat, R: iset<Loc>)
    requires ReadsIn(e, env, a, lane, R) && AgreeOn(a, b, R)
    ensures Eval(e, env, a, lane) == Eval(e, env, b, lane)
  {
    match e
    case Binary(_, x, y) =>
      EvalDepends(x, env, a, b, lane, R);
      EvalDepends(y, env, a, b, lane, R);
    case Unary(_, v) => EvalDepends(v, env, a, b, lane, R);
    case Load(arg, subs, ty) =>
      var l := Elem(arg, Bump(EvalSubs(subs, env, a), LaneOf(ty, lane)));
      assert l in Reads(e, env, a, lane);
      forall i | 0 <= i < |subs|
        ensures Eval(subs[i], env, a, 0) == Eval(subs[i], env, b, 0)
      {
        assert forall x | x in Reads(subs[i], env, a, 0) :: x in Reads(e, env, a, lane);
        EvalDepends(subs[i], env, a, b, 0, R);
      }
      assert EvalSubs(subs, env, a) == EvalSubs(subs, env, b);
      EvalLoad(e, env, a, lane);
      EvalLoad(e, env, b, lane);
      assert Look(a, l) == Look(b, l);
    case LoadLocal(v) =>
      var l := Local(v.name, LaneOf(v.ty, lane));
      assert l in Reads(e, env, a, lane);
      assert Look(a, l) == Look(b, l);
    case Broadcast(x, _) => EvalDepends(x, env, a, b, 0, R);
    case _ =>
  }

  lemma {:induction false} SubsDepend(es: seq<Expr>, env: Env, a: State, b: State, R: iset<Loc>)
    requires ReadsAllIn(es, env, a, R) && AgreeOn(a, b, R)
    ensures EvalSubs(es, env, a) == EvalSubs(es, env, b)
  {
    forall i | 0 <= i < |es|
      ensures Eval(es[i], env, a, 0) == Eval(es[i], env, b, 0)
    {
      EvalDepends(es[i], env, a, b, 0, R);
    }
  }

  // ---- Confined blocks ---------------------------------------------------------------

  /** One store in one state stays inside R and W. */
  ghost predicate LeafIn(s: Stmt, env: Env, st: State, R: iset<Loc>, W: iset<Loc>)
    requires s.Store? || s.StoreLocal?
  {
    match s
    case Store(arg, subs, value, _) =>
      ReadsAllIn(subs, env, st, R) &&
      forall lane: nat | lane < Width(value) ::
        ReadsIn(value, env, st, lane, R) && ElemAt(arg, EvalSubs(subs, env, st), lane) in W
    case StoreLocal(v, value, _) =>
      forall lane: nat | lane < Width(value) ::
        ReadsIn(value, env, st, lane, R) && Local(v.name, lane) in W
  }

  /** Whatever the state, s reads only in R and in what it accumulates into, writes only in
      W, and calls nothing. */
  ghost predicate ConfinedS(s: Stmt, env: Env, R: iset<Loc>, W: iset<Loc>)
    decreases s
  {
    match s
    case Loop(id, end, stride, body) =>
      forall k: nat | k < Trip(end, stride) :: Confined(body, env.At(id, k * stride), R, W)
    case IfRange(v, _, _, body) =>
      (forall st: State :: ReadsIn(v, env, st, 0, R)) && Confined(body, env, R, W)
    case Call(_, _) => false
    case _ => forall st: State :: LeafIn(s, env, st, R, W)
  }

  ghost predicate Confined(ss: seq<Stmt>, env: Env, R: iset<Loc>, W: iset<Loc>)
    decreases ss
  {
    ss == [] || (ConfinedS(ss[0], env, R, W) && Confined(ss[1..], env, R, W))
  }

  /** What a store leaves at a location. */
  lemma {:induction false} WriteElemsFrame(st: State, arg: nat, idx: seq<int>, value: Expr, acc: bool, env: Env, n: nat,
                                           l: Loc)
    requires forall lane: nat | lane < n :: ElemAt(arg, idx, lane) != l
    ensures Look(State(WriteElems(st, arg, idx, value, acc, env, n), st.calls), l) == Look(st, l)
  {
    if n > 0 {
      WriteElemsFrame(st, arg, idx, value, acc, env, n - 1, l);
    }
  }

  lemma {:induction false} WriteLocalsFrame(st: State, v: LocalVar, value: Expr, acc: bool, env: Env, n: nat, l: Loc)
    requires forall lane: nat | lane < n :: Local(v.name, lane) != l
    ensures Look(State(WriteLocals(st, v, value, acc, env, n), st.calls), l) == Look(st, l)
  {
    if n > 0 {
      WriteLocalsFrame(st, v, value, acc, env, n - 1, l);
    }
  }

  lemma {:induction false} FrameS(s: Stmt, env: Env, st: State, R: iset<Loc>, W: iset<Loc>)
    requires ConfinedS(s, env, R, W)
    ensures ExecS(s, env, st).calls == st.calls
    ensures forall l | l !in W :: Look(ExecS(s, env, st), l) == Look(st, l)
    decreases s, 1
  {
    match s
    case Loop(id, end, stride, body) =>
      ExecLoop(id, end, stride, body, env, st);
      FrameIter(s, Trip(end, stride), env, st, R, W);
    case IfRange(_, _, _, body) => Frame(body, env, st, R, W);
    case Store(arg, subs, value, acc) =>
      assert LeafIn(s, env, st, R, W);
      forall l | l !in W ensures Look(ExecS(s, env, st), l) == Look(st, l) {
        WriteElemsFrame(st, arg, EvalSubs(subs, env, st), value, acc, env, Width(value), l);
      }
    case StoreLocal(v, value, acc) =>
      assert LeafIn(s, env, st, R, W);
      forall l | l !in W ensures Look(ExecS(s, env, st), l) == Look(st, l) {
        WriteLocalsFrame(st, v, value, acc, env, Width(value), l);
      }
  }

  lemma {:induction false} FrameIter(L: Stmt, n: nat, env: Env, st: State, R: iset<Loc>, W: iset<Loc>)
    requires L.Loop? && n <= Trip(L.end, L.stride)
    requires forall k: nat | k < Trip(L.end, L.stride) :: Confined(L.body, env.At(L.id, k * L.stride), R, W)
    ensures var st' := Iter(Body(L.body, L.id, L.stride, env), n, st);
      st'.calls == st.calls && forall l | l !in W :: Look(st', l) == Look(st, l)
    decreases L, 0, n
  {
    if n > 0 {
      FrameIter(L, n - 1, env, st, R, W);
      Frame(L.body, env.At(L.id, (n - 1) * L.stride), Iter(Body(L.body, L.id, L.stride, env), n - 1, st), R, W);
    }
  }

  /** A confined block changes nothing outside W. */
  lemma {:induction false} Frame(ss: seq<Stmt>, env: Env, st: State, R: iset<Loc>, W: iset<Loc>)
    requires Confined(ss, env, R, W)
    ensures Exec(ss, env, st).calls == st.calls
    ensures forall l | l !in W :: Look(Exec(ss, env, st), l) == Look(st, l)
    decreases ss, 2
  {
    if ss != [] {
      FrameS(ss[0], env, st, R, W);
      Frame(ss[1..], env, ExecS(ss[0], env, st), R, W);
    }
  }

  /** Stores of equal values from states that agree keep the states in agreement. */
  lemma {:induction false} WriteElemsAgree(a: State, b: State, arg: nat, idx: seq<int>, value: Expr, acc: bool,
                                           env: Env, n: nat, W: iset<Loc>)
    requires AgreeOn(a, b, W)
    requires forall lane: nat | lane < n ::
      Eval(value, env, a, lane) == Eval(value, env, b, lane) && ElemAt(arg, idx, lane) in W
    ensures AgreeOn(State(WriteElems(a, arg, idx, value, acc, env, n), a.calls),
                    State(WriteElems(b, arg, idx, value, acc, env, n), b.calls), W)
  {
    if n > 0 {
      WriteElemsAgree(a, b, arg, idx, value, acc, env, n - 1, W);
      var l := ElemAt(arg, idx, n - 1);
      assert Look(a, l) == Look(b, l);
      assert Read(a, l) == Read(b, l);
      assert Eval(value, env, a, n - 1) == Eval(value, env, b, n - 1);
    }
  }

  lemma {:induction false} WriteLocalsAgree(a: State, b: State, v: LocalVar, value: Expr, acc: bool, env: Env,
                                            n: nat, W: iset<Loc>)
    requires AgreeOn(a, b, W)
    requires forall lane: nat | lane < n ::
      Eval(value, env, a, lane) == Eval(value, env, b, lane) && Local(v.name, lane) in W
    ensures AgreeOn(State(WriteLocals(a, v, value, acc, env, n), a.calls),
                    State(WriteLocals(b, v, value, acc, env, n), b.calls), W)
  {
    if n > 0 {
      WriteLocalsAgree(a, b, v, value, acc, env, n - 1, W);
      var l := Local(v.name, n - 1);
      assert Look(a, l) == Look(b, l);
      assert Read(a, l) == Read(b, l);
      assert Eval(value, env, a, n - 1) == Eval(value, env, b, n - 1);
    }
  }

  lemma {:induction false} AgreesS(s: Stmt, env: Env, a: State, b: State, R: iset<Loc>, W: iset<Loc>)
    requires ConfinedS(s, env, R, W) && AgreeOn(a, b, R + W)
    ensures AgreeOn(ExecS(s, env, a), ExecS(s, env, b), R + W)
    decreases s, 1
  {
    match s
    case Loop(id, end, stride, body) =>
      ExecLoop(id, end, stride, body, env, a);
      ExecLoop(id, end, stride, body, env, b);
      AgreesIter(s, Trip(end, stride), env, a, b, R, W);
    case IfRange(v, _, _, body) =>
      EvalDepends(v, env, a, b, 0, R);
      Agrees(body, env, a, b, R, W);
    case Store(arg, subs, value, acc) =>
      assert LeafIn(s, env, a, R, W);
      SubsDepend(subs, env, a, b, R);
      forall lane: nat | lane < Width(value) { EvalDepends(value, env, a, b, lane, R); }
      WriteElemsAgree(a, b, arg, EvalSubs(subs, env, a), value, acc, env, Width(value), R + W);
    case StoreLocal(v, value, acc) =>
      assert LeafIn(s, env, a, R, W);
      forall lane: nat | lane < Width(value) { EvalDepends(value, env, a, b, lane, R); }
      WriteLocalsAgree(a, b, v, value, acc, env, Width(value), R + W);
  }

  lemma {:induction false} AgreesIter(L: Stmt, n: nat, env: Env, a: State, b: State, R: iset<Loc>, W: iset<Loc>)
    requires L.Loop? && n <= Trip(L.end, L.stride) && AgreeOn(a, b, R + W)
    requires forall k: nat | k < Trip(L.end, L.stride) :: Confined(L.body, env.At(L.id, k * L.stride), R, W)
    ensures var f := Body(L.body, L.id, L.stride, env);
      AgreeOn(Iter(f, n, a), Iter(f, n, b), R + W)
    decreases L, 0, n
  {
    if n > 0 {
      var f := Body(L.body, L.id, L.stride, env);
      AgreesIter(L, n - 1, env, a, b, R, W);
      Agrees(L.body, env.At(L.id, (n - 1) * L.stride), Iter(f, n - 1, a), Iter(f, n - 1, b), R, W);
    }
  }

  /** A confined block run from states that agree inside its footprint leaves them so. */
  lemma {:induction false} Agrees(ss: seq<Stmt>, env: Env, a: State, b: State, R: iset<Loc>, W: iset<Loc>)
    requires Confined(ss, env, R, W) && AgreeOn(a, b, R + W)
    ensures AgreeOn(Exec(ss, env, a), Exec(ss, env, b), R + W)
    decreases ss, 2
  {
    if ss != [] {
      AgreesS(ss[0], env, a, b, R, W);
      Agrees(ss[1..], env, ExecS(ss[0], env, a), ExecS(ss[0], env, b), R, W);
    }
  }

  /** No location of one footprint is written by the other. */
  ghost predicate NoConflict(Ra: iset<Loc>, Wa: iset<Loc>, Rb: iset<Loc>, Wb: iset<Loc>)
  {
    (forall l | l in Wa :: l !in Rb && l !in Wb) && (forall l | l in Wb :: l !in Ra && l !in Wa)
  }

  /** Two states are equal when every location looks the same and the calls are the same. */
  lemma {:induction false} SameLook(a: State, b: State)
    requires a.calls == b.calls && forall l :: Look(a, l) == Look(b, l)
    ensures a == b
  {
    assert forall l :: l in a.mem <==> l in b.mem by {
      forall l ensures l in a.mem <==> l in b.mem { assert Look(a, l) == Look(b, l); }
    }
    assert forall l | l in a.mem :: a.mem[l] == b.mem[l] by {
      forall l | l in a.mem ensures a.mem[l] == b.mem[l] { assert Look(a, l) == Look(b, l); }
    }
    assert a.mem == b.mem;
  }

  /** Blocks whose footprints do not conflict commute. */
  lemma {:induction false} ConfinedCommute(x: seq<Stmt>, ex: Env, Rx: iset<Loc>, Wx: iset<Loc>,
                                           y: seq<Stmt>, ey: Env, Ry: iset<Loc>, Wy: iset<Loc>, st: State)
    requires Confined(x, ex, Rx, Wx) && Confined(y, ey, Ry, Wy) && NoConflict(Rx, Wx, Ry, Wy)
    ensures Exec(x, ex, Exec(y, ey, st)) == Exec(y, ey, Exec(x, ex, st))
  {
    var sx, sy := Exec(x, ex, st), Exec(y, ey, st);
    Frame(x, ex, st, Rx, Wx);
    Frame(y, ey, st, Ry, Wy);
    Frame(x, ex, sy, Rx, Wx);
    Frame(y, ey, sx, Ry, Wy);
    Agrees(x, ex, st, sy, Rx, Wx);
    Agrees(y, ey, st, sx, Ry, Wy);
    var xy, yx := Exec(x, ex, sy), Exec(y, ey, sx);
    forall l
      ensures Look(xy, l) == Look(yx, l)
    {
      if l in Wx {
        assert Look(xy, l) == Look(sx, l);
      } else if l in Wy {
        assert Look(yx, l) == Look(sy, l);
      }
    }
    SameLook(xy, yx);
  }
}
