/** vectorize on a store whose last subscript steps by something else than one. */
module Strides {
  import opened IR
  import opened Families
  import opened Semantics
  import opened Substitution
  import opened Context
  import opened Footprint
  import opened Peeling
  import opened Instances
  import opened Widening
  import opened Vectorizing
  import opened Types
  import opened Pitfalls
  import Polynomials

  // ---- One store with an affine last subscript -------------------------------------------------

  /** The last subscript is a polynomial in which l has degree one at most. */
  predicate AffineStore(p: Stmt, l: LoopId)
  {
    p.Store? && p.subs != [] && (forall x | x in p.subs :: IndexTyped(x)) && VecValue(p.value, l) &&
    Polynomials.Polynomial(p.subs[|p.subs| - 1]) && Polynomials.Affine(LastPoly(p), l)
  }

  function LastPoly(p: Stmt): Polynomials.Poly
    requires p.Store? && p.subs != [] && Polynomials.Polynomial(p.subs[|p.subs| - 1])
  {
    Polynomials.PolyOf(p.subs[|p.subs| - 1])
  }

  /** How far apart two neighbouring iterations of l store. */
  function Step(p: Stmt, l: LoopId): Polynomials.Poly
    requires AffineStore(p, l)
  {
    Polynomials.Coefficient(LastPoly(p), l)
  }

  /** How far apart two neighbouring iterations are with these values of the other indices. */
  function StepIn(p: Stmt, l: LoopId, env: Env): int
    requires AffineStore(p, l)
  {
    Polynomials.Value(Step(p, l), env)
  }

  /** The element d places after the one that iteration 0 stores to. */
  function Place(p: Stmt, l: LoopId, env: Env, d: int): Loc
    requires p.Store?
  {
    Elem(p.arg, Bump(EvalSubs(p.subs, env.At(l, 0), State(map[], [])), d))
  }

  /** The element right after it. */
  function Neighbour(p: Stmt, l: LoopId, env: Env): Loc
    requires p.Store?
  {
    Place(p, l, env, 1)
  }

  /** Of the first n iterations only every vf-th adds something else than a float zero. */
  ghost predicate AddsFirst(p: Stmt, l: LoopId, vf: nat, n: nat, env: Env)
    requires p.Store? && vf > 0
  {
    forall st: State, q: nat | q < n && q % vf != 0 :: Eval(p.value, env.At(l, q), st, 0) == F(0.0)
  }

  /** Vectorizing the loop is right with these values of the other indices: p steps by one, or it
      accumulates and only the first lanes of the groups add something. */
  ghost predicate RightIn(p: Stmt, l: LoopId, end: nat, vf: nat, env: Env)
    requires AffineStore(p, l) && vf > 0
  {
    StepIn(p, l, env) == 1 || (p.acc && AddsFirst(p, l, vf, end / vf * vf, env))
  }

  /** A loop that vectorize accepts, over a store that reads nothing of the buffer it stores to. */
  predicate Simple(p: Stmt, l: LoopId, end: nat, vf: nat)
  {
    AffineStore(p, l) && MentionsS(p, l) && p.arg !in ArgsReadE(p.value) && vf > 1 &&
    CanVectorize(Loop(l, end, 1, [p]), vf)
  }

  lemma {:induction false} SimpleParts(p: Stmt, l: LoopId, end: nat, vf: nat)
    requires Simple(p, l, end, vf)
    ensures p.Store? && end >= vf > 1 && MayVectorizeStore(p, l) && MayVectorizeExpr(p.value, l)
    ensures VecValue(p.value, l) && Width(p.value) == 1 && |p.subs| > 0 && MentionsS(p, l)
  {}

  lemma {:induction false} UniformFree(e: Expr, l: LoopId)
    requires AccessKind(e, l) == Uniform
    ensures !Mentions(e, l)
  {
    if e.Binary? {
      UniformFree(e.lhs, l);
      UniformFree(e.rhs, l);
    }
  }

  lemma {:induction false} NeverOne(c: int, k: nat)
    requires c != 1
    ensures k * c != 1
  {
    if k >= 2 && c >= 1 { assert k * c >= 2 * c; }
    if c <= 0 { assert k * c <= 0; }
  }

  /** Iteration k does not store to the neighbour. */
  lemma {:induction false} MissedOnce(p: Stmt, l: LoopId, env: Env, k: nat, st: State)
    requires AffineStore(p, l) && StepIn(p, l, env) != 1
    ensures WriteLoc(p, env.At(l, k), st) != Neighbour(p, l, env)
  {
    hide Polynomials.Coefficient, Polynomials.Without, Polynomials.PolyOf, Eval;
    var n := |p.subs| - 1;
    var e := p.subs[n];
    var none := State(map[], []);
    Polynomials.PolyNormal(e);
    Polynomials.PolyValue(e, env.At(l, k), st);
    Polynomials.PolyValue(e, env.At(l, 0), none);
    Polynomials.AffineValue(LastPoly(p), l, env, k);
    Polynomials.AffineValue(LastPoly(p), l, env, 0);
    NeverOne(StepIn(p, l, env), k);
    var idx := EvalSubs(p.subs, env.At(l, 0), none);
    assert Bump(idx, 1)[n] == idx[n] + 1;
    assert EvalSubs(p.subs, env.At(l, k), st)[n] != Bump(idx, 1)[n];
  }

  /** Subscripts do not depend on memory. */
  lemma {:induction false} SubsQuiet(p: Stmt, l: LoopId, env: Env, a: State, b: State)
    requires AffineStore(p, l) && MayVectorizeStore(p, l)
    ensures EvalSubs(p.subs, env, a) == EvalSubs(p.subs, env, b)
  {
    forall d | 0 <= d < |p.subs| ensures Eval(p.subs[d], env, a, 0) == Eval(p.subs[d], env, b, 0) {
      assert p.subs[d] in p.subs;
      AcceptedValue(p.subs[d], l, env, a, b);
    }
  }

  // ---- The two runs --------------------------------------------------------------------------

  /** Iteration k of the scalar loop, and of the vector loop. */
  ghost function Scalars(p: Stmt, l: LoopId, env: Env): (nat, State) -> State { Body([p], l, 1, env) }

  ghost function Vectors(p: Stmt, l: LoopId, vf: nat, env: Env): (nat, State) -> State
    requires p.Store?
  {
    Body([VecStore(p, l, vf)], l, vf, env)
  }

  lemma {:induction false} VectorsStep(p: Stmt, l: LoopId, vf: nat, env: Env, k: nat, st: State)
    requires p.Store?
    ensures Vectors(p, l, vf, env)(k, st) == ExecS(VecStore(p, l, vf), env.At(l, k * vf), st)
  {
    ExecOne(VecStore(p, l, vf), env.At(l, k * vf), st);
  }

  lemma {:induction false} ScalarsStep(p: Stmt, l: LoopId, env: Env, k: nat, st: State)
    ensures Scalars(p, l, env)(k, st) == ExecS(p, env.At(l, k), st)
  {
    assert k * 1 == k;
    ExecOne(p, env.At(l, k), st);
  }

  /** The vector loop runs its groups, and the tail the iterations that are left. */
  lemma {:induction false} GroupedRun(p: Stmt, l: LoopId, end: nat, vf: nat, next: LoopId, scope: set<LoopId>, env: Env,
                                      st: State)
    requires WfS(Loop(l, end, 1, [p]), scope) && Below(scope, next) && Below({l}, next)
    requires p.Store? && MentionsS(p, l) && vf > 1 && end >= vf
    ensures 1 * vf > 0
    ensures var m := end / vf;
      m >= 1 && m * vf <= end &&
      Exec([Loop(l, end, 1, [p])], env, st) == Iter(Scalars(p, l, env), end, st) &&
      Exec(GroupedLoops(Loop(l, end, 1, [p]), Vector(vf), next), env, st) ==
      Iter(Shift(Scalars(p, l, env), m * vf), end - m * vf, Iter(Vectors(p, l, vf, env), m, st))
  {
    hide MentionsS, VecStore, WfS, Iter, Scalars, Vectors, Exec, ExecS, Grouped, PeeledTail, Trip;
    var L := Loop(l, end, 1, [p]);
    var m := end / vf;
    CutMultiple(end, vf);
    TripExact(end, 1);
    ScalarRun(p, l, end, env, st);
    GroupsRunAll(p, l, end, m, vf, env, st);
    var G, mid := Grouped(L, m * vf, Vector(vf)), Iter(Vectors(p, l, vf, env), m, st);
    if end == m * vf {
      assert GroupedLoops(L, Vector(vf), next) == [G];
      NoneLeft(Shift(Scalars(p, l, env), m * vf), mid);
    } else {
      var T := PeeledTail(L, m * vf, next);
      assert GroupedLoops(L, Vector(vf), next) == [G] + [T];
      ExecAppend([G], [T], env, st);
      TailRun(p, l, end, m * vf, next, scope, env, mid);
    }
  }

  lemma {:induction false} NoneLeft(f: (nat, State) -> State, st: State)
    ensures Iter(f, 0, st) == st
  {}

  lemma {:induction false} ScalarRun(p: Stmt, l: LoopId, end: nat, env: Env, st: State)
    ensures Exec([Loop(l, end, 1, [p])], env, st) == Iter(Scalars(p, l, env), end, st)
  {
    TripExact(end, 1);
    ExecOne(Loop(l, end, 1, [p]), env, st);
    ExecLoop(l, end, 1, [p], env, st);
  }

  lemma {:induction false} GroupsRunAll(p: Stmt, l: LoopId, end: nat, m: nat, vf: nat, env: Env, st: State)
    requires p.Store? && MentionsS(p, l) && vf > 0 && m * vf >= 0
    ensures Exec([Grouped(Loop(l, end, 1, [p]), m * vf, Vector(vf))], env, st) == Iter(Vectors(p, l, vf, env), m, st)
  {
    hide MentionsS, VecStore;
    TripMul(m, vf);
    GroupedBody(p, l, vf);
    var G := Grouped(Loop(l, end, 1, [p]), m * vf, Vector(vf));
    assert G == Loop(l, m * vf, vf, [VecStore(p, l, vf)]);
    ExecOne(G, env, st);
    ExecLoop(l, m * vf, vf, G.body, env, st);
  }

  lemma {:induction false} TailRun(p: Stmt, l: LoopId, end: nat, cut: nat, next: LoopId, scope: set<LoopId>, env: Env,
                                   st: State)
    requires WfS(Loop(l, end, 1, [p]), scope) && Below(scope, next) && Below({l}, next) && p.Store? && cut <= end
    ensures Exec([PeeledTail(Loop(l, end, 1, [p]), cut, next)], env, st) ==
      Iter(Shift(Scalars(p, l, env), cut), end - cut, st)
  {
    var L := Loop(l, end, 1, [p]);
    var T := PeeledTail(L, cut, next);
    Single(p);
    assert Bound(L) == {l};
    ExecOne(T, env, st);
    ExecLoop(next, end - cut, 1, T.body, env, st);
    TripExact(end - cut, 1);
    forall j: nat, x: State
      ensures Body(T.body, next, 1, env)(j, x) == Shift(Scalars(p, l, env), cut)(j, x)
    {
      PeelTailStep(L, cut, next, scope, env, j, x);
    }
    IterCong(Body(T.body, next, 1, env), Shift(Scalars(p, l, env), cut), end - cut, st);
  }

  lemma {:induction false} GroupedBody(p: Stmt, l: LoopId, vf: nat)
    requires p.Store? && MentionsS(p, l)
    ensures MapStores([p], l, Vector(vf)) == [VecStore(p, l, vf)]
  {
    assert [p][1..] == [] && MapStores([], l, Vector(vf)) == [];
  }

  // ---- Where it is right -----------------------------------------------------------------------

  /** With the values of the other indices put in, the last subscript is a number plus l. */
  function StandIn(p: Stmt, l: LoopId, env: Env): Stmt
    requires AffineStore(p, l)
  {
    var n := |p.subs| - 1;
    var base := Polynomials.Value(Polynomials.Without(LastPoly(p), l), env);
    p.(subs := p.subs[n := Binary(Add, Const(base), Idx(l))])
  }

  lemma {:induction false} StandInSubs(p: Stmt, l: LoopId, env: Env, i: int, st: State)
    requires AffineStore(p, l) && StepIn(p, l, env) == 1
    ensures EvalSubs(StandIn(p, l, env).subs, env.At(l, i), st) == EvalSubs(p.subs, env.At(l, i), st)
  {
    hide Polynomials.Coefficient, Polynomials.Without, Polynomials.PolyOf;
    var n := |p.subs| - 1;
    var q := StandIn(p, l, env);
    Polynomials.PolyNormal(p.subs[n]);
    Polynomials.PolyValue(p.subs[n], env.At(l, i), st);
    Polynomials.AffineValue(LastPoly(p), l, env, i);
    assert Eval(q.subs[n], env.At(l, i), st, 0) == Eval(p.subs[n], env.At(l, i), st, 0);
  }

  lemma {:induction false} StandInStorable(p: Stmt, l: LoopId, env: Env)
    requires AffineStore(p, l) && MayVectorizeStore(p, l)
    ensures VecStorable(StandIn(p, l, env), l)
  {
    var n := |p.subs| - 1;
    var q := StandIn(p, l, env);
    var e := q.subs[n];
    assert IndexTyped(e.lhs) && IndexTyped(e.rhs);
    assert AccessKind(e, l) == Consecutive && Additive(e, l) && IndexTyped(e);
    forall i | 0 <= i < n ensures !Mentions(q.subs[i], l) { UniformFree(p.subs[i], l); }
    forall x | x in q.subs ensures IndexTyped(x) {
      var i :| 0 <= i < |q.subs| && q.subs[i] == x;
      if i < n { assert p.subs[i] in p.subs; }
    }
  }

  lemma {:induction false} ReadsArgs(e: Expr, env: Env, st: State, lane: nat)
    ensures forall x | x in Reads(e, env, st, lane) :: x.Elem? ==> x.arg in ArgsReadE(e)
    decreases e
  {
    match e
    case Binary(_, a, b) => ReadsArgs(a, env, st, lane); ReadsArgs(b, env, st, lane);
    case Unary(_, v) => ReadsArgs(v, env, st, lane);
    case Load(_, subs, _) =>
      forall i | 0 <= i < |subs|
        ensures forall x | x in Reads(subs[i], env, st, 0) :: x.Elem? ==> x.arg in ArgsReadE(e)
      {
        ReadsArgs(subs[i], env, st, 0);
        ArgsAt(subs, i);
      }
    case Broadcast(x, _) => ReadsArgs(x, env, st, 0);
    case _ =>
  }

  lemma {:induction false} StandInApart(p: Stmt, l: LoopId, vf: nat, env: Env, base: int)
    requires AffineStore(p, l) && p.arg !in ArgsReadE(p.value)
    ensures LanesApart(StandIn(p, l, env), l, vf, env.At(l, base))
  {
    hide Polynomials.Without, Polynomials.PolyOf;
    var q, pe := StandIn(p, l, env), env.At(l, base);
    var n := |p.subs| - 1;
    forall i: nat, j: nat, a: State, b: State | i < vf && j < vf && i != j
      ensures WriteLoc(q, LaneEnv(pe, l, i), a) != WriteLoc(q, LaneEnv(pe, l, j), b)
      ensures WriteLoc(q, LaneEnv(pe, l, i), a) !in ReadLocs(q, LaneEnv(pe, l, j), b)
    {
      var e := q.subs[n];
      assert AsInt(Eval(e, LaneEnv(pe, l, i), a, 0)) != AsInt(Eval(e, LaneEnv(pe, l, j), b, 0));
      assert EvalSubs(q.subs, LaneEnv(pe, l, i), a)[n] != EvalSubs(q.subs, LaneEnv(pe, l, j), b)[n];
      ReadsArgs(q.value, LaneEnv(pe, l, j), b, 0);
    }
  }

  /** A group is the iterations that it stands for. */
  lemma {:induction false} GroupRight(p: Stmt, l: LoopId, end: nat, vf: nat, env: Env, k: nat, st: State)
    requires Simple(p, l, end, vf) && StepIn(p, l, env) == 1
    ensures Vectors(p, l, vf, env)(k, st) == Iter(Nth([p], l, k * vf, 1, env), vf, st)
  {
    hide StandIn, VecStore, Exec, ExecS, EvalSubs, MayVectorizeExpr, MayVectorizeAccess, VecValue, AffineStore, StepIn;
    SimpleParts(p, l, end, vf);
    var base := k * vf;
    var q, pe := StandIn(p, l, env), env.At(l, base);
    StandInStorable(p, l, env);
    StandInApart(p, l, vf, env, base);
    VectorRun(q, l, vf, pe, st);
    ExecOne(VecStore(q, l, vf), pe, st);
    VectorsStep(p, l, vf, env, k, st);
    StandInVector(p, l, vf, env, base, st);
    forall j: nat, x: State | j < vf
      ensures Nth([q], l, base, 1, pe)(j, x) == Nth([p], l, base, 1, env)(j, x)
    {
      var e := env.At(l, base + j);
      assert base + j * 1 == base + j && pe.At(l, base + j) == e;
      ExecOne(q, e, x);
      ExecOne(p, e, x);
      StandInScalar(p, l, env, base + j, x);
    }
    IterCong(Nth([q], l, base, 1, pe), Nth([p], l, base, 1, env), vf, st);
  }

  lemma {:induction false} StandInScalar(p: Stmt, l: LoopId, env: Env, i: int, st: State)
    requires AffineStore(p, l) && StepIn(p, l, env) == 1
    ensures ExecS(StandIn(p, l, env), env.At(l, i), st) == ExecS(p, env.At(l, i), st)
  {
    StandInSubs(p, l, env, i, st);
    var q := StandIn(p, l, env);
    assert q.Store? && q.value == p.value && q.arg == p.arg && q.acc == p.acc;
  }

  lemma {:induction false} StandInVector(p: Stmt, l: LoopId, vf: nat, env: Env, i: int, st: State)
    requires AffineStore(p, l) && StepIn(p, l, env) == 1
    ensures ExecS(VecStore(StandIn(p, l, env), l, vf), env.At(l, i), st) == ExecS(VecStore(p, l, vf), env.At(l, i), st)
  {
    StandInSubs(p, l, env, i, st);
    var v, w := VecStore(StandIn(p, l, env), l, vf), VecStore(p, l, vf);
    assert v.Store? && v.value == w.value && v.arg == w.arg && v.acc == w.acc && v.subs == StandIn(p, l, env).subs;
  }

  /** With a step of one the runs are the same. */
  lemma {:induction false} RunsSame(p: Stmt, l: LoopId, end: nat, vf: nat, env: Env, st: State)
    requires Simple(p, l, end, vf) && StepIn(p, l, env) == 1 && p.Store?
    ensures var m := end / vf;
      m * vf <= end &&
      Iter(Scalars(p, l, env), end, st) ==
      Iter(Shift(Scalars(p, l, env), m * vf), end - m * vf, Iter(Vectors(p, l, vf, env), m, st))
  {
    hide StepIn, VecStore, Exec;
    SimpleParts(p, l, end, vf);
    var m := end / vf;
    CutMultiple(end, vf);
    var f, g := Scalars(p, l, env), Vectors(p, l, vf, env);
    var L := Loop(l, end, 1, [p]);
    forall k: nat, x: State | k < m
      ensures g(k, x) == Blocks(f, vf)(k, x)
    {
      GroupRight(p, l, end, vf, env, k, x);
      assert 1 * vf == vf && k * (1 * vf) == k * vf;
      GroupIsBlock(L, vf, env, k, x);
    }
    IterCong(g, Blocks(f, vf), m, st);
    IterBlocks(f, vf, m, st);
    IterSplit(f, m * vf, end - m * vf, st);
  }

  // ---- Adding zero -------------------------------------------------------------------------------

  /** The buffer may differ from st0, and nothing else. */
  ghost predicate Around(p: Stmt, st: State, st0: State)
    requires p.Store?
  {
    Alike({p.arg}, {}, st, st0)
  }

  /** What p stores in iteration q does not depend on the buffer. */
  lemma {:induction false} ValueAround(p: Stmt, l: LoopId, env: Env, q: int, st: State, st0: State)
    requires p.Store? && p.arg !in ArgsReadE(p.value) && Around(p, st, st0)
    ensures Eval(p.value, env.At(l, q), st, 0) == Eval(p.value, env.At(l, q), st0, 0)
  {
    EvalAlike(p.value, {p.arg}, {}, env.At(l, q), st, st0, 0);
  }

  /** Groups change nothing but the buffer. */
  lemma {:induction false} VectorAround(p: Stmt, l: LoopId, end: nat, vf: nat, env: Env, k: nat, st: State, st0: State)
    requires Simple(p, l, end, vf) && p.Store? && Around(p, st, st0)
    ensures Around(p, Vectors(p, l, vf, env)(k, st), st0)
  {
    hide VecStore, ExecS, VecValue, MayVectorizeExpr, MayVectorizeStore, Eval, EvalSubs, LastLane, Simple;
    SimpleParts(p, l, end, vf);
    var pe := env.At(l, k * vf);
    VectorsStep(p, l, vf, env, k, st);
    VecLook(p, l, vf, pe, st, Elem(0, []));
    forall x: Loc | !Hidden({p.arg}, {}, x) ensures Look(ExecS(VecStore(p, l, vf), pe, st), x) == Look(st0, x) {
      VecLook(p, l, vf, pe, st, x);
      assert Look(st, x) == Look(st0, x);
    }
  }

  lemma {:induction false} GroupsAround(p: Stmt, l: LoopId, end: nat, vf: nat, env: Env, k: nat, st: State)
    requires Simple(p, l, end, vf) && p.Store?
    ensures Around(p, Iter(Vectors(p, l, vf, env), k, st), st)
  {
    hide Simple, Vectors;
    if k == 0 {
      AroundItself(p, st);
    } else {
      GroupsAround(p, l, end, vf, env, k - 1, st);
      VectorAround(p, l, end, vf, env, k - 1, Iter(Vectors(p, l, vf, env), k - 1, st), st);
    }
  }

  lemma {:induction false} ScalarAround(p: Stmt, l: LoopId, env: Env, q: nat, st: State, st0: State)
    requires p.Store? && Width(p.value) == 1 && Around(p, st, st0)
    ensures Around(p, Scalars(p, l, env)(q, st), st0)
  {
    hide Eval, EvalSubs;
    ScalarsStep(p, l, env, q, st);
    StoreOne(p, env.At(l, q), st);
    forall x: Loc | !Hidden({p.arg}, {}, x) ensures Look(ExecS(p, env.At(l, q), st), x) == Look(st0, x) {
      assert Look(st, x) == Look(st0, x);
    }
  }

  /** An iteration that accumulates treats states alike that no read can tell apart. */
  lemma {:induction false} ScalarAlike(p: Stmt, l: LoopId, env: Env, q: nat, a: State, b: State)
    requires AffineStore(p, l) && MayVectorizeStore(p, l) && p.acc && Width(p.value) == 1
    requires p.arg !in ArgsReadE(p.value) && Around(p, a, b) && ReadsAlike(a, b)
    ensures ReadsAlike(Scalars(p, l, env)(q, a), Scalars(p, l, env)(q, b))
  {
    hide Eval, EvalSubs, AffineStore, MayVectorizeStore, Around;
    var e := env.At(l, q);
    assert p.Store? by { AffineIsStore(p, l); }
    ScalarsStep(p, l, env, q, a);
    ScalarsStep(p, l, env, q, b);
    StoreOne(p, e, a);
    StoreOne(p, e, b);
    SubsQuiet(p, l, e, a, b);
    ValueAround(p, l, env, q, a, b);
    var v := Eval(p.value, e, a, 0);
    forall x: Loc, elem: ElemKind
      ensures Coerce(elem, Read(ExecS(p, e, a), x)) == Coerce(elem, Read(ExecS(p, e, b), x))
    {
      AddAlike(env.m, Read(a, x), Read(b, x), v);
      assert Coerce(elem, Read(a, x)) == Coerce(elem, Read(b, x));
    }
  }

  lemma {:induction false} AffineIsStore(p: Stmt, l: LoopId)
    requires AffineStore(p, l)
    ensures p.Store?
  {}

  lemma {:induction false} AddAlike(m: Machine, a: Num, b: Num, v: Num)
    ensures (forall elem: ElemKind :: Coerce(elem, a) == Coerce(elem, b)) ==>
      NewValue(m, true, a, v) == NewValue(m, true, b, v)
  {
    if forall elem: ElemKind :: Coerce(elem, a) == Coerce(elem, b) {
      assert Coerce(Float32Ty, a) == Coerce(Float32Ty, b) && Coerce(IndexTy, a) == Coerce(IndexTy, b);
    }
  }

  lemma {:induction false} ScalarZero(p: Stmt, l: LoopId, env: Env, q: nat, st: State)
    requires p.Store? && p.acc && Width(p.value) == 1 && Eval(p.value, env.At(l, q), st, 0) == F(0.0)
    ensures ReadsAlike(Scalars(p, l, env)(q, st), st)
  {
    hide Coerce, Eval, EvalSubs;
    var e := env.At(l, q);
    ScalarsStep(p, l, env, q, st);
    StoreOne(p, e, st);
    forall x: Loc, elem: ElemKind ensures Coerce(elem, Read(ExecS(p, e, st), x)) == Coerce(elem, Read(st, x)) {
      AddZero(env.m, Read(st, x), elem);
    }
  }

  /** The iterations of a group leave what the first one leaves. */
  lemma {:induction false} GroupFirst(p: Stmt, l: LoopId, vf: nat, n: nat, env: Env, base: nat, k: nat, st: State)
    requires p.Store? && p.acc && Width(p.value) == 1 && vf > 0 && AddsFirst(p, l, vf, n, env)
    requires base % vf == 0 && 1 <= k <= vf && base + vf <= n
    ensures ReadsAlike(Iter(Shift(Scalars(p, l, env), base), k, st), Scalars(p, l, env)(base, st))
  {
    hide ReadsAlike, Scalars, Eval;
    var f := Scalars(p, l, env);
    var st' := Iter(Shift(f, base), k - 1, st);
    if k == 1 {
      AlikeItself(f(base, st));
    } else {
      GroupFirst(p, l, vf, n, env, base, k - 1, st);
      var q := base + (k - 1);
      NotFirst(base, vf, k - 1);
      ScalarZero(p, l, env, q, st');
      AlikeThrough(f(q, st'), st', f(base, st));
    }
  }

  lemma {:induction false} NotFirst(base: nat, vf: nat, j: nat)
    requires vf > 0 && base % vf == 0 && j < vf
    ensures (base + j) % vf == j
  {
    var r := base / vf;
    assert base == vf * r && vf * r == r * vf;
    DivUnique(base + j, vf, r, j);
  }

  lemma {:induction false} AlikeThrough(a: State, b: State, c: State)
    requires ReadsAlike(a, b) && ReadsAlike(b, c)
    ensures ReadsAlike(a, c) && ReadsAlike(c, a)
  {}

  /** The vector store leaves what its first lane leaves. */
  lemma {:induction false} VectorFirst(p: Stmt, l: LoopId, end: nat, vf: nat, n: nat, env: Env, k: nat, st: State)
    requires Simple(p, l, end, vf) && p.Store? && p.acc && AddsFirst(p, l, vf, n, env) && k * vf + vf <= n
    ensures ReadsAlike(Vectors(p, l, vf, env)(k, st), Scalars(p, l, env)(k * vf, st))
  {
    hide Simple, Eval, VecStore, EvalSubs, MayVectorizeStore, MayVectorizeExpr, VecValue;
    SimpleParts(p, l, end, vf);
    var base := k * vf;
    var pe := env.At(l, base);
    VectorsStep(p, l, vf, env, k, st);
    ScalarsStep(p, l, env, base, st);
    forall j: nat | 1 <= j < vf ensures Eval(p.value, LaneEnv(pe, l, j), st, 0) == F(0.0) {
      MulDiv(k, vf);
      NotFirst(base, vf, j);
      assert LaneEnv(pe, l, j) == env.At(l, base + j);
    }
    assert LaneEnv(pe, l, 0) == pe;
    NotEmpty(p.subs, pe, st);
    FirstLaneOnly(p, l, vf, pe, st);
  }

  lemma {:induction false} NotEmpty(subs: seq<Expr>, env: Env, st: State)
    requires |subs| > 0
    ensures EvalSubs(subs, env, st) != []
  {}

  /** From states that no read can tell apart, a group leaves such states. */
  lemma {:induction false} GroupsAlikeRun(p: Stmt, l: LoopId, end: nat, vf: nat, n: nat, env: Env, k: nat, st: State)
    requires Simple(p, l, end, vf) && p.Store? && p.acc && AddsFirst(p, l, vf, n, env) && k * vf <= n
    ensures var a, b := Iter(Vectors(p, l, vf, env), k, st), Iter(Scalars(p, l, env), k * vf, st);
      ReadsAlike(a, b) && Around(p, a, st) && Around(p, b, st)
  {
    hide Simple, ReadsAlike, Around, Scalars, Vectors, AddsFirst;
    var f, g := Scalars(p, l, env), Vectors(p, l, vf, env);
    SimpleParts(p, l, end, vf);
    if k == 0 {
      AlikeItself(st);
      AroundItself(p, st);
    } else {
      var base := (k - 1) * vf;
      assert k * vf == base + vf;
      GroupsAlikeRun(p, l, end, vf, n, env, k - 1, st);
      var a, b := Iter(g, k - 1, st), Iter(f, base, st);
      AroundBoth(p, a, b, st);
      GroupsAround(p, l, end, vf, env, k, st);
      ScalarsAround(p, l, env, k * vf, st);
      IterSplit(f, base, vf, st);
      MulDiv(k - 1, vf);
      GroupFirst(p, l, vf, n, env, base, vf, b);
      VectorFirst(p, l, end, vf, n, env, k - 1, a);
      SimpleAffine(p, l, end, vf);
      SimpleReads(p, l, end, vf);
      ScalarAlike(p, l, env, base, a, b);
      AlikeThrough(g(k - 1, a), f(base, a), f(base, b));
      var b' := Iter(Shift(f, base), vf, b);
      AlikeThrough(b', f(base, b), g(k - 1, a));
    }
  }

  lemma {:induction false} AroundItself(p: Stmt, st: State)
    requires p.Store?
    ensures Around(p, st, st)
  {}

  lemma {:induction false} AroundBoth(p: Stmt, a: State, b: State, st: State)
    requires p.Store? && Around(p, a, st) && Around(p, b, st)
    ensures Around(p, a, b)
  {
    AlikeTrans({p.arg}, {}, b, st, st);
    AlikeTrans({p.arg}, {}, a, st, b);
  }

  lemma {:induction false} ScalarsAround(p: Stmt, l: LoopId, env: Env, n: nat, st: State)
    requires p.Store? && Width(p.value) == 1
    ensures Around(p, Iter(Scalars(p, l, env), n, st), st)
  {
    if n == 0 {
      AroundItself(p, st);
    } else {
      ScalarsAround(p, l, env, n - 1, st);
      ScalarAround(p, l, env, n - 1, Iter(Scalars(p, l, env), n - 1, st), st);
    }
  }

  lemma {:induction false} TailAlike(p: Stmt, l: LoopId, env: Env, from: nat, n: nat, a: State, b: State)
    requires AffineStore(p, l) && MayVectorizeStore(p, l) && p.acc && Width(p.value) == 1
    requires p.arg !in ArgsReadE(p.value) && Around(p, a, b) && ReadsAlike(a, b)
    ensures var f := Shift(Scalars(p, l, env), from);
      ReadsAlike(Iter(f, n, a), Iter(f, n, b)) && Around(p, Iter(f, n, a), Iter(f, n, b))
  {
    hide AffineStore, MayVectorizeStore, ReadsAlike, Around, Scalars;
    assert p.Store? by { AffineIsStore(p, l); }
    if n > 0 {
      TailAlike(p, l, env, from, n - 1, a, b);
      var f := Shift(Scalars(p, l, env), from);
      var a', b' := Iter(f, n - 1, a), Iter(f, n - 1, b);
      ScalarAlike(p, l, env, from + (n - 1), a', b');
      AroundItself(p, a');
      AroundItself(p, b');
      ScalarAround(p, l, env, from + (n - 1), a', a');
      ScalarAround(p, l, env, from + (n - 1), b', b');
      AroundChain(p, f(n - 1, a'), a', b', f(n - 1, b'));
    }
  }

  lemma {:induction false} AroundChain(p: Stmt, a: State, b: State, c: State, d: State)
    requires p.Store? && Around(p, a, b) && Around(p, b, c) && Around(p, d, c)
    ensures Around(p, a, d)
  {}

  /** Where only the first lanes add something, no read can tell the runs apart. */
  lemma {:induction false} RunsAlike(p: Stmt, l: LoopId, end: nat, vf: nat, env: Env, st: State)
    requires Simple(p, l, end, vf) && p.Store? && p.acc && AddsFirst(p, l, vf, end / vf * vf, env)
    ensures var m := end / vf;
      m * vf <= end &&
      ReadsAlike(Iter(Scalars(p, l, env), end, st),
                 Iter(Shift(Scalars(p, l, env), m * vf), end - m * vf, Iter(Vectors(p, l, vf, env), m, st)))
  {
    hide Simple, ReadsAlike, Around, Scalars, Vectors, AddsFirst;
    SimpleParts(p, l, end, vf);
    SimpleAffine(p, l, end, vf);
    SimpleReads(p, l, end, vf);
    var m := end / vf;
    CutMultiple(end, vf);
    var f, g := Scalars(p, l, env), Vectors(p, l, vf, env);
    GroupsAlikeRun(p, l, end, vf, m * vf, env, m, st);
    var a, b := Iter(g, m, st), Iter(f, m * vf, st);
    AroundBoth(p, b, a, st);
    AlikeItself(b);
    AlikeThrough(a, b, b);
    TailAlike(p, l, env, m * vf, end - m * vf, b, a);
    IterSplit(f, m * vf, end - m * vf, st);
  }

  // ---- Where it is wrong -------------------------------------------------------------------------

  /** Iterations of the scalar loop leave the neighbour alone. */
  lemma {:induction false} MissedAlways(p: Stmt, l: LoopId, env: Env, from: nat, n: nat, st: State)
    requires p.Store? && AffineStore(p, l) && Width(p.value) == 1 && StepIn(p, l, env) != 1
    ensures Look(Iter(Shift(Scalars(p, l, env), from), n, st), Neighbour(p, l, env)) == Look(st, Neighbour(p, l, env))
  {
    hide AffineStore, StepIn, WriteLoc, Neighbour, ExecS;
    if n > 0 {
      MissedAlways(p, l, env, from, n - 1, st);
      var st' := Iter(Shift(Scalars(p, l, env), from), n - 1, st);
      var k := from + (n - 1);
      ScalarsStep(p, l, env, k, st');
      MissedOnce(p, l, env, k, st');
      StoreOne(p, env.At(l, k), st');
    }
  }

  /** What group k leaves at the neighbour: the value of lane j, for some j, or what was there.
      In the first group a lane does go there. */
  lemma {:induction false} GroupLook(p: Stmt, l: LoopId, end: nat, vf: nat, env: Env, k: nat, st: State)
    requires Simple(p, l, end, vf) && p.Store?
    ensures var x, h := Neighbour(p, l, env), HitBy(p, l, vf, env, k);
      Look(Vectors(p, l, vf, env)(k, st), x) ==
      if h.None? then Look(st, x)
      else Some(NewValue(env.m, p.acc, Read(st, x), Eval(p.value, env.At(l, k * vf + h.value), st, 0)))
    ensures k == 0 ==> HitBy(p, l, vf, env, k).Some?
  {
    hide VecStore, ExecS, VecValue, MayVectorizeExpr, Eval, EvalSubs;
    SimpleParts(p, l, end, vf);
    var pe, none := env.At(l, k * vf), State(map[], []);
    VectorsStep(p, l, vf, env, k, st);
    SubsQuiet(p, l, pe, st, none);
    VecLook(p, l, vf, pe, st, Neighbour(p, l, env));
    var h := HitBy(p, l, vf, env, k);
    if h.Some? { assert LaneEnv(pe, l, h.value) == env.At(l, k * vf + h.value); }
    if k == 0 {
      assert k * vf == 0;
      NotEmpty(p.subs, pe, none);
      LaneFound(p.arg, EvalSubs(p.subs, pe, none), vf, 1);
    }
  }

  /** The lane of group k that goes to the neighbour. */
  function HitBy(p: Stmt, l: LoopId, vf: nat, env: Env, k: nat): Option<nat>
    requires p.Store?
  {
    LastLane(p.arg, EvalSubs(p.subs, env.At(l, k * vf), State(map[], [])), vf, Neighbour(p, l, env))
  }

  /** Without accumulation it does not depend on what the buffer held. */
  lemma {:induction false} HitsSame(p: Stmt, l: LoopId, end: nat, vf: nat, env: Env, k: nat, a: State, b: State)
    requires Simple(p, l, end, vf) && p.Store? && !p.acc && Alike({p.arg}, {}, a, b) && k > 0
    ensures var x := Neighbour(p, l, env);
      Look(Iter(Vectors(p, l, vf, env), k, a), x) == Look(Iter(Vectors(p, l, vf, env), k, b), x) != None
  {
    hide Neighbour, HitBy, Simple, Vectors, Eval;
    var g := Vectors(p, l, vf, env);
    var a', b' := Iter(g, k - 1, a), Iter(g, k - 1, b);
    GroupLook(p, l, end, vf, env, k - 1, a');
    GroupLook(p, l, end, vf, env, k - 1, b');
    GroupsAround(p, l, end, vf, env, k - 1, a);
    GroupsAround(p, l, end, vf, env, k - 1, b);
    AlikeTrans({p.arg}, {}, a', a, b);
    AlikeTrans({p.arg}, {}, b', b, a');
    var h := HitBy(p, l, vf, env, k - 1);
    if h.Some? {
      assert p.arg !in ArgsReadE(p.value) by { SimpleReads(p, l, end, vf); }
      EvalAlike(p.value, {p.arg}, {}, env.At(l, (k - 1) * vf + h.value), b', a', 0);
    } else {
      HitsSame(p, l, end, vf, env, k - 1, a, b);
    }
  }

  lemma {:induction false} SimpleReads(p: Stmt, l: LoopId, end: nat, vf: nat)
    requires Simple(p, l, end, vf)
    ensures p.Store? && p.arg !in ArgsReadE(p.value)
  {}

  /** One half and what it becomes by adding v to it. */
  predicate Drifted(v: Num, x: Num)
  {
    if v.F? then x.F? && (v.f > 0.0 ==> x.f > 0.5) && (v.f < 0.0 ==> x.f < 0.5) else x.I?
  }

  lemma {:induction false} DriftsOn(m: Machine, v: Num, x: Num)
    requires x == F(0.5) || Drifted(v, x)
    ensures Drifted(v, NewValue(m, true, x, v))
  {}

  /** With accumulation it is one half no more. */
  lemma {:induction false} HitsDrift(p: Stmt, l: LoopId, end: nat, vf: nat, env: Env, k: nat, st: State)
    requires Simple(p, l, end, vf) && p.Store? && p.acc && !Mentions(p.value, l) && k > 0
    requires Look(st, Neighbour(p, l, env)) == Some(F(0.5))
    ensures Drifted(Eval(p.value, env, st, 0), Read(Iter(Vectors(p, l, vf, env), k, st), Neighbour(p, l, env)))
  {
    hide Neighbour, HitBy, Simple, Vectors, Eval, Drifted;
    var g := Vectors(p, l, vf, env);
    var st' := Iter(g, k - 1, st);
    var h := HitBy(p, l, vf, env, k - 1);
    if k > 1 { HitsDrift(p, l, end, vf, env, k - 1, st); }
    GroupLook(p, l, end, vf, env, k - 1, st');
    GroupsAround(p, l, end, vf, env, k - 1, st);
    SimpleReads(p, l, end, vf);
    if h.Some? {
      ValueAround(p, l, env, (k - 1) * vf + h.value, st', st);
      EvalAgree(p.value, env.At(l, (k - 1) * vf + h.value), env, st, 0);
      DriftsOn(env.m, Eval(p.value, env, st, 0), Read(st', Neighbour(p, l, env)));
    }
  }

  lemma {:induction false} DriftShows(v: Num, x: Num)
    requires v != F(0.0) && Drifted(v, x)
    ensures Coerce(Float32Ty, x) != F(0.5)
  {}

  /** The groups change what is read at the neighbour. */
  lemma {:induction false} GroupsShow(p: Stmt, l: LoopId, end: nat, vf: nat, env: Env, m: nat) returns (st: State)
    requires Simple(p, l, end, vf) && p.Store? && !RightIn(p, l, end, vf, env) && m > 0
    requires p.acc ==> !Mentions(p.value, l)
    ensures var x := Neighbour(p, l, env);
      Coerce(Float32Ty, Read(Iter(Vectors(p, l, vf, env), m, st), x)) != Coerce(Float32Ty, Read(st, x))
  {
    hide Simple, StepIn, Neighbour, Vectors, Eval;
    var g := Vectors(p, l, vf, env);
    var x := Neighbour(p, l, env);
    NeighbourElem(p, l, env);
    if p.acc {
      var st0: State, q: nat :| q < end / vf * vf && q % vf != 0 && Eval(p.value, env.At(l, q), st0, 0) != F(0.0);
      EvalAgree(p.value, env.At(l, q), env, st0, 0);
      st := st0.(mem := st0.mem[x := F(0.5)]);
      SimpleReads(p, l, end, vf);
      EvalAlike(p.value, {p.arg}, {}, env, st0, st, 0);
      HitsDrift(p, l, end, vf, env, m, st);
      DriftShows(Eval(p.value, env, st, 0), Read(Iter(g, m, st), x));
    } else {
      var none := State(map[], []);
      var w := Coerce(Float32Ty, Read(Iter(g, m, none), x)).f;
      st := State(map[x := F(w + 1.0)], []);
      HitsSame(p, l, end, vf, env, m, none, st);
      assert Read(Iter(g, m, st), x) == Read(Iter(g, m, none), x);
    }
  }

  lemma {:induction false} NeighbourElem(p: Stmt, l: LoopId, env: Env)
    requires p.Store?
    ensures Neighbour(p, l, env).Elem? && Neighbour(p, l, env).arg == p.arg
  {}

  // ---- Accumulating what depends on the index --------------------------------------------------

  /** The float one half, at the type of the buffer. */
  predicate Half(n: Num) { Coerce(Float32Ty, n) == F(0.5) }

  lemma {:induction false} HalfAdd(m: Machine, old_: Num, v: Num)
    ensures v == F(0.0) ==> (Half(NewValue(m, true, old_, v)) <==> Half(old_))
    ensures v != F(0.0) && Half(old_) ==> !Half(NewValue(m, true, old_, v))
  {}

  /** What iteration q adds. */
  function Added(p: Stmt, l: LoopId, env: Env, st0: State, q: nat): Num
    requires p.Store?
  {
    Eval(p.value, env.At(l, q), st0, 0)
  }

  /** What lane j of group k adds. */
  function LaneAdds(p: Stmt, l: LoopId, vf: nat, env: Env, st0: State, k: nat, j: nat): Num
    requires p.Store?
  {
    Added(p, l, env, st0, k * vf + j)
  }

  /** Iteration q stores c * q places after iteration 0. */
  lemma {:induction false} PlaceOf(p: Stmt, l: LoopId, env: Env, q: nat, j: int, st: State)
    requires AffineStore(p, l) && MayVectorizeStore(p, l)
    ensures Elem(p.arg, Bump(EvalSubs(p.subs, env.At(l, q), st), j)) == Place(p, l, env, StepIn(p, l, env) * q + j)
  {
    hide Polynomials.Coefficient, Polynomials.Without, Polynomials.PolyOf, Eval, AccessKind;
    var n := |p.subs| - 1;
    var e := p.subs[n];
    var none := State(map[], []);
    Polynomials.PolyNormal(e);
    Polynomials.PolyValue(e, env.At(l, q), st);
    Polynomials.PolyValue(e, env.At(l, 0), none);
    Polynomials.AffineValue(LastPoly(p), l, env, q);
    Polynomials.AffineValue(LastPoly(p), l, env, 0);
    var a, b := EvalSubs(p.subs, env.At(l, q), st), EvalSubs(p.subs, env.At(l, 0), none);
    forall d | 0 <= d < n ensures a[d] == b[d] {
      UniformFree(p.subs[d], l);
      assert p.subs[d] in p.subs;
      EvalAgree(p.subs[d], env.At(l, q), env.At(l, 0), st, 0);
      AcceptedValue(p.subs[d], l, env.At(l, 0), st, none);
    }
    assert a[n] == b[n] + q * StepIn(p, l, env);
    assert q * StepIn(p, l, env) == StepIn(p, l, env) * q;
    assert Bump(a, j) == Bump(b, StepIn(p, l, env) * q + j);
  }

  lemma {:induction false} PlacesDiffer(p: Stmt, l: LoopId, env: Env, d: int, d': int)
    requires p.Store? && |p.subs| > 0
    ensures Place(p, l, env, d) == Place(p, l, env, d') <==> d == d'
  {
    var idx := EvalSubs(p.subs, env.At(l, 0), State(map[], []));
    assert Bump(idx, d)[|idx| - 1] == idx[|idx| - 1] + d && Bump(idx, d')[|idx| - 1] == idx[|idx| - 1] + d';
  }

  /** What iteration q of the scalar loop does to the element d places on. */
  lemma {:induction false} ScalarHalf(p: Stmt, l: LoopId, end: nat, vf: nat, env: Env, q: nat, st: State, st0: State,
                                      d: int)
    requires Simple(p, l, end, vf) && p.Store? && p.acc && Around(p, st, st0)
    ensures var x, y := Read(st, Place(p, l, env, d)), Read(Scalars(p, l, env)(q, st), Place(p, l, env, d));
      var hit, v := StepIn(p, l, env) * q == d, Added(p, l, env, st0, q);
      (!hit || v == F(0.0) ==> (Half(y) <==> Half(x))) && (hit && v != F(0.0) && Half(x) ==> !Half(y))
  {
    hide Simple, Eval, EvalSubs, Half, StepIn, Place, Around, MayVectorizeStore, AffineStore;
    SimpleParts(p, l, end, vf);
    SimpleAffine(p, l, end, vf);
    SimpleReads(p, l, end, vf);
    var e := env.At(l, q);
    ScalarsStep(p, l, env, q, st);
    StoreOne(p, e, st);
    ValueAround(p, l, env, q, st, st0);
    PlaceOf(p, l, env, q, 0, st);
    BumpNone(EvalSubs(p.subs, e, st));
    PlacesDiffer(p, l, env, d, StepIn(p, l, env) * q);
    HalfAdd(env.m, Read(st, Place(p, l, env, d)), Added(p, l, env, st0, q));
  }

  /** What group k of the vector loop does to it: lane j goes there if j is one of its lanes. */
  lemma {:induction false} VectorHalf(p: Stmt, l: LoopId, end: nat, vf: nat, env: Env, k: nat, st: State, st0: State,
                                      d: int)
    requires Simple(p, l, end, vf) && p.Store? && p.acc && Around(p, st, st0)
    ensures var x, y := Read(st, Place(p, l, env, d)), Read(Vectors(p, l, vf, env)(k, st), Place(p, l, env, d));
      var j := d - StepIn(p, l, env) * (k * vf);
      if 0 <= j < vf then
        var v := LaneAdds(p, l, vf, env, st0, k, j);
        (v == F(0.0) ==> (Half(y) <==> Half(x))) && (v != F(0.0) && Half(x) ==> !Half(y))
      else Half(y) <==> Half(x)
  {
    hide Simple, Eval, EvalSubs, Half, StepIn, Place, Around, MayVectorizeStore, MayVectorizeExpr, AffineStore,
      VecStore, VecValue;
    SimpleParts(p, l, end, vf);
    SimpleAffine(p, l, end, vf);
    SimpleReads(p, l, end, vf);
    var base := k * vf;
    var pe := env.At(l, base);
    var idx, x := EvalSubs(p.subs, pe, st), Place(p, l, env, d);
    var j := d - StepIn(p, l, env) * base;
    VectorsStep(p, l, vf, env, k, st);
    VecLook(p, l, vf, pe, st, x);
    NotEmpty(p.subs, pe, st);
    PlaceOf(p, l, env, base, j, st);
    var h := LastLane(p.arg, idx, vf, x);
    if h.Some? {
      LaneAt(p.arg, idx, vf, x);
      PlaceOf(p, l, env, base, h.value, st);
      PlacesDiffer(p, l, env, d, StepIn(p, l, env) * base + h.value);
      assert j == h.value && LaneEnv(pe, l, h.value) == env.At(l, base + h.value);
      ValueAround(p, l, env, base + h.value, st, st0);
      HalfAdd(env.m, Read(st, x), Added(p, l, env, st0, base + h.value));
    } else if 0 <= j < vf {
      LaneFound(p.arg, idx, vf, j);
      assert false;
    }
  }

  /** Steps that leave x half or not half, except for one, if any, that changes a half. */
  ghost predicate Tracks(f: (nat, State) -> State, n: nat, p: Stmt, st0: State, x: Loc, hit: int)
    requires p.Store?
  {
    forall k: nat, st: State | k < n && Around(p, st, st0) ::
      Around(p, f(k, st), st0) &&
      if k == hit then Half(Read(st, x)) ==> !Half(Read(f(k, st), x)) else Half(Read(f(k, st), x)) <==>
        Half(Read(st, x))
  }

  lemma {:induction false} TrackIter(f: (nat, State) -> State, n: nat, p: Stmt, st0: State, x: Loc, hit: int, st: State)
    requires p.Store? && Tracks(f, n, p, st0, x, hit) && Around(p, st, st0)
    requires 0 <= hit < n ==> Half(Read(st, x))
    ensures Around(p, Iter(f, n, st), st0)
    ensures Half(Read(Iter(f, n, st), x)) <==> Half(Read(st, x)) && !(0 <= hit < n)
  {
    hide Half, Around;
    if n > 0 {
      assert Tracks(f, n - 1, p, st0, x, hit);
      TrackIter(f, n - 1, p, st0, x, hit, st);
    }
  }

  /** d places on, only iteration `at` adds something, if any does. */
  ghost predicate ScalarOnce(p: Stmt, l: LoopId, env: Env, st0: State, from: nat, n: nat, d: int, at: int)
    requires AffineStore(p, l)
  {
    forall q: nat | from <= q < from + n ::
      if q == at then StepIn(p, l, env) * q == d && Added(p, l, env, st0, q) != F(0.0)
      else StepIn(p, l, env) * q == d ==> Added(p, l, env, st0, q) == F(0.0)
  }

  lemma {:induction false} ScalarOnceAt(p: Stmt, l: LoopId, env: Env, st0: State, from: nat, n: nat, d: int, at: int,
                                        q: nat)
    requires AffineStore(p, l) && ScalarOnce(p, l, env, st0, from, n, d, at) && from <= q < from + n
    ensures if q == at then StepIn(p, l, env) * q == d && Added(p, l, env, st0, q) != F(0.0)
      else StepIn(p, l, env) * q == d ==> Added(p, l, env, st0, q) == F(0.0)
  {}

  lemma {:induction false} ScalarTracks(p: Stmt, l: LoopId, end: nat, vf: nat, env: Env, st0: State, from: nat, n: nat,
                                        d: int, at: int)
    requires Simple(p, l, end, vf) && p.Store? && p.acc && ScalarOnce(p, l, env, st0, from, n, d, at)
    ensures Tracks(Shift(Scalars(p, l, env), from), n, p, st0, Place(p, l, env, d), at - from)
  {
    hide Simple, Half, Place, Around, Scalars, Added, StepIn;
    SimpleParts(p, l, end, vf);
    forall k: nat, st: State | k < n && Around(p, st, st0)
      ensures var f, x := Shift(Scalars(p, l, env), from), Place(p, l, env, d);
        Around(p, f(k, st), st0) &&
        if k == at - from then Half(Read(st, x)) ==> !Half(Read(f(k, st), x))
        else Half(Read(f(k, st), x)) <==> Half(Read(st, x))
    {
      var q := from + k;
      SimpleAffine(p, l, end, vf);
      ScalarOnceAt(p, l, env, st0, from, n, d, at, q);
      ScalarHalf(p, l, end, vf, env, q, st, st0, d);
      ScalarAround(p, l, env, q, st, st0);
      assert Shift(Scalars(p, l, env), from)(k, st) == Scalars(p, l, env)(q, st);
    }
  }

  /** d places on, only lane j of group `at` adds something, if any does. */
  ghost predicate VectorOnce(p: Stmt, l: LoopId, vf: nat, env: Env, st0: State, m: nat, d: int, at: int)
    requires AffineStore(p, l)
  {
    forall k: nat | k < m ::
      var j := d - StepIn(p, l, env) * (k * vf);
      if k == at then 0 <= j < vf && LaneAdds(p, l, vf, env, st0, k, j) != F(0.0)
      else 0 <= j < vf ==> LaneAdds(p, l, vf, env, st0, k, j) == F(0.0)
  }

  lemma {:induction false} VectorTracks(p: Stmt, l: LoopId, end: nat, vf: nat, env: Env, st0: State, m: nat, d: int,
                                        at: int)
    requires Simple(p, l, end, vf) && p.Store? && p.acc && VectorOnce(p, l, vf, env, st0, m, d, at)
    ensures Tracks(Vectors(p, l, vf, env), m, p, st0, Place(p, l, env, d), at)
  {
    hide Simple, Half, Place, Around, Vectors, Added, StepIn;
    SimpleParts(p, l, end, vf);
    forall k: nat, st: State | k < m && Around(p, st, st0)
      ensures var g, x := Vectors(p, l, vf, env), Place(p, l, env, d);
        Around(p, g(k, st), st0) &&
        if k == at then Half(Read(st, x)) ==> !Half(Read(g(k, st), x)) else Half(Read(g(k, st), x)) <==>
          Half(Read(st, x))
    {
      VectorHalf(p, l, end, vf, env, k, st, st0, d);
      VectorAround(p, l, end, vf, env, k, st, st0);
    }
  }

  /** If only one of the runs changes a half d places on, it can be read there. */
  lemma {:induction false} OnceShows(p: Stmt, l: LoopId, end: nat, vf: nat, env: Env, st0: State, d: int, at: int,
                                     at': int)
    returns (st: State)
    requires Simple(p, l, end, vf) && p.Store? && p.acc && AffineStore(p, l) && vf > 0
    requires ScalarOnce(p, l, env, st0, 0, end, d, at) && VectorOnce(p, l, vf, env, st0, end / vf, d, at')
    requires (0 <= at < end && at' < 0) || (at < 0 && 0 <= at' < end / vf)
    requires end / vf * vf <= end && !(end / vf * vf <= at < end)
    ensures var m := end / vf;
      !ReadsAlike(Iter(Scalars(p, l, env), end, st),
                  Iter(Shift(Scalars(p, l, env), m * vf), end - m * vf, Iter(Vectors(p, l, vf, env), m, st)))
  {
    hide Simple, Place, Around, Scalars, Vectors, Added, StepIn;
    var f, g, m := Scalars(p, l, env), Vectors(p, l, vf, env), end / vf;
    var x := Place(p, l, env, d);
    st := st0.(mem := st0.mem[x := F(0.5)]);
    StartsAround(p, l, env, st0, d);
    assert Half(Read(st, x));
    ScalarTracks(p, l, end, vf, env, st0, 0, end, d, at);
    TrackIter(Shift(f, 0), end, p, st0, x, at - 0, st);
    IterCong(Shift(f, 0), f, end, st);
    VectorTracks(p, l, end, vf, env, st0, m, d, at');
    TrackIter(g, m, p, st0, x, at', st);
    var mid := Iter(g, m, st);
    assert ScalarOnce(p, l, env, st0, m * vf, end - m * vf, d, at);
    ScalarTracks(p, l, end, vf, env, st0, m * vf, end - m * vf, d, at);
    TrackIter(Shift(f, m * vf), end - m * vf, p, st0, x, at - m * vf, mid);
    HalfShows(Iter(f, end, st), Iter(Shift(f, m * vf), end - m * vf, mid), x);
  }

  lemma {:induction false} StartsAround(p: Stmt, l: LoopId, env: Env, st0: State, d: int)
    requires p.Store?
    ensures var st := st0.(mem := st0.mem[Place(p, l, env, d) := F(0.5)]); Around(p, st, st0)
  {}

  lemma {:induction false} HalfShows(a: State, b: State, x: Loc)
    requires Half(Read(a, x)) != Half(Read(b, x))
    ensures !ReadsAlike(a, b)
  {}

  /** Some lane of group k, the first not counted, adds something. */
  ghost predicate Adds(p: Stmt, l: LoopId, vf: nat, env: Env, st0: State, k: nat)
    requires p.Store?
  {
    exists j: nat :: 1 <= j < vf && LaneAdds(p, l, vf, env, st0, k, j) != F(0.0)
  }

  lemma {:induction false} FirstGroup(p: Stmt, l: LoopId, vf: nat, env: Env, st0: State, k0: nat) returns (k: nat)
    requires p.Store? && Adds(p, l, vf, env, st0, k0)
    ensures k <= k0 && Adds(p, l, vf, env, st0, k) && forall i: nat | i < k :: !Adds(p, l, vf, env, st0, i)
  {
    k := 0;
    while !Adds(p, l, vf, env, st0, k)
      invariant k <= k0 && forall i: nat | i < k :: !Adds(p, l, vf, env, st0, i)
      decreases k0 - k
    {
      k := k + 1;
    }
  }

  lemma {:induction false} LastLaneOf(p: Stmt, l: LoopId, vf: nat, env: Env, st0: State, k: nat) returns (j: nat)
    requires p.Store? && Adds(p, l, vf, env, st0, k)
    ensures 1 <= j < vf && LaneAdds(p, l, vf, env, st0, k, j) != F(0.0)
    ensures forall i: nat | j < i < vf :: LaneAdds(p, l, vf, env, st0, k, i) == F(0.0)
  {
    hide LaneAdds;
    j := vf - 1;
    while LaneAdds(p, l, vf, env, st0, k, j) == F(0.0)
      invariant 0 <= j < vf && forall i: nat | j < i < vf :: LaneAdds(p, l, vf, env, st0, k, i) == F(0.0)
      invariant j >= 1
      decreases j
    {
      j := j - 1;
    }
  }

  /** Counting down, the lane of the first such group comes to an element that nothing else changes. */
  lemma {:induction false} BackwardOnce(p: Stmt, l: LoopId, end: nat, vf: nat, env: Env, st0: State, k: nat, j: nat)
    requires AffineStore(p, l) && StepIn(p, l, env) < 0 && vf > 1 && k < end / vf
    requires 1 <= j < vf && LaneAdds(p, l, vf, env, st0, k, j) != F(0.0)
    requires forall i: nat | i < k :: !Adds(p, l, vf, env, st0, i)
    ensures var d := StepIn(p, l, env) * (k * vf) + j;
      ScalarOnce(p, l, env, st0, 0, end, d, -1) && VectorOnce(p, l, vf, env, st0, end / vf, d, k)
  {
    hide Eval, StepIn;
    var c := StepIn(p, l, env);
    var d := c * (k * vf) + j;
    forall q: nat | c * q == d ensures Added(p, l, env, st0, q) == F(0.0) {
      ScalarBack(c, vf, k, j, q);
      assert q / vf < k && q == (q / vf) * vf + q % vf;
      assert !Adds(p, l, vf, env, st0, q / vf);
      assert LaneAdds(p, l, vf, env, st0, q / vf, q % vf) == Added(p, l, env, st0, q);
    }
    forall i: nat | i < end / vf && 0 <= d - c * (i * vf) < vf ensures i == k {
      LaneBack(c, vf, k, j, i, d - c * (i * vf));
    }
  }

  lemma {:induction false} ScalarBack(c: int, vf: nat, k: nat, j: nat, q: nat)
    requires c < 0 && vf > 1 && 1 <= j < vf && c * q == c * (k * vf) + j
    ensures q % vf != 0 && q / vf < k && q == (q / vf) * vf + q % vf
  {
    var r, i := q / vf, q % vf;
    assert q == vf * r + i && vf * r == r * vf;
    if q >= k * vf { MulNonneg(-c, q - k * vf); Spread(-c, q, k * vf); }
    if r >= k { MulGap(k, r, vf); }
    if i == 0 {
      assert c * (r * vf) == (c * r) * vf && c * (k * vf) == (c * k) * vf;
      MulGap(c * r, c * k, vf);
      MulGap(c * k, c * r, vf);
    }
  }

  lemma {:induction false} Spread(a: int, x: int, y: int)
    ensures a * (x - y) == a * x - a * y && (-a) * x == -(a * x) && (-a) * y == -(a * y)
  {}

  lemma {:induction false} LaneBack(c: int, vf: nat, k: nat, j: nat, k': nat, j': int)
    requires c != 0 && vf > 1 && j < vf && 0 <= j' < vf && c * (k' * vf) + j' == c * (k * vf) + j
    ensures k' == k && j' == j
  {
    assert c * (k' * vf) == (c * k') * vf && c * (k * vf) == (c * k) * vf;
    MulGap(c * k', c * k, vf);
    MulGap(c * k, c * k', vf);
    assert c * k' == c * k;
    SameFactor(c, k', k);
  }

  lemma {:induction false} SameFactor(c: int, a: int, b: int)
    requires c != 0 && c * a == c * b
    ensures a == b
  {}

  /** Counting up by more than one, the last such iteration of a group does. */
  lemma {:induction false} ForwardOnce(p: Stmt, l: LoopId, end: nat, vf: nat, env: Env, st0: State, k: nat, j: nat)
    requires AffineStore(p, l) && StepIn(p, l, env) > 1 && vf > 1 && k < end / vf
    requires 1 <= j < vf && LaneAdds(p, l, vf, env, st0, k, j) != F(0.0)
    requires forall i: nat | j < i < vf :: LaneAdds(p, l, vf, env, st0, k, i) == F(0.0)
    ensures var d := StepIn(p, l, env) * (k * vf + j);
      ScalarOnce(p, l, env, st0, 0, end, d, k * vf + j) && VectorOnce(p, l, vf, env, st0, end / vf, d, -1)
  {
    hide Eval, StepIn;
    var c := StepIn(p, l, env);
    var d := c * (k * vf + j);
    assert Added(p, l, env, st0, k * vf + j) == LaneAdds(p, l, vf, env, st0, k, j);
    forall q: nat | c * q == d ensures q == k * vf + j { SameFactor(c, q, k * vf + j); }
    forall i: nat | i < end / vf && 0 <= d - c * (i * vf) < vf
      ensures LaneAdds(p, l, vf, env, st0, i, d - c * (i * vf)) == F(0.0)
    {
      LaneForward(c, vf, k, j, i, d - c * (i * vf));
    }
  }

  lemma {:induction false} LaneForward(c: int, vf: nat, k: nat, j: nat, k': nat, j': int)
    requires c > 1 && vf > 1 && 1 <= j < vf && 0 <= j' < vf && c * (k' * vf) + j' == c * (k * vf + j)
    ensures k' == k && j' > j
  {
    assert c * (k * vf + j) == c * (k * vf) + c * j;
    assert c * j >= 2 * j by { MulNonneg(c - 2, j); Spread(j, c, 2); }
    MulNonneg(c - 2, vf - j);
    assert c * (vf - j) >= 2 * (vf - j) by { Spread(vf - j, c, 2); }
    assert c * vf == c * (vf - j) + c * j;
    assert c * vf >= vf by { MulNonneg(c - 1, vf); Spread(vf, c, 1); }
    if k' > k { GroupsBeyond(c, vf, k, k'); }
    if k' < k { GroupsBeyond(c, vf, k', k); }
  }

  lemma {:induction false} GroupsBeyond(c: int, vf: nat, k: nat, k': nat)
    requires c > 0 && vf > 0 && k < k'
    ensures c * (k' * vf) >= c * (k * vf) + c * vf
  {
    MulGap(k, k', vf);
    MulNonneg(c, k' * vf - k * vf - vf);
    assert c * (k' * vf - k * vf - vf) == c * (k' * vf) - c * (k * vf) - c * vf;
  }

  /** An accumulating store with a step other than zero and one shows where some lane but the first
      of its group adds something. */
  lemma {:induction false} AddsShow(p: Stmt, l: LoopId, end: nat, vf: nat, env: Env) returns (st: State)
    requires Simple(p, l, end, vf) && p.Store? && p.acc && vf > 0 && !AddsFirst(p, l, vf, end / vf * vf, env)
    requires AffineStore(p, l) && StepIn(p, l, env) != 0 && StepIn(p, l, env) != 1
    ensures var m := end / vf;
      m * vf <= end &&
      !ReadsAlike(Iter(Scalars(p, l, env), end, st),
                  Iter(Shift(Scalars(p, l, env), m * vf), end - m * vf, Iter(Vectors(p, l, vf, env), m, st)))
  {
    hide Simple, AffineStore, StepIn, ReadsAlike, Adds, LaneAdds, AddsFirst, ScalarOnce, VectorOnce, Scalars, Vectors,
      Iter;
    SimpleParts(p, l, end, vf);
    CutMultiple(end, vf);
    var m, c := end / vf, StepIn(p, l, env);
    var st0, k0 := SomeGroup(p, l, vf, m, env);
    if c < 0 {
      var k := FirstGroup(p, l, vf, env, st0, k0);
      var j := LastLaneOf(p, l, vf, env, st0, k);
      BackwardOnce(p, l, end, vf, env, st0, k, j);
      st := OnceShows(p, l, end, vf, env, st0, c * (k * vf) + j, -1, k);
    } else {
      var j := LastLaneOf(p, l, vf, env, st0, k0);
      ForwardOnce(p, l, end, vf, env, st0, k0, j);
      MulGap(k0, m, vf);
      st := OnceShows(p, l, end, vf, env, st0, c * (k0 * vf + j), k0 * vf + j, -1);
    }
  }

  lemma {:induction false} SomeGroup(p: Stmt, l: LoopId, vf: nat, m: nat, env: Env) returns (st0: State, k0: nat)
    requires p.Store? && vf > 0 && m * vf >= 0 && !AddsFirst(p, l, vf, m * vf, env)
    ensures k0 < m && Adds(p, l, vf, env, st0, k0)
  {
    hide Eval;
    var st: State, q: nat :| q < m * vf && q % vf != 0 && Eval(p.value, env.At(l, q), st, 0) != F(0.0);
    st0, k0 := st, q / vf;
    var j := q % vf;
    assert q == vf * k0 + j && vf * k0 == k0 * vf;
    if k0 >= m { MulGap(m, k0, vf); }
    assert LaneAdds(p, l, vf, env, st0, k0, j) != F(0.0);
  }

  // ---- The exact condition -----------------------------------------------------------------------

  /** In all other cases it shows at the neighbour of the first element. */
  lemma {:induction false} HitShows(p: Stmt, l: LoopId, end: nat, vf: nat, env: Env) returns (st: State)
    requires Simple(p, l, end, vf) && p.Store? && (p.acc ==> !Mentions(p.value, l))
    requires AffineStore(p, l) && vf > 0 && !RightIn(p, l, end, vf, env)
    ensures var m := end / vf;
      m * vf <= end &&
      !ReadsAlike(Iter(Scalars(p, l, env), end, st),
                  Iter(Shift(Scalars(p, l, env), m * vf), end - m * vf, Iter(Vectors(p, l, vf, env), m, st)))
  {
    hide Simple, StepIn, AffineStore, Scalars, Vectors, Neighbour;
    SimpleParts(p, l, end, vf);
    CutMultiple(end, vf);
    var f, g, m := Scalars(p, l, env), Vectors(p, l, vf, env), end / vf;
    st := GroupsShow(p, l, end, vf, env, m);
    var x := Neighbour(p, l, env);
    MissedAlways(p, l, env, 0, end, st);
    IterCong(Shift(f, 0), f, end, st);
    MissedAlways(p, l, env, m * vf, end - m * vf, Iter(g, m, st));
    var a, b := Iter(f, end, st), Iter(Shift(f, m * vf), end - m * vf, Iter(g, m, st));
    assert Read(a, x) == Read(st, x) && Read(b, x) == Read(Iter(g, m, st), x);
    assert Coerce(Float32Ty, Read(a, x)) != Coerce(Float32Ty, Read(b, x));
  }

  /** A loop over one store with an affine last subscript, inside loops with the ranges t: after
      vectorizing every read gives what it gave exactly when, for all index values of the loops
      around it, the subscript steps by one, or the store accumulates and only the first lanes of the
      groups add something. With a step of one the states are even the same. */
  lemma {:induction false} VectorizeExactly(t: Table, p: Stmt, l: LoopId, end: nat, vf: nat, next: LoopId,
                                            scope: set<LoopId>)
    requires WfS(Loop(l, end, 1, [p]), scope) && Below(scope, next) && Below({l}, next) && Simple(p, l, end, vf)
    requires p.acc && Mentions(p.value, l) ==> forall env: Env | ValidEnv(t, env) :: StepIn(p, l, env) != 0
    ensures 1 * vf > 0
    ensures var L := Loop(l, end, 1, [p]);
      ShowsSame(t, [L], GroupedLoops(L, Vector(vf), next)) <==>
      forall env: Env | ValidEnv(t, env) :: RightIn(p, l, end, vf, env)
    ensures var L := Loop(l, end, 1, [p]);
      (forall env: Env | ValidEnv(t, env) :: StepIn(p, l, env) == 1) ==>
      SameIn(t, [L], GroupedLoops(L, Vector(vf), next))
  {
    hide Simple, StepIn, ReadsAlike, Exec, WfS, GroupedLoops;
    SimpleAffine(p, l, end, vf);
    var L := Loop(l, end, 1, [p]);
    SimpleParts(p, l, end, vf);
    var loops := GroupedLoops(L, Vector(vf), next);
    forall env: Env, st: State
      ensures StepIn(p, l, env) == 1 ==> Exec([L], env, st) == Exec(loops, env, st)
      ensures RightIn(p, l, end, vf, env) ==> ReadsAlike(Exec([L], env, st), Exec(loops, env, st))
    {
      if RightIn(p, l, end, vf, env) { RightRun(p, l, end, vf, next, scope, env, st); }
    }
    if env: Env :| ValidEnv(t, env) && !RightIn(p, l, end, vf, env) {
      var st := WrongRun(p, l, end, vf, next, scope, env);
      assert !ReadsAlike(Exec([L], env, st), Exec(loops, env, st));
    }
  }

  lemma {:induction false} RightRun(p: Stmt, l: LoopId, end: nat, vf: nat, next: LoopId, scope: set<LoopId>, env: Env,
                                    st: State)
    requires WfS(Loop(l, end, 1, [p]), scope) && Below(scope, next) && Below({l}, next) && Simple(p, l, end, vf)
    requires RightIn(p, l, end, vf, env)
    ensures 1 * vf > 0
    ensures var L := Loop(l, end, 1, [p]);
      var loops := GroupedLoops(L, Vector(vf), next);
      (StepIn(p, l, env) == 1 ==> Exec([L], env, st) == Exec(loops, env, st)) &&
      ReadsAlike(Exec([L], env, st), Exec(loops, env, st))
  {
    hide Simple, StepIn, ReadsAlike, Exec, WfS, GroupedLoops, Scalars, Vectors;
    SimpleAffine(p, l, end, vf);
    SimpleParts(p, l, end, vf);
    GroupedRun(p, l, end, vf, next, scope, env, st);
    var f, g, m := Scalars(p, l, env), Vectors(p, l, vf, env), end / vf;
    if StepIn(p, l, env) == 1 {
      RunsSame(p, l, end, vf, env, st);
      AlikeItself(Iter(f, end, st));
    } else {
      RunsAlike(p, l, end, vf, env, st);
    }
  }

  lemma {:induction false} WrongRun(p: Stmt, l: LoopId, end: nat, vf: nat, next: LoopId, scope: set<LoopId>, env: Env)
    returns (st: State)
    requires WfS(Loop(l, end, 1, [p]), scope) && Below(scope, next) && Below({l}, next) && Simple(p, l, end, vf)
    requires !RightIn(p, l, end, vf, env) && (p.acc && Mentions(p.value, l) ==> StepIn(p, l, env) != 0)
    ensures 1 * vf > 0
    ensures var L := Loop(l, end, 1, [p]);
      !ReadsAlike(Exec([L], env, st), Exec(GroupedLoops(L, Vector(vf), next), env, st))
  {
    hide Simple, StepIn, Exec, WfS, GroupedLoops, Scalars, Vectors, Neighbour;
    SimpleParts(p, l, end, vf);
    SimpleAffine(p, l, end, vf);
    if p.acc && Mentions(p.value, l) {
      st := AddsShow(p, l, end, vf, env);
    } else {
      st := HitShows(p, l, end, vf, env);
    }
    GroupedRun(p, l, end, vf, next, scope, env, st);
  }

  lemma {:induction false} SimpleAffine(p: Stmt, l: LoopId, end: nat, vf: nat)
    requires Simple(p, l, end, vf)
    ensures AffineStore(p, l)
  {}

  /** Where no loop around it has a known range, that is when the coefficient of the index is the
      number one, for a store that does not accumulate. */
  lemma {:induction false} AnywhereExactly(p: Stmt, l: LoopId, end: nat, vf: nat, next: LoopId, scope: set<LoopId>)
    requires WfS(Loop(l, end, 1, [p]), scope) && Below(scope, next) && Below({l}, next)
    requires Simple(p, l, end, vf) && !p.acc
    ensures 1 * vf > 0
    ensures var L := Loop(l, end, 1, [p]);
      ShowsSame(map[], [L], GroupedLoops(L, Vector(vf), next)) <==> Step(p, l) == Polynomials.Num(1)
  {
    hide ShowsSame, WfS, GroupedLoops, Polynomials.Coefficient, Polynomials.PolyOf;
    VectorizeExactly(map[], p, l, end, vf, next, scope);
    Polynomials.PolyNormal(p.subs[|p.subs| - 1]);
    Polynomials.CoefficientNormal(LastPoly(p), l, 0);
    if Step(p, l) != Polynomials.Num(1) {
      var m := EmptyMachine();
      Polynomials.NotOneSomewhere(Step(p, l), m);
      var idx: map<LoopId, int> :| Polynomials.Value(Step(p, l), Env(m, idx)) != 1;
      assert ValidEnv(map[], Env(m, idx)) && !RightIn(p, l, end, vf, Env(m, idx));
    }
  }

  // ---- i*3 -----------------------------------------------------------------------------------

  /** A[i*3] = r, or A[i*3] += r. */
  function Thirds(l: LoopId, r: real, acc: bool): Stmt { Store(0, [Binary(Mul, Idx(l), Const(3))], ConstFP(r), acc) }

  /** The normal form of l * 3. */
  lemma {:induction false} ThirdsPoly(l: LoopId)
    ensures Polynomials.PolyOf(Binary(Mul, Idx(l), Const(3))) ==
      Polynomials.Plus(Polynomials.Num(0), l, Polynomials.Num(3))
  {
    Polynomials.TimesNumber(l, 3);
    hide Polynomials.Product;
    assert Polynomials.PolyOf(Idx(l)) == Polynomials.Plus(Polynomials.Num(0), l, Polynomials.Num(1));
    assert Polynomials.PolyOf(Const(3)) == Polynomials.Num(3);
  }

  lemma {:induction false} ThirdsStep(l: LoopId, r: real, acc: bool)
    ensures AffineStore(Thirds(l, r, acc), l) && Step(Thirds(l, r, acc), l) == Polynomials.Num(3)
  {
    var x, y := Idx(l), Const(3);
    var e := Binary(Mul, x, y);
    assert Thirds(l, r, acc).subs == [e] && IndexTyped(x) && IndexTyped(y) && IndexTyped(e);
    ThirdsPoly(l);
    var three := Polynomials.Num(3);
    var poly := Polynomials.Plus(Polynomials.Num(0), l, three);
    assert Polynomials.Polynomial(x) && Polynomials.Polynomial(y) && Polynomials.Polynomial(e);
    hide Polynomials.PolyOf;
    assert LastPoly(Thirds(l, r, acc)) == Polynomials.PolyOf(e) == poly;
    assert Polynomials.Coefficient(poly, l) == three && Polynomials.Vars(three) == {};
    assert VecValue(ConstFP(r), l);
    assert Polynomials.Affine(poly, l);
  }

  /** i*3 is called consecutive and steps by three; so A[i*3] = 1 is vectorized wrongly, while
      A[i*3] += 0 is not. */
  lemma {:induction false} ProductAccepted(l: LoopId, next: LoopId, r: real, acc: bool)
    requires l < next
    ensures var p := Thirds(l, r, acc);
      var L := Loop(l, 4, 1, [p]);
      AccessKind(p.subs[0], l) == Consecutive && WfS(L, {}) && CanVectorize(L, 4) &&
      (ShowsSame(map[], [L], GroupedLoops(L, Vector(4), next)) <==> acc && r == 0.0)
  {
    hide ShowsSame, WfS, GroupedLoops;
    var p := Thirds(l, r, acc);
    ThirdsStep(l, r, acc);
    ThirdsAccepted(l, r, acc);
    assert Simple(p, l, 4, 4);
    VectorizeExactly(map[], p, l, 4, 4, next, {});
    forall env: Env, st: State, q: nat
      ensures StepIn(p, l, env) == 3 && Eval(p.value, env.At(l, q), st, 0) == F(r)
    {}
    var env, none := Env(EmptyMachine(), map[]), State(map[], []);
    assert ValidEnv(map[], env);
    assert Eval(p.value, env.At(l, 1), none, 0) == F(r);
    assert acc && r == 0.0 <==> RightIn(p, l, 4, 4, env);
  }

  lemma {:induction false} ThirdsAccepted(l: LoopId, r: real, acc: bool)
    ensures var L := Loop(l, 4, 1, [Thirds(l, r, acc)]);
      AccessKind(Thirds(l, r, acc).subs[0], l) == Consecutive && MentionsS(Thirds(l, r, acc), l) && WfS(L, {}) &&
        CanVectorize(L, 4) &&
      Bound(L) == {l}
  {
    var p := Thirds(l, r, acc);
    var e := p.subs[0];
    assert AccessKind(e.lhs, l) == Consecutive && AccessKind(e.rhs, l) == Uniform;
    assert Mentions(e.lhs, l) && e in p.subs;
    assert [p][1..] == [];
    Single(p);
    assert Scalar(e.lhs) && Scalar(e.rhs) && InScope(e.lhs, {l}) && InScope(e.rhs, {l});
    assert {} + {l} == {l};
    assert WfS(p, {l});
  }
}
