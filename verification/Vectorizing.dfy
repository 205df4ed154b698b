/** vectorize: every iteration of the strip-mined loop stores a vector of elements. */
module Vectorizing {
  import opened IR
  import opened Families
  import opened Semantics
  import opened Substitution
  import opened Context
  import opened Scopes
  import opened Peeling
  import opened Footprint
  import opened Decided
  import opened Instances
  import opened Widening
  import opened Sites
  import Fusion
  import Polynomials

  // ---- Subscript analysis --------------------------------------------------------------

  datatype Kind = Uniform | Consecutive | Other

  /** getIndexAccessKind; a product is treated like a sum, so i*3 counts as consecutive. */
  function AccessKind(e: Expr, l: LoopId): Kind
  {
    match e
    case Index(k, _) => if k == l then Consecutive else Uniform
    case Binary(op, x, y) =>
      var a, b := AccessKind(x, l), AccessKind(y, l);
      if a == Uniform && b == Uniform then Uniform
      else if op == Mul || op == Add then (if a == Other || b == Other then Other else Consecutive)
      else Other
    case Const(_) => Uniform
    case ConstFP(_) => Uniform
    case _ => Other
  }

  predicate MayVectorizeAccess(subs: seq<Expr>, l: LoopId)
  {
    forall i | 0 <= i < |subs| ::
      if i == |subs| - 1 then AccessKind(subs[i], l) != Other else AccessKind(subs[i], l) == Uniform
  }

  predicate MayVectorizeExpr(e: Expr, l: LoopId)
  {
    match e
    case Binary(_, a, b) => MayVectorizeExpr(a, l) && MayVectorizeExpr(b, l)
    case Unary(_, v) => MayVectorizeExpr(v, l)
    case Load(_, subs, _) => MayVectorizeAccess(subs, l) && forall x | x in subs :: MayVectorizeExpr(x, l)
    case Broadcast(x, _) => MayVectorizeExpr(x, l)
    case _ => true
  }

  predicate MayVectorizeStore(s: Stmt, l: LoopId)
    requires s.Store?
  {
    !TypeOf(s.value).IsVector() && MayVectorizeExpr(s.value, l) && MayVectorizeAccess(s.subs, l)
  }

  /** All stores that use the index may be vectorized, and nothing else is in the loop. */
  predicate MayVectorizeBody(ss: seq<Stmt>, l: LoopId)
  {
    ss == [] || (
      (match ss[0]
       case Loop(_, _, _, body) => MayVectorizeBody(body, l)
       case IfRange(v, _, _, body) => !Mentions(v, l) && MayVectorizeBody(body, l)
       case Store(_, _, _, _) => MentionsS(ss[0], l) ==> MayVectorizeStore(ss[0], l)
       case _ => false)
      && MayVectorizeBody(ss[1..], l))
  }

  predicate CanVectorize(L: Stmt, vf: nat)
    requires L.Loop?
  {
    L.end >= vf && L.stride == 1 && MayVectorizeBody(L.body, L.id)
  }

  // ---- What is accepted, and what is not ----------------------------------------------------

  /** Built from constants and indices by binary operators. */
  predicate IndexForm(e: Expr)
  {
    match e
    case Const(_) => true
    case ConstFP(_) => true
    case Index(_, _) => true
    case Binary(_, a, b) => IndexForm(a) && IndexForm(b)
    case _ => false
  }

  /** The index of l stands below sums and products only. */
  predicate InSums(e: Expr, l: LoopId)
  {
    Mentions(e, l) ==>
      match e
      case Index(_, _) => true
      case Binary(op, a, b) => (op == Add || op == Mul) && InSums(a, l) && InSums(b, l)
      case _ => false
  }

  /** The three kinds of subscripts, told apart by where the index stands. */
  lemma {:induction false} KindExactly(e: Expr, l: LoopId)
    ensures AccessKind(e, l) == Uniform <==> IndexForm(e) && !Mentions(e, l)
    ensures AccessKind(e, l) == Other <==> !(IndexForm(e) && InSums(e, l))
  {
    if e.Binary? {
      KindExactly(e.lhs, l);
      KindExactly(e.rhs, l);
    }
  }

  /** Subscripts of constants and indices, of which only the last one uses l, below sums and products. */
  predicate LinedUp(subs: seq<Expr>, l: LoopId)
  {
    (forall x | x in subs :: IndexForm(x)) &&
    (forall d | 0 <= d < |subs| - 1 :: !Mentions(subs[d], l)) &&
    (subs != [] ==> InSums(subs[|subs| - 1], l))
  }

  lemma {:induction false} AccessExactly(subs: seq<Expr>, l: LoopId)
    ensures MayVectorizeAccess(subs, l) <==> LinedUp(subs, l)
  {
    forall d | 0 <= d < |subs|
      ensures AccessKind(subs[d], l) == Uniform <==> IndexForm(subs[d]) && !Mentions(subs[d], l)
      ensures AccessKind(subs[d], l) == Other <==> !(IndexForm(subs[d]) && InSums(subs[d], l))
    {
      KindExactly(subs[d], l);
    }
    if MayVectorizeAccess(subs, l) {
      forall x | x in subs ensures IndexForm(x) {
        var d :| 0 <= d < |subs| && x == subs[d];
      }
    }
  }

  /** The loads of a value are lined up, also those inside other loads. */
  predicate LoadsLinedUp(e: Expr, l: LoopId) { forall a | a in Fusion.LoadsE(e, map[]) :: LinedUp(a.subs, l) }

  lemma {:induction false} LoadsExactly(e: Expr, l: LoopId)
    ensures MayVectorizeExpr(e, l) <==> LoadsLinedUp(e, l)
    decreases e, 0
  {
    match e
    case Binary(_, a, b) => LoadsExactly(a, l); LoadsExactly(b, l);
    case Unary(_, v) => LoadsExactly(v, l);
    case Load(arg, subs, _) =>
      AccessExactly(subs, l);
      AllLoadsExactly(subs, l);
      assert Fusion.LoadsE(e, map[])[0].subs == subs;
    case Broadcast(x, _) => LoadsExactly(x, l);
    case _ =>
  }

  lemma {:induction false} AllLoadsExactly(es: seq<Expr>, l: LoopId)
    ensures (forall x | x in es :: MayVectorizeExpr(x, l)) <==>
      forall a | a in Fusion.LoadsAll(es, map[]) :: LinedUp(a.subs, l)
    decreases es, 1
  {
    hide LinedUp, MayVectorizeExpr;
    if es != [] {
      LoadsExactly(es[0], l);
      AllLoadsExactly(es[1..], l);
      assert Fusion.LoadsAll(es, map[]) == Fusion.LoadsE(es[0], map[]) + Fusion.LoadsAll(es[1..], map[]);
      assert forall x :: x in es <==> x == es[0] || x in es[1..];
    }
  }

  /** A scalar store all of whose accesses are lined up. */
  predicate SiteLinedUp(s: Stmt, l: LoopId)
  {
    s.Store? && Width(s.value) == 1 && LinedUp(s.subs, l) && LoadsLinedUp(s.value, l)
  }

  /** Nothing but stores under L; no if uses the index, and the stores that do are lined up. */
  predicate BodyLinedUp(ss: seq<Stmt>, l: LoopId)
  {
    SteeredWithout(ss, l) && (forall s | s in Leaves(ss) :: s.Store?) &&
    forall s | s in Leaves(ss) && MentionsS(s, l) :: SiteLinedUp(s, l)
  }

  lemma {:induction false} BodyExactly(ss: seq<Stmt>, l: LoopId)
    ensures MayVectorizeBody(ss, l) <==> BodyLinedUp(ss, l)
    decreases ss
  {
    hide LinedUp, LoadsLinedUp, MayVectorizeExpr, MayVectorizeAccess, Mentions, MentionsS;
    if ss != [] {
      BodyExactly(ss[1..], l);
      var cs, ls := Conditions(ss), Leaves(ss);
      match ss[0] {
        case Loop(_, _, _, body) =>
          BodyExactly(body, l);
          assert cs == Conditions(body) + Conditions(ss[1..]) && ls == Leaves(body) + Leaves(ss[1..]);
        case IfRange(v, _, _, body) =>
          BodyExactly(body, l);
          assert cs == [v] + Conditions(body) + Conditions(ss[1..]) && ls == Leaves(body) + Leaves(ss[1..]);
        case Store(_, subs, v, _) =>
          AccessExactly(subs, l);
          LoadsExactly(v, l);
          assert cs == Conditions(ss[1..]) && ls == [ss[0]] + Leaves(ss[1..]);
        case _ => assert cs == Conditions(ss[1..]) && ls == [ss[0]] + Leaves(ss[1..]);
      }
    }
  }

  /** The value of e is the same at all indices of l. */
  ghost predicate Stays(e: Expr, l: LoopId)
  {
    forall env: Env, st: State, i: int, j: int :: Eval(e, env.At(l, i), st, 0) == Eval(e, env.At(l, j), st, 0)
  }

  /** All subscripts but the last one stay where they are while l runs. */
  ghost predicate LeadingStay(subs: seq<Expr>, l: LoopId) { forall d | 0 <= d < |subs| - 1 :: Stays(subs[d], l) }

  lemma {:induction false} LinedUpStays(subs: seq<Expr>, l: LoopId)
    requires LinedUp(subs, l)
    ensures LeadingStay(subs, l)
  {
    forall d, env: Env, st: State, i: int, j: int | 0 <= d < |subs| - 1
      ensures Eval(subs[d], env.At(l, i), st, 0) == Eval(subs[d], env.At(l, j), st, 0)
    {
      EvalAgree(subs[d], env.At(l, i), env.At(l, j), st, 0);
    }
  }

  /** The accesses of a store keep their leading subscripts while l runs. */
  ghost predicate SiteStays(s: Stmt, l: LoopId)
  {
    s.Store? && LeadingStay(s.subs, l) && forall a | a in Fusion.LoadsE(s.value, map[]) :: LeadingStay(a.subs, l)
  }

  /** What vectorize accepts: of every store that uses the index, and of every load in its value, only
      the last subscript moves. */
  lemma {:induction false} AcceptedStays(L: Stmt, vf: nat)
    requires L.Loop? && CanVectorize(L, vf)
    ensures forall s | s in Leaves(L.body) && MentionsS(s, L.id) :: SiteStays(s, L.id)
  {
    BodyExactly(L.body, L.id);
    forall s | s in Leaves(L.body) && MentionsS(s, L.id) ensures SiteStays(s, L.id) {
      LinedUpStays(s.subs, L.id);
      forall a | a in Fusion.LoadsE(s.value, map[]) ensures LeadingStay(a.subs, L.id) {
        LinedUpStays(a.subs, L.id);
      }
    }
  }

  /** Subscripts of constants and indices, of which at most the last uses l, once and below additions. */
  predicate Straight(subs: seq<Expr>, l: LoopId)
  {
    (forall x | x in subs :: IndexForm(x)) &&
    (forall d | 0 <= d < |subs| - 1 :: !Mentions(subs[d], l)) &&
    (subs != [] ==> !Mentions(subs[|subs| - 1], l) || Additive(subs[|subs| - 1], l))
  }

  lemma {:induction false} AdditiveInSums(e: Expr, l: LoopId)
    requires Additive(e, l)
    ensures InSums(e, l)
  {
    if e.Binary? {
      if Additive(e.lhs, l) && !Mentions(e.rhs, l) { AdditiveInSums(e.lhs, l); } else { AdditiveInSums(e.rhs, l); }
    }
  }

  /** A loop of scalar stores whose accesses are all uniform, or additive in the last subscript. */
  predicate StraightBody(ss: seq<Stmt>, l: LoopId)
  {
    SteeredWithout(ss, l) &&
    forall s | s in Leaves(ss) :: s.Store? && Width(s.value) == 1 && Straight(s.subs, l) &&
      forall a | a in Fusion.LoadsE(s.value, map[]) :: Straight(a.subs, l)
  }

  /** Such a loop is accepted, whatever else its values are made of. */
  lemma {:induction false} StraightAccepted(ss: seq<Stmt>, l: LoopId)
    requires StraightBody(ss, l)
    ensures BodyLinedUp(ss, l)
  {
    forall s | s in Leaves(ss) && MentionsS(s, l) ensures SiteLinedUp(s, l) {
      StraightLinedUp(s.subs, l);
      forall a | a in Fusion.LoadsE(s.value, map[]) ensures LinedUp(a.subs, l) { StraightLinedUp(a.subs, l); }
    }
  }

  lemma {:induction false} StraightLinedUp(subs: seq<Expr>, l: LoopId)
    requires Straight(subs, l)
    ensures LinedUp(subs, l)
  {
    if subs != [] && Mentions(subs[|subs| - 1], l) { AdditiveInSums(subs[|subs| - 1], l); }
  }

  // ---- When an accepted access really is consecutive ---------------------------------------

  /** The index of l occurs in e once, and only under additions. */
  predicate Additive(e: Expr, l: LoopId)
  {
    match e
    case Index(k, w) => k == l && w == 1
    case Binary(op, a, b) =>
      op == Add && ((Additive(a, l) && !Mentions(b, l)) || (!Mentions(a, l) && Additive(b, l)))
    case _ => false
  }

  /** e steps by one with l: it is additive, or a polynomial in which l has the coefficient one. */
  predicate UnitStep(e: Expr, l: LoopId)
  {
    Additive(e, l) ||
    (Polynomials.Polynomial(e) && Polynomials.Coefficient(Polynomials.PolyOf(e), l) == Polynomials.Num(1))
  }

  /** A scalar index expression: the operands of every operator have one type. */
  predicate IndexTyped(e: Expr)
  {
    TypeOf(e) == ExprType(IndexTy, 1) &&
    match e
    case Binary(_, a, b) => IndexTyped(a) && IndexTyped(b)
    case _ => true
  }

  /** The last subscript steps by one with l; the others do not use it. */
  predicate UnitAccess(subs: seq<Expr>, l: LoopId)
  {
    subs != [] && UnitStep(subs[|subs| - 1], l) && (forall x | x in subs :: IndexTyped(x)) &&
    forall i | 0 <= i < |subs| - 1 :: !Mentions(subs[i], l)
  }

  /** An accepted index expression reads no memory and has an integer value. */
  lemma {:induction false} AcceptedValue(e: Expr, l: LoopId, env: Env, a: State, b: State)
    requires AccessKind(e, l) != Other && IndexTyped(e)
    ensures Eval(e, env, a, 0).I? && Eval(e, env, a, 0) == Eval(e, env, b, 0)
  {
    if e.Binary? {
      AcceptedValue(e.lhs, l, env, a, b);
      AcceptedValue(e.rhs, l, env, a, b);
    }
  }

  lemma {:induction false} AdditiveValue(e: Expr, l: LoopId, env: Env, i: int, k: int, st: State)
    requires Additive(e, l) && AccessKind(e, l) != Other && IndexTyped(e)
    ensures AsInt(Eval(e, env.At(l, i + k), st, 0)) == AsInt(Eval(e, env.At(l, i), st, 0)) + k
  {
    if e.Binary? {
      var (a, b) := if Additive(e.lhs, l) && !Mentions(e.rhs, l) then (e.lhs, e.rhs) else (e.rhs, e.lhs);
      AdditiveValue(a, l, env, i, k, st);
      EvalAgree(b, env.At(l, i + k), env.At(l, i), st, 0);
      AcceptedValue(a, l, env.At(l, i), st, st);
      AcceptedValue(a, l, env.At(l, i + k), st, st);
      AcceptedValue(b, l, env.At(l, i), st, st);
    }
  }

  lemma {:induction false} UnitStepValue(e: Expr, l: LoopId, env: Env, i: int, k: int, st: State)
    requires UnitStep(e, l) && AccessKind(e, l) != Other && IndexTyped(e)
    ensures AsInt(Eval(e, env.At(l, i + k), st, 0)) == AsInt(Eval(e, env.At(l, i), st, 0)) + k
  {
    hide Additive, AccessKind, IndexTyped, Eval;
    if Additive(e, l) {
      AdditiveValue(e, l, env, i, k, st);
    } else {
      Polynomials.PolyNormal(e);
      Polynomials.LinearValue(Polynomials.PolyOf(e), l, env, i);
      Polynomials.LinearValue(Polynomials.PolyOf(e), l, env, i + k);
      Polynomials.PolyValue(e, env.At(l, i), st);
      Polynomials.PolyValue(e, env.At(l, i + k), st);
    }
  }

  /** Iteration k further on touches the element k places further on. */
  lemma {:induction false} UnitAccessBump(subs: seq<Expr>, l: LoopId, env: Env, i: int, k: int, a: State, b: State)
    requires UnitAccess(subs, l) && MayVectorizeAccess(subs, l)
    ensures EvalSubs(subs, env.At(l, i + k), a) == Bump(EvalSubs(subs, env.At(l, i), b), k)
  {
    var n := |subs| - 1;
    var x, y := EvalSubs(subs, env.At(l, i + k), a), Bump(EvalSubs(subs, env.At(l, i), b), k);
    forall d | 0 <= d < |subs|
      ensures x[d] == y[d]
    {
      assert subs[d] in subs;
      AcceptedValue(subs[d], l, env.At(l, i + k), a, b);
      if d == n {
        UnitStepValue(subs[n], l, env, i, k, b);
      } else {
        EvalAgree(subs[d], env.At(l, i + k), env.At(l, i), b, 0);
      }
    }
    assert x == y;
  }

  // ---- vectorizeExpr ------------------------------------------------------------------------

  /** A scalar value whose loads step by one with l or do not use it. */
  predicate VecValue(e: Expr, l: LoopId)
  {
    TypeOf(e).width == 1 &&
    match e
    case ConstStr(_) => false
    case Broadcast(_, _) => false
    case Binary(_, a, b) => VecValue(a, l) && VecValue(b, l)
    case Unary(_, v) => VecValue(v, l)
    case Load(_, subs, _) => Mentions(e, l) ==> UnitAccess(subs, l)
    case _ => true
  }

  lemma {:induction false} VecWidth(e: Expr, l: LoopId, vf: nat)
    requires VecValue(e, l) && vf > 1
    ensures TypeOf(VecExpr(e, l, vf)).width == if Mentions(e, l) then vf else 1
  {
    match e
    case Binary(_, a, b) => VecWidth(a, l, vf); VecWidth(b, l, vf);
    case Unary(_, v) => VecWidth(v, l, vf);
    case _ =>
  }

  lemma {:induction false} VecLaneLoad(e: Expr, l: LoopId, vf: nat, env: Env, st: State, k: nat)
    requires e.Load? && VecValue(e, l) && MayVectorizeExpr(e, l) && vf > 1
    ensures Eval(VecExpr(e, l, vf), env, st, LaneOf(TypeOf(VecExpr(e, l, vf)), k)) ==
            Eval(e, env.At(l, env.Get(l) + k), st, 0)
  {
    hide Eval, EvalSubs, UnitStep, AccessKind, UnitAccess, MayVectorizeAccess, Bump;
    var env' := env.At(l, env.Get(l) + k);
    if Mentions(e, l) {
      EvalLoad(e, env', st, 0);
      EvalLoad(VecExpr(e, l, vf), env, st, k);
      UnitAccessBump(e.subs, l, env, env.Get(l), k, st, st);
      SubsAgree(e.subs, env.At(l, env.Get(l)), env, st);
      BumpNone(EvalSubs(e.subs, env', st));
    } else {
      EvalAgree(e, env, env', st, 0);
    }
  }

  /** Lane k of the vector value is the value k iterations further on. */
  lemma {:induction false} VecLane(e: Expr, l: LoopId, vf: nat, env: Env, st: State, k: nat)
    requires VecValue(e, l) && MayVectorizeExpr(e, l) && vf > 1
    ensures Eval(VecExpr(e, l, vf), env, st, LaneOf(TypeOf(VecExpr(e, l, vf)), k)) ==
            Eval(e, env.At(l, env.Get(l) + k), st, 0)
  {
    hide UnitAccess, MayVectorizeAccess, AccessKind, UnitStep, Apply, Coerce, EvalSubs, Bump, MentionsAny;
    VecWidth(e, l, vf);
    var env' := env.At(l, env.Get(l) + k);
    match e
    case Index(_, _) =>
    case Binary(op, a, b) =>
      VecWidth(a, l, vf);
      VecWidth(b, l, vf);
      VecLane(a, l, vf, env, st, k);
      VecLane(b, l, vf, env, st, k);
    case Unary(_, v) =>
      VecWidth(v, l, vf);
      VecLane(v, l, vf, env, st, k);
    case Load(_, _, _) => VecLaneLoad(e, l, vf, env, st, k);
    case Const(_) =>
    case ConstFP(_) =>
    case LoadLocal(_) =>
  }

  lemma {:induction false} BumpNone(idx: seq<int>)
    ensures Bump(idx, 0) == idx
  {}

  // ---- vectorizeStore ------------------------------------------------------------------------

  /** The locations a store instance writes and reads in a state. */
  function WriteLoc(p: Stmt, pe: Env, st: State): Loc
    requires p.Store?
  {
    Elem(p.arg, EvalSubs(p.subs, pe, st))
  }

  function ReadLocs(p: Stmt, pe: Env, st: State): set<Loc>
    requires p.Store?
  {
    Reads(p.value, pe, st, 0)
  }

  /** p never writes what q reads or writes, whatever the states are. */
  ghost predicate Apart(p: Stmt, pe: Env, q: Stmt, qe: Env)
    requires p.Store? && q.Store?
  {
    forall a: State, b: State :: WriteLoc(p, pe, a) != WriteLoc(q, qe, b) && WriteLoc(p, pe, a) !in ReadLocs(q, qe, b)
  }

  /** A store that vectorizes as the analysis intends: one scalar element per iteration. */
  predicate VecStorable(p: Stmt, l: LoopId)
  {
    p.Store? && UnitAccess(p.subs, l) && VecValue(p.value, l) && MayVectorizeStore(p, l)
  }

  lemma {:induction false} StoreOne(p: Stmt, pe: Env, st: State)
    requires p.Store? && Width(p.value) == 1
    ensures ExecS(p, pe, st) ==
      st.(mem := st.mem[WriteLoc(p, pe, st) :=
        NewValue(pe.m, p.acc, Read(st, WriteLoc(p, pe, st)), Eval(p.value, pe, st, 0))])
  {
    var idx := EvalSubs(p.subs, pe, st);
    BumpNone(idx);
    assert WriteElems(st, p.arg, idx, p.value, p.acc, pe, 0) == st.mem;
  }

  /** The environment i iterations of l further on. */
  function LaneEnv(pe: Env, l: LoopId, i: nat): Env { pe.At(l, pe.Get(l) + i) }

  /** The iterations that one vector store stands for keep out of each other's way. */
  ghost predicate LanesApart(p: Stmt, l: LoopId, vf: nat, pe: Env)
    requires p.Store?
  {
    forall i: nat, j: nat | i < vf && j < vf && i != j :: Apart(p, LaneEnv(pe, l, i), p, LaneEnv(pe, l, j))
  }

  /** x is not written by the first n lanes. */
  ghost predicate NotWritten(p: Stmt, l: LoopId, pe: Env, st: State, n: nat, x: Loc)
    requires p.Store?
  {
    forall i: nat | i < n :: x != WriteLoc(p, LaneEnv(pe, l, i), st)
  }

  /** The iterations that one vector store stands for. */
  ghost function LaneRun(p: Stmt, l: LoopId, pe: Env, n: nat, st: State): State
  {
    Iter(Nth([p], l, pe.Get(l), 1, pe), n, st)
  }

  lemma {:induction false} LaneRunStep(p: Stmt, l: LoopId, pe: Env, n: nat, st: State)
    requires n > 0
    ensures LaneRun(p, l, pe, n, st) == ExecS(p, LaneEnv(pe, l, n - 1), LaneRun(p, l, pe, n - 1, st))
  {
    var b := pe.Get(l);
    var st' := LaneRun(p, l, pe, n - 1, st);
    ExecOne(p, pe.At(l, b + (n - 1)), st');
    assert Nth([p], l, b, 1, pe)(n - 1, st') == Exec([p], pe.At(l, b + (n - 1) * 1), st');
    assert b + (n - 1) * 1 == b + (n - 1);
  }

  /** After n lanes, memory is the same as after n iterations. */
  lemma {:induction false} LanesRun(p: Stmt, l: LoopId, vf: nat, pe: Env, st: State, n: nat)
    requires VecStorable(p, l) && vf > 1 && n <= vf
    requires LanesApart(p, l, vf, pe)
    ensures LaneRun(p, l, pe, n, st) ==
      st.(mem := WriteElems(st, p.arg, EvalSubs(p.subs, pe, st), VecStore(p, l, vf).value, p.acc, pe, n))
    ensures forall x :: NotWritten(p, l, pe, st, n, x) ==> Look(LaneRun(p, l, pe, n, st), x) == Look(st, x)
  {
    hide Eval, EvalSubs, ExecS, Exec, Read;
    if n > 0 {
      LanesRun(p, l, vf, pe, st, n - 1);
      var st' := LaneRun(p, l, pe, n - 1, st);
      LaneStep(p, l, vf, pe, st, st', n - 1);
      LaneRunStep(p, l, pe, n, st);
      forall x | NotWritten(p, l, pe, st, n, x)
        ensures Look(LaneRun(p, l, pe, n, st), x) == Look(st, x)
      {
        assert NotWritten(p, l, pe, st, n - 1, x);
        assert x != WriteLoc(p, LaneEnv(pe, l, n - 1), st);
      }
    }
  }

  lemma {:induction false} LaneValue(p: Stmt, l: LoopId, vf: nat, pe: Env, st: State, k: nat)
    requires VecStorable(p, l) && vf > 1 && k < vf
    ensures Eval(VecStore(p, l, vf).value, pe, st, k) == Eval(p.value, LaneEnv(pe, l, k), st, 0)
  {
    VecWidth(p.value, l, vf);
    VecLane(p.value, l, vf, pe, st, k);
  }

  /** One more iteration writes what the next lane writes. */
  lemma {:induction false} LaneStep(p: Stmt, l: LoopId, vf: nat, pe: Env, st: State, st': State, k: nat)
    requires VecStorable(p, l) && vf > 1 && k < vf
    requires LanesApart(p, l, vf, pe)
    requires forall x :: NotWritten(p, l, pe, st, k, x) ==> Look(st', x) == Look(st, x)
    ensures var v := VecStore(p, l, vf);
      var x := ElemAt(p.arg, EvalSubs(p.subs, pe, st), k);
      x == WriteLoc(p, pe.At(l, pe.Get(l) + k), st) == WriteLoc(p, pe.At(l, pe.Get(l) + k), st') &&
      ExecS(p, pe.At(l, pe.Get(l) + k), st') ==
      st'.(mem := st'.mem[x := NewValue(pe.m, p.acc, Read(st, x), Eval(v.value, pe, st, k))])
  {
    hide Eval, VecExpr, UnitStep, AccessKind, VecStore;
    var b := pe.Get(l);
    var ek := LaneEnv(pe, l, k);
    var v := VecStore(p, l, vf);
    UnitAccessBump(p.subs, l, pe, b, k, st, st);
    UnitAccessBump(p.subs, l, pe, b, k, st', st);
    SubsAgree(p.subs, pe.At(l, b), pe, st);
    var x := ElemAt(p.arg, EvalSubs(p.subs, pe, st), k);
    assert x == WriteLoc(p, ek, st) == WriteLoc(p, ek, st');
    StoreOne(p, ek, st');
    // What this iteration reads was not written by the earlier ones.
    forall i: nat | i < k
      ensures x != WriteLoc(p, LaneEnv(pe, l, i), st) &&
        WriteLoc(p, LaneEnv(pe, l, i), st) !in Reads(p.value, ek, st, 0)
    {
      assert Apart(p, LaneEnv(pe, l, i), p, ek);
    }
    assert NotWritten(p, l, pe, st, k, x);
    var R := iset y: Loc | y in Reads(p.value, ek, st, 0);
    forall y | y in R ensures Look(st, y) == Look(st', y) {
      assert NotWritten(p, l, pe, st, k, y);
    }
    EvalDepends(p.value, ek, st, st', 0, R);
    LaneValue(p, l, vf, pe, st, k);
  }

  /** The vector store does what the iterations it stands for do. */
  lemma {:induction false} VectorRun(p: Stmt, l: LoopId, vf: nat, pe: Env, st: State)
    requires VecStorable(p, l) && vf > 1
    requires LanesApart(p, l, vf, pe)
    ensures Exec([VecStore(p, l, vf)], pe, st) == Iter(Nth([p], l, pe.Get(l), 1, pe), vf, st)
  {
    var v := VecStore(p, l, vf);
    ExecOne(v, pe, st);
    VecWidth(p.value, l, vf);
    assert Width(v.value) == vf;
    LanesRun(p, l, vf, pe, st, vf);
    assert LaneRun(p, l, pe, vf, st) == Iter(Nth([p], l, pe.Get(l), 1, pe), vf, st);
  }

  // ---- The whole loop ---------------------------------------------------------------------------

  /** Every leaf under L is a store that vectorizes as intended; no guard uses the index. */
  predicate VecBody(ss: seq<Stmt>, l: LoopId)
  {
    ss == [] || (
      (match ss[0]
       case Loop(_, _, _, body) => VecBody(body, l)
       case IfRange(v, _, _, body) => !Mentions(v, l) && VecBody(body, l)
       case Store(_, _, _, _) => VecStorable(ss[0], l)
       case _ => false)
      && VecBody(ss[1..], l))
  }

  lemma {:induction false} AdditiveMentions(e: Expr, l: LoopId)
    requires Additive(e, l)
    ensures Mentions(e, l)
  {
    if e.Binary? {
      if Additive(e.lhs, l) { AdditiveMentions(e.lhs, l); } else { AdditiveMentions(e.rhs, l); }
    }
  }

  lemma {:induction false} UnitStepMentions(e: Expr, l: LoopId)
    requires UnitStep(e, l)
    ensures Mentions(e, l)
  {
    hide Additive, Mentions;
    if Additive(e, l) {
      AdditiveMentions(e, l);
    } else if !Mentions(e, l) {
      Polynomials.StepsByOneExactly(e, l);
      var env, st := Env(EmptyMachine(), map[]), State(map[], []);
      assert Polynomials.NextIsOneFurther(e, l, env, st, 0);
      EvalAgree(e, env.At(l, 1), env.At(l, 0), st, 0);
    }
  }

  lemma {:induction false} VecBodyFacts(ss: seq<Stmt>, l: LoopId)
    requires VecBody(ss, l)
    ensures StoresMention(ss, l)
    decreases ss
  {
    if ss != [] {
      VecBodyFacts(ss[1..], l);
      match ss[0] {
        case Loop(_, _, _, body) => VecBodyFacts(body, l);
        case IfRange(_, _, _, body) => VecBodyFacts(body, l);
        case Store(_, subs, _, _) =>
          UnitStepMentions(subs[|subs| - 1], l);
          assert subs[|subs| - 1] in subs;
      }
    }
  }

  lemma {:induction false} VecInstance(p: Stmt, pe: Env, ss: seq<Stmt>, env: Env, l: LoopId, g: State)
    requires VecBody(ss, l) && IsInstance(p, pe, ss, env, g)
    ensures VecStorable(p, l)
    decreases ss
  {
    if IsInstance(p, pe, ss[1..], env, g) {
      VecInstance(p, pe, ss[1..], env, l, g);
    } else {
      match ss[0] {
        case Loop(id, end, stride, body) =>
          var k: nat :| k < Trip(end, stride) && IsInstance(p, pe, body, env.At(id, k * stride), g);
          VecInstance(p, pe, body, env.At(id, k * stride), l, g);
        case IfRange(_, _, _, body) => VecInstance(p, pe, body, env, l, g);
        case Store(_, _, _, _) =>
      }
    }
  }

  lemma {:induction false} VecBodySteered(ss: seq<Stmt>, l: LoopId)
    requires VecBody(ss, l)
    ensures SteeredWithout(ss, l)
    decreases ss
  {
    if ss != [] {
      VecBodySteered(ss[1..], l);
      match ss[0] {
        case Loop(_, _, _, body) => VecBodySteered(body, l);
        case IfRange(_, _, _, body) => VecBodySteered(body, l);
        case _ =>
      }
    }
  }

  /** Instances of different iterations of L touch no common element with a write. */
  ghost predicate IterationsApart(t: Table, L: Stmt)
    requires L.Loop?
  {
    forall env: Env, g: State, i: nat, j: nat, p: Stmt, pe: Env, q: Stmt, qe: Env
      | ValidEnv(t, env) && i < Trip(L.end, L.stride) && j < Trip(L.end, L.stride) && i != j &&
        IsInstance(p, pe, L.body, env.At(L.id, i * L.stride), g) && p.Store? &&
        IsInstance(q, qe, L.body, env.At(L.id, j * L.stride), g) && q.Store? ::
      Apart(p, pe, q, qe)
  }

  /** In some state the instance reads x. */
  ghost predicate MayRead(p: Stmt, pe: Env, x: Loc)
    requires p.Store?
  {
    exists st: State :: x in ReadLocs(p, pe, st)
  }

  ghost predicate MayWrite(p: Stmt, pe: Env, x: Loc)
    requires p.Store?
  {
    exists st: State :: x == WriteLoc(p, pe, st)
  }

  ghost function AllReads(p: Stmt, pe: Env): iset<Loc>
    requires p.Store?
  {
    iset x: Loc | MayRead(p, pe, x)
  }

  ghost function AllWrites(p: Stmt, pe: Env): iset<Loc>
    requires p.Store?
  {
    iset x: Loc | MayWrite(p, pe, x)
  }

  /** Subscripts of an accepted store read nothing. */
  lemma {:induction false} AcceptedReads(e: Expr, l: LoopId, env: Env, st: State)
    requires AccessKind(e, l) != Other
    ensures Reads(e, env, st, 0) == {}
  {
    if e.Binary? {
      AcceptedReads(e.lhs, l, env, st);
      AcceptedReads(e.rhs, l, env, st);
    }
  }

  lemma {:induction false} StoreConfined(p: Stmt, pe: Env, l: LoopId)
    requires VecStorable(p, l)
    ensures Confined([p], pe, AllReads(p, pe), AllWrites(p, pe))
  {
    assert [p][1..] == [];
    forall st: State
      ensures LeafIn(p, pe, st, AllReads(p, pe), AllWrites(p, pe))
    {
      forall i | 0 <= i < |p.subs| ensures ReadsIn(p.subs[i], pe, st, 0, AllReads(p, pe)) {
        AcceptedReads(p.subs[i], l, pe, st);
      }
      BumpNone(EvalSubs(p.subs, pe, st));
      assert MayWrite(p, pe, WriteLoc(p, pe, st));
      assert ReadsIn(p.value, pe, st, 0, AllReads(p, pe)) by {
        forall x | x in Reads(p.value, pe, st, 0) ensures x in AllReads(p, pe) {
          assert x in ReadLocs(p, pe, st) && MayRead(p, pe, x);
        }
      }
    }
  }

  lemma {:induction false} ApartCommute(p: Stmt, pe: Env, q: Stmt, qe: Env, l: LoopId)
    requires VecStorable(p, l) && VecStorable(q, l) && Apart(p, pe, q, qe) && Apart(q, qe, p, pe)
    ensures Commuting(p, pe, q, qe)
  {
    StoreConfined(p, pe, l);
    StoreConfined(q, qe, l);
    forall st: State
      ensures ExecS(p, pe, ExecS(q, qe, st)) == ExecS(q, qe, ExecS(p, pe, st))
    {
      assert NoConflict(AllReads(p, pe), AllWrites(p, pe), AllReads(q, qe), AllWrites(q, qe));
      ConfinedCommute([p], pe, AllReads(p, pe), AllWrites(p, pe), [q], qe, AllReads(q, qe), AllWrites(q, qe), st);
      ExecOne(p, pe, st);
      ExecOne(q, qe, st);
      ExecOne(p, pe, ExecS(q, qe, st));
      ExecOne(q, qe, ExecS(p, pe, st));
    }
  }

  lemma {:induction false} ApartIterationsCommute(t: Table, L: Stmt)
    requires L.Loop? && VecBody(L.body, L.id) && IterationsApart(t, L)
    ensures IterationsCommute(t, L)
  {
    forall env: Env, i: nat, j: nat, g: State | ValidEnv(t, env) && i < j < Trip(L.end, L.stride)
      ensures InstancesCommute(L.body, env.At(L.id, i * L.stride), L.body, env.At(L.id, j * L.stride), g)
    {
      var e1, e2 := env.At(L.id, i * L.stride), env.At(L.id, j * L.stride);
      forall p: Stmt, pe: Env, q: Stmt, qe: Env
        | IsInstance(p, pe, L.body, e1, g) && IsInstance(q, qe, L.body, e2, g)
        ensures Commuting(p, pe, q, qe)
      {
        VecInstance(p, pe, L.body, e1, L.id, g);
        VecInstance(q, qe, L.body, e2, L.id, g);
        ApartCommute(p, pe, q, qe, L.id);
      }
    }
  }

  /** The lanes of one store instance of a group are apart. */
  lemma {:induction false} InstanceLanesApart(t: Table, L: Stmt, end: nat, vf: nat, env: Env, k: nat, p: Stmt, pe: Env,
                                              g: State)
    requires L.Loop? && L.stride == 1 && vf > 1 && end <= L.end && end % vf == 0 && k < Trip(end, vf)
    requires VecBody(L.body, L.id) && L.id !in BoundB(L.body) && IterationsApart(t, L) && ValidEnv(t, env)
    requires IsInstance(p, pe, L.body, env.At(L.id, k * vf), g)
    ensures p.Store? && LanesApart(p, L.id, vf, pe)
  {
    VecInstance(p, pe, L.body, env.At(L.id, k * vf), L.id, g);
    forall i: nat, j: nat | i < vf && j < vf && i != j
      ensures Apart(p, LaneEnv(pe, L.id, i), p, LaneEnv(pe, L.id, j))
    {
      LaneInstance(t, L, end, vf, env, k, p, pe, i, g);
      LaneInstance(t, L, end, vf, env, k, p, pe, j, g);
      var a, b := k * vf + i, k * vf + j;
      assert IsInstance(p, LaneEnv(pe, L.id, i), L.body, env.At(L.id, a * L.stride), g);
      assert IsInstance(p, LaneEnv(pe, L.id, j), L.body, env.At(L.id, b * L.stride), g);
    }
  }

  lemma {:induction false} LaneInstance(t: Table, L: Stmt, end: nat, vf: nat, env: Env, k: nat, p: Stmt, pe: Env,
                                        i: nat, g: State)
    requires L.Loop? && L.stride == 1 && vf > 1 && end <= L.end && end % vf == 0 && k < Trip(end, vf) && i < vf
    requires VecBody(L.body, L.id) && L.id !in BoundB(L.body)
    requires IsInstance(p, pe, L.body, env.At(L.id, k * vf), g)
    ensures k * vf + i < Trip(L.end, L.stride)
    ensures IsInstance(p, LaneEnv(pe, L.id, i), L.body, env.At(L.id, (k * vf + i) * L.stride), g)
  {
    assert 1 * vf == vf;
    GroupIndex(L.end, end, 1, vf, k, i);
    VecBodySteered(L.body, L.id);
    InstanceMoves(p, pe, L.body, env, L.id, k * vf, k * vf + i, g);
    assert (k * vf + i) * L.stride == k * vf + i;
  }

  /** Iterations that touch nothing in common and keep the guards can be grouped by vectors. */
  lemma {:induction false} VectorGroup(t: Table, L: Stmt, end: nat, vf: nat, scope: set<LoopId>)
    requires L.Loop? && WfS(L, scope) && L.stride == 1 && vf > 1 && end <= L.end && end % vf == 0
    requires VecBody(L.body, L.id) && IterationsApart(t, L) && GuardsKept(t, L)
    ensures GroupsRun(t, L, end, Vector(vf))
  {
    hide VecBody, GuardsKept, IterationsApart, IterationsCommute, Trip, ValidEnv, MapStores, Exec, Nth, Iter;
    WfBoundFresh(L.body, scope + {L.id});
    ApartIterationsCommute(t, L);
    forall env: Env, k: nat, st: State | ValidEnv(t, env) && k < Trip(end, L.stride * vf)
      ensures Exec(MapStores(L.body, L.id, Vector(vf)), env.At(L.id, k * (L.stride * vf)), st) ==
              Iter(Nth(L.body, L.id, k * (L.stride * vf), L.stride, env), vf, st)
    {
      VectorGroupAt(t, L, end, vf, env, k, st);
    }
  }

  lemma {:induction false} VectorGroupAt(t: Table, L: Stmt, end: nat, vf: nat, env: Env, k: nat, st: State)
    requires L.Loop? && L.stride == 1 && vf > 1 && end <= L.end && end % vf == 0
    requires VecBody(L.body, L.id) && L.id !in BoundB(L.body) && IterationsApart(t, L) && IterationsCommute(t, L)
    requires GuardsKept(t, L) && ValidEnv(t, env) && k < Trip(end, L.stride * vf)
    ensures Exec(MapStores(L.body, L.id, Vector(vf)), env.At(L.id, k * (L.stride * vf)), st) ==
            Iter(Nth(L.body, L.id, k * (L.stride * vf), L.stride, env), vf, st)
  {
    hide InstancesCommute, IterationsApart, IterationsCommute, ImagesOk, ValidEnv, VecBody, Trip, MapStores, Exec, Nth,
      Iter, GuardsKept, GroupKeeps;
    var mode := Vector(vf);
    VecBodyFacts(L.body, L.id);
    assert L.stride * vf == vf;
    var base := k * (L.stride * vf);
    forall i: nat, j: nat | i < j < vf
      ensures InstancesCommute(L.body, env.At(L.id, base + i * 1), L.body, env.At(L.id, base + j * 1), st)
    {
      CommutingPair(t, L, end, mode, env, k, i, j, st);
    }
    KeepingGroup(t, L, end, mode, env, k, st);
    VectorImages(t, L, end, vf, env, k, st);
    GroupRuns(L.body, L.id, base, mode, env, st);
  }

  lemma {:induction false} VectorImages(t: Table, L: Stmt, end: nat, vf: nat, env: Env, k: nat, g: State)
    requires L.Loop? && L.stride == 1 && vf > 1 && end <= L.end && end % vf == 0 && k < Trip(end, vf)
    requires VecBody(L.body, L.id) && L.id !in BoundB(L.body) && IterationsApart(t, L) && ValidEnv(t, env)
    ensures ImagesOk(L.body, env.At(L.id, k * vf), L.id, Vector(vf), g)
  {
    forall p: Stmt, pe: Env | IsInstance(p, pe, L.body, env.At(L.id, k * vf), g) && p.Store?
      ensures ImageOk(p, pe, L.id, Vector(vf))
    {
      VecInstance(p, pe, L.body, env.At(L.id, k * vf), L.id, g);
      InstanceLanesApart(t, L, end, vf, env, k, p, pe, g);
      forall st: State
        ensures Exec(Image(p, L.id, Vector(vf)), pe, st) == Iter(Nth([p], L.id, pe.Get(L.id), 1, pe), vf, st)
      {
        VectorRun(p, L.id, vf, pe, st);
      }
    }
  }

  /** Stores vectorize as intended, iterations touch nothing in common with a write, and no store
      changes the answer of a guard. */
  ghost predicate VecLegal(t: Table, L: Stmt)
    requires L.Loop?
  {
    VecBody(L.body, L.id) && IterationsApart(t, L) && GuardsKept(t, L)
  }

  /** The vector loop with its scalar tail computes the same memory as the scalar loop. */
  lemma {:induction false} VectorizePreserves(t: Table, L: Stmt, vf: nat, next: LoopId, scope: set<LoopId>)
    requires L.Loop? && WfS(L, scope) && Below(scope, next) && Below(Bound(L), next)
    requires vf > 1 && CanVectorize(L, vf) && VecLegal(t, L)
    ensures L.stride * vf > 0
    ensures SameIn(t, [L], GroupedLoops(L, Vector(vf), next))
  {
    CutFacts(L.end, L.stride, vf);
    assert L.stride * vf == vf;
    VectorGroup(t, L, Cut(L.end, vf), vf, scope);
    GroupedLoopsPreserve(t, L, Vector(vf), next, scope);
  }

  // ---- When the result passes verify() --------------------------------------------------------

  lemma {:induction false} VecInScope(e: Expr, l: LoopId, vf: nat, scope: set<LoopId>)
    requires InScope(e, scope)
    ensures InScope(VecExpr(e, l, vf), scope)
  {
    match e
    case Binary(_, a, b) => VecInScope(a, l, vf, scope); VecInScope(b, l, vf, scope);
    case Unary(_, v) => VecInScope(v, l, vf, scope);
    case _ =>
  }

  /** Vector stores keep the body verified. */
  lemma {:induction false} MapStoresVerified(ss: seq<Stmt>, l: LoopId, vf: nat, scope: set<LoopId>)
    requires VerifiedB(ss, scope)
    ensures VerifiedB(MapStores(ss, l, Vector(vf)), scope) && BoundB(MapStores(ss, l, Vector(vf))) == BoundB(ss)
    decreases ss
  {
    hide InScope, InScopeAll, VecExpr;
    var mode := Vector(vf);
    NothingMapped(l, mode);
    if ss != [] {
      MapStoresVerified(ss[1..], l, vf, scope);
      assert [ss[0]][1..] == [];
      var out: Stmt;
      match ss[0] {
        case Loop(id, end, stride, body) =>
          MapStoresVerified(body, l, vf, scope + {id});
          out := Loop(id, end, stride, MapStores(body, l, mode));
        case IfRange(v, start, stop, body) =>
          MapStoresVerified(body, l, vf, scope);
          out := IfRange(v, start, stop, MapStores(body, l, mode));
        case Store(_, _, _, _) =>
          VecStoreVerified(ss[0], l, vf, scope);
          out := if MentionsS(ss[0], l) then VecStore(ss[0], l, vf) else ss[0];
        case _ => out := ss[0];
      }
      assert MapStores([ss[0]], l, mode) == [out];
      MapStoresHead(ss, l, mode);
      Single(out);
      VerifiedOne(out, scope);
      VerifiedAppend([out], MapStores(ss[1..], l, mode), scope);
      BoundAppend([out], MapStores(ss[1..], l, mode));
    }
  }

  lemma {:induction false} VecStoreVerified(p: Stmt, l: LoopId, vf: nat, scope: set<LoopId>)
    requires p.Store? && VerifiedS(p, scope)
    ensures VerifiedS(VecStore(p, l, vf), scope) && Bound(VecStore(p, l, vf)) == {}
  {
    VecInScope(p.value, l, vf, scope);
  }

  /** The vector loop and its tail pass verify() exactly when the width stays below the limit of strides. */
  lemma {:induction false} VectorizeWf(L: Stmt, vf: nat, next: LoopId, scope: set<LoopId>)
    requires L.Loop? && WfS(L, scope) && Below(scope, next) && Below(Bound(L), next) && vf > 0 && CanVectorize(L, vf)
    ensures L.stride * vf > 0
    ensures var out := GroupedLoops(L, Vector(vf), next);
      (VerifiedB(out, scope) <==> vf < 1024) && OnlyNew(out, L, next)
  {
    hide MapStores, WfB, VerifiedB, MayVectorizeBody;
    var mode := Vector(vf);
    assert L.stride * vf == vf;
    CutFacts(L.end, 1, vf);
    var k := Cut(L.end, vf);
    var G := Grouped(L, k, mode);
    WfExactly(L.body, scope + {L.id});
    MapStoresVerified(L.body, L.id, vf, scope + {L.id});
    assert VerifiedS(G, scope) <==> vf < 1024;
    assert Bound(G) == Bound(L);
    Single(G);
    VerifiedOne(G, scope);
    if L.end % vf != 0 {
      var H, T := PeeledHead(L, k), PeeledTail(L, k, next);
      PeelWf(L, k, next, scope);
      PairWf(H, T, scope);
      Single(T);
      WfExactly([T], scope);
      assert [G, T] == [G] + [T];
      VerifiedAppend([G], [T], scope);
      BoundAppend([G], [T]);
    }
  }

  /** In its scope, too. */
  lemma {:induction false} VectorSplicedWf(ss: seq<Stmt>, pos: nat, vf: nat, next: LoopId, scope: set<LoopId>)
    requires pos < |ss| && ss[pos].Loop? && WfB(ss, scope) && Below(scope, next) && Below(BoundB(ss), next)
    requires vf > 0 && CanVectorize(ss[pos], vf)
    ensures ss[pos].stride * vf > 0
    ensures VerifiedB(Spliced(ss, pos, GroupedLoops(ss[pos], Vector(vf), next)), scope) <==> vf < 1024
  {
    hide WfB, VerifiedB, CanVectorize, GroupedLoops;
    var L := ss[pos];
    SplitAt(ss, pos, scope);
    VectorizeWf(L, vf, next, scope);
    var a, r, c := ss[..pos], GroupedLoops(L, Vector(vf), next), ss[pos + 1..];
    WfExactly(a, scope);
    WfExactly(c, scope);
    VerifiedAppend(a + r, c, scope);
    VerifiedAppend(a, r, scope);
    BoundAppend(a, r);
  }

  /** q is p, or stores to the same place, in the same way, as many elements as there are lanes. */
  predicate VectorOf(p: Stmt, l: LoopId, q: Stmt)
  {
    if p.Store? && MentionsS(p, l) then
      q.Store? && q.arg == p.arg && q.subs == p.subs && q.acc == p.acc && TypeOf(q.value).IsVector()
    else q == p
  }

  /** Leaf by leaf. */
  predicate VectorsOf(was: seq<Stmt>, l: LoopId, now: seq<Stmt>)
  {
    |now| == |was| && forall k: nat | k < |was| :: VectorOf(was[k], l, now[k])
  }

  lemma {:induction false} VectorLeaf(s: Stmt, l: LoopId, vf: nat)
    requires vf > 1
    requires s.IsScope() ==> VectorsOf(Leaves(s.body), l, Leaves(MapStores(s.body, l, Vector(vf))))
    ensures VectorsOf(Leaves([s]), l, Leaves(MapStores([s], l, Vector(vf))))
  {
    hide VecExpr, MentionsS;
    var mode := Vector(vf);
    NothingMapped(l, mode);
    var first := MapStores([s], l, mode);
    assert [s][1..] == [] && Leaves([]) == [];
    match s
    case Loop(id, end, stride, body) =>
      var s' := Loop(id, end, stride, MapStores(body, l, mode));
      assert first == [s'] && [s'][1..] == [] && Leaves(first) == Leaves(s'.body) && Leaves([s]) == Leaves(body);
    case IfRange(v, start, stop, body) =>
      var s' := IfRange(v, start, stop, MapStores(body, l, mode));
      assert first == [s'] && [s'][1..] == [] && Leaves(first) == Leaves(s'.body) && Leaves([s]) == Leaves(body);
    case Store(_, _, _, _) =>
      var s' := if MentionsS(s, l) then VecStore(s, l, vf) else s;
      assert first == [s'] && [s'][1..] == [] && Leaves(first) == [s'] && Leaves([s]) == [s];
    case _ => assert first == [s] && Leaves([s]) == [s];
  }

  /** Exactly the stores that use the index become vector stores. */
  lemma {:induction false} VectorLeaves(ss: seq<Stmt>, l: LoopId, vf: nat)
    requires vf > 1
    ensures VectorsOf(Leaves(ss), l, Leaves(MapStores(ss, l, Vector(vf))))
    decreases ss
  {
    hide MapStores, Leaves, VectorOf;
    var mode := Vector(vf);
    if ss == [] {
      NothingMapped(l, mode);
      NoLeaves(l);
    } else {
      var one, rest := [ss[0]], ss[1..];
      if ss[0].IsScope() { VectorLeaves(ss[0].body, l, vf); }
      VectorLeaf(ss[0], l, vf);
      VectorLeaves(rest, l, vf);
      assert ss == one + rest;
      MapStoresHead(ss, l, mode);
      LeavesAppend(MapStores(one, l, mode), MapStores(rest, l, mode));
      LeavesAppend(one, rest);
    }
  }

  // ---- vectorize in place -------------------------------------------------------------------------

  /** Replaces every store site of the scope and of the scopes inside it. */
  method VectorizeSites(s: Scope, l: LoopId, vf: nat)
    modifies s
    ensures s.body == MapStores(old(s.body), l, Vector(vf))
    decreases s.body
  {
    ghost var ss := s.body;
    ghost var mode := Vector(vf);
    var i := 0;
    while i < |s.body|
      invariant 0 <= i <= |s.body| == |ss|
      invariant s.body[..i] == MapStores(ss[..i], l, mode)
      invariant s.body[i..] == ss[i..]
    {
      var S := s.body[i];
      assert S == s.body[i..][0] == ss[i];
      assert ss[..i + 1] == ss[..i] + [S];
      MapStoresAppend(ss[..i], [S], l, mode);
      assert [S][1..] == [] && MapStores([], l, mode) == [];
      ghost var now := s.body;
      match S {
        case Store(_, _, _, _) =>
          if MentionsS(S, l) {
            s.ReplaceStmt(VecStore(S, l, vf), i);
          }
        case Loop(id, end, stride, body) =>
          var inner := new Scope(body);
          VectorizeSites(inner, l, vf);
          s.ReplaceStmt(Loop(id, end, stride, inner.body), i);
        case IfRange(v, start, stop, body) =>
          var inner := new Scope(body);
          VectorizeSites(inner, l, vf);
          s.ReplaceStmt(IfRange(v, start, stop, inner.body), i);
        case _ =>
      }
      assert [s.body[i]] == MapStores([S], l, mode);
      assert s.body[..i + 1] == now[..i] + [s.body[i]];
      assert s.body[i + 1..] == now[i..][1..] == ss[i + 1..];
      i := i + 1;
    }
    assert s.body[..i] == s.body && ss[..i] == ss;
  }

  lemma {:induction false} VectorSpliced(ss: seq<Stmt>, pos: nat, vf: nat, next: LoopId, t: Table)
    requires pos < |ss| && ss[pos].Loop? && WfB(ss, t.Keys) && Below(t.Keys, next) && Below(BoundB(ss), next)
    requires vf > 1 && CanVectorize(ss[pos], vf)
    ensures ss[pos].stride * vf > 0
    ensures VecLegal(t, ss[pos]) ==>
      SameIn(t, ss, Spliced(ss, pos, GroupedLoops(ss[pos], Vector(vf), next)))
  {
    var L := ss[pos];
    SplitAt(ss, pos, t.Keys);
    CutFacts(L.end, L.stride, vf);
    if VecLegal(t, L) {
      VectorizePreserves(t, L, vf, next, t.Keys);
      SplicedSame(t, ss, pos, GroupedLoops(L, Vector(vf), next));
    }
  }

  /** vectorize(L, vf) for the loop at parent.body[pos]; the loops around it have ranges t. */
  method Vectorize(parent: Scope, pos: nat, vf: nat, ids: IdSupply, ghost t: Table)
    returns (r: Option<LoopId>)
    requires pos < |parent.body| && parent.body[pos].Loop? && 1 < vf < 64
    requires WfB(parent.body, t.Keys) && ids.Newer(t.Keys) && ids.Newer(BoundB(parent.body))
    modifies parent, ids
    ensures r.Some? <==>
      var L := old(parent.body[pos]);
      L.end >= vf && L.stride == 1 && BodyLinedUp(L.body, L.id)
    ensures var L := old(parent.body[pos]);
      StraightBody(L.body, L.id) && L.end >= vf && L.stride == 1 ==> r.Some?
    ensures r.Some? ==>
      var L := old(parent.body[pos]);
      forall s | s in Leaves(L.body) && MentionsS(s, L.id) :: SiteStays(s, L.id)
    ensures r.None? ==> parent.body == old(parent.body)
    // Whole vectors stay with L, and what is left over is shorter than a vector.
    ensures r.Some? ==>
      var L := old(parent.body[pos]);
      pos < |parent.body| && parent.body[pos].Loop? && parent.body[pos].stride == vf &&
      parent.body[pos].end <= L.end < parent.body[pos].end + vf && parent.body[pos].end % vf == 0 &&
      VectorsOf(Leaves(L.body), L.id, Leaves(parent.body[pos].body))
    ensures r.Some? ==>
      var L := old(parent.body[pos]);
      L.stride * vf > 0 &&
      parent.body == Spliced(old(parent.body), pos, GroupedLoops(L, Vector(vf), old(ids.next))) &&
      r.value == (if L.end % vf == 0 then L.id else old(ids.next))
    ensures r.Some? && VecLegal(t, old(parent.body[pos])) ==> SameIn(t, old(parent.body), parent.body)
    ensures r.Some? ==> VerifiedB(parent.body, t.Keys)
    ensures ids.Newer(t.Keys) && ids.Newer(BoundB(parent.body))
  {
    hide MapStores, VecLegal, MayVectorizeBody, GroupedLoops, Spliced, SameIn, BodyLinedUp, StraightBody, VectorsOf,
      SiteStays;
    var L := parent.body[pos];
    SplitAt(parent.body, pos, t.Keys);
    assert WfS(L, t.Keys);
    BodyExactly(L.body, L.id);
    if StraightBody(L.body, L.id) { StraightAccepted(L.body, L.id); }
    // Too short for one vector, or already grouped.
    if L.end < vf || L.stride != 1 { return None; }
    // Only stores, ifs and loops, and every use of the index in a store that qualifies.
    if !MayVectorizeBody(L.body, L.id) { return None; }
    AcceptedStays(L, vf);
    assert L.stride * vf == vf;
    GroupedAt(parent.body, pos, Vector(vf), ids.next);
    VectorLeaves(L.body, L.id, vf);
    CutFacts(L.end, 1, vf);
    VectorSpliced(parent.body, pos, vf, ids.next, t);
    VectorSplicedWf(parent.body, pos, vf, ids.next, t.Keys);
    ghost var before, next := parent.body, ids.next;
    var res, end := SplitTail(parent, pos, vf, ids, t.Keys);
    // Update the stores and the stride.
    var body := new Scope(L.body);
    VectorizeSites(body, L.id, vf);
    var G := Loop(L.id, end, vf, body.body);
    GroupedSplice(before, pos, Vector(vf), next);
    assert Bound(G) == Bound(L) by {
      WfExactly(L.body, t.Keys + {L.id});
      MapStoresVerified(L.body, L.id, vf, t.Keys + {L.id});
    }
    SameBound(parent.body, pos, G);
    parent.ReplaceStmt(G, pos);
    r := Some(res);
  }
}
