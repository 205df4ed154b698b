/** estimateCompute: memory and arithmetic operations of a program, counted without running it. */
module Estimate {
  import opened IR
  import opened Families
  import opened Semantics
  import opened Substitution
  import opened Clone
  import opened Context
  import opened Tiling
  import opened Peeling
  import opened Distribution
  import opened Interchange
  import opened Fusion
  import opened FuseTree

  /** Memory operations and arithmetic operations. */
  datatype Cost = Cost(mem: nat, ops: nat)

  const ZERO := Cost(0, 0)

  function Plus(a: Cost, b: Cost): Cost { Cost(a.mem + b.mem, a.ops + b.ops) }

  function Times(n: nat, c: Cost): Cost { Cost(n * c.mem, n * c.ops) }

  predicate AtMost(a: Cost, b: Cost) { a.mem <= b.mem && a.ops <= b.ops }

  lemma {:induction false} TimesPlus(n: nat, a: Cost, b: Cost)
    ensures Times(n, Plus(a, b)) == Plus(Times(n, a), Times(n, b))
  {
    assert n * (a.mem + b.mem) == n * a.mem + n * b.mem;
    assert n * (a.ops + b.ops) == n * a.ops + n * b.ops;
  }

  lemma {:induction false} TimesTimes(m: nat, n: nat, c: Cost)
    ensures Times(m, Times(n, c)) == Times(m * n, c)
  {
    Regroup(m, n, c.mem);
    Regroup(m, n, c.ops);
  }

  lemma {:induction false} PlusTimes(m: nat, n: nat, c: Cost)
    ensures Plus(Times(m, c), Times(n, c)) == Times(m + n, c)
  {
    assert m * c.mem + n * c.mem == (m + n) * c.mem;
    assert m * c.ops + n * c.ops == (m + n) * c.ops;
  }

  /** Repeating more often costs more, unless there is nothing to repeat. */
  lemma {:induction false} TimesExactly(m: nat, n: nat, c: Cost)
    requires m < n
    ensures Times(m, c) == Times(n, c) <==> c == ZERO
  {
    if c.mem > 0 { MulGap(m, n, c.mem); }
    if c.ops > 0 { MulGap(m, n, c.ops); }
  }

  // ---- The estimate --------------------------------------------------------------------------

  /** Subscripts are free, and so is arithmetic on indices. */
  function CostE(e: Expr): Cost
  {
    match e
    case Load(_, _, ty) => Cost(ty.width, 0)
    case Binary(_, a, b) => Plus(Plus(CostE(a), CostE(b)), Cost(0, if TypeOf(a).IsIndexTy() then 0 else Width(e)))
    case Unary(_, v) => Plus(CostE(v), Cost(0, Width(e)))
    case Broadcast(x, _) => Plus(CostE(x), Cost(0, 1))
    case _ => ZERO
  }

  function TripCount(end: nat, stride: nat): nat { if stride == 0 then 0 else end / stride }

  /** An accumulating store loads, adds and stores; locals are free. */
  function CostS(s: Stmt): Cost
  {
    match s
    case Loop(_, end, stride, body) => Times(TripCount(end, stride), CostB(body))
    case IfRange(v, _, _, body) => Plus(CostE(v), CostB(body))
    case Store(_, _, v, acc) => Plus(CostE(v), if acc then Cost(2 * Width(v), Width(v)) else Cost(Width(v), 0))
    case StoreLocal(_, v, acc) => Plus(CostE(v), Cost(0, if acc then Width(v) else 0))
    case Call(_, _) => ZERO
  }

  lemma {:induction false} SumCost(a: Expr, b: Expr)
    ensures CostE(Binary(Add, a, b)) ==
      Plus(Plus(CostE(a), CostE(b)), Cost(0, if TypeOf(a).IsIndexTy() then 0 else Width(a)))
    ensures Width(Binary(Add, a, b)) == Width(a)
  {}

  lemma {:induction false} StoreCost(arg: nat, subs: seq<Expr>, v: Expr, acc: bool)
    ensures CostS(Store(arg, subs, v, acc)) ==
      Plus(CostE(v), if acc then Cost(2 * Width(v), Width(v)) else Cost(Width(v), 0))
  {
    hide CostE, CostB, Times;
  }

  /** A[x] += v costs what A[x] = A[x] + v costs. */
  lemma {:induction false} AccumulateCost(arg: nat, subs: seq<Expr>, v: Expr)
    requires !TypeOf(v).IsIndexTy()
    ensures CostS(Store(arg, subs, v, true)) ==
            CostS(Store(arg, subs, Binary(Add, Load(arg, subs, TypeOf(v)), v), false))
  {
    hide CostE, CostS, Width;
    var x := Load(arg, subs, TypeOf(v));
    LoadCost(arg, subs, TypeOf(v));
    SumCost(x, v);
    StoreCost(arg, subs, v, true);
    StoreCost(arg, subs, Binary(Add, x, v), false);
    assert Width(v) == TypeOf(v).width by { SameWidth(v); }
  }

  lemma {:induction false} LoadCost(arg: nat, subs: seq<Expr>, ty: ExprType)
    ensures CostE(Load(arg, subs, ty)) == Cost(ty.width, 0)
    ensures TypeOf(Load(arg, subs, ty)) == ty && Width(Load(arg, subs, ty)) == ty.width
  {}

  lemma {:induction false} SameWidth(v: Expr)
    ensures Width(v) == TypeOf(v).width
  {}

  function CostB(ss: seq<Stmt>): Cost
  {
    if ss == [] then ZERO else Plus(CostS(ss[0]), CostB(ss[1..]))
  }

  lemma {:induction false} CostAppend(a: seq<Stmt>, b: seq<Stmt>)
    ensures CostB(a + b) == Plus(CostB(a), CostB(b))
  {
    hide CostS;
    if a == [] {
      assert a + b == b;
    } else {
      assert (a + b)[0] == a[0] && (a + b)[1..] == a[1..] + b;
      CostAppend(a[1..], b);
    }
  }

  lemma {:induction false} CostOne(s: Stmt)
    ensures CostB([s]) == CostS(s)
  {
    hide CostS;
    assert [s][1..] == [];
  }

  /** What the estimator has a cost for: it stops at calls and string constants. */
  predicate PricedE(e: Expr)
  {
    match e
    case ConstStr(_) => false
    case Binary(_, a, b) => PricedE(a) && PricedE(b)
    case Unary(_, v) => PricedE(v)
    case Load(_, subs, _) => forall x | x in subs :: PricedE(x)
    case Broadcast(x, _) => PricedE(x)
    case _ => true
  }

  predicate PricedS(s: Stmt)
  {
    match s
    case Loop(_, _, stride, body) => stride > 0 && forall x | x in body :: PricedS(x)
    case IfRange(v, _, _, body) => PricedE(v) && forall x | x in body :: PricedS(x)
    case Store(_, subs, v, _) => (forall x | x in subs :: PricedE(x)) && PricedE(v)
    case StoreLocal(_, v, _) => PricedE(v)
    case Call(_, _) => false
  }

  /** ComputeEstimator, leaving a statement whose parts have been visited. */
  method EstimateS(s: Stmt) returns (total: Cost)
    requires PricedS(s)
    ensures total == CostS(s)
    decreases s
  {
    hide CostE, CostB, Times, PricedE;
    match s {
      case Loop(_, end, stride, body) => total := EstimateB(body, end / stride);
      case IfRange(v, _, _, body) =>
        var rest := EstimateB(body, 1);
        TimesOne(CostB(body));
        total := Plus(CostE(v), rest);
      case Store(_, _, v, acc) =>
        total := CostE(v);
        total := if acc then Cost(total.mem + 2 * Width(v), total.ops + Width(v))
          else Cost(total.mem + Width(v), total.ops);
      case StoreLocal(_, v, acc) =>
        total := CostE(v);
        if acc { total := Cost(total.mem, total.ops + Width(v)); }
    }
  }

  /** The cost of every statement of a scope, each times the number of passes. */
  method EstimateB(ss: seq<Stmt>, passes: nat) returns (total: Cost)
    requires forall x | x in ss :: PricedS(x)
    ensures total == Times(passes, CostB(ss))
    decreases ss
  {
    hide CostS, CostB, PricedS;
    total := ZERO;
    var i := 0;
    CostNone(passes);
    assert ss[..0] == [];
    while i < |ss|
      invariant 0 <= i <= |ss| && total == Times(passes, CostB(ss[..i]))
    {
      hide CostS, CostB, PricedS;
      var res := EstimateS(ss[i]);
      CostStep(ss, i, passes);
      total := Cost(total.mem + passes * res.mem, total.ops + passes * res.ops);
      i := i + 1;
    }
    assert ss[..i] == ss;
  }

  lemma {:induction false} TimesOne(c: Cost)
    ensures Times(1, c) == c
  {}

  lemma {:induction false} TimesNone(c: Cost)
    ensures Times(0, c) == ZERO
  {}

  lemma {:induction false} NoCost()
    ensures CostB([]) == ZERO
  {}

  lemma {:induction false} CostNone(n: nat)
    ensures Times(n, CostB([])) == ZERO
  {}

  lemma {:induction false} CostStep(ss: seq<Stmt>, i: nat, n: nat)
    requires i < |ss|
    ensures Times(n, CostB(ss[..i + 1])) == Plus(Times(n, CostB(ss[..i])), Times(n, CostS(ss[i])))
  {
    hide CostS, CostB, Times;
    CostSnoc(ss, i);
    TimesPlus(n, CostB(ss[..i]), CostS(ss[i]));
  }

  lemma {:induction false} CostSnoc(ss: seq<Stmt>, i: nat)
    requires i < |ss|
    ensures CostB(ss[..i + 1]) == Plus(CostB(ss[..i]), CostS(ss[i]))
  {
    hide CostS, CostB;
    assert ss[..i + 1] == ss[..i] + [ss[i]];
    CostAppend(ss[..i], [ss[i]]);
    CostOne(ss[i]);
  }

  // ---- What a run really does -------------------------------------------------------------------

  ghost function Sum(f: nat -> Cost, n: nat): Cost
  {
    if n == 0 then ZERO else Plus(Sum(f, n - 1), f(n - 1))
  }

  /** Operations of one run, iteration by iteration; a guard that fails skips its scope. */
  ghost function TallyS(s: Stmt, env: Env, st: State): Cost
    decreases s
  {
    match s
    case Loop(id, end, stride, body) =>
      Sum((k: nat) => TallyB(body, env.At(id, k * stride), Iter(Body(body, id, stride, env), k, st)), Trip(end, stride))
    case IfRange(v, start, stop, body) =>
      Plus(CostE(v), if start <= AsInt(Eval(v, env, st, 0)) < stop then TallyB(body, env, st) else ZERO)
    case _ => CostS(s)
  }

  ghost function TallyB(ss: seq<Stmt>, env: Env, st: State): Cost
    decreases ss
  {
    if ss == [] then ZERO else Plus(TallyS(ss[0], env, st), TallyB(ss[1..], env, ExecS(ss[0], env, st)))
  }

  predicate NoIfS(s: Stmt) { !s.IfRange? && (s.Loop? ==> NoIf(s.body)) }

  predicate NoIf(ss: seq<Stmt>) { ss == [] || (NoIfS(ss[0]) && NoIf(ss[1..])) }

  lemma {:induction false} SumConst(f: nat -> Cost, n: nat, c: Cost)
    requires forall k: nat :: k < n ==> f(k) == c
    ensures Sum(f, n) == Times(n, c)
  {
    if n > 0 {
      SumConst(f, n - 1, c);
      PlusTimes(n - 1, 1, c);
    }
  }

  lemma {:induction false} SumAtMost(f: nat -> Cost, n: nat, c: Cost)
    requires forall k: nat :: k < n ==> AtMost(f(k), c)
    ensures AtMost(Sum(f, n), Times(n, c))
  {
    if n > 0 {
      SumAtMost(f, n - 1, c);
      PlusTimes(n - 1, 1, c);
    }
  }

  /** Without ifs the estimate is the count of every run. */
  lemma {:induction false} EstimateCounts(ss: seq<Stmt>, scope: set<LoopId>, env: Env, st: State)
    requires WfB(ss, scope) && NoIf(ss)
    ensures TallyB(ss, env, st) == CostB(ss)
    decreases ss
  {
    if ss != [] {
      EstimateCounts(ss[1..], scope, env, ExecS(ss[0], env, st));
      match ss[0] {
        case Loop(id, end, stride, body) =>
          TripExact(end, stride);
          var f := (k: nat) => TallyB(body, env.At(id, k * stride), Iter(Body(body, id, stride, env), k, st));
          forall k: nat {
            EstimateCounts(body, scope + {id}, env.At(id, k * stride), Iter(Body(body, id, stride, env), k, st));
          }
          SumConst(f, Trip(end, stride), CostB(body));
        case _ =>
      }
    }
  }

  /** With ifs no run does more than the estimate: every guard is taken to succeed. */
  lemma {:induction false} EstimateBounds(ss: seq<Stmt>, scope: set<LoopId>, env: Env, st: State)
    requires WfB(ss, scope)
    ensures AtMost(TallyB(ss, env, st), CostB(ss))
    decreases ss
  {
    if ss != [] {
      EstimateBounds(ss[1..], scope, env, ExecS(ss[0], env, st));
      match ss[0] {
        case Loop(id, end, stride, body) =>
          TripExact(end, stride);
          var f := (k: nat) => TallyB(body, env.At(id, k * stride), Iter(Body(body, id, stride, env), k, st));
          forall k: nat {
            EstimateBounds(body, scope + {id}, env.At(id, k * stride), Iter(Body(body, id, stride, env), k, st));
          }
          SumAtMost(f, Trip(end, stride), CostB(body));
        case IfRange(_, _, _, body) => EstimateBounds(body, scope, env, st);
        case _ =>
      }
    }
  }

  // ---- Rewrites conserve it -----------------------------------------------------------------------

  /** Somewhere in a program, only the cost of the replaced statements matters. */
  lemma {:induction false} PlugCost(fs: seq<Frame>, a: seq<Stmt>, b: seq<Stmt>)
    requires CostB(a) == CostB(b)
    ensures CostB(Plug(fs, a)) == CostB(Plug(fs, b))
  {
    hide CostE, CostB, Times;
    if fs != [] {
      PlugCost(fs[1..], a, b);
      var f, a', b' := fs[0], Plug(fs[1..], a), Plug(fs[1..], b);
      CostOne(Wrap(f, a'));
      CostOne(Wrap(f, b'));
      AroundCost(f.before, [Wrap(f, a')], [Wrap(f, b')], f.after);
    }
  }

  lemma {:induction false} AroundCost(pre: seq<Stmt>, a: seq<Stmt>, b: seq<Stmt>, post: seq<Stmt>)
    requires CostB(a) == CostB(b)
    ensures CostB(pre + a + post) == CostB(pre + b + post)
  {
    hide CostS;
    CostAppend(pre + a, post);
    CostAppend(pre + b, post);
    CostAppend(pre, a);
    CostAppend(pre, b);
  }

  lemma {:induction false} IndexOnlyType(r: Expr)
    requires IndexOnly(r)
    ensures TypeOf(r) == ExprType(IndexTy, 1)
  {
    if r.Binary? { IndexOnlyType(r.lhs); }
  }

  lemma {:induction false} IndexOnlyParts(r: Expr)
    requires IndexOnly(r)
    ensures r.Binary? || r.Const? || r.Index?
    ensures r.Binary? ==> IndexOnly(r.lhs) && IndexOnly(r.rhs)
  {}

  lemma {:induction false} IndexOnlyFree(r: Expr)
    requires IndexOnly(r)
    ensures CostE(r) == ZERO && TypeOf(r) == ExprType(IndexTy, 1)
  {
    hide TypeOf, IndexOnly;
    IndexOnlyType(r);
    IndexOnlyParts(r);
    if r.Binary? {
      IndexOnlyFree(r.lhs);
      IndexOnlyFree(r.rhs);
    }
  }

  /** A loop index replaced by arithmetic on indices. */
  lemma {:induction false} SubstCostE(e: Expr, l: LoopId, r: Expr)
    requires Scalar(e) && IndexOnly(r)
    ensures CostE(Subst(e, l, r)) == CostE(e) && TypeOf(Subst(e, l, r)) == TypeOf(e)
  {
    SubstType(e, l, r);
    match e
    case Index(_, _) => IndexOnlyFree(r);
    case Binary(_, a, b) => SubstCostE(a, l, r); SubstCostE(b, l, r);
    case Unary(_, v) => SubstCostE(v, l, r);
    case Broadcast(x, _) => SubstCostE(x, l, r);
    case _ =>
  }

  lemma {:induction false} SubstCost(ss: seq<Stmt>, l: LoopId, r: Expr)
    requires ScalarB(ss) && IndexOnly(r)
    ensures CostB(SubstB(ss, l, r)) == CostB(ss)
    decreases ss
  {
    hide Times;
    if ss != [] {
      SubstCost(ss[1..], l, r);
      match ss[0] {
        case Loop(_, _, _, body) => SubstCost(body, l, r);
        case IfRange(v, _, _, body) => SubstCostE(v, l, r); SubstCost(body, l, r);
        case Store(_, _, v, _) => SubstCostE(v, l, r);
        case StoreLocal(_, v, _) => SubstCostE(v, l, r);
        case Call(_, _) =>
      }
    }
  }

  lemma {:induction false} CloneCostE(e: Expr, ctx: map<LoopId, LoopId>)
    requires Scalar(e)
    ensures CostE(CloneE(e, ctx)) == CostE(e) && TypeOf(CloneE(e, ctx)) == TypeOf(e)
  {
    match e
    case Binary(_, a, b) => CloneCostE(a, ctx); CloneCostE(b, ctx);
    case Unary(_, v) => CloneCostE(v, ctx);
    case Broadcast(x, _) => CloneCostE(x, ctx);
    case _ =>
  }

  lemma {:induction false} CloneCostS(s: Stmt, ctx: map<LoopId, LoopId>, next: LoopId)
    requires ScalarS(s)
    ensures CostB(CloneS(s, ctx, next).out) == CostS(s)
    decreases s
  {
    hide Times;
    CloneCtxS(s, ctx, next);
    var out := CloneS(s, ctx, next).out;
    assert out == [out[0]];
    CostOne(out[0]);
    match s
    case Loop(id, _, _, body) => CloneCost(body, ctx[id := next], next + 1);
    case IfRange(v, _, _, body) => CloneCostE(v, ctx); CloneCost(body, ctx, next);
    case Store(_, _, v, _) => CloneCostE(v, ctx);
    case StoreLocal(_, v, _) => CloneCostE(v, ctx);
    case Call(_, _) =>
  }

  lemma {:induction false} CloneCost(ss: seq<Stmt>, ctx: map<LoopId, LoopId>, next: LoopId)
    requires ScalarB(ss)
    ensures CostB(CloneB(ss, ctx, next).out) == CostB(ss)
    decreases ss
  {
    hide Times;
    if ss != [] {
      var a := CloneS(ss[0], ctx, next);
      CloneCostS(ss[0], ctx, next);
      CloneCost(ss[1..], a.ctx, a.next);
      CostAppend(a.out, CloneB(ss[1..], a.ctx, a.next).out);
    }
  }

  /** tile keeps the estimate exactly when the tiles divide the range, or the body is free. */
  lemma {:induction false} TileCostExactly(L: Stmt, blockSize: nat, tile: LoopId, scope: set<LoopId>)
    requires L.Loop? && WfS(L, scope) && blockSize > 0 && blockSize % L.stride == 0
    ensures CostS(Tiled(L, blockSize, tile)) == CostS(L) <==> L.end % blockSize == 0 || CostB(L.body) == ZERO
  {
    hide Times, Tiled, TileCount, CostB;
    var s, T := L.stride, TileCount(L.end, blockSize);
    var c := blockSize / s;
    TripExact(blockSize, s);
    TripExact(L.end, s);
    assert blockSize == c * s && c > 0;
    TileCover(L.end, s, c);
    TiledCost(L, blockSize, tile, scope);
    TimesTimes(T, c, CostB(L.body));
    if L.end % blockSize != 0 {
      TileOverruns(L.end, s, c);
      TimesExactly(L.end / s, T * c, CostB(L.body));
    }
  }

  lemma {:induction false} TiledCost(L: Stmt, blockSize: nat, tile: LoopId, scope: set<LoopId>)
    requires L.Loop? && L.stride > 0 && blockSize > 0 && WfS(L, scope)
    ensures CostS(Tiled(L, blockSize, tile)) ==
            Times(TileCount(L.end, blockSize), Times(TripCount(blockSize, L.stride), CostB(L.body)))
  {
    hide Times, TileCount, CostB, SubstB, TileIndex, WfB;
    TiledBodyCost(L, blockSize, tile, scope);
    CostOne(Tiled(L, blockSize, tile).body[0]);
  }

  lemma {:induction false} TiledBodyCost(L: Stmt, blockSize: nat, tile: LoopId, scope: set<LoopId>)
    requires L.Loop? && WfS(L, scope) && blockSize > 0
    ensures CostB(Tiled(L, blockSize, tile).body[0].body) == CostB(L.body)
  {
    hide CostB, SubstB, TileIndex, IndexOnly, WfB;
    var inner := if L.end % blockSize != 0 then [IfRange(Idx(L.id), 0, L.end, L.body)] else L.body;
    GuardCost(L, scope);
    TileIndexValue(L.id, blockSize, tile, Env(EmptyMachine(), map[]));
    SubstCost(inner, L.id, TileIndex(L.id, blockSize, tile));
  }

  lemma {:induction false} GuardCost(L: Stmt, scope: set<LoopId>)
    requires L.Loop? && WfS(L, scope)
    ensures ScalarB(L.body) && ScalarB([IfRange(Idx(L.id), 0, L.end, L.body)])
    ensures CostB([IfRange(Idx(L.id), 0, L.end, L.body)]) == CostB(L.body)
  {
    hide Times, CostB, WfB;
    WfScalar(L.body, scope + {L.id});
    CostOne(IfRange(Idx(L.id), 0, L.end, L.body));
    Single(IfRange(Idx(L.id), 0, L.end, L.body));
  }

  /** Tiles that do not divide the range run past it. */
  lemma {:induction false} TileOverruns(end: nat, s: nat, c: nat)
    requires s > 0 && c > 0 && end % s == 0 && c * s > 0 && end % (c * s) != 0
    ensures end / s < TileCount(end, c * s) * c
  {
    var T := TileCount(end, c * s);
    TileCover(end, s, c);
    TripExact(end, s);
    Regroup(T, c, s);
    MulDiv(T, c * s);
    assert end / s == T * c ==> end == T * (c * s);
  }

  /** peelLoop: the two loops together cost what the loop did. */
  lemma {:induction false} PeelCost(L: Stmt, k: nat, next: LoopId, scope: set<LoopId>)
    requires L.Loop? && WfS(L, scope) && k <= L.end && k % L.stride == 0
    requires Below(scope, next) && Below(Bound(L), next)
    ensures CostB([PeeledHead(L, k), PeeledTail(L, k, next)]) == CostS(L)
  {
    hide Times, CostB, WfB, SubstB;
    var s := L.stride;
    var ctx := map[L.id := next];
    var c := CloneB(L.body, ctx, next + 1);
    assert L.id in Bound(L);
    WfScalar(L.body, scope + {L.id});
    CloneCost(L.body, ctx, next + 1);
    CloneWf(L.body, ctx, next + 1, scope + {L.id}, scope + {next});
    WfScalar(c.out, scope + {next});
    PeelIndexValue(k, next, Env(EmptyMachine(), map[]));
    SubstCost(c.out, next, PeelIndex(k, next));
    TripExact(L.end, s);
    TripExact(k, s);
    assert L.end - k == (L.end / s - k / s) * s;
    MulDiv(L.end / s - k / s, s);
    PlusTimes(k / s, (L.end - k) / s, CostB(L.body));
    CostTwo(PeeledHead(L, k), PeeledTail(L, k, next));
  }

  lemma {:induction false} CostTwo(a: Stmt, b: Stmt)
    ensures CostB([a, b]) == Plus(CostS(a), CostS(b))
  {
    hide CostS;
    assert [a, b][1..] == [b];
    CostOne(b);
  }

  lemma {:induction false} BodyCopyCost(ss: seq<Stmt>, id: LoopId, v: int, next: LoopId, scope: set<LoopId>)
    requires WfB(ss, scope) && Below(scope, next)
    ensures CostB(BodyCopy(ss, id, v, next).out) == CostB(ss)
  {
    hide Times;
    if ss != [] {
      var c := CloneS(ss[0], map[], next);
      Single(ss[0]);
      WfScalar([ss[0]], scope);
      CloneCostS(ss[0], map[], next);
      CloneWfS(ss[0], map[], next, scope, scope);
      CloneCtxS(ss[0], map[], next);
      WfScalar(c.out, scope);
      SubstCost(c.out, id, Const(v));
      BodyCopyCost(ss[1..], id, v, c.next, scope);
      CostAppend(SubstB(c.out, id, Const(v)), BodyCopy(ss[1..], id, v, c.next).out);
    }
  }

  lemma {:induction false} UnrolledCost(body: seq<Stmt>, id: LoopId, stride: nat, n: nat, next: LoopId,
                                        scope: set<LoopId>)
    requires WfB(body, scope + {id}) && id !in scope && Below(scope, next) && id < next
    ensures CostB(Unrolled(body, id, stride, n, next).out) == Times(n, CostB(body))
  {
    hide WfB, BodyCopy, Times, CostB;
    if n == 0 {
      NoCost();
      TimesNone(CostB(body));
    } else {
      TimesOne(CostB(body));
      var a := Unrolled(body, id, stride, n - 1, next);
      UnrolledCost(body, id, stride, n - 1, next, scope);
      UnrolledWf(body, id, stride, n - 1, next, scope);
      BodyCopyCost(body, id, (n - 1) * stride, a.next, scope + {id});
      CostAppend(a.out, BodyCopy(body, id, (n - 1) * stride, a.next).out);
      PlusTimes(n - 1, 1, CostB(body));
    }
  }

  /** unrollLoop: the copies cost what the loop did. */
  lemma {:induction false} UnrollCost(L: Stmt, next: LoopId, scope: set<LoopId>)
    requires L.Loop? && WfS(L, scope) && Below(scope, next) && Below(Bound(L), next)
    ensures CostB(Unrolled(L.body, L.id, L.stride, Trip(L.end, L.stride), next).out) == CostS(L)
  {
    assert L.id in Bound(L);
    TripExact(L.end, L.stride);
    UnrolledCost(L.body, L.id, L.stride, Trip(L.end, L.stride), next, scope);
  }

  lemma {:induction false} PacketLoopsCost(L: Stmt, packets: seq<seq<Stmt>>, next: LoopId, scope: set<LoopId>)
    requires L.Loop? && WfS(L, scope) && Below(scope, next) && L.id < next
    requires forall p | p in packets :: WfB(p, scope + {L.id}) && Below(BoundB(p), next)
    ensures CostB(PacketLoops(L, packets, next).out) == Times(L.end / L.stride, CostB(Flatten(packets)))
    decreases |packets|
  {
    hide Times, CostB, CostS, WfB;
    if packets == [] {
      CostNone(L.end / L.stride);
      NoCost();
    } else {
      var n := |packets| - 1;
      var init, p := packets[..n], packets[n];
      PacketLoopsCost(L, init, next, scope);
      PacketLoopsWf(L, init, next, scope);
      var a := PacketLoops(L, init, next);
      PacketLoopCost(L, p, a.next, scope);
      CostAppend(a.out, PacketLoop(L, p, a.next).out);
      assert packets == init + [p];
      FlattenSnoc(init, p);
      CostAppend(Flatten(init), p);
      TimesPlus(L.end / L.stride, CostB(Flatten(init)), CostB(p));
    }
  }

  lemma {:induction false} PacketLoopCost(L: Stmt, p: seq<Stmt>, next: LoopId, scope: set<LoopId>)
    requires L.Loop? && WfS(L, scope) && Below(scope, next) && L.id < next && WfB(p, scope + {L.id})
    ensures CostB(PacketLoop(L, p, next).out) == Times(L.end / L.stride, CostB(p))
  {
    hide Times, CostB, WfB, SubstB;
    var inner := scope + {L.id};
    var c := CloneB(p, map[], next + 1);
    WfScalar(p, inner);
    CloneCost(p, map[], next + 1);
    CloneWf(p, map[], next + 1, inner, inner);
    WfScalar(c.out, inner);
    SubstCost(c.out, L.id, Idx(next));
    CostOne(PacketLoop(L, p, next).out[0]);
  }

  /** splitScopes: the loops over the packets cost what the loop did. */
  lemma {:induction false} SplitCost(L: Stmt, next: LoopId, scope: set<LoopId>)
    requires L.Loop? && WfS(L, scope) && Below(scope, next) && Below(Bound(L), next)
    ensures CostB(PacketLoops(L, Packets(L.body), next).out) == CostS(L)
  {
    assert L.id in Bound(L);
    PacketsPartition(L.body);
    FlattenWf(Packets(L.body), scope + {L.id}, next);
    PacketLoopsCost(L, Packets(L.body), next, scope);
  }

  /** A loop that changes places with a loop keeps the estimate; past a guard, exactly when it
      runs once or the guard is free. */
  lemma {:induction false} SwapCostExactly(f: Frame, L: Stmt)
    requires L.Loop? && L.stride > 0 && L.end % L.stride == 0 && L.end > 0
    ensures CostS(Loop(L.id, L.end, L.stride, [Wrap(f, L.body)])) == CostS(Wrap(f, [L])) <==>
      f.InLoop? || L.end == L.stride || CostE(f.val) == ZERO
  {
    hide CostE, CostB, Times;
    var n, b := L.end / L.stride, CostB(L.body);
    TripExact(L.end, L.stride);
    CostOne(L);
    CostOne(Wrap(f, L.body));
    match f
    case InLoop(_, _, _, _, _) => LoopSwapCost(f, L);
    case InIf(_, v, _, _, _) =>
      TimesPlus(n, CostE(v), b);
      assert n == 1 <==> L.end == L.stride;
      TimesOne(CostE(v));
      if n > 1 { TimesExactly(1, n, CostE(v)); }
  }

  lemma {:induction false} HoistOnceCost(z: Place)
    requires CanHoist(z) && z.fs[|z.fs| - 1].InLoop?
    ensures CostB(Whole(HoistOnce(z))) == CostB(Whole(z))
  {
    hide Times, CostB, CostS;
    var k := |z.fs| - 1;
    var f, outer, L := z.fs[k], z.fs[..k], z.loop;
    var N := HoistOnce(z).loop;
    assert z.fs == outer + [f] && z.before + [L] + z.after == [L];
    PlugSnoc(outer, f, [L]);
    LoopSwapCost(f, L);
    CostOne(N);
    CostOne(Wrap(f, [L]));
    AroundCost(f.before, [Wrap(f, [L])], [N], f.after);
    PlugCost(outer, f.before + [Wrap(f, [L])] + f.after, f.before + [N] + f.after);
  }

  lemma {:induction false} LoopSwapCost(f: Frame, L: Stmt)
    requires L.Loop? && f.InLoop?
    ensures CostS(Loop(L.id, L.end, L.stride, [Wrap(f, L.body)])) == CostS(Wrap(f, [L]))
  {
    hide CostB, Times;
    var n := TripCount(L.end, L.stride);
    var m := TripCount(f.end, f.stride);
    CostOne(L);
    CostOne(Wrap(f, L.body));
    TimesTimes(m, n, CostB(L.body));
    TimesTimes(n, m, CostB(L.body));
    assert m * n == n * m;
  }

  /** hoist: the estimate stays when the scopes passed are loops, whatever encloses them. */
  lemma {:induction false} HoistCost(z: Place, levels: nat)
    requires forall i :: 0 <= i && |z.fs| - Moves(z, levels) <= i < |z.fs| ==> z.fs[i].InLoop?
    ensures CostB(Whole(HoistN(z, levels))) == CostB(Whole(z))
    decreases levels
  {
    hide CostB, Whole;
    AvailableBound(z);
    if levels > 0 && CanHoist(z) {
      var y := HoistOnce(z);
      MovesStep(z, levels);
      AvailableBound(y);
      HoistOnceCost(z);
      assert forall i :: 0 <= i < |y.fs| ==> y.fs[i] == z.fs[i];
      HoistCost(y, levels - 1);
    }
  }

  /** sink. */
  lemma {:induction false} SinkCost(L: Stmt, levels: nat)
    ensures CostS(Sunk(L, levels)) == CostS(L)
    decreases levels
  {
    hide Times, CostB;
    if levels > 0 && CanSink(L) {
      var inner := L.body[0];
      assert L.body == [inner];
      var P := Loop(L.id, L.end, L.stride, inner.body);
      SinkCost(P, levels - 1);
      CostOne(Sunk(P, levels - 1));
      CostOne(P);
      LoopSwapCost(InLoop([], L.id, L.end, L.stride, []), inner);
    }
  }

  /** fuse: the merged loop costs what the two loops did. */
  lemma {:induction false} FuseCost(L: Stmt, L2: Stmt, scope: set<LoopId>)
    requires L.Loop? && L2.Loop? && WfS(L2, scope) && L.end == L2.end && L.stride == L2.stride
    ensures CostS(Fused(L, L2)) == Plus(CostS(L), CostS(L2))
  {
    hide CostB, Times, SubstB, ScalarB;
    WfScalar(L2.body, scope + {L2.id});
    SubstCost(L2.body, L2.id, Idx(L.id));
    CostAppend(L.body, SubstB(L2.body, L2.id, Idx(L.id)));
    TimesPlus(L.end / L.stride, CostB(L.body), CostB(L2.body));
  }

  /** fuse on a scope, with the fusion of children that it triggers. */
  lemma {:induction false} FuseAtCost(ss: seq<Stmt>, pos: nat, t: Table)
    requires CanFuse(ss, pos, t) && WfB(ss, t.Keys)
    ensures CostB(FuseAt(ss, pos, t)) == CostB(ss)
    decreases LoopCount(ss), |ss| - pos, 0
  {
    hide WfB, CostB, Times, ChecksPass;
    var L, L2 := ss[pos], ss[pos + 1];
    var m := Fused(L, L2);
    FusedCount(ss, pos);
    CutTwo(ss, pos, t.Keys);
    PassSame(ss, pos, t);
    FusedWf(L, L2, t.Keys);
    assert LoopTable(m, t).Keys == t.Keys + {m.id};
    PairParts(L, L2, t.Keys);
    FuseCost(L, L2, t.Keys);
    ChildrenCost(m.body, 0, LoopTable(m, t));
    var N := Loop(m.id, m.end, m.stride, FuseChildren(m.body, 0, LoopTable(m, t)));
    CostOne(N);
    AroundCost(ss[..pos], [L, L2], [N], ss[pos + 2..]);
  }

  lemma {:induction false} PassSame(ss: seq<Stmt>, pos: nat, t: Table)
    requires CanFuse(ss, pos, t)
    ensures ss[pos].end == ss[pos + 1].end && ss[pos].stride == ss[pos + 1].stride
  {}

  lemma {:induction false} PairParts(a: Stmt, b: Stmt, scope: set<LoopId>)
    requires WfB([a, b], scope)
    ensures WfS(b, scope) && CostB([a, b]) == Plus(CostS(a), CostS(b))
  {
    hide CostS, CostB;
    assert [a, b][1..] == [b];
    CostTwo(a, b);
  }

  lemma {:induction false} ChildrenCost(ss: seq<Stmt>, from: nat, t: Table)
    requires from <= |ss| && WfB(ss, t.Keys)
    ensures CostB(FuseChildren(ss, from, t)) == CostB(ss)
    decreases LoopCount(ss), |ss| - from, 1
  {
    hide WfB, CostB;
    if from < |ss| {
      if CanFuse(ss, from, t) { FuseAtCost(ss, from, t); } else { ChildrenCost(ss, from + 1, t); }
    }
  }
}
