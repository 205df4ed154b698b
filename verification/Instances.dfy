/** Statement instances: the leaf statements a block runs, each with its index values. */
module Instances {
  import opened IR
  import opened Families
  import opened Semantics
  import opened Substitution
  import opened Decided

  /** Two statement instances give the same state in either order, from every state. */
  ghost predicate Commuting(p: Stmt, pe: Env, q: Stmt, qe: Env)
  {
    forall st: State :: ExecS(p, pe, ExecS(q, qe, st)) == ExecS(q, qe, ExecS(p, pe, st))
  }

  /** Every instance of x commutes with every instance of y. */
  ghost predicate InstancesCommute(x: seq<Stmt>, ex: Env, y: seq<Stmt>, ey: Env, g: State)
  {
    forall p: Stmt, pe: Env, q: Stmt, qe: Env ::
      IsInstance(p, pe, x, ex, g) && IsInstance(q, qe, y, ey, g) ==> Commuting(p, pe, q, qe)
  }

  /** A transformer that commutes with every instance of a block commutes with the block. */
  lemma {:induction false} PassesBlock(a: State -> State, ss: seq<Stmt>, env: Env, st: State, g: State)
    requires forall p: Stmt, pe: Env, x: State | IsInstance(p, pe, ss, env, g) ::
      a(ExecS(p, pe, x)) == ExecS(p, pe, a(x))
    ensures a(Run(ss, env, g, st)) == Run(ss, env, g, a(st))
    decreases ss
  {
    if ss != [] {
      var s0, rest := ss[0], ss[1..];
      forall p: Stmt, pe: Env, x: State | IsInstance(p, pe, rest, env, g)
        ensures a(ExecS(p, pe, x)) == ExecS(p, pe, a(x))
      {
        assert IsInstance(p, pe, ss, env, g);
      }
      PassesBlock(a, rest, env, RunS(s0, env, g, st), g);
      RunOne(s0, env, g, st);
      RunOne(s0, env, g, a(st));
      match s0 {
        case Loop(id, end, stride, body) =>
          var f := RunBody(body, id, stride, env, g);
          forall k: nat, x: State | k < Trip(end, stride)
            ensures a(f(k, x)) == f(k, a(x))
          {
            forall p: Stmt, pe: Env, y: State | IsInstance(p, pe, body, env.At(id, k * stride), g)
              ensures a(ExecS(p, pe, y)) == ExecS(p, pe, a(y))
            {
              assert IsInstance(p, pe, ss, env, g);
            }
            PassesBlock(a, body, env.At(id, k * stride), x, g);
          }
          RunLoop(s0, env, g, st);
          RunLoop(s0, env, g, a(st));
          IterCommutesWith(f, Trip(end, stride), a, st);
        case IfRange(v, start, stop, body) =>
          if Holds(v, start, stop, env, g) {
            forall p: Stmt, pe: Env, x: State | IsInstance(p, pe, body, env, g)
              ensures a(ExecS(p, pe, x)) == ExecS(p, pe, a(x))
            {
              assert IsInstance(p, pe, ss, env, g);
            }
            PassesBlock(a, body, env, st, g);
          }
        case _ =>
          assert IsInstance(s0, env, ss, env, g);
      }
    }
  }

  /** Blocks commute when all their instances do. */
  lemma {:induction false} BlocksCommute(x: seq<Stmt>, ex: Env, y: seq<Stmt>, ey: Env, st: State, g: State)
    requires InstancesCommute(x, ex, y, ey, g)
    ensures Run(x, ex, g, Run(y, ey, g, st)) == Run(y, ey, g, Run(x, ex, g, st))
  {
    var b := (s: State) => Run(y, ey, g, s);
    forall p: Stmt, pe: Env, s: State | IsInstance(p, pe, x, ex, g)
      ensures b(ExecS(p, pe, s)) == ExecS(p, pe, b(s))
    {
      var a := (z: State) => ExecS(p, pe, z);
      forall q: Stmt, qe: Env, z: State | IsInstance(q, qe, y, ey, g)
        ensures a(ExecS(q, qe, z)) == ExecS(q, qe, a(z))
      {
        assert Commuting(p, pe, q, qe);
      }
      PassesBlock(a, y, ey, s, g);
    }
    PassesBlock(b, x, ex, st, g);
  }

  // ---- Running several iterations of a loop at once ------------------------------------

  /** How a store that mentions the loop index stands for `count` iterations. */
  datatype Mode =
    | Duplicate(count: nat, stride: nat)
    | Vector(count: nat)
  {
    function Step(): nat { if Duplicate? then stride else 1 }
  }

  /** The store at the iteration `offset` further on (widenStore). */
  function Shifted(s: Stmt, l: LoopId, offset: nat): Stmt
  {
    if offset == 0 then s else SubstS(s, l, Binary(Add, Idx(l), Const(offset)))
  }

  function ShiftedCopies(s: Stmt, l: LoopId, stride: nat, count: nat): seq<Stmt>
  {
    if count == 0 then [] else ShiftedCopies(s, l, stride, count - 1) + [Shifted(s, l, (count - 1) * stride)]
  }

  /** vectorizeExpr: the value for vf consecutive iterations of loop l. */
  function VecExpr(e: Expr, l: LoopId, vf: nat): Expr
  {
    match e
    case Index(k, _) => if k == l then Index(l, vf) else e
    case Binary(op, a, b) =>
      var x, y := VecExpr(a, l, vf), VecExpr(b, l, vf);
      if TypeOf(x).IsVector() != TypeOf(y).IsVector() then
        Binary(op, if TypeOf(x).IsVector() then x else Broadcast(x, vf),
                   if TypeOf(y).IsVector() then y else Broadcast(y, vf))
      else Binary(op, x, y)
    case Unary(op, v) => Unary(op, VecExpr(v, l, vf))
    case Load(arg, subs, ty) => if Mentions(e, l) then Load(arg, subs, ExprType(ty.elem, vf)) else e
    case _ => e
  }

  /** vectorizeStore. */
  function VecStore(s: Stmt, l: LoopId, vf: nat): Stmt
    requires s.Store?
  {
    var v := VecExpr(s.value, l, vf);
    Store(s.arg, s.subs, if TypeOf(v).IsVector() then v else Broadcast(v, vf), s.acc)
  }

  function Image(s: Stmt, l: LoopId, mode: Mode): seq<Stmt>
    requires s.Store?
  {
    match mode
    case Duplicate(count, stride) => ShiftedCopies(s, l, stride, count)
    case Vector(count) => [VecStore(s, l, count)]
  }

  /** Every store that mentions the index of l is replaced by its image; nothing else changes. */
  function MapStores(ss: seq<Stmt>, l: LoopId, mode: Mode): seq<Stmt>
  {
    if ss == [] then []
    else
      (match ss[0]
       case Loop(id, end, stride, body) => [Loop(id, end, stride, MapStores(body, l, mode))]
       case IfRange(v, start, stop, body) => [IfRange(v, start, stop, MapStores(body, l, mode))]
       case Store(_, _, _, _) => if MentionsS(ss[0], l) then Image(ss[0], l, mode) else [ss[0]]
       case _ => [ss[0]])
      + MapStores(ss[1..], l, mode)
  }

  /** Every leaf is a store that mentions the index of l, and no guard mentions it. */
  predicate StoresMention(ss: seq<Stmt>, l: LoopId)
  {
    ss == [] || (
      (match ss[0]
       case Loop(_, _, _, body) => StoresMention(body, l)
       case IfRange(v, _, _, body) => !Mentions(v, l) && StoresMention(body, l)
       case Store(_, _, _, _) => MentionsS(ss[0], l)
       case _ => false)
      && StoresMention(ss[1..], l))
  }

  /** Iteration k after base of a block. */
  ghost function Nth(ss: seq<Stmt>, l: LoopId, base: int, step: nat, env: Env): (nat, State) -> State
  {
    (k: nat, x: State) => Exec(ss, env.At(l, base + k * step), x)
  }

  /** The same with the guards decided in g. */
  ghost function NthIn(ss: seq<Stmt>, l: LoopId, base: int, step: nat, env: Env, g: State): (nat, State) -> State
  {
    (k: nat, x: State) => Run(ss, env.At(l, base + k * step), g, x)
  }

  /** The image of a store instance does what the iterations it stands for do. */
  ghost predicate ImageOk(p: Stmt, pe: Env, l: LoopId, mode: Mode)
    requires p.Store?
  {
    forall st: State ::
      Exec(Image(p, l, mode), pe, st) == Iter(Nth([p], l, pe.Get(l), mode.Step(), pe), mode.count, st)
  }

  ghost predicate ImagesOk(ss: seq<Stmt>, env: Env, l: LoopId, mode: Mode, g: State)
  {
    forall p: Stmt, pe: Env | IsInstance(p, pe, ss, env, g) && p.Store? :: ImageOk(p, pe, l, mode)
  }

  /** Different ones of the iterations that run together commute. */
  ghost predicate GroupCommutes(ss: seq<Stmt>, l: LoopId, base: int, step: nat, count: nat, env: Env, g: State)
  {
    forall i: nat, j: nat | i < j < count ::
      InstancesCommute(ss, env.At(l, base + i * step), ss, env.At(l, base + j * step), g)
  }

  lemma {:induction false} SubInstances(sub: seq<Stmt>, se: Env, ss: seq<Stmt>, env: Env, sub2: seq<Stmt>, se2: Env,
                                        env2: Env, g: State)
    requires forall p: Stmt, pe: Env :: IsInstance(p, pe, sub, se, g) ==> IsInstance(p, pe, ss, env, g)
    requires forall p: Stmt, pe: Env :: IsInstance(p, pe, sub2, se2, g) ==> IsInstance(p, pe, ss, env2, g)
    requires InstancesCommute(ss, env, ss, env2, g)
    ensures InstancesCommute(sub, se, sub2, se2, g)
  {}

  /** What GroupRuns needs about a block. */
  ghost predicate Groupable(ss: seq<Stmt>, l: LoopId, base: int, mode: Mode, env: Env, g: State)
  {
    StoresMention(ss, l) && l !in BoundB(ss) &&
    GroupCommutes(ss, l, base, mode.Step(), mode.count, env, g) && ImagesOk(ss, env.At(l, base), l, mode, g)
  }

  lemma {:induction false} GroupableHead(ss: seq<Stmt>, l: LoopId, base: int, mode: Mode, env: Env, g: State)
    requires ss != [] && Groupable(ss, l, base, mode, env, g)
    ensures Groupable([ss[0]], l, base, mode, env, g) && Groupable(ss[1..], l, base, mode, env, g)
  {
    assert [ss[0]][1..] == [];
    Single(ss[0]);
    forall i: nat, j: nat | i < j < mode.count
      ensures InstancesCommute([ss[0]], env.At(l, base + i * mode.Step()), [ss[0]], env.At(l, base + j * mode.Step()),
        g)
      ensures InstancesCommute(ss[1..], env.At(l, base + i * mode.Step()), ss[1..], env.At(l, base + j * mode.Step()),
        g)
    {
      var e1, e2 := env.At(l, base + i * mode.Step()), env.At(l, base + j * mode.Step());
      HeadInstances(ss, e1, g);
      HeadInstances(ss, e2, g);
      SubInstances([ss[0]], e1, ss, e1, [ss[0]], e2, e2, g);
      SubInstances(ss[1..], e1, ss, e1, ss[1..], e2, e2, g);
    }
    HeadInstances(ss, env.At(l, base), g);
  }

  lemma {:induction false} GroupableLoop(s: Stmt, l: LoopId, base: int, mode: Mode, env: Env, k: nat, g: State)
    requires s.Loop? && k < Trip(s.end, s.stride) && Groupable([s], l, base, mode, env, g)
    ensures s.id != l && Groupable(s.body, l, base, mode, env.At(s.id, k * s.stride), g)
  {
    Single(s);
    var inner := env.At(s.id, k * s.stride);
    forall i: nat, j: nat | i < j < mode.count
      ensures InstancesCommute(s.body, inner.At(l, base + i * mode.Step()), s.body, inner.At(l, base + j * mode.Step()),
        g)
    {
      var e1, e2 := env.At(l, base + i * mode.Step()), env.At(l, base + j * mode.Step());
      AtAt(env, s.id, k * s.stride, l, base + i * mode.Step());
      AtAt(env, s.id, k * s.stride, l, base + j * mode.Step());
      LoopInstances(s, e1, g, k);
      LoopInstances(s, e2, g, k);
      SubInstances(s.body, e1.At(s.id, k * s.stride), [s], e1, s.body, e2.At(s.id, k * s.stride), e2, g);
    }
    AtAt(env, s.id, k * s.stride, l, base);
    LoopInstances(s, env.At(l, base), g, k);
  }

  /** Two different iterations of a loop of the block and of l commute. */
  lemma {:induction false} LoopCross(s: Stmt, l: LoopId, base: int, mode: Mode, env: Env, j: nat, j': nat, k: nat,
                                     k': nat, x: State, g: State)
    requires s.Loop? && Groupable([s], l, base, mode, env, g)
    requires j < Trip(s.end, s.stride) && j' < Trip(s.end, s.stride) && k' < k < mode.count
    ensures
      var a, b := env.At(s.id, j * s.stride).At(l, base + k * mode.Step()),
                  env.At(s.id, j' * s.stride).At(l, base + k' * mode.Step());
      Run(s.body, a, g, Run(s.body, b, g, x)) == Run(s.body, b, g, Run(s.body, a, g, x))
  {
    Single(s);
    assert s.id != l;
    var e1, e2 := env.At(l, base + k' * mode.Step()), env.At(l, base + k * mode.Step());
    AtAt(env, s.id, j' * s.stride, l, base + k' * mode.Step());
    AtAt(env, s.id, j * s.stride, l, base + k * mode.Step());
    LoopInstances(s, e1, g, j');
    LoopInstances(s, e2, g, j);
    SubInstances(s.body, e1.At(s.id, j' * s.stride), [s], e1, s.body, e2.At(s.id, j * s.stride), e2, g);
    BlocksCommute(s.body, e1.At(s.id, j' * s.stride), s.body, e2.At(s.id, j * s.stride), x, g);
  }

  lemma {:induction false} HeadPassesRestAt(ss: seq<Stmt>, l: LoopId, base: int, mode: Mode, env: Env, i: nat, j: nat,
                                            x: State, g: State)
    requires ss != [] && Groupable(ss, l, base, mode, env, g) && i < j < mode.count
    ensures var e1, e2 := env.At(l, base + i * mode.Step()), env.At(l, base + j * mode.Step());
      Run([ss[0]], e2, g, Run(ss[1..], e1, g, x)) == Run(ss[1..], e1, g, Run([ss[0]], e2, g, x))
  {
    var e1, e2 := env.At(l, base + i * mode.Step()), env.At(l, base + j * mode.Step());
    HeadInstances(ss, e1, g);
    HeadInstances(ss, e2, g);
    assert InstancesCommute(ss, e1, ss, e2, g);
    SubInstances(ss[1..], e1, ss, e1, [ss[0]], e2, e2, g);
    assert [ss[0]][1..] == [];
    BlocksCommute(ss[1..], e1, [ss[0]], e2, x, g);
  }

  /** The first statement of a group at a later iteration passes the rest at an earlier one. */
  lemma {:induction false} HeadPassesRest(ss: seq<Stmt>, l: LoopId, base: int, mode: Mode, env: Env, g: State)
    requires ss != [] && Groupable(ss, l, base, mode, env, g)
    ensures LaterCommute(NthIn([ss[0]], l, base, mode.Step(), env, g), NthIn(ss[1..], l, base, mode.Step(), env, g),
      mode.count)
  {
    var f, h := NthIn([ss[0]], l, base, mode.Step(), env, g), NthIn(ss[1..], l, base, mode.Step(), env, g);
    forall i: nat, j: nat, x: State | i < j < mode.count
      ensures f(j, h(i, x)) == h(i, f(j, x))
    {
      HeadPassesRestAt(ss, l, base, mode, env, i, j, x, g);
    }
  }

  lemma {:induction false} NthThen(ss: seq<Stmt>, l: LoopId, base: int, step: nat, env: Env, c: nat, st: State,
                                   g: State)
    requires ss != []
    ensures Iter(NthIn(ss, l, base, step, env, g), c, st) ==
            Iter(Then(NthIn([ss[0]], l, base, step, env, g), NthIn(ss[1..], l, base, step, env, g)), c, st)
  {
    var f, h := NthIn([ss[0]], l, base, step, env, g), NthIn(ss[1..], l, base, step, env, g);
    assert ss == [ss[0]] + ss[1..];
    forall k: nat, x: State
      ensures NthIn(ss, l, base, step, env, g)(k, x) == Then(f, h)(k, x)
    {
      RunAppend([ss[0]], ss[1..], env.At(l, base + k * step), g, x);
    }
    IterCong(NthIn(ss, l, base, step, env, g), Then(f, h), c, st);
  }

  lemma {:induction false} MapStoresHead(ss: seq<Stmt>, l: LoopId, mode: Mode)
    requires ss != []
    ensures MapStores(ss, l, mode) == MapStores([ss[0]], l, mode) + MapStores(ss[1..], l, mode)
  {
    assert [ss[0]][1..] == [] && MapStores([], l, mode) == [];
  }

  /** With the guards decided, the mapped block does, in one go, what `count` iterations of l do one
      after another. */
  lemma {:induction false} GroupRunsIn(ss: seq<Stmt>, l: LoopId, base: int, mode: Mode, env: Env, st: State, g: State)
    requires Groupable(ss, l, base, mode, env, g)
    ensures Run(MapStores(ss, l, mode), env.At(l, base), g, st) ==
      Iter(NthIn(ss, l, base, mode.Step(), env, g), mode.count, st)
    decreases ss, 0
  {
    var step, c := mode.Step(), mode.count;
    if ss == [] {
      IterIdle(NthIn(ss, l, base, step, env, g), 0, c, st);
    } else {
      var s0, rest := ss[0], ss[1..];
      GroupableHead(ss, l, base, mode, env, g);
      var head := MapStores([s0], l, mode);
      MapStoresHead(ss, l, mode);
      RunAppend(head, MapStores(rest, l, mode), env.At(l, base), g, st);
      GroupRunsOne(s0, l, base, mode, env, st, g);
      GroupRunsIn(rest, l, base, mode, env, Run(head, env.At(l, base), g, st), g);
      HeadPassesRest(ss, l, base, mode, env, g);
      IterDistribute(NthIn([s0], l, base, step, env, g), NthIn(rest, l, base, step, env, g), c, st);
      NthThen(ss, l, base, step, env, c, st, g);
    }
  }

  lemma {:induction false} GroupRunsOne(s: Stmt, l: LoopId, base: int, mode: Mode, env: Env, st: State, g: State)
    requires Groupable([s], l, base, mode, env, g)
    ensures Run(MapStores([s], l, mode), env.At(l, base), g, st) ==
      Iter(NthIn([s], l, base, mode.Step(), env, g), mode.count, st)
    decreases s, 1
  {
    assert [s][1..] == [] && MapStores([], l, mode) == [];
    match s
    case Loop(_, _, _, _) => GroupRunsLoop(s, l, base, mode, env, st, g);
    case IfRange(_, _, _, _) => GroupRunsIf(s, l, base, mode, env, st, g);
    case Store(_, _, _, _) =>
      var e0, step := env.At(l, base), mode.Step();
      assert IsInstance(s, e0, [s], e0, g);
      assert ImageOk(s, e0, l, mode);
      assert MapStores([s], l, mode) == Image(s, l, mode) + [] == Image(s, l, mode);
      StoreGroup(s, l, base, mode, env, st, g);
    case _ =>
  }

  /** Instance (j, k) of a loop inside the body of l: its own iteration j, iteration k of l. */
  ghost function Cell(s: Stmt, l: LoopId, base: int, step: nat, env: Env, g: State): (nat, nat, State) -> State
    requires s.Loop?
  {
    (j: nat, k: nat, x: State) => Run(s.body, env.At(s.id, j * s.stride).At(l, base + k * step), g, x)
  }

  lemma {:induction false} CellRows(s: Stmt, l: LoopId, base: int, mode: Mode, env: Env, j: nat, x: State, g: State)
    requires s.Loop? && Groupable([s], l, base, mode, env, g) && j < Trip(s.end, s.stride)
    ensures RunBody(MapStores(s.body, l, mode), s.id, s.stride, env.At(l, base), g)(j, x) ==
            Row(Cell(s, l, base, mode.Step(), env, g), mode.count)(j, x)
    decreases s, 0, 0
  {
    var e := env.At(s.id, j * s.stride);
    GroupableLoop(s, l, base, mode, env, j, g);
    AtAt(env, s.id, j * s.stride, l, base);
    GroupRunsIn(s.body, l, base, mode, e, x, g);
    RowIs(Cell(s, l, base, mode.Step(), env, g), mode.count, j, x, NthIn(s.body, l, base, mode.Step(), e, g));
  }

  lemma {:induction false} CellColumns(s: Stmt, l: LoopId, base: int, step: nat, env: Env, k: nat, x: State, g: State)
    requires s.Loop? && s.id != l
    ensures Row(Transposed(Cell(s, l, base, step, env, g)), Trip(s.end, s.stride))(k, x) ==
      NthIn([s], l, base, step, env, g)(k, x)
  {
    var e := env.At(l, base + k * step);
    var h := Transposed(Cell(s, l, base, step, env, g));
    RunOne(s, e, g, x);
    RunLoop(s, e, g, x);
    forall j: nat, y: State
      ensures RunBody(s.body, s.id, s.stride, e, g)(j, y) == h(k, j, y)
    {
      AtAt(env, s.id, j * s.stride, l, base + k * step);
    }
    RowIs(h, Trip(s.end, s.stride), k, x, RunBody(s.body, s.id, s.stride, e, g));
  }

  lemma {:induction false} MappedLoopRows(s: Stmt, l: LoopId, base: int, mode: Mode, env: Env, st: State, g: State)
    requires s.Loop? && Groupable([s], l, base, mode, env, g)
    ensures Run(MapStores([s], l, mode), env.At(l, base), g, st) ==
            Iter(Row(Cell(s, l, base, mode.Step(), env, g), mode.count), Trip(s.end, s.stride), st)
    decreases s, 0, 1
  {
    var e0 := env.At(l, base);
    var body' := MapStores(s.body, l, mode);
    var L' := Loop(s.id, s.end, s.stride, body');
    assert [s][1..] == [] && MapStores([], l, mode) == [];
    assert MapStores([s], l, mode) == [L'];
    RunOne(L', e0, g, st);
    RunLoop(L', e0, g, st);
    var row := Row(Cell(s, l, base, mode.Step(), env, g), mode.count);
    forall j: nat, x: State | j < Trip(s.end, s.stride)
      ensures RunBody(body', s.id, s.stride, e0, g)(j, x) == row(j, x)
    {
      CellRows(s, l, base, mode, env, j, x, g);
    }
    IterCong(RunBody(body', s.id, s.stride, e0, g), row, Trip(s.end, s.stride), st);
  }

  lemma {:induction false} CellsCross(s: Stmt, l: LoopId, base: int, mode: Mode, env: Env, g: State)
    requires s.Loop? && Groupable([s], l, base, mode, env, g)
    ensures CrossCommute(Cell(s, l, base, mode.Step(), env, g), Trip(s.end, s.stride), mode.count)
  {
    var h := Cell(s, l, base, mode.Step(), env, g);
    forall j: nat, j': nat, k: nat, k': nat, x: State | j < j' < Trip(s.end, s.stride) && k' < k < mode.count
      ensures h(j', k', h(j, k, x)) == h(j, k, h(j', k', x))
    {
      LoopCross(s, l, base, mode, env, j, j', k, k', x, g);
    }
  }

  lemma {:induction false} GroupRunsLoop(s: Stmt, l: LoopId, base: int, mode: Mode, env: Env, st: State, g: State)
    requires s.Loop? && Groupable([s], l, base, mode, env, g)
    ensures Run(MapStores([s], l, mode), env.At(l, base), g, st) ==
      Iter(NthIn([s], l, base, mode.Step(), env, g), mode.count, st)
    decreases s, 0, 2
  {
    var c, n := mode.count, Trip(s.end, s.stride);
    Single(s);
    assert s.id != l;
    MappedLoopRows(s, l, base, mode, env, st, g);
    CellsCross(s, l, base, mode, env, g);
    var h := Cell(s, l, base, mode.Step(), env, g);
    IterInterchange(h, n, c, st);
    var column, nth := Row(Transposed(h), n), NthIn([s], l, base, mode.Step(), env, g);
    forall k: nat, x: State
      ensures column(k, x) == nth(k, x)
    {
      CellColumns(s, l, base, mode.Step(), env, k, x, g);
    }
    IterCong(column, nth, c, st);
  }

  lemma {:induction false} GroupRunsIf(s: Stmt, l: LoopId, base: int, mode: Mode, env: Env, st: State, g: State)
    requires s.IfRange? && Groupable([s], l, base, mode, env, g)
    ensures Run(MapStores([s], l, mode), env.At(l, base), g, st) ==
      Iter(NthIn([s], l, base, mode.Step(), env, g), mode.count, st)
    decreases s, 0, 0
  {
    Single(s);
    if Holds(s.val, s.start, s.stop, env.At(l, base), g) {
      GroupableIf(s, l, base, mode, env, g);
      GroupRunsIn(s.body, l, base, mode, env, st, g);
    }
    GuardedGroup(s, l, base, mode, env, st, g);
  }

  /** A guard that does not use the index is decided once for the whole group. */
  lemma {:induction false} GuardedGroup(s: Stmt, l: LoopId, base: int, mode: Mode, env: Env, st: State, g: State)
    requires s.IfRange? && !Mentions(s.val, l)
    requires Holds(s.val, s.start, s.stop, env.At(l, base), g) ==>
      Run(MapStores(s.body, l, mode), env.At(l, base), g, st) ==
      Iter(NthIn(s.body, l, base, mode.Step(), env, g), mode.count, st)
    ensures Run(MapStores([s], l, mode), env.At(l, base), g, st) ==
      Iter(NthIn([s], l, base, mode.Step(), env, g), mode.count, st)
  {
    var step, c := mode.Step(), mode.count;
    var e0 := env.At(l, base);
    assert [s][1..] == [] && MapStores([], l, mode) == [];
    var I' := IfRange(s.val, s.start, s.stop, MapStores(s.body, l, mode));
    assert MapStores([s], l, mode) == [I'];
    RunOne(I', e0, g, st);
    forall k: nat, x: State
      ensures NthIn([s], l, base, step, env, g)(k, x) ==
              if Holds(s.val, s.start, s.stop, e0, g) then NthIn(s.body, l, base, step, env, g)(k, x) else x
    {
      var e := env.At(l, base + k * step);
      RunOne(s, e, g, x);
      EvalAgree(s.val, e, e0, g, 0);
    }
    if Holds(s.val, s.start, s.stop, e0, g) {
      IterCong(NthIn([s], l, base, step, env, g), NthIn(s.body, l, base, step, env, g), c, st);
    } else {
      IterIdle(NthIn([s], l, base, step, env, g), 0, c, st);
    }
  }

  /** The image of one store runs its iterations. */
  lemma {:induction false} StoreGroup(s: Stmt, l: LoopId, base: int, mode: Mode, env: Env, st: State, g: State)
    requires s.Store? && ImageOk(s, env.At(l, base), l, mode)
    ensures Run(Image(s, l, mode), env.At(l, base), g, st) == Exec(Image(s, l, mode), env.At(l, base), st)
    ensures Run(Image(s, l, mode), env.At(l, base), g, st) ==
      Iter(NthIn([s], l, base, mode.Step(), env, g), mode.count, st)
  {
    var e0, step := env.At(l, base), mode.Step();
    ImageLeaves(s, l, mode);
    RunLeaves(Image(s, l, mode), e0, g, st);
    forall k: nat, x: State
      ensures Nth([s], l, e0.Get(l), step, e0)(k, x) == NthIn([s], l, base, step, env, g)(k, x)
    {
      assert env.idx[l := base][l := base + k * step] == env.idx[l := base + k * step];
      RunLeaves([s], env.At(l, base + k * step), g, x);
    }
    IterCong(Nth([s], l, e0.Get(l), step, e0), NthIn([s], l, base, step, env, g), mode.count, st);
  }

  lemma {:induction false} ImageLeaves(s: Stmt, l: LoopId, mode: Mode)
    requires s.Store?
    ensures forall q | q in Image(s, l, mode) :: !q.IsScope()
  {
    if mode.Duplicate? { CopiesLeaves(s, l, mode.stride, mode.count); }
  }

  lemma {:induction false} CopiesLeaves(s: Stmt, l: LoopId, stride: nat, count: nat)
    requires s.Store?
    ensures forall q | q in ShiftedCopies(s, l, stride, count) :: !q.IsScope()
  {
    if count > 0 { CopiesLeaves(s, l, stride, count - 1); }
  }

  lemma {:induction false} GroupableIf(s: Stmt, l: LoopId, base: int, mode: Mode, env: Env, g: State)
    requires s.IfRange? && Groupable([s], l, base, mode, env, g) && Holds(s.val, s.start, s.stop, env.At(l, base), g)
    ensures Groupable(s.body, l, base, mode, env, g)
  {
    Single(s);
    forall i: nat, j: nat | i < j < mode.count
      ensures InstancesCommute(s.body, env.At(l, base + i * mode.Step()), s.body, env.At(l, base + j * mode.Step()), g)
    {
      var e1, e2 := env.At(l, base + i * mode.Step()), env.At(l, base + j * mode.Step());
      EvalAgree(s.val, e1, env.At(l, base), g, 0);
      EvalAgree(s.val, e2, env.At(l, base), g, 0);
      IfInstances(s, e1, g);
      IfInstances(s, e2, g);
      SubInstances(s.body, e1, [s], e1, s.body, e2, e2, g);
    }
    IfInstances(s, env.At(l, base), g);
  }

  // ---- One store under guards ----------------------------------------------------------------

  /** One store that uses the index of l, perhaps under guards that do not. */
  predicate OneGuarded(ss: seq<Stmt>, l: LoopId)
  {
    |ss| == 1 &&
    match ss[0]
    case Store(_, _, _, _) => MentionsS(ss[0], l)
    case IfRange(v, _, _, body) => !Mentions(v, l) && OneGuarded(body, l)
    case _ => false
  }

  lemma {:induction false} OneGuardedMentions(ss: seq<Stmt>, l: LoopId)
    requires OneGuarded(ss, l)
    ensures StoresMention(ss, l) && BoundB(ss) == {}
    decreases ss
  {
    assert ss[1..] == [];
    if ss[0].IfRange? { OneGuardedMentions(ss[0].body, l); }
  }

  /** Its iterations stay in order, so nothing has to commute. */
  lemma {:induction false} OneGuardedRuns(ss: seq<Stmt>, l: LoopId, base: int, mode: Mode, env: Env, st: State,
                                          g: State)
    requires OneGuarded(ss, l) && ImagesOk(ss, env.At(l, base), l, mode, g)
    ensures Run(MapStores(ss, l, mode), env.At(l, base), g, st) ==
      Iter(NthIn(ss, l, base, mode.Step(), env, g), mode.count, st)
    decreases ss
  {
    var s := ss[0];
    assert ss == [s] && [s][1..] == [] && MapStores([], l, mode) == [];
    if s.Store? {
      assert IsInstance(s, env.At(l, base), [s], env.At(l, base), g);
      assert MapStores([s], l, mode) == Image(s, l, mode) + [] == Image(s, l, mode);
      StoreGroup(s, l, base, mode, env, st, g);
    } else {
      if Holds(s.val, s.start, s.stop, env.At(l, base), g) {
        IfInstances(s, env.At(l, base), g);
        OneGuardedRuns(s.body, l, base, mode, env, st, g);
      }
      GuardedGroup(s, l, base, mode, env, st, g);
    }
  }

  // ---- Runs that leave the guards alone --------------------------------------------------------

  /** No instance of an iteration that runs together with others changes the answer of a guard. */
  ghost predicate GroupKeeps(ss: seq<Stmt>, l: LoopId, base: int, step: nat, count: nat, env: Env, g: State)
  {
    forall k: nat | k < count :: KeepsGuards(ss, env.At(l, base + k * step), g)
  }

  /** Guards that do not use the index have the same answers in every iteration. */
  lemma {:induction false} GuardsMove(ss: seq<Stmt>, l: LoopId, env: Env, i: int, j: int, g: State, x: State)
    requires StoresMention(ss, l) && l !in BoundB(ss)
    ensures SameGuards(ss, env.At(l, i), g, x) == SameGuards(ss, env.At(l, j), g, x)
    decreases ss
  {
    if ss != [] {
      GuardsMove(ss[1..], l, env, i, j, g, x);
      match ss[0] {
        case Loop(id, end, stride, body) =>
          forall k: nat
            ensures SameGuards(body, env.At(l, i).At(id, k * stride), g, x) ==
                    SameGuards(body, env.At(l, j).At(id, k * stride), g, x)
          {
            AtAt(env, l, i, id, k * stride);
            AtAt(env, l, j, id, k * stride);
            GuardsMove(body, l, env.At(id, k * stride), i, j, g, x);
          }
        case IfRange(v, _, _, body) =>
          EvalAgree(v, env.At(l, i), env.At(l, j), g, 0);
          EvalAgree(v, env.At(l, i), env.At(l, j), x, 0);
          GuardsMove(body, l, env, i, j, g, x);
        case _ =>
      }
    }
  }

  /** The states in which the guards of iteration base answer as in g. */
  ghost function Guarded(ss: seq<Stmt>, l: LoopId, base: int, env: Env, g: State): State -> bool
  {
    (x: State) => SameGuards(ss, env.At(l, base), g, x)
  }

  /** Iteration by iteration the guards answer as in g. */
  lemma {:induction false} GroupFixes(ss: seq<Stmt>, l: LoopId, base: int, step: nat, count: nat, env: Env, g: State,
                                      k: nat)
    requires StoresMention(ss, l) && l !in BoundB(ss) && GroupKeeps(ss, l, base, step, count, env, g) && k < count
    ensures Fixes(ss, env.At(l, base + k * step), g, Guarded(ss, l, base, env, g))
  {
    var e, inv := env.At(l, base + k * step), Guarded(ss, l, base, env, g);
    assert KeepsGuards(ss, e, g);
    forall x: State ensures inv(x) == SameGuards(ss, e, g, x) { GuardsMove(ss, l, env, base, base + k * step, g, x); }
  }

  /** The iterations of a group run as their guards were decided. */
  lemma {:induction false} DecidedGroup(ss: seq<Stmt>, l: LoopId, base: int, step: nat, count: nat, env: Env, g: State,
                                        inv: State -> bool, n: nat, x: State)
    requires n <= count && inv(x) && forall k: nat | k < count :: Fixes(ss, env.At(l, base + k * step), g, inv)
    ensures var r := Iter(NthIn(ss, l, base, step, env, g), n, x);
      Iter(Nth(ss, l, base, step, env), n, x) == r && inv(r)
  {
    if n > 0 {
      DecidedGroup(ss, l, base, step, count, env, g, inv, n - 1, x);
      var y := Iter(NthIn(ss, l, base, step, env, g), n - 1, x);
      DecidedRun(ss, env.At(l, base + (n - 1) * step), g, inv, y);
    }
  }

  /** In every iteration of the group, instances keep inv; and inv fixes the guards of the first. */
  ghost predicate GroupFixed(ss: seq<Stmt>, l: LoopId, base: int, mode: Mode, env: Env, g: State, inv: State -> bool)
  {
    StoresMention(ss, l) && l !in BoundB(ss) && mode.count > 0 && ImagesOk(ss, env.At(l, base), l, mode, g) &&
    forall k: nat | k < mode.count :: Fixes(ss, env.At(l, base + k * mode.Step()), g, inv)
  }

  lemma {:induction false} GroupFixedHead(ss: seq<Stmt>, l: LoopId, base: int, mode: Mode, env: Env, g: State,
                                          inv: State -> bool)
    requires ss != [] && GroupFixed(ss, l, base, mode, env, g, inv)
    ensures GroupFixed([ss[0]], l, base, mode, env, g, inv) && GroupFixed(ss[1..], l, base, mode, env, g, inv)
  {
    assert [ss[0]][1..] == [];
    Single(ss[0]);
    forall k: nat | k < mode.count
      ensures Fixes([ss[0]], env.At(l, base + k * mode.Step()), g, inv)
      ensures Fixes(ss[1..], env.At(l, base + k * mode.Step()), g, inv)
    {
      FixesHead(ss, env.At(l, base + k * mode.Step()), g, inv);
    }
    HeadInstances(ss, env.At(l, base), g);
  }

  lemma {:induction false} GroupFixedLoop(s: Stmt, l: LoopId, base: int, mode: Mode, env: Env, g: State,
                                          inv: State -> bool, j: nat)
    requires s.Loop? && j < Trip(s.end, s.stride) && GroupFixed([s], l, base, mode, env, g, inv)
    ensures s.id != l && GroupFixed(s.body, l, base, mode, env.At(s.id, j * s.stride), g, inv)
  {
    Single(s);
    var inner := env.At(s.id, j * s.stride);
    forall k: nat | k < mode.count ensures Fixes(s.body, inner.At(l, base + k * mode.Step()), g, inv) {
      AtAt(env, s.id, j * s.stride, l, base + k * mode.Step());
      FixesLoop(s, env.At(l, base + k * mode.Step()), g, inv, j);
    }
    AtAt(env, s.id, j * s.stride, l, base);
    LoopInstances(s, env.At(l, base), g, j);
  }

  lemma {:induction false} GroupFixedIf(s: Stmt, l: LoopId, base: int, mode: Mode, env: Env, g: State,
                                        inv: State -> bool)
    requires s.IfRange? && Holds(s.val, s.start, s.stop, env.At(l, base), g)
    requires GroupFixed([s], l, base, mode, env, g, inv)
    ensures GroupFixed(s.body, l, base, mode, env, g, inv)
  {
    Single(s);
    forall k: nat | k < mode.count ensures Fixes(s.body, env.At(l, base + k * mode.Step()), g, inv) {
      EvalAgree(s.val, env.At(l, base + k * mode.Step()), env.At(l, base), g, 0);
      FixesIf(s, env.At(l, base + k * mode.Step()), g, inv);
    }
    IfInstances(s, env.At(l, base), g);
  }

  /** So does the mapped block. */
  lemma {:induction false} DecidedImages(ss: seq<Stmt>, l: LoopId, base: int, mode: Mode, env: Env, g: State,
                                         inv: State -> bool, x: State)
    requires GroupFixed(ss, l, base, mode, env, g, inv) && inv(x)
    ensures var r := Run(MapStores(ss, l, mode), env.At(l, base), g, x);
      Exec(MapStores(ss, l, mode), env.At(l, base), x) == r && inv(r)
    decreases ss, 0, 0
  {
    if ss != [] {
      var e0 := env.At(l, base);
      GroupFixedHead(ss, l, base, mode, env, g, inv);
      MapStoresHead(ss, l, mode);
      var head, rest := MapStores([ss[0]], l, mode), MapStores(ss[1..], l, mode);
      DecidedImage(ss[0], l, base, mode, env, g, inv, x);
      var y := Run(head, e0, g, x);
      DecidedImages(ss[1..], l, base, mode, env, g, inv, y);
      ExecAppend(head, rest, e0, x);
      RunAppend(head, rest, e0, g, x);
    }
  }

  lemma {:induction false} DecidedImage(s: Stmt, l: LoopId, base: int, mode: Mode, env: Env, g: State,
                                        inv: State -> bool, x: State)
    requires GroupFixed([s], l, base, mode, env, g, inv) && inv(x)
    ensures var r := Run(MapStores([s], l, mode), env.At(l, base), g, x);
      Exec(MapStores([s], l, mode), env.At(l, base), x) == r && inv(r)
    decreases s, 1, 0
  {
    hide Run, Exec, ImagesOk, SameGuards, Iter, Fixes, IsInstance, KeepsGuards;
    var e0 := env.At(l, base);
    assert [s][1..] == [] && MapStores([], l, mode) == [];
    match s
    case Loop(id, end, stride, body) =>
      var L' := Loop(id, end, stride, MapStores(body, l, mode));
      assert MapStores([s], l, mode) == [L'];
      ExecOne(L', e0, x);
      ExecLoop(id, end, stride, L'.body, e0, x);
      RunLoop(L', e0, g, x);
      DecidedImageIter(s, l, base, mode, env, g, inv, Trip(end, stride), x);
    case IfRange(v, start, stop, body) =>
      var I' := IfRange(v, start, stop, MapStores(body, l, mode));
      assert MapStores([s], l, mode) == [I'];
      if Holds(v, start, stop, e0, g) {
        GroupFixedIf(s, l, base, mode, env, g, inv);
        DecidedImages(body, l, base, mode, env, g, inv, x);
      }
      DecidedIf(s, l, base, mode, env, g, inv, x, I');
    case Store(_, _, _, _) =>
      assert MapStores([s], l, mode) == Image(s, l, mode) + [] == Image(s, l, mode);
      DecidedStore(s, l, base, mode, env, g, inv, x);
    case _ =>
  }

  lemma {:induction false} DecidedIf(s: Stmt, l: LoopId, base: int, mode: Mode, env: Env, g: State, inv: State -> bool,
                                     x: State, I': Stmt)
    requires s.IfRange? && GroupFixed([s], l, base, mode, env, g, inv) && inv(x)
    requires I'.IfRange? && I'.val == s.val && I'.start == s.start && I'.stop == s.stop
    requires var e0 := env.At(l, base);
      Holds(s.val, s.start, s.stop, e0, g) ==>
        Exec(I'.body, e0, x) == Run(I'.body, e0, g, x) && inv(Run(I'.body, e0, g, x))
    ensures var r := Run([I'], env.At(l, base), g, x); Exec([I'], env.At(l, base), x) == r && inv(r)
  {
    hide Run, Exec, ImagesOk, StoresMention, IsInstance;
    var e0 := env.At(l, base);
    assert base + 0 * mode.Step() == base;
    assert Fixes([s], env.At(l, base + 0 * mode.Step()), g, inv);
    assert SameGuards([s], e0, g, x);
    ExecOne(I', e0, x);
    RunOne(I', e0, g, x);
  }

  lemma {:induction false} DecidedStore(s: Stmt, l: LoopId, base: int, mode: Mode, env: Env, g: State,
                                        inv: State -> bool, x: State)
    requires s.Store? && GroupFixed([s], l, base, mode, env, g, inv) && inv(x)
    ensures var r := Run(Image(s, l, mode), env.At(l, base), g, x);
      Exec(Image(s, l, mode), env.At(l, base), x) == r && inv(r)
  {
    hide Run, Exec, StoresMention, Fixes, Image, Iter, ImageOk;
    var e0 := env.At(l, base);
    assert IsInstance(s, e0, [s], e0, g);
    assert ImageOk(s, e0, l, mode);
    StoreGroup(s, l, base, mode, env, x, g);
    DecidedGroup([s], l, base, mode.Step(), mode.count, env, g, inv, mode.count, x);
  }

  lemma {:induction false} DecidedImageIter(s: Stmt, l: LoopId, base: int, mode: Mode, env: Env, g: State,
                                            inv: State -> bool, n: nat, x: State)
    requires s.Loop? && GroupFixed([s], l, base, mode, env, g, inv) && inv(x) && n <= Trip(s.end, s.stride)
    ensures var body', e0 := MapStores(s.body, l, mode), env.At(l, base);
      var r := Iter(RunBody(body', s.id, s.stride, e0, g), n, x);
      Iter(Body(body', s.id, s.stride, e0), n, x) == r && inv(r)
    decreases s, 0, n
  {
    hide MapStores, Exec, Run, SameGuards, Fixes, ImagesOk, StoresMention, IsInstance, Trip;
    if n > 0 {
      var body', e0 := MapStores(s.body, l, mode), env.At(l, base);
      DecidedImageIter(s, l, base, mode, env, g, inv, n - 1, x);
      var y := Iter(RunBody(body', s.id, s.stride, e0, g), n - 1, x);
      GroupFixedLoop(s, l, base, mode, env, g, inv, n - 1);
      AtAt(env, s.id, (n - 1) * s.stride, l, base);
      DecidedImages(s.body, l, base, mode, env.At(s.id, (n - 1) * s.stride), g, inv, y);
    }
  }

  /** A group and its mapped block, from a state whose guards they keep, run as decided there. */
  lemma {:induction false} GroupDecided(ss: seq<Stmt>, l: LoopId, base: int, mode: Mode, env: Env, st: State)
    requires StoresMention(ss, l) && l !in BoundB(ss) && ImagesOk(ss, env.At(l, base), l, mode, st) && mode.count > 0
    requires GroupKeeps(ss, l, base, mode.Step(), mode.count, env, st)
    requires Run(MapStores(ss, l, mode), env.At(l, base), st, st) ==
      Iter(NthIn(ss, l, base, mode.Step(), env, st), mode.count, st)
    ensures Exec(MapStores(ss, l, mode), env.At(l, base), st) ==
      Iter(Nth(ss, l, base, mode.Step(), env), mode.count, st)
  {
    hide Run, Exec, Iter, MapStores, ImagesOk, StoresMention, GroupKeeps, SameGuards, Fixes, Nth, NthIn;
    var inv := Guarded(ss, l, base, env, st);
    forall k: nat | k < mode.count ensures Fixes(ss, env.At(l, base + k * mode.Step()), st, inv) {
      GroupFixes(ss, l, base, mode.Step(), mode.count, env, st, k);
    }
    SameGuardsSelf(ss, env.At(l, base), st);
    DecidedGroup(ss, l, base, mode.Step(), mode.count, env, st, inv, mode.count, st);
    DecidedImages(ss, l, base, mode, env, st, inv, st);
  }

  /** The mapped block does, in one go, what `count` iterations of l do one after another: store
      instances that the guards let through in st commute, and leave the guards as they are. */
  lemma {:induction false} GroupRuns(ss: seq<Stmt>, l: LoopId, base: int, mode: Mode, env: Env, st: State)
    requires Groupable(ss, l, base, mode, env, st) && mode.count > 0
    requires GroupKeeps(ss, l, base, mode.Step(), mode.count, env, st)
    ensures Exec(MapStores(ss, l, mode), env.At(l, base), st) ==
      Iter(Nth(ss, l, base, mode.Step(), env), mode.count, st)
  {
    GroupRunsIn(ss, l, base, mode, env, st, st);
    GroupDecided(ss, l, base, mode, env, st);
  }
}
