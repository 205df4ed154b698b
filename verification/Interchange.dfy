/** hoist and sink: a loop changes places with the scope around it. */
module Interchange {
  import opened IR
  import opened Families
  import opened Semantics
  import opened Substitution
  import opened Context

  /** A loop somewhere in a program: its enclosing scopes, outermost first, and its
      neighbours in the innermost one. */
  datatype Place = Place(fs: seq<Frame>, before: seq<Stmt>, loop: Stmt, after: seq<Stmt>)

  function Whole(z: Place): seq<Stmt>
  {
    Plug(z.fs, z.before + [z.loop] + z.after)
  }

  /** The loop is alone in a scope that is itself a statement of another scope. */
  predicate CanHoist(z: Place)
  {
    z.loop.Loop? && z.fs != [] && z.before == [] && z.after == []
  }

  /** The scope around the loop takes the loop's content, and the loop takes the scope. */
  function HoistOnce(z: Place): Place
    requires CanHoist(z)
  {
    var f := z.fs[|z.fs| - 1];
    Place(z.fs[..|z.fs| - 1], f.before,
          Loop(z.loop.id, z.loop.end, z.loop.stride, [Wrap(f, z.loop.body)]), f.after)
  }

  function HoistN(z: Place, levels: nat): Place
    decreases levels
  {
    if levels == 0 || !CanHoist(z) then z else HoistN(HoistOnce(z), levels - 1)
  }

  /** How many places the loop can move up. */
  function Available(z: Place): nat
    decreases |z.fs|
  {
    if !CanHoist(z) then 0 else 1 + Available(HoistOnce(z))
  }

  // ---- When one step is legal -------------------------------------------------------

  /** Instance (i, j) of a nest of two loops. */
  ghost function Instance(p: LoopId, ps: nat, l: LoopId, ls: nat, body: seq<Stmt>, env: Env): (nat, nat, State) -> State
  {
    (i: nat, j: nat, x: State) => Exec(body, env.At(p, i * ps).At(l, j * ls), x)
  }

  /** The instances whose relative order the interchange reverses commute; and a guard that
      moves into the loop keeps its value while the loop runs. */
  ghost predicate SwapLegal(t: Table, f: Frame, L: Stmt)
    requires L.Loop?
  {
    match f
    case InLoop(_, p, pe, ps, _) =>
      forall env: Env | ValidEnv(t, env) ::
        CrossCommute(Instance(p, ps, L.id, L.stride, L.body, env), Trip(pe, ps), Trip(L.end, L.stride))
    case InIf(_, v, start, stop, _) =>
      forall env: Env, k: nat, st: State | ValidEnv(t, env) && k < Trip(L.end, L.stride) ::
        GuardKept(v, start, stop, L, env, k, st)
  }

  ghost predicate GuardKept(v: Expr, start: int, stop: int, L: Stmt, env: Env, k: nat, st: State)
    requires L.Loop?
  {
    start <= AsInt(Eval(v, env, st, 0)) < stop ==>
    start <= AsInt(Eval(v, env, Exec(L.body, env.At(L.id, k * L.stride), st), 0)) < stop
  }

  lemma {:induction false} SwapLoops(t: Table, p: LoopId, pe: nat, ps: nat, L: Stmt, before: seq<Stmt>,
                                     after: seq<Stmt>)
    requires L.Loop? && p != L.id && SwapLegal(t, InLoop(before, p, pe, ps, after), L)
    ensures SameIn(t, [Loop(p, pe, ps, [L])], [Loop(L.id, L.end, L.stride, [Loop(p, pe, ps, L.body)])])
  {
    var P, Q := Loop(p, pe, ps, [L]), Loop(p, pe, ps, L.body);
    var N := Loop(L.id, L.end, L.stride, [Q]);
    var n, m := Trip(pe, ps), Trip(L.end, L.stride);
    forall env: Env, st: State | ValidEnv(t, env)
      ensures Exec([P], env, st) == Exec([N], env, st)
    {
      var h := Instance(p, ps, L.id, L.stride, L.body, env);
      ExecOne(P, env, st);
      ExecOne(N, env, st);
      ExecLoop(p, pe, ps, [L], env, st);
      ExecLoop(L.id, L.end, L.stride, [Q], env, st);
      forall i: nat, x: State
        ensures Body([L], p, ps, env)(i, x) == Row(h, m)(i, x)
      {
        var e := env.At(p, i * ps);
        ExecOne(L, e, x);
        ExecLoop(L.id, L.end, L.stride, L.body, e, x);
        RowIs(h, m, i, x, Body(L.body, L.id, L.stride, e));
      }
      IterCong(Body([L], p, ps, env), Row(h, m), n, st);
      forall j: nat, x: State
        ensures Body([Q], L.id, L.stride, env)(j, x) == Row(Transposed(h), n)(j, x)
      {
        var e := env.At(L.id, j * L.stride);
        ExecOne(Q, e, x);
        ExecLoop(p, pe, ps, L.body, e, x);
        forall i: nat, y: State
          ensures Body(L.body, p, ps, e)(i, y) == Transposed(h)(j, i, y)
        {
          AtAt(env, L.id, j * L.stride, p, i * ps);
        }
        RowIs(Transposed(h), n, j, x, Body(L.body, p, ps, e));
      }
      IterCong(Body([Q], L.id, L.stride, env), Row(Transposed(h), n), m, st);
      IterInterchange(h, n, m, st);
    }
  }

  /** While a kept guard holds, guarding every iteration changes nothing. */
  lemma {:induction false} GuardedIter(t: Table, v: Expr, start: int, stop: int, L: Stmt, env: Env, n: nat, st: State)
    requires L.Loop? && !Mentions(v, L.id) && ValidEnv(t, env) && n <= Trip(L.end, L.stride)
    requires forall k: nat, x: State | k < Trip(L.end, L.stride) :: GuardKept(v, start, stop, L, env, k, x)
    ensures
      var g := Body([IfRange(v, start, stop, L.body)], L.id, L.stride, env);
      var holds := start <= AsInt(Eval(v, env, st, 0)) < stop;
      var st' := Iter(g, n, st);
      st' == (if holds then Iter(Body(L.body, L.id, L.stride, env), n, st) else st) &&
      (start <= AsInt(Eval(v, env, st', 0)) < stop <==> holds)
  {
    if n > 0 {
      GuardedIter(t, v, start, stop, L, env, n - 1, st);
      var g := Body([IfRange(v, start, stop, L.body)], L.id, L.stride, env);
      var mid := Iter(g, n - 1, st);
      var e := env.At(L.id, (n - 1) * L.stride);
      ExecOne(IfRange(v, start, stop, L.body), e, mid);
      EvalAgree(v, e, env, mid, 0);
      assert GuardKept(v, start, stop, L, env, n - 1, mid);
    }
  }

  lemma {:induction false} SwapGuard(t: Table, v: Expr, start: int, stop: int, L: Stmt, before: seq<Stmt>,
                                     after: seq<Stmt>)
    requires L.Loop? && !Mentions(v, L.id) && SwapLegal(t, InIf(before, v, start, stop, after), L)
    ensures SameIn(t, [IfRange(v, start, stop, [L])],
                      [Loop(L.id, L.end, L.stride, [IfRange(v, start, stop, L.body)])])
  {
    var P := IfRange(v, start, stop, [L]);
    var Q := IfRange(v, start, stop, L.body);
    var N := Loop(L.id, L.end, L.stride, [Q]);
    forall env: Env, st: State | ValidEnv(t, env)
      ensures Exec([P], env, st) == Exec([N], env, st)
    {
      ExecOne(P, env, st);
      ExecOne(L, env, st);
      ExecOne(N, env, st);
      ExecLoop(L.id, L.end, L.stride, L.body, env, st);
      ExecLoop(L.id, L.end, L.stride, [Q], env, st);
      GuardedIter(t, v, start, stop, L, env, Trip(L.end, L.stride), st);
    }
  }

  /** An expression that reads no memory. */
  predicate StateFree(e: Expr)
  {
    match e
    case Binary(_, a, b) => StateFree(a) && StateFree(b)
    case Unary(_, v) => StateFree(v)
    case Load(_, _, _) => false
    case LoadLocal(_) => false
    case Broadcast(x, _) => StateFree(x)
    case _ => true
  }

  lemma {:induction false} StateFreeEval(e: Expr, env: Env, a: State, b: State, lane: nat)
    requires StateFree(e)
    ensures Eval(e, env, a, lane) == Eval(e, env, b, lane)
  {
    match e
    case Binary(_, x, y) => StateFreeEval(x, env, a, b, lane); StateFreeEval(y, env, a, b, lane);
    case Unary(_, v) => StateFreeEval(v, env, a, b, lane);
    case Broadcast(x, _) => StateFreeEval(x, env, a, b, 0);
    case _ =>
  }

  /** Subscripts that neither use l nor read memory. */
  predicate Fixed(subs: seq<Expr>, l: LoopId) { forall x | x in subs :: StateFree(x) && !Mentions(x, l) }

  lemma {:induction false} FixedSubs(subs: seq<Expr>, l: LoopId, env: Env, i: int, a: State, b: State)
    requires Fixed(subs, l)
    ensures EvalSubs(subs, env.At(l, i), a) == EvalSubs(subs, env, b)
  {
    forall k | 0 <= k < |subs| ensures EvalSubs(subs, env.At(l, i), a)[k] == EvalSubs(subs, env, b)[k] {
      assert subs[k] in subs;
      EvalAgree(subs[k], env.At(l, i), env, a, 0);
      StateFreeEval(subs[k], env, a, b, 0);
    }
  }

  /** A guard over loop indices alone may always move into the loop. */
  lemma {:induction false} IndexGuardLegal(t: Table, f: Frame, L: Stmt)
    requires L.Loop? && f.InIf? && StateFree(f.val)
    ensures SwapLegal(t, f, L)
  {
    forall env: Env, k: nat, st: State | ValidEnv(t, env) && k < Trip(L.end, L.stride)
      ensures GuardKept(f.val, f.start, f.stop, L, env, k, st)
    {
      StateFreeEval(f.val, env, st, Exec(L.body, env.At(L.id, k * L.stride), st), 0);
    }
  }

  // ---- hoist ---------------------------------------------------------------------------

  /** The loop is not the scope around it, and the guard around it does not use its index. */
  predicate Distinct(f: Frame, L: Stmt)
    requires L.Loop?
  {
    if f.InLoop? then f.id != L.id else !Mentions(f.val, L.id)
  }

  ghost predicate HoistLegal(z: Place, levels: nat)
    decreases levels
  {
    levels > 0 && CanHoist(z) ==>
      var f := z.fs[|z.fs| - 1];
      Distinct(f, z.loop) && SwapLegal(Inside(z.fs[..|z.fs| - 1], map[]), f, z.loop) &&
      HoistLegal(HoistOnce(z), levels - 1)
  }

  lemma {:induction false} PlugSnoc(fs: seq<Frame>, f: Frame, ss: seq<Stmt>)
    ensures Plug(fs + [f], ss) == Plug(fs, f.before + [Wrap(f, ss)] + f.after)
  {
    if fs == [] {
      assert [] + [f] == [f] && [f][1..] == [];
    } else {
      assert (fs + [f])[0] == fs[0] && (fs + [f])[1..] == fs[1..] + [f];
      PlugSnoc(fs[1..], f, ss);
    }
  }

  lemma {:induction false} HoistOncePreserves(z: Place)
    requires CanHoist(z) && Distinct(z.fs[|z.fs| - 1], z.loop)
    requires SwapLegal(Inside(z.fs[..|z.fs| - 1], map[]), z.fs[|z.fs| - 1], z.loop)
    ensures SameIn(map[], Whole(z), Whole(HoistOnce(z)))
  {
    var k := |z.fs| - 1;
    var f, outer, L := z.fs[k], z.fs[..k], z.loop;
    var t := Inside(outer, map[]);
    var N := HoistOnce(z).loop;
    assert z.fs == outer + [f] && z.before + [L] + z.after == [L];
    PlugSnoc(outer, f, [L]);
    match f {
      case InLoop(before, p, pe, ps, after) => SwapLoops(t, p, pe, ps, L, before, after);
      case InIf(before, v, start, stop, after) => SwapGuard(t, v, start, stop, L, before, after);
    }
    SameAround(t, f.before, [Wrap(f, [L])], [N], f.after);
    PlugSame(outer, map[], f.before + [Wrap(f, [L])] + f.after, f.before + [N] + f.after);
  }

  /** hoist preserves the program when every exchange it makes is legal. */
  lemma {:induction false} HoistPreserves(z: Place, levels: nat)
    requires HoistLegal(z, levels)
    ensures SameIn(map[], Whole(z), Whole(HoistN(z, levels)))
    decreases levels
  {
    if levels > 0 && CanHoist(z) {
      HoistOncePreserves(z);
      HoistPreserves(HoistOnce(z), levels - 1);
    }
  }

  /** A frame without neighbours. */
  function Bare(f: Frame): Frame
  {
    match f
    case InLoop(_, id, end, stride, _) => InLoop([], id, end, stride, [])
    case InIf(_, v, start, stop, _) => InIf([], v, start, stop, [])
  }

  function BareAll(fs: seq<Frame>): seq<Frame>
  {
    if fs == [] then [] else [Bare(fs[0])] + BareAll(fs[1..])
  }

  lemma {:induction false} BareAllSnoc(fs: seq<Frame>, f: Frame)
    ensures BareAll(fs + [f]) == BareAll(fs) + [Bare(f)]
  {
    if fs == [] {
      assert [] + [f] == [f] && [f][1..] == [];
    } else {
      assert (fs + [f])[0] == fs[0] && (fs + [f])[1..] == fs[1..] + [f];
      BareAllSnoc(fs[1..], f);
    }
  }

  /** The nest that the passed scopes form around a body. */
  function Nest(fs: seq<Frame>, body: seq<Stmt>): seq<Stmt> { Plug(BareAll(fs), body) }

  lemma {:induction false} NestSnoc(fs: seq<Frame>, f: Frame, body: seq<Stmt>)
    ensures Nest(fs + [f], body) == Nest(fs, [Wrap(f, body)])
  {
    BareAllSnoc(fs, f);
    PlugSnoc(BareAll(fs), Bare(f), body);
    assert [] + [Wrap(f, body)] + [] == [Wrap(f, body)];
    assert Wrap(Bare(f), body) == Wrap(f, body);
  }

  function Moves(z: Place, levels: nat): nat { if levels <= Available(z) then levels else Available(z) }

  lemma {:induction false} MovesStep(z: Place, levels: nat)
    requires levels > 0 && CanHoist(z)
    ensures Moves(z, levels) == 1 + Moves(HoistOnce(z), levels - 1)
    ensures HoistN(z, levels) == HoistN(HoistOnce(z), levels - 1)
  {}

  lemma {:induction false} HoistStays(z: Place, levels: nat)
    requires levels == 0 || !CanHoist(z)
    ensures HoistN(z, levels) == z
  {}

  lemma {:induction false} AvailableBound(z: Place)
    ensures Available(z) <= |z.fs|
    decreases |z.fs|
  {
    if CanHoist(z) { AvailableBound(HoistOnce(z)); }
  }

  /** The scope i places above the innermost one has no other statement in it. */
  predicate AloneAbove(z: Place, i: nat)
    requires i < |z.fs|
  {
    var f := z.fs[|z.fs| - 1 - i];
    f.before == [] && f.after == []
  }

  /** The loop can move up m places exactly when m scopes enclose it, it is alone in the innermost
      of them, and each of the others holds nothing but the next. */
  lemma {:induction false} AvailableExactly(z: Place, m: nat)
    requires z.loop.Loop?
    ensures m <= Available(z) <==>
      m == 0 || (m <= |z.fs| && z.before == [] && z.after == [] && forall i: nat | i < m - 1 :: AloneAbove(z, i))
    decreases m
  {
    if m > 0 && CanHoist(z) {
      var y := HoistOnce(z);
      AvailableExactly(y, m - 1);
      forall i: nat | i + 1 < |z.fs| ensures AloneAbove(y, i) == AloneAbove(z, i + 1) {}
      if m <= |z.fs| && m > 1 {
        assert AloneAbove(z, 0) <==> y.before == [] && y.after == [];
        if forall i: nat | i < m - 1 :: AloneAbove(z, i) {
          forall i: nat | i < m - 2 ensures AloneAbove(y, i) { assert AloneAbove(z, i + 1); }
        } else {
          var i: nat :| i < m - 1 && !AloneAbove(z, i);
          if i > 0 { assert AloneAbove(y, i - 1) == AloneAbove(z, i); }
        }
      }
    }
  }

  /** The loop moves up exactly min(levels, available) places; the scopes it passes keep
      their order inside it, around its old content. */
  lemma {:induction false} HoistPermutes(z: Place, levels: nat)
    requires z.loop.Loop?
    ensures var m, k := Moves(z, levels), |z.fs|;
      var z' := HoistN(z, levels);
      m <= k && z'.fs == z.fs[..k - m] &&
      z'.loop == Loop(z.loop.id, z.loop.end, z.loop.stride, Nest(z.fs[k - m..], z.loop.body)) &&
      (m > 0 ==> z'.before == z.fs[k - m].before && z'.after == z.fs[k - m].after) &&
      (m == 0 ==> z' == z)
    decreases levels
  {
    var k := |z.fs|;
    AvailableBound(z);
    if levels > 0 && CanHoist(z) {
      var y := HoistOnce(z);
      MovesStep(z, levels);
      HoistPermutes(y, levels - 1);
      HoistTail(z, Moves(z, levels));
    } else {
      assert z.fs[k..] == [] && z.fs[..k] == z.fs;
    }
  }

  lemma {:induction false} HoistTail(z: Place, m: nat)
    requires CanHoist(z) && 1 <= m <= |z.fs|
    ensures var y, k := HoistOnce(z), |z.fs|;
      |y.fs| == k - 1 && y.fs[..k - m] == z.fs[..k - m] &&
      Nest(y.fs[k - m..], y.loop.body) == Nest(z.fs[k - m..], z.loop.body) &&
      (m > 1 ==> y.fs[k - m] == z.fs[k - m])
  {
    var y, k := HoistOnce(z), |z.fs|;
    assert z.fs[k - m..] == y.fs[k - m..] + [z.fs[k - 1]];
    NestSnoc(y.fs[k - m..], z.fs[k - 1], z.loop.body);
  }

  // ---- Well-formedness ------------------------------------------------------------------

  /** An exchange keeps the nest well formed. */
  lemma {:induction false} SwapWf(f: Frame, L: Stmt, scope: set<LoopId>)
    requires L.Loop? && WfS(Wrap(f, [L]), scope)
    ensures Distinct(f, L)
    ensures WfS(Loop(L.id, L.end, L.stride, [Wrap(f, L.body)]), scope)
    ensures Bound(Loop(L.id, L.end, L.stride, [Wrap(f, L.body)])) == Bound(Wrap(f, [L]))
  {
    Single(L);
    Single(Wrap(f, L.body));
    match f
    case InLoop(_, p, _, _, _) =>
      assert scope + {p} + {L.id} == scope + {L.id} + {p};
      WfBoundFresh([L], scope + {p});
    case InIf(_, v, _, _, _) =>
      ScopeGrowsE(v, scope, scope + {L.id});
      if Mentions(v, L.id) { InScopeMentions(v, scope, L.id); }
  }

  lemma {:induction false} HoistOnceWf(z: Place)
    requires CanHoist(z) && WfB(Whole(z), {})
    ensures WfB(Whole(HoistOnce(z)), {}) && BoundB(Whole(HoistOnce(z))) == BoundB(Whole(z))
  {
    hide WfB, BoundB;
    var k := |z.fs| - 1;
    var f, outer, L := z.fs[k], z.fs[..k], z.loop;
    var N := HoistOnce(z).loop;
    var scope := Inside(outer, map[]).Keys;
    assert z.fs == outer + [f] && z.before + [L] + z.after == [L];
    PlugSnoc(outer, f, [L]);
    var here := f.before + [Wrap(f, [L])] + f.after;
    var none: Table := map[];
    assert none.Keys == {};
    PlugWf(outer, none, here, here);
    AroundWf(f.before, [Wrap(f, [L])], [N], f.after, scope);
    Single(Wrap(f, [L]));
    Single(N);
    SwapWf(f, L, scope);
    PlugWf(outer, none, here, f.before + [N] + f.after);
  }

  /** hoist keeps a well-formed program well formed, and its loops. */
  lemma {:induction false} HoistWf(z: Place, levels: nat)
    requires WfB(Whole(z), {})
    ensures WfB(Whole(HoistN(z, levels)), {}) && BoundB(Whole(HoistN(z, levels))) == BoundB(Whole(z))
    decreases levels
  {
    if levels > 0 && CanHoist(z) {
      HoistOnceWf(z);
      HoistWf(HoistOnce(z), levels - 1);
    }
  }

  /** Where a loop is, edited in place. */
  class Cursor {
    var place: Place

    constructor (z: Place)
      ensures place == z
    {
      place := z;
    }

    /** hoist(L, levels) for the loop at the cursor. */
    method Hoist(levels: nat) returns (changed: bool)
      requires place.loop.Loop?
      modifies this
      ensures place == HoistN(old(place), levels)
      ensures changed <==> levels > 0 && old(place.fs) != [] && old(place.before) == [] && old(place.after) == []
      ensures var z, k := old(place), |old(place).fs|;
        var m := Moves(z, levels);
        m <= k && place.fs == z.fs[..k - m] && place.loop.Loop? &&
        place.loop == Loop(z.loop.id, z.loop.end, z.loop.stride, Nest(z.fs[k - m..], z.loop.body))
      ensures HoistLegal(old(place), levels) ==> SameIn(map[], Whole(old(place)), Whole(place))
      ensures WfB(Whole(old(place)), {}) ==> WfB(Whole(place), {})
      decreases levels
    {
      hide WfB, SameIn, HoistLegal, HoistN, Available, Moves, Nest, Plug;
      ghost var before := place;
      HoistPermutes(before, levels);
      if levels == 0 || !CanHoist(before) { HoistStays(before, levels); } else { MovesStep(before, levels); }
      if WfB(Whole(before), {}) { HoistWf(before, levels); }
      if HoistLegal(before, levels) { HoistPreserves(before, levels); }
      if levels == 0 { return false; }
      // There must be a scope around the loop, with nothing else in it, owned by a scope.
      if |place.fs| == 0 || |place.before| + |place.after| + 1 != 1 { return false; }
      var f := place.fs[|place.fs| - 1];
      // The loop takes the place of its scope, and the scope that of the loop body.
      var parent := Wrap(f, place.loop.body);
      var L := Loop(place.loop.id, place.loop.end, place.loop.stride, [parent]);
      place := Place(place.fs[..|place.fs| - 1], f.before, L, f.after);
      var _ := Hoist(levels - 1);
      changed := true;
    }
  }

  // ---- sink -----------------------------------------------------------------------------

  predicate CanSink(L: Stmt)
  {
    L.Loop? && |L.body| == 1 && L.body[0].Loop?
  }

  /** L moved down by at most `levels` places; the result is the new outermost statement. */
  function Sunk(L: Stmt, levels: nat): Stmt
    decreases levels
  {
    if levels == 0 || !CanSink(L) then L
    else
      var inner := L.body[0];
      Loop(inner.id, inner.end, inner.stride, [Sunk(Loop(L.id, L.end, L.stride, inner.body), levels - 1)])
  }

  ghost predicate SinkLegal(t: Table, L: Stmt, levels: nat)
    decreases levels
  {
    levels > 0 && CanSink(L) ==>
      var inner := L.body[0];
      inner.id != L.id && SwapLegal(t, InLoop([], L.id, L.end, L.stride, []), inner) &&
      SinkLegal(t[inner.id := Extent(inner.end, inner.stride)], Loop(L.id, L.end, L.stride, inner.body), levels - 1)
  }

  /** sink preserves the program when every exchange it makes is legal. */
  lemma {:induction false} SinkPreserves(t: Table, L: Stmt, levels: nat)
    requires SinkLegal(t, L, levels)
    ensures SameIn(t, [L], [Sunk(L, levels)])
    decreases levels
  {
    if levels > 0 && CanSink(L) {
      var inner := L.body[0];
      assert L.body == [inner];
      var P := Loop(L.id, L.end, L.stride, inner.body);
      SwapLoops(t, L.id, L.end, L.stride, inner, [], []);
      SinkPreserves(t[inner.id := Extent(inner.end, inner.stride)], P, levels - 1);
      SameInLoop(t, inner.id, inner.end, inner.stride, [P], [Sunk(P, levels - 1)]);
    }
  }

  /** sink keeps the loop well formed, and declares the same loops. */
  lemma {:induction false} SinkWf(L: Stmt, levels: nat, scope: set<LoopId>)
    requires WfS(L, scope)
    ensures WfS(Sunk(L, levels), scope) && Bound(Sunk(L, levels)) == Bound(L)
    decreases levels
  {
    hide WfB;
    if levels > 0 && CanSink(L) {
      var inner := L.body[0];
      assert L.body == [inner];
      var P := Loop(L.id, L.end, L.stride, inner.body);
      SwapWf(InLoop([], L.id, L.end, L.stride, []), inner, scope);
      WfInside(Loop(inner.id, inner.end, inner.stride, [P]), scope);
      SinkWf(P, levels - 1, scope + {inner.id});
      WfInside(Loop(inner.id, inner.end, inner.stride, [Sunk(P, levels - 1)]), scope);
    }
  }

  lemma {:induction false} WfInside(L: Stmt, scope: set<LoopId>)
    requires L.Loop? && |L.body| == 1
    ensures WfS(L, scope) <==> (L.end > 0 && 0 < L.stride < 1024 && L.end % L.stride == 0 && L.id !in scope &&
                                WfS(L.body[0], scope + {L.id}))
    ensures Bound(L) == {L.id} + Bound(L.body[0])
  {
    assert L.body == [L.body[0]];
    Single(L.body[0]);
  }

  // ---- How far sink moves a loop --------------------------------------------------------------

  /** The loops directly inside L, one in the other, from the outside in. */
  function InnerLoops(L: Stmt): seq<Frame>
    requires L.Loop?
  {
    if |L.body| == 1 && L.body[0].Loop? then
      [InLoop([], L.body[0].id, L.body[0].end, L.body[0].stride, [])] + InnerLoops(L.body[0])
    else []
  }

  /** The body of the innermost of them. */
  function Core(L: Stmt): seq<Stmt>
    requires L.Loop?
  {
    if |L.body| == 1 && L.body[0].Loop? then Core(L.body[0]) else L.body
  }

  lemma {:induction false} NestCons(f: Frame, fs: seq<Frame>, body: seq<Stmt>)
    ensures Nest([f] + fs, body) == [Wrap(f, Nest(fs, body))]
  {
    assert ([f] + fs)[1..] == fs;
    var g := Bare(f);
    assert BareAll([f] + fs) == [g] + BareAll(fs);
    assert ([g] + BareAll(fs))[1..] == BareAll(fs);
    assert Plug([g] + BareAll(fs), body) == [] + [Wrap(g, Plug(BareAll(fs), body))] + [];
    assert Wrap(g, Nest(fs, body)) == Wrap(f, Nest(fs, body));
  }

  /** They are all the loops of a perfect nest: what is inside them is not one more loop. */
  lemma {:induction false} InnerLoopsNest(L: Stmt)
    requires L.Loop?
    ensures L.body == Nest(InnerLoops(L), Core(L)) && !(|Core(L)| == 1 && Core(L)[0].Loop?)
    ensures forall f | f in InnerLoops(L) :: f.InLoop?
  {
    if |L.body| == 1 && L.body[0].Loop? {
      var inner := L.body[0];
      InnerLoopsNest(inner);
      var f := InLoop([], inner.id, inner.end, inner.stride, []);
      NestCons(f, InnerLoops(inner), Core(inner));
      assert L.body == [inner] && Wrap(f, inner.body) == inner;
    } else {
      assert BareAll([]) == [] && Nest([], L.body) == L.body;
    }
  }

  /** L moves down exactly min(levels, inner loops) places: the loops it passes are around it in their
      order, and the others, around the innermost body, are inside it. */
  lemma {:induction false} SinkPermutes(L: Stmt, levels: nat)
    requires L.Loop?
    ensures var fs := InnerLoops(L);
      var m := if levels <= |fs| then levels else |fs|;
      [Sunk(L, levels)] == Nest(fs[..m], [Loop(L.id, L.end, L.stride, Nest(fs[m..], Core(L)))])
    decreases levels
  {
    var fs := InnerLoops(L);
    InnerLoopsNest(L);
    if levels > 0 && CanSink(L) {
      var inner := L.body[0];
      var P := Loop(L.id, L.end, L.stride, inner.body);
      var rest := InnerLoops(inner);
      assert InnerLoops(P) == rest && Core(P) == Core(inner);
      SinkPermutes(P, levels - 1);
      var n := if levels - 1 <= |rest| then levels - 1 else |rest|;
      var f := InLoop([], inner.id, inner.end, inner.stride, []);
      assert fs == [f] + rest && fs[..n + 1] == [f] + rest[..n] && fs[n + 1..] == rest[n..];
      NestCons(f, rest[..n], [Loop(L.id, L.end, L.stride, Nest(rest[n..], Core(L)))]);
    } else {
      assert fs[..0] == [] && fs[0..] == fs && BareAll([]) == [];
    }
  }

  /** sink(L, levels): hoist the only child loop above L, and go on. */
  method Sink(L: Stmt, levels: nat, ghost t: Table) returns (changed: bool, r: Stmt)
    requires L.Loop?
    ensures changed <==> levels >= 1 && |L.body| == 1 && L.body[0].Loop?
    ensures var fs := InnerLoops(L);
      var m := if levels <= |fs| then levels else |fs|;
      [r] == Nest(fs[..m], [Loop(L.id, L.end, L.stride, Nest(fs[m..], Core(L)))])
    ensures r == Sunk(L, levels)
    ensures SinkLegal(t, L, levels) ==> SameIn(t, [L], [r])
    ensures WfS(L, t.Keys) ==> WfS(r, t.Keys) && Bound(r) == Bound(L)
    decreases levels
  {
    SinkPermutes(L, levels);
    if WfS(L, t.Keys) { SinkWf(L, levels, t.Keys); }
    if SinkLegal(t, L, levels) { SinkPreserves(t, L, levels); }
    if levels < 1 { return false, L; }
    // Can only sink into a body that is one inner loop.
    if |L.body| != 1 || !L.body[0].Loop? { return false, L; }
    var inner := L.body[0];
    // One step up for the inner loop is one step down for L.
    var cursor := new Cursor(Place([InLoop([], L.id, L.end, L.stride, [])], [], inner, []));
    ghost var z := cursor.place;
    var hoisted := cursor.Hoist(1);
    assert z.fs[..0] == [];
    assert HoistN(z, 1) == HoistN(HoistOnce(z), 0) == HoistOnce(z);
    assert cursor.place.loop.body == [Loop(L.id, L.end, L.stride, inner.body)];
    // And on, from below the inner loop.
    var _, deeper := Sink(cursor.place.loop.body[0], levels - 1, t[inner.id := Extent(inner.end, inner.stride)]);
    r := Loop(inner.id, inner.end, inner.stride, [deeper]);
    changed := true;
  }
}
