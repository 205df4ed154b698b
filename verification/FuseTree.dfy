/** fuse on a scope: merge a loop with the next one, then try to fuse the merged children. */
module FuseTree {
  import opened IR
  import opened Substitution
  import opened Context
  import opened Scopes
  import opened Ranges
  import opened Fusion

  function LoopCountS(s: Stmt): nat
  {
    match s
    case Loop(_, _, _, body) => 1 + LoopCount(body)
    case IfRange(_, _, _, body) => LoopCount(body)
    case _ => 0
  }

  function LoopCount(ss: seq<Stmt>): nat
  {
    if ss == [] then 0 else LoopCountS(ss[0]) + LoopCount(ss[1..])
  }

  lemma {:induction false} LoopCountAppend(a: seq<Stmt>, b: seq<Stmt>)
    ensures LoopCount(a + b) == LoopCount(a) + LoopCount(b)
  {
    if a == [] {
      assert a + b == b;
    } else {
      assert (a + b)[0] == a[0] && (a + b)[1..] == a[1..] + b;
      LoopCountAppend(a[1..], b);
    }
  }

  lemma {:induction false} LoopCountSubst(ss: seq<Stmt>, l: LoopId, r: Expr)
    ensures LoopCount(SubstB(ss, l, r)) == LoopCount(ss)
    decreases ss
  {
    if ss != [] {
      LoopCountSubst(ss[1..], l, r);
      assert SubstB(ss, l, r)[1..] == SubstB(ss[1..], l, r);
      match ss[0] {
        case Loop(_, _, _, body) => LoopCountSubst(body, l, r);
        case IfRange(_, _, _, body) => LoopCountSubst(body, l, r);
        case _ =>
      }
    }
  }

  /** The statement at pos is a loop and so is the next one (getNextStmt), and they pass. */
  predicate CanFuse(ss: seq<Stmt>, pos: nat, t: Table)
  {
    pos + 1 < |ss| && ss[pos].Loop? && ss[pos + 1].Loop? && ChecksPass(ss[pos], ss[pos + 1], t)
  }

  lemma {:induction false} FusedCount(ss: seq<Stmt>, pos: nat)
    requires pos + 1 < |ss| && ss[pos].Loop? && ss[pos + 1].Loop?
    ensures LoopCount(Fused(ss[pos], ss[pos + 1]).body) < LoopCount(ss)
  {
    var L, L2 := ss[pos], ss[pos + 1];
    LoopCountSubst(L2.body, L2.id, Idx(L.id));
    LoopCountAppend(L.body, SubstB(L2.body, L2.id, Idx(L.id)));
    assert ss == ss[..pos] + ([L] + ([L2] + ss[pos + 2..]));
    LoopCountAppend(ss[..pos], [L] + ([L2] + ss[pos + 2..]));
    assert ([L] + ([L2] + ss[pos + 2..]))[1..] == [L2] + ss[pos + 2..];
    assert ([L2] + ss[pos + 2..])[1..] == ss[pos + 2..];
    assert LoopCount([L2] + ss[pos + 2..]) == LoopCountS(L2) + LoopCount(ss[pos + 2..]);
    assert LoopCount([L] + ([L2] + ss[pos + 2..])) == LoopCountS(L) + LoopCount([L2] + ss[pos + 2..]);
  }

  /** Fuse at pos when possible; the result is the new statement list of the scope. */
  function FuseAt(ss: seq<Stmt>, pos: nat, t: Table): seq<Stmt>
    requires CanFuse(ss, pos, t)
    decreases LoopCount(ss), |ss| - pos, 0
  {
    var m := Fused(ss[pos], ss[pos + 1]);
    FusedCount(ss, pos);
    ss[..pos] + [Loop(m.id, m.end, m.stride, FuseChildren(m.body, 0, LoopTable(m, t)))] + ss[pos + 2..]
  }

  /** The first child loop, from position `from` on, that can be fused is fused. */
  function FuseChildren(ss: seq<Stmt>, from: nat, t: Table): seq<Stmt>
    requires from <= |ss|
    decreases LoopCount(ss), |ss| - from, 1
  {
    if from == |ss| then ss
    else if CanFuse(ss, from, t) then FuseAt(ss, from, t)
    else FuseChildren(ss, from + 1, t)
  }

  /** Every merge made on the way merges loops whose conflicting accesses are separated. */
  ghost predicate FuseLegal(ss: seq<Stmt>, pos: nat, t: Table)
    requires CanFuse(ss, pos, t)
    decreases LoopCount(ss), |ss| - pos, 0
  {
    var L, L2 := ss[pos], ss[pos + 1];
    var m := Fused(L, L2);
    FusedCount(ss, pos);
    AllSeparated(L, L2, t) && Simple(L.body) && Simple(L2.body) &&
    ChildrenLegal(m.body, 0, LoopTable(m, t))
  }

  ghost predicate ChildrenLegal(ss: seq<Stmt>, from: nat, t: Table)
    requires from <= |ss|
    decreases LoopCount(ss), |ss| - from, 1
  {
    from < |ss| ==>
      if CanFuse(ss, from, t) then FuseLegal(ss, from, t) else ChildrenLegal(ss, from + 1, t)
  }

  lemma {:induction false} FusedWf(L: Stmt, L2: Stmt, scope: set<LoopId>)
    requires L.Loop? && L2.Loop? && WfB([L, L2], scope) && L.end == L2.end && L.stride == L2.stride
    ensures WfS(Fused(L, L2), scope) && Bound(Fused(L, L2)) == Bound(L) + BoundB(L2.body)
  {
    assert [L, L2][1..] == [L2];
    Single(L2);
    var b2 := SubstB(L2.body, L2.id, Idx(L.id));
    assert L.id in Bound(L) && L2.id in Bound(L2);
    WfBoundFresh(L.body, scope + {L.id});
    WfBoundFresh(L2.body, scope + {L2.id});
    SubstWf(L2.body, L2.id, Idx(L.id), scope + {L2.id}, scope + {L.id});
    WfAppend(L.body, b2, scope + {L.id});
    BoundAppend(L.body, b2);
  }

  /** A scope cut around two neighbouring statements. */
  lemma {:induction false} CutTwo(ss: seq<Stmt>, pos: nat, scope: set<LoopId>)
    requires pos + 1 < |ss| && WfB(ss, scope)
    ensures ss == ss[..pos] + [ss[pos], ss[pos + 1]] + ss[pos + 2..]
    ensures WfB([ss[pos], ss[pos + 1]], scope) && WfB(ss[..pos], scope) && WfB(ss[pos + 2..], scope)
    ensures BoundB(ss) == BoundB(ss[..pos]) + BoundB([ss[pos], ss[pos + 1]]) + BoundB(ss[pos + 2..])
    ensures BoundB([ss[pos], ss[pos + 1]]) == Bound(ss[pos]) + Bound(ss[pos + 1])
    ensures BoundB(ss[..pos]) !! BoundB([ss[pos], ss[pos + 1]])
    ensures BoundB(ss[..pos]) + BoundB([ss[pos], ss[pos + 1]]) !! BoundB(ss[pos + 2..])
  {
    var a, b, c := ss[..pos], [ss[pos], ss[pos + 1]], ss[pos + 2..];
    assert ss == a + b + c;
    WfAppend(a + b, c, scope);
    WfAppend(a, b, scope);
    BoundAppend(a + b, c);
    BoundAppend(a, b);
    assert b == [ss[pos]] + [ss[pos + 1]];
    BoundAppend([ss[pos]], [ss[pos + 1]]);
    Single(ss[pos]);
    Single(ss[pos + 1]);
  }

  lemma {:induction false} FuseAtWf(ss: seq<Stmt>, pos: nat, t: Table)
    requires CanFuse(ss, pos, t) && WfB(ss, t.Keys)
    ensures WfB(FuseAt(ss, pos, t), t.Keys) && BoundB(FuseAt(ss, pos, t)) <= BoundB(ss)
    decreases LoopCount(ss), |ss| - pos, 0
  {
    var L, L2 := ss[pos], ss[pos + 1];
    var m := Fused(L, L2);
    FusedCount(ss, pos);
    CutTwo(ss, pos, t.Keys);
    FusedWf(L, L2, t.Keys);
    assert LoopTable(m, t).Keys == t.Keys + {m.id};
    ChildrenWf(m.body, 0, LoopTable(m, t));
    var m' := Loop(m.id, m.end, m.stride, FuseChildren(m.body, 0, LoopTable(m, t)));
    Single(m');
    var a, c := ss[..pos], ss[pos + 2..];
    WfAppend(a + [m'], c, t.Keys);
    WfAppend(a, [m'], t.Keys);
    BoundAppend(a + [m'], c);
    BoundAppend(a, [m']);
  }

  lemma {:induction false} ChildrenWf(ss: seq<Stmt>, from: nat, t: Table)
    requires from <= |ss| && WfB(ss, t.Keys)
    ensures WfB(FuseChildren(ss, from, t), t.Keys) && BoundB(FuseChildren(ss, from, t)) <= BoundB(ss)
    decreases LoopCount(ss), |ss| - from, 1
  {
    if from < |ss| {
      if CanFuse(ss, from, t) { FuseAtWf(ss, from, t); } else { ChildrenWf(ss, from + 1, t); }
    }
  }

  /** fuse, with the fusion of children it triggers, preserves the final state when every
      merge is legal. */
  lemma {:induction false} FuseAtPreserves(ss: seq<Stmt>, pos: nat, t: Table)
    requires CanFuse(ss, pos, t) && WfB(ss, t.Keys) && GoodTable(t) && FuseLegal(ss, pos, t)
    ensures SameIn(t, ss, FuseAt(ss, pos, t))
    decreases LoopCount(ss), |ss| - pos, 0
  {
    var L, L2 := ss[pos], ss[pos + 1];
    var m := Fused(L, L2);
    FusedCount(ss, pos);
    CutTwo(ss, pos, t.Keys);
    FusePreserves(L, L2, t);
    FusedWf(L, L2, t.Keys);
    var t' := LoopTable(m, t);
    assert t'.Keys == t.Keys + {m.id};
    DividesLeq(m.end, m.stride);
    ChildrenPreserve(m.body, 0, t');
    var body' := FuseChildren(m.body, 0, t');
    SameInLoop(t, m.id, m.end, m.stride, m.body, body');
    SameAround(t, ss[..pos], [L, L2], [m], ss[pos + 2..]);
    SameAround(t, ss[..pos], [m], [Loop(m.id, m.end, m.stride, body')], ss[pos + 2..]);
  }

  lemma {:induction false} ChildrenPreserve(ss: seq<Stmt>, from: nat, t: Table)
    requires from <= |ss| && WfB(ss, t.Keys) && GoodTable(t) && ChildrenLegal(ss, from, t)
    ensures SameIn(t, ss, FuseChildren(ss, from, t))
    decreases LoopCount(ss), |ss| - from, 1
  {
    if from < |ss| {
      if CanFuse(ss, from, t) { FuseAtPreserves(ss, from, t); } else { ChildrenPreserve(ss, from + 1, t); }
    }
  }

  // ---- What is fused, and what is not ----------------------------------------------------

  /** Two neighbouring loops whose accesses have rising subscripts. */
  predicate RisingPair(ss: seq<Stmt>, pos: nat, t: Table)
  {
    pos + 1 < |ss| && ss[pos].Loop? && ss[pos + 1].Loop? && SubscriptsRise(BothAccesses(ss[pos], ss[pos + 1], t))
  }

  /** Two neighbouring loops of one shape whose accesses to common buffers are aligned. */
  ghost predicate AlignedPair(ss: seq<Stmt>, pos: nat, t: Table)
  {
    pos + 1 < |ss| && ss[pos].Loop? && ss[pos + 1].Loop? && SameShape(ss[pos], ss[pos + 1]) &&
    LoopsAligned(ss[pos], ss[pos + 1], t)
  }

  /** fuse accepts aligned neighbours only; and, where subscripts rise with their indices, all of them. */
  lemma {:induction false} CanFuseExactly(ss: seq<Stmt>, pos: nat, t: Table, rank: nat -> nat)
    requires pos < |ss| && RankB(ss, rank) && WfB(ss, t.Keys) && GoodTable(t)
    ensures CanFuse(ss, pos, t) && RangesTrusted(BothAccesses(ss[pos], ss[pos + 1], t)) ==> AlignedPair(ss, pos, t)
    ensures RisingPair(ss, pos, t) ==> (CanFuse(ss, pos, t) <==> AlignedPair(ss, pos, t))
  {
    hide ChecksPass, LoopsAligned, SameShape, RangesTrusted, SubscriptsRise, WfB, GoodTable, RankB;
    if pos + 1 < |ss| && ss[pos].Loop? && ss[pos + 1].Loop? {
      var L, L2 := ss[pos], ss[pos + 1];
      RankAt(ss, pos, rank);
      RankAt(ss, pos + 1, rank);
      RankedAccesses(L.body, rank, LoopTable(L, t));
      RankedAccesses(L2.body, rank, LoopTable(L2, t));
      CutTwo(ss, pos, t.Keys);
      TwoWf(L, L2, t.Keys);
      ChecksExactly(L, L2, t, rank);
    }
  }

  lemma {:induction false} TwoWf(a: Stmt, b: Stmt, scope: set<LoopId>)
    requires WfB([a, b], scope)
    ensures WfS(a, scope) && WfS(b, scope)
  {
    assert [a, b][1..] == [b];
  }

  lemma {:induction false} FuseAtIs(ss: seq<Stmt>, pos: nat, t: Table)
    requires CanFuse(ss, pos, t)
    ensures var L, L2 := ss[pos], ss[pos + 1];
      FuseAt(ss, pos, t) == ss[..pos] + [Loop(L.id, L.end, L.stride,
        FuseChildren(L.body + SubstB(L2.body, L2.id, Idx(L.id)), 0, LoopTable(L, t)))] + ss[pos + 2..]
  {
    assert LoopTable(Fused(ss[pos], ss[pos + 1]), t) == LoopTable(ss[pos], t);
  }

  /** What fuse leaves at pos: the merged loop, in which the first child that can be fused, if there
      is one, has been fused with the next. */
  lemma {:induction false} FirstChildFused(ss: seq<Stmt>, pos: nat, t: Table)
    requires CanFuse(ss, pos, t)
    ensures var m := Fused(ss[pos], ss[pos + 1]);
      var t', out := LoopTable(m, t), FuseAt(ss, pos, t);
      |out| == |ss| - 1 && out[..pos] == ss[..pos] && out[pos + 1..] == ss[pos + 2..] &&
      out[pos].Loop? && Loop(out[pos].id, out[pos].end, out[pos].stride, m.body) == m &&
      FirstFused(m.body, out[pos].body, t')
  {
    var m := Fused(ss[pos], ss[pos + 1]);
    ChildFused(m.body, 0, LoopTable(m, t));
  }

  /** ss' is ss with its first fusible loop fused; or ss itself, if no loop can be. */
  ghost predicate FirstFused(ss: seq<Stmt>, ss': seq<Stmt>, t: Table)
  {
    if exists p: nat :: p < |ss| && CanFuse(ss, p, t) then
      exists p: nat :: p < |ss| && CanFuse(ss, p, t) && (forall q: nat | q < p :: !CanFuse(ss, q, t)) &&
        ss' == FuseAt(ss, p, t)
    else ss' == ss
  }

  lemma {:induction false} ChildFused(ss: seq<Stmt>, from: nat, t: Table)
    requires from <= |ss| && forall q: nat | q < from :: !CanFuse(ss, q, t)
    ensures FirstFused(ss, FuseChildren(ss, from, t), t)
    decreases |ss| - from
  {
    if from < |ss| && !CanFuse(ss, from, t) { ChildFused(ss, from + 1, t); }
  }

  // ---- Ranks of buffers ---------------------------------------------------------------

  ghost predicate RankE(e: Expr, rank: nat -> nat)
  {
    match e
    case Binary(_, a, b) => RankE(a, rank) && RankE(b, rank)
    case Unary(_, v) => RankE(v, rank)
    case Load(arg, subs, _) => |subs| == rank(arg) && RankAll(subs, rank)
    case Broadcast(x, _) => RankE(x, rank)
    case _ => true
  }

  ghost predicate RankAll(es: seq<Expr>, rank: nat -> nat)
  {
    es == [] || (RankE(es[0], rank) && RankAll(es[1..], rank))
  }

  /** Every access has as many subscripts as its buffer has dimensions. */
  ghost predicate RankB(ss: seq<Stmt>, rank: nat -> nat)
  {
    ss == [] || (
      (match ss[0]
       case Loop(_, _, _, body) => RankB(body, rank)
       case IfRange(v, _, _, body) => RankE(v, rank) && RankB(body, rank)
       case Store(arg, subs, v, _) => |subs| == rank(arg) && RankAll(subs, rank) && RankE(v, rank)
       case StoreLocal(_, v, _) => RankE(v, rank)
       case Call(_, ps) => RankAll(ps, rank))
      && RankB(ss[1..], rank))
  }

  lemma {:induction false} RankedLoadsE(e: Expr, rank: nat -> nat, t: Table)
    requires RankE(e, rank)
    ensures Ranked(LoadsE(e, t), rank)
    decreases e
  {
    match e
    case Binary(_, a, b) => RankedLoadsE(a, rank, t); RankedLoadsE(b, rank, t);
    case Unary(_, v) => RankedLoadsE(v, rank, t);
    case Load(_, subs, _) => RankedLoadsAll(subs, rank, t);
    case Broadcast(x, _) => RankedLoadsE(x, rank, t);
    case _ =>
  }

  lemma {:induction false} RankedLoadsAll(es: seq<Expr>, rank: nat -> nat, t: Table)
    requires RankAll(es, rank)
    ensures Ranked(LoadsAll(es, t), rank)
    decreases es
  {
    if es != [] { RankedLoadsE(es[0], rank, t); RankedLoadsAll(es[1..], rank, t); }
  }

  lemma {:induction false} RankedAccesses(ss: seq<Stmt>, rank: nat -> nat, t: Table)
    requires RankB(ss, rank)
    ensures Ranked(LoadsB(ss, t), rank) && Ranked(StoresB(ss, t), rank)
    decreases ss
  {
    if ss != [] {
      RankedAccesses(ss[1..], rank, t);
      match ss[0] {
        case Loop(id, end, stride, body) => RankedAccesses(body, rank, t[id := Extent(end, stride)]);
        case IfRange(v, _, _, body) => RankedLoadsE(v, rank, t); RankedAccesses(body, rank, t);
        case Store(_, subs, v, _) => RankedLoadsAll(subs, rank, t); RankedLoadsE(v, rank, t);
        case StoreLocal(_, v, _) => RankedLoadsE(v, rank, t);
        case Call(_, ps) => RankedLoadsAll(ps, rank, t);
      }
    }
  }

  lemma {:induction false} RankSubstE(e: Expr, l: LoopId, k: LoopId, rank: nat -> nat)
    requires RankE(e, rank)
    ensures RankE(Subst(e, l, Idx(k)), rank)
    decreases e, 0
  {
    match e
    case Binary(_, a, b) => RankSubstE(a, l, k, rank); RankSubstE(b, l, k, rank);
    case Unary(_, v) => RankSubstE(v, l, k, rank);
    case Load(_, subs, _) =>
      RankSubstAll(subs, l, k, rank);
      assert Subst(e, l, Idx(k)).subs == SubstAll(subs, l, Idx(k));
    case Broadcast(x, _) => RankSubstE(x, l, k, rank);
    case _ =>
  }

  lemma {:induction false} RankSubstAll(es: seq<Expr>, l: LoopId, k: LoopId, rank: nat -> nat)
    requires RankAll(es, rank)
    ensures RankAll(SubstAll(es, l, Idx(k)), rank)
    decreases es, 1
  {
    if es != [] {
      RankSubstE(es[0], l, k, rank);
      RankSubstAll(es[1..], l, k, rank);
      assert SubstAll(es, l, Idx(k))[1..] == SubstAll(es[1..], l, Idx(k));
    }
  }

  lemma {:induction false} RankSubst(ss: seq<Stmt>, l: LoopId, k: LoopId, rank: nat -> nat)
    requires RankB(ss, rank)
    ensures RankB(SubstB(ss, l, Idx(k)), rank)
    decreases ss
  {
    if ss != [] {
      RankSubst(ss[1..], l, k, rank);
      assert SubstB(ss, l, Idx(k))[1..] == SubstB(ss[1..], l, Idx(k));
      match ss[0] {
        case Loop(_, _, _, body) => RankSubst(body, l, k, rank);
        case IfRange(v, _, _, body) => RankSubstE(v, l, k, rank); RankSubst(body, l, k, rank);
        case Store(_, subs, v, _) => RankSubstAll(subs, l, k, rank); RankSubstE(v, l, k, rank);
        case StoreLocal(_, v, _) => RankSubstE(v, l, k, rank);
        case Call(_, ps) => RankSubstAll(ps, l, k, rank);
      }
    }
  }

  lemma {:induction false} RankAppend(a: seq<Stmt>, b: seq<Stmt>, rank: nat -> nat)
    ensures RankB(a + b, rank) == (RankB(a, rank) && RankB(b, rank))
  {
    if a == [] {
      assert a + b == b;
    } else {
      assert (a + b)[0] == a[0] && (a + b)[1..] == a[1..] + b;
      RankAppend(a[1..], b, rank);
    }
  }

  lemma {:induction false} RankAt(ss: seq<Stmt>, pos: nat, rank: nat -> nat)
    requires pos < |ss| && RankB(ss, rank) && ss[pos].IsScope()
    ensures RankB(ss[pos].body, rank)
  {
    assert ss == ss[..pos] + ([ss[pos]] + ss[pos + 1..]);
    RankAppend(ss[..pos], [ss[pos]] + ss[pos + 1..], rank);
  }

  // ---- fuse in place --------------------------------------------------------------------

  /** Tries fuse(L) for every child loop L of the scope in order, until one succeeds. */
  method FuseFirstChild(s: Scope, t: Table, ghost rank: nat -> nat)
    requires RankB(s.body, rank)
    modifies s
    ensures s.body == FuseChildren(old(s.body), 0, t)
    decreases LoopCount(s.body), 2
  {
    ghost var ss := s.body;
    var i := 0;
    while i < |s.body|
      invariant 0 <= i <= |s.body| && s.body == ss
      invariant FuseChildren(ss, 0, t) == FuseChildren(ss, i, t)
    {
      var done := Fuse(s, i, t, rank);
      if done { return; }
      i := i + 1;
    }
  }

  /** fuse(L) for the statement at s.body[pos], where the loops around s have the ranges t. */
  method Fuse(s: Scope, pos: nat, t: Table, ghost rank: nat -> nat) returns (changed: bool)
    requires pos < |s.body| && RankB(s.body, rank)
    modifies s
    ensures changed <==> CanFuse(old(s.body), pos, t)
    ensures WfB(old(s.body), t.Keys) && GoodTable(t) && RisingPair(old(s.body), pos, t) ==>
      (changed <==> AlignedPair(old(s.body), pos, t))
    ensures changed && WfB(old(s.body), t.Keys) && GoodTable(t) ==>
      RangesTrusted(BothAccesses(old(s.body)[pos], old(s.body)[pos + 1], t)) ==>
      AlignedPair(old(s.body), pos, t)
    ensures changed ==> s.body == FuseAt(old(s.body), pos, t)
    ensures changed ==>
      var m := Fused(old(s.body)[pos], old(s.body)[pos + 1]);
      |s.body| == |old(s.body)| - 1 && s.body[pos].Loop? && FirstFused(m.body, s.body[pos].body, LoopTable(m, t))
    ensures !changed ==> s.body == old(s.body)
    ensures changed && WfB(old(s.body), t.Keys) ==> WfB(s.body, t.Keys)
    ensures changed && WfB(old(s.body), t.Keys) && GoodTable(t) && FuseLegal(old(s.body), pos, t) ==>
      SameIn(t, old(s.body), s.body)
    decreases LoopCount(s.body), 1
  {
    hide WfB, SameIn, FuseLegal, GoodTable, ChecksPass, FirstFused, AlignedPair, RisingPair, RangesTrusted, FuseAt,
      FuseChildren, RankB, LoadsB, StoresB;
    if WfB(s.body, t.Keys) && GoodTable(t) { CanFuseExactly(s.body, pos, t, rank); }
    var L := s.body[pos];
    if !L.Loop? || pos + 1 >= |s.body| { return false; }
    var L2 := s.body[pos + 1];
    if !L2.Loop? { return false; }
    RankAt(s.body, pos, rank);
    RankAt(s.body, pos + 1, rank);
    RankedAccesses(L.body, rank, LoopTable(L, t));
    RankedAccesses(L2.body, rank, LoopTable(L2, t));
    changed := FuseChecks(L, L2, t, rank);
    if !changed { return; }
    ghost var ss := s.body;
    Merge(s, pos, t, rank);
    FirstChildFused(ss, pos, t);
    if WfB(ss, t.Keys) {
      FuseAtWf(ss, pos, t);
      if GoodTable(t) && FuseLegal(ss, pos, t) { FuseAtPreserves(ss, pos, t); }
    }
  }

  /** The rewrite itself: the second loop joins the first, and then the first two neighbours inside
      that fuse, if any do. */
  method Merge(s: Scope, pos: nat, t: Table, ghost rank: nat -> nat)
    requires RankB(s.body, rank) && CanFuse(s.body, pos, t)
    modifies s
    ensures s.body == FuseAt(old(s.body), pos, t)
    decreases LoopCount(s.body), 0
  {
    hide FuseAt, FuseChildren, RankB, ChecksPass;
    var L, L2 := s.body[pos], s.body[pos + 1];
    ghost var ss := s.body;
    FusedCount(ss, pos);
    FuseAtIs(ss, pos, t);
    RankAt(ss, pos, rank);
    RankAt(ss, pos + 1, rank);
    RankSubst(L2.body, L2.id, L.id, rank);
    RankAppend(L.body, SubstB(L2.body, L2.id, Idx(L.id)), rank);
    // The second body counts with the index of the first.
    var merged := new Scope(L.body);
    var content := new Scope(SubstB(L2.body, L2.id, Idx(L.id)));
    merged.TakeContent(content);
    FuseFirstChild(merged, LoopTable(L, t), rank);
    s.ReplaceStmt(Loop(L.id, L.end, L.stride, merged.body), pos);
    s.RemoveStmt(pos + 1);
  }
}
