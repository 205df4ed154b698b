/** widen: every iteration does the work of several, by duplicating the stores that use the
    loop index. */
module Widening {
  import opened IR
  import opened Families
  import opened Semantics
  import opened Substitution
  import opened Clone
  import opened Context
  import opened Scopes
  import opened Peeling
  import opened Decided
  import opened Instances
  import opened Sites
  import Fusion

  // ---- Images of stores ---------------------------------------------------------------

  lemma {:induction false} ShiftedExec(p: Stmt, l: LoopId, offset: nat, pe: Env, st: State)
    requires p.Store? && ScalarS(p)
    ensures ExecS(Shifted(p, l, offset), pe, st) == ExecS(p, pe.At(l, pe.Get(l) + offset), st)
  {
    if offset == 0 {
      ExecAgreeS(p, pe, pe.At(l, pe.Get(l)), st);
    } else {
      var a, b := Idx(l), Const(offset);
      assert IndexOnly(a) && IndexOnly(b) && IndexValue(a, pe) == pe.Get(l) && IndexValue(b, pe) == offset;
      ExecSubstS(p, l, Binary(Add, a, b), pe, st);
    }
  }

  /** The copies of a store do what the iterations they stand for do. */
  lemma {:induction false} CopiesRun(p: Stmt, l: LoopId, stride: nat, count: nat, pe: Env, st: State)
    requires p.Store? && ScalarS(p)
    ensures Exec(ShiftedCopies(p, l, stride, count), pe, st) == Iter(Nth([p], l, pe.Get(l), stride, pe), count, st)
  {
    hide ScalarS, ScalarAll, Shifted;
    if count > 0 {
      var c := count - 1;
      CopiesRun(p, l, stride, c, pe, st);
      var mid := Iter(Nth([p], l, pe.Get(l), stride, pe), c, st);
      ExecAppend(ShiftedCopies(p, l, stride, c), [Shifted(p, l, c * stride)], pe, st);
      ExecOne(Shifted(p, l, c * stride), pe, mid);
      ShiftedExec(p, l, c * stride, pe, mid);
      ExecOne(p, pe.At(l, pe.Get(l) + c * stride), mid);
    }
  }

  lemma {:induction false} InstanceScalar(p: Stmt, pe: Env, ss: seq<Stmt>, env: Env, g: State)
    requires ScalarB(ss) && IsInstance(p, pe, ss, env, g)
    ensures ScalarS(p) && !p.IsScope()
    decreases ss
  {
    if IsInstance(p, pe, ss[1..], env, g) {
      InstanceScalar(p, pe, ss[1..], env, g);
    } else {
      match ss[0] {
        case Loop(id, end, stride, body) =>
          var k: nat :| k < Trip(end, stride) && IsInstance(p, pe, body, env.At(id, k * stride), g);
          InstanceScalar(p, pe, body, env.At(id, k * stride), g);
        case IfRange(_, _, _, body) => InstanceScalar(p, pe, body, env, g);
        case _ =>
      }
    }
  }

  lemma {:induction false} CopiesOk(ss: seq<Stmt>, env: Env, l: LoopId, stride: nat, count: nat, g: State)
    requires ScalarB(ss)
    ensures ImagesOk(ss, env, l, Duplicate(count, stride), g)
  {
    forall p: Stmt, pe: Env | IsInstance(p, pe, ss, env, g) && p.Store?
      ensures ImageOk(p, pe, l, Duplicate(count, stride))
    {
      InstanceScalar(p, pe, ss, env, g);
      forall st: State
        ensures Exec(Image(p, l, Duplicate(count, stride)), pe, st) ==
                Iter(Nth([p], l, pe.Get(l), stride, pe), count, st)
      {
        CopiesRun(p, l, stride, count, pe, st);
      }
    }
  }

  // ---- The widened loop -----------------------------------------------------------------

  /** Iterations grouped by mode: the index advances by count steps. */
  function Grouped(L: Stmt, end: nat, mode: Mode): Stmt
    requires L.Loop?
  {
    Loop(L.id, end, L.stride * mode.count, MapStores(L.body, L.id, mode))
  }

  /** Every group of iterations of L can run as one iteration of the mapped body. */
  ghost predicate GroupsRun(t: Table, L: Stmt, end: nat, mode: Mode)
    requires L.Loop?
  {
    forall env: Env, k: nat, st: State
      | ValidEnv(t, env) && k < Trip(end, L.stride * mode.count) ::
      Exec(MapStores(L.body, L.id, mode), env.At(L.id, k * (L.stride * mode.count)), st) ==
      Iter(Nth(L.body, L.id, k * (L.stride * mode.count), L.stride, env), mode.count, st)
  }

  lemma {:induction false} GroupIsBlock(L: Stmt, c: nat, env: Env, k: nat, x: State)
    requires L.Loop? && k * (L.stride * c) >= 0
    ensures Iter(Nth(L.body, L.id, k * (L.stride * c), L.stride, env), c, x) ==
            Blocks(Body(L.body, L.id, L.stride, env), c)(k, x)
  {
    var s := L.stride;
    var f, base := Body(L.body, L.id, s, env), k * (s * c);
    forall j: nat, y: State
      ensures Nth(L.body, L.id, base, s, env)(j, y) == Shift(f, k * c)(j, y)
    {
      BlockIndex(k, s, c, j);
    }
    IterCong(Nth(L.body, L.id, base, s, env), Shift(f, k * c), c, x);
  }

  lemma {:induction false} BlockIndex(k: int, s: int, c: int, j: int)
    ensures k * (s * c) + j * s == (k * c + j) * s
  {}

  /** Strip mining: the grouped loop computes what the loop does, over whole groups. */
  lemma {:induction false} GroupedPreserves(t: Table, L: Stmt, end: nat, mode: Mode)
    requires L.Loop? && L.stride > 0 && mode.count > 0 && end % (L.stride * mode.count) == 0
    requires L.stride * mode.count > 0 && GroupsRun(t, L, end, mode)
    ensures SameIn(t, [PeeledHead(L, end)], [Grouped(L, end, mode)])
  {
    var s, c := L.stride, mode.count;
    var m := end / (s * c);
    TripExact(end, s * c);
    assert end == (m * c) * s by { assert m * (s * c) == (m * c) * s; }
    TripMul(m * c, s);
    var H, G := PeeledHead(L, end), Grouped(L, end, mode);
    forall env: Env, st: State | ValidEnv(t, env)
      ensures Exec([H], env, st) == Exec([G], env, st)
    {
      var f, g := Body(L.body, L.id, s, env), Body(G.body, L.id, s * c, env);
      ExecOne(H, env, st);
      ExecOne(G, env, st);
      ExecLoop(L.id, end, s, L.body, env, st);
      ExecLoop(L.id, end, s * c, G.body, env, st);
      forall k: nat, x: State | k < m
        ensures g(k, x) == Blocks(f, c)(k, x)
      {
        GroupIsBlock(L, c, env, k, x);
      }
      IterCong(g, Blocks(f, c), m, st);
      IterBlocks(f, c, m, st);
    }
  }

  /** Store instances from different iterations of L commute, in whatever state the guards are
      decided. */
  ghost predicate IterationsCommute(t: Table, L: Stmt)
    requires L.Loop?
  {
    forall env: Env, i: nat, j: nat, g: State | ValidEnv(t, env) && i < j < Trip(L.end, L.stride) ::
      InstancesCommute(L.body, env.At(L.id, i * L.stride), L.body, env.At(L.id, j * L.stride), g)
  }

  /** In every state, no store instance of any iteration of L changes the answer of a guard in L. */
  ghost predicate GuardsKept(t: Table, L: Stmt)
    requires L.Loop?
  {
    forall env: Env, i: nat, g: State | ValidEnv(t, env) && i < Trip(L.end, L.stride) ::
      KeepsGuards(L.body, env.At(L.id, i * L.stride), g)
  }

  lemma {:induction false} CommutingPair(t: Table, L: Stmt, end: nat, mode: Mode, env: Env, k: nat, i: nat, j: nat,
                                         g: State)
    requires L.Loop? && L.stride > 0 && IterationsCommute(t, L) && ValidEnv(t, env) && mode.count > 0
    requires end <= L.end && L.stride * mode.count > 0 && end % (L.stride * mode.count) == 0
    requires k < Trip(end, L.stride * mode.count) && i < j < mode.count
    ensures InstancesCommute(L.body, env.At(L.id, k * (L.stride * mode.count) + i * L.stride),
                             L.body, env.At(L.id, k * (L.stride * mode.count) + j * L.stride), g)
  {
    hide InstancesCommute, Trip, ValidEnv;
    var s, c := L.stride, mode.count;
    GroupIndex(L.end, end, s, c, k, i);
    GroupIndex(L.end, end, s, c, k, j);
    var a, b := k * c + i, k * c + j;
    assert a < b < Trip(L.end, s);
    assert InstancesCommute(L.body, env.At(L.id, a * s), L.body, env.At(L.id, b * s), g);
  }

  /** So the iterations of one group keep them. */
  lemma {:induction false} KeepingGroup(t: Table, L: Stmt, end: nat, mode: Mode, env: Env, k: nat, g: State)
    requires L.Loop? && L.stride > 0 && GuardsKept(t, L) && ValidEnv(t, env) && mode.count > 0
    requires end <= L.end && L.stride * mode.count > 0 && end % (L.stride * mode.count) == 0
    requires k < Trip(end, L.stride * mode.count)
    ensures GroupKeeps(L.body, L.id, k * (L.stride * mode.count), L.stride, mode.count, env, g)
  {
    hide KeepsGuards, Trip, ValidEnv;
    var s, c := L.stride, mode.count;
    forall i: nat | i < c ensures KeepsGuards(L.body, env.At(L.id, k * (s * c) + i * s), g) {
      GroupIndex(L.end, end, s, c, k, i);
      var a := k * c + i;
      assert KeepsGuards(L.body, env.At(L.id, a * s), g);
    }
  }

  /** Iteration i of group k is an iteration of the loop. */
  lemma {:induction false} GroupIndex(end: nat, cut: nat, s: nat, c: nat, k: nat, i: nat)
    requires s > 0 && c > 0 && s * c > 0 && cut <= end && cut % (s * c) == 0 && k < Trip(cut, s * c) && i < c
    ensures k * (s * c) + i * s == (k * c + i) * s && k * c + i < Trip(end, s)
  {
    var m := cut / (s * c);
    TripExact(cut, s * c);
    assert m * (s * c) == (m * c) * s;
    assert (k * c + i) * s == k * (s * c) + i * s;
    MulGap(k, m, c);
    MulGap(k * c + i, m * c, s);
    TripRange(k * c + i, end, s);
  }

  /** Every store under L uses its index, and store instances of different iterations commute, unless
      there is only one store, whose copies run in the original order. No store changes the answer of
      a guard. */
  ghost predicate WidenLegal(t: Table, L: Stmt)
    requires L.Loop?
  {
    GuardsKept(t, L) && ((StoresMention(L.body, L.id) && IterationsCommute(t, L)) || OneGuarded(L.body, L.id))
  }

  /** The iterations of such a loop can be grouped by copies. */
  lemma {:induction false} CopiesGroup(t: Table, L: Stmt, end: nat, wf: nat, scope: set<LoopId>)
    requires L.Loop? && WfS(L, scope) && wf > 0 && L.stride * wf > 0 && end <= L.end && end % (L.stride * wf) == 0
    requires WidenLegal(t, L)
    ensures GroupsRun(t, L, end, Duplicate(wf, L.stride))
  {
    forall env: Env, k: nat, st: State | ValidEnv(t, env) && k < Trip(end, L.stride * wf)
      ensures Exec(MapStores(L.body, L.id, Duplicate(wf, L.stride)), env.At(L.id, k * (L.stride * wf)), st) ==
              Iter(Nth(L.body, L.id, k * (L.stride * wf), L.stride, env), wf, st)
    {
      CopiesGroupAt(t, L, end, wf, scope, env, k, st);
    }
  }

  lemma {:induction false} CopiesGroupAt(t: Table, L: Stmt, end: nat, wf: nat, scope: set<LoopId>, env: Env, k: nat,
                                         st: State)
    requires L.Loop? && WfS(L, scope) && wf > 0 && L.stride * wf > 0 && end <= L.end && end % (L.stride * wf) == 0
    requires WidenLegal(t, L) && ValidEnv(t, env) && k < Trip(end, L.stride * wf)
    ensures Exec(MapStores(L.body, L.id, Duplicate(wf, L.stride)), env.At(L.id, k * (L.stride * wf)), st) ==
            Iter(Nth(L.body, L.id, k * (L.stride * wf), L.stride, env), wf, st)
  {
    hide WfB, ValidEnv, StoresMention, MapStores, IterationsCommute, Nth, NthIn, GuardsKept, GroupKeeps, ImagesOk,
      OneGuarded, Exec, Run, Iter, InstancesCommute, KeepsGuards;
    var mode := Duplicate(wf, L.stride);
    WfScalar(L.body, scope + {L.id});
    WfBoundFresh(L.body, scope + {L.id});
    var base := k * (L.stride * wf);
    KeepingGroup(t, L, end, mode, env, k, st);
    CopiesOk(L.body, env.At(L.id, base), L.id, L.stride, wf, st);
    if OneGuarded(L.body, L.id) {
      OneGuardedMentions(L.body, L.id);
      OneGuardedRuns(L.body, L.id, base, mode, env, st, st);
      GroupDecided(L.body, L.id, base, mode, env, st);
    } else {
      forall i: nat, j: nat | i < j < wf
        ensures InstancesCommute(L.body, env.At(L.id, base + i * L.stride), L.body, env.At(L.id, base + j * L.stride),
          st)
      {
        CommutingPair(t, L, end, mode, env, k, i, j, st);
      }
      GroupRuns(L.body, L.id, base, mode, env, st);
    }
  }

  /** A body without guards has none to keep. */
  lemma {:induction false} UnguardedKept(t: Table, L: Stmt)
    requires L.Loop? && forall s | s in L.body :: !s.IsScope()
    ensures GuardsKept(t, L)
  {
    forall env: Env, g: State, x: State ensures SameGuards(L.body, env, g, x) { UnguardedSame(L.body, env, g, x); }
  }

  lemma {:induction false} UnguardedSame(ss: seq<Stmt>, env: Env, g: State, x: State)
    requires forall s | s in ss :: !s.IsScope()
    ensures SameGuards(ss, env, g, x)
  {
    if ss != [] {
      assert ss[0] in ss && forall s | s in ss[1..] :: s in ss;
      UnguardedSame(ss[1..], env, g, x);
    }
  }

  /** A loop over one store that uses its index can always be widened. */
  lemma {:induction false} OneStoreLegal(t: Table, L: Stmt)
    requires L.Loop? && |L.body| == 1 && L.body[0].Store? && MentionsS(L.body[0], L.id)
    ensures WidenLegal(t, L)
  {
    UnguardedKept(t, L);
  }

  // ---- widen -----------------------------------------------------------------------------

  /** Locals are read or written somewhere (collectLocals is not empty). */
  predicate UsesLocalsE(e: Expr)
  {
    match e
    case Binary(_, a, b) => UsesLocalsE(a) || UsesLocalsE(b)
    case Unary(_, v) => UsesLocalsE(v)
    case Load(_, subs, _) => exists x | x in subs :: UsesLocalsE(x)
    case LoadLocal(_) => true
    case Broadcast(x, _) => UsesLocalsE(x)
    case _ => false
  }

  predicate UsesLocals(ss: seq<Stmt>)
  {
    ss != [] && (
      (match ss[0]
       case Loop(_, _, _, body) => UsesLocals(body)
       case IfRange(v, _, _, body) => UsesLocalsE(v) || UsesLocals(body)
       case Store(_, subs, v, _) => (exists x | x in subs :: UsesLocalsE(x)) || UsesLocalsE(v)
       case StoreLocal(_, _, _) => true
       case Call(_, ps) => exists x | x in ps :: UsesLocalsE(x))
      || UsesLocals(ss[1..]))
  }

  /** Every use of the index of l sits in a store (collectStoreSites succeeds). */
  predicate IndexInStores(ss: seq<Stmt>, l: LoopId)
  {
    ss == [] || (
      (match ss[0]
       case Loop(_, _, _, body) => IndexInStores(body, l)
       case IfRange(v, _, _, body) => !Mentions(v, l) && IndexInStores(body, l)
       case StoreLocal(_, v, _) => !Mentions(v, l)
       case Call(_, ps) => !MentionsAny(ps, l)
       case Store(_, _, _, _) => true)
      && IndexInStores(ss[1..], l))
  }

  lemma {:induction false} LocalsUsedE(e: Expr)
    ensures UsesLocalsE(e) <==> Fusion.VarsReadE(e) != {}
  {
    match e
    case Binary(_, a, b) => LocalsUsedE(a); LocalsUsedE(b);
    case Unary(_, v) => LocalsUsedE(v);
    case Load(_, subs, _) => LocalsUsedAll(subs);
    case LoadLocal(v) => assert v.name in Fusion.VarsReadE(e);
    case Broadcast(x, _) => LocalsUsedE(x);
    case _ =>
  }

  lemma {:induction false} LocalsUsedAll(es: seq<Expr>)
    ensures (exists x | x in es :: UsesLocalsE(x)) <==> Fusion.VarsReadAll(es) != {}
  {
    if es != [] {
      LocalsUsedE(es[0]);
      LocalsUsedAll(es[1..]);
      assert forall x :: x in es <==> x == es[0] || x in es[1..];
      assert es[0] in es;
    }
  }

  lemma {:induction false} NothingIn(a: set<string>, b: set<string>)
    ensures a + b == {} <==> a == {} && b == {}
  {
    if a + b == {} { assert a <= a + b && b <= a + b; }
  }

  /** No local is collected exactly when the block reads none and writes none. */
  lemma {:induction false} LocalsUsed(ss: seq<Stmt>)
    ensures !UsesLocals(ss) <==> Fusion.VarsRead(ss) == {} && Fusion.VarsWritten(ss) == {}
    decreases ss
  {
    if ss != [] {
      LocalsUsed(ss[1..]);
      NothingIn(Fusion.VarsReadS(ss[0]), Fusion.VarsRead(ss[1..]));
      NothingIn(Fusion.VarsWrittenS(ss[0]), Fusion.VarsWritten(ss[1..]));
      match ss[0] {
        case Loop(_, _, _, body) => LocalsUsed(body);
        case IfRange(v, _, _, body) => LocalsUsedE(v); LocalsUsed(body);
        case Store(_, subs, v, _) => LocalsUsedAll(subs); LocalsUsedE(v);
        case StoreLocal(v, _, _) => assert v.name in Fusion.VarsWritten(ss);
        case Call(_, ps) => LocalsUsedAll(ps);
      }
    }
  }

  /** The store sites are all found exactly when nothing but stores uses the index. */
  lemma {:induction false} SitesFound(ss: seq<Stmt>, l: LoopId)
    ensures IndexInStores(ss, l) <==> OnlyStoresUse(ss, l)
    decreases ss
  {
    if ss != [] {
      SitesFound(ss[1..], l);
      var cs, ls := Conditions(ss), Leaves(ss);
      match ss[0] {
        case Loop(_, _, _, body) =>
          SitesFound(body, l);
          assert cs == Conditions(body) + Conditions(ss[1..]) && ls == Leaves(body) + Leaves(ss[1..]);
        case IfRange(v, _, _, body) =>
          SitesFound(body, l);
          assert cs == [v] + Conditions(body) + Conditions(ss[1..]) && ls == Leaves(body) + Leaves(ss[1..]);
        case _ => assert cs == Conditions(ss[1..]) && ls == [ss[0]] + Leaves(ss[1..]);
      }
    }
  }

  predicate CanWiden(L: Stmt, wf: nat)
    requires L.Loop?
  {
    !UsesLocals(L.body) && L.end >= L.stride * wf && IndexInStores(L.body, L.id)
  }

  /** widen accepts a loop exactly when it neither reads nor writes a local, is long enough for one
      group, and uses its index in stores only; then its iterations run the same statements. */
  lemma {:induction false} CanWidenExactly(L: Stmt, wf: nat)
    requires L.Loop?
    ensures CanWiden(L, wf) <==>
      Fusion.VarsRead(L.body) == {} && Fusion.VarsWritten(L.body) == {} && L.end >= L.stride * wf &&
      OnlyStoresUse(L.body, L.id)
  {
    LocalsUsed(L.body);
    SitesFound(L.body, L.id);
  }

  /** Where the loop is cut: the last whole group. */
  function Cut(end: nat, group: nat): nat
    requires group > 0
  {
    end - end % group
  }

  /** The grouped loop and, if the groups do not cover the range, the peeled tail. */
  function GroupedLoops(L: Stmt, mode: Mode, next: LoopId): seq<Stmt>
    requires L.Loop? && L.stride * mode.count > 0
  {
    var group := L.stride * mode.count;
    if L.end % group == 0 then [Grouped(L, L.end, mode)]
    else [Grouped(L, Cut(L.end, group), mode), PeeledTail(L, Cut(L.end, group), next)]
  }

  lemma {:induction false} CutFacts(end: nat, s: nat, c: nat)
    requires s > 0 && c > 0 && end % s == 0 && end >= s * c
    ensures s * c > 0
    ensures var k := Cut(end, s * c); 0 < k <= end && k % (s * c) == 0 && k % s == 0
  {
    MulGap(0, c, s);
    assert s * c == c * s;
    CutMultiple(end, s * c);
    var q := end / (s * c);
    assert q * (s * c) == (q * c) * s;
    MulDiv(q * c, s);
  }

  lemma {:induction false} CutMultiple(end: nat, g: nat)
    requires 0 < g <= end
    ensures Cut(end, g) == (end / g) * g && 0 < Cut(end, g) <= end && Cut(end, g) % g == 0
  {
    var q := end / g;
    assert end == g * q + end % g;
    assert g * q == q * g;
    MulDiv(q, g);
    MulGap(q, 0, g);
    MulGap(0, q, g);
  }

  /** Grouping with the peeled tail preserves the program. */
  lemma {:induction false} GroupedLoopsPreserve(t: Table, L: Stmt, mode: Mode, next: LoopId, scope: set<LoopId>)
    requires L.Loop? && WfS(L, scope) && Below(scope, next) && Below(Bound(L), next)
    requires mode.count > 0 && L.end >= L.stride * mode.count && L.stride * mode.count > 0
    requires GroupsRun(t, L, Cut(L.end, L.stride * mode.count), mode)
    ensures SameIn(t, [L], GroupedLoops(L, mode, next))
  {
    var g := L.stride * mode.count;
    var k := Cut(L.end, g);
    CutFacts(L.end, L.stride, mode.count);
    GroupedPreserves(t, L, k, mode);
    if L.end % g != 0 {
      var tail := PeeledTail(L, k, next);
      PeelPreserves(L, k, next, scope);
      SameAround(t, [], [PeeledHead(L, k)], [Grouped(L, k, mode)], [tail]);
      assert [] + [PeeledHead(L, k)] + [tail] == [PeeledHead(L, k), tail];
      assert [] + [Grouped(L, k, mode)] + [tail] == GroupedLoops(L, mode, next);
    } else {
      assert PeeledHead(L, k) == L;
    }
  }

  /** widen preserves such a loop. */
  lemma {:induction false} WidenPreserves(t: Table, L: Stmt, wf: nat, next: LoopId, scope: set<LoopId>)
    requires L.Loop? && WfS(L, scope) && Below(scope, next) && Below(Bound(L), next)
    requires wf > 0 && CanWiden(L, wf) && WidenLegal(t, L)
    ensures L.stride * wf > 0
    ensures SameIn(t, [L], GroupedLoops(L, Duplicate(wf, L.stride), next))
  {
    CutFacts(L.end, L.stride, wf);
    var k := Cut(L.end, L.stride * wf);
    CopiesGroup(t, L, k, wf, scope);
    GroupedLoopsPreserve(t, L, Duplicate(wf, L.stride), next, scope);
  }

  // ---- When the result passes verify() -------------------------------------------------------

  lemma {:induction false} CopiesWf(p: Stmt, l: LoopId, stride: nat, count: nat, scope: set<LoopId>)
    requires p.Store? && WfS(p, scope) && l in scope
    ensures WfB(ShiftedCopies(p, l, stride, count), scope) && BoundB(ShiftedCopies(p, l, stride, count)) == {}
  {
    if count > 0 {
      var a, s := ShiftedCopies(p, l, stride, count - 1), Shifted(p, l, (count - 1) * stride);
      CopiesWf(p, l, stride, count - 1, scope);
      ShiftedWf(p, l, (count - 1) * stride, scope);
      Single(s);
      WfAppend(a, [s], scope);
      BoundAppend(a, [s]);
    }
  }

  lemma {:induction false} ShiftedWf(p: Stmt, l: LoopId, offset: nat, scope: set<LoopId>)
    requires p.Store? && WfS(p, scope) && l in scope
    ensures WfS(Shifted(p, l, offset), scope) && Shifted(p, l, offset).Store?
  {
    if offset != 0 {
      var r := Binary(Add, Idx(l), Const(offset));
      assert WfE(Idx(l), scope) && WfE(Const(offset), scope) && WfE(r, scope);
      Single(p);
      SubstWf([p], l, r, scope, scope);
      Single(SubstS(p, l, r));
    }
  }

  /** Duplicated stores keep the body well formed. */
  lemma {:induction false} MapStoresWf(ss: seq<Stmt>, l: LoopId, mode: Mode, scope: set<LoopId>)
    requires mode.Duplicate? && WfB(ss, scope) && l in scope
    ensures WfB(MapStores(ss, l, mode), scope) && BoundB(MapStores(ss, l, mode)) == BoundB(ss)
    decreases ss
  {
    hide WfE, WfAll, ShiftedCopies;
    if ss == [] {
      NothingMapped(l, mode);
    } else {
      MapStoresWf(ss[1..], l, mode, scope);
      var first := MapStores([ss[0]], l, mode);
      assert [ss[0]][1..] == [];
      NothingMapped(l, mode);
      assert WfB(first, scope) && BoundB(first) == Bound(ss[0]) by {
        Single(ss[0]);
        match ss[0] {
          case Loop(id, end, stride, body) =>
            MapStoresWf(body, l, mode, scope + {id});
            Single(Loop(id, end, stride, MapStores(body, l, mode)));
            assert first == [Loop(id, end, stride, MapStores(body, l, mode))];
          case IfRange(v, start, stop, body) =>
            MapStoresWf(body, l, mode, scope);
            Single(IfRange(v, start, stop, MapStores(body, l, mode)));
            assert first == [IfRange(v, start, stop, MapStores(body, l, mode))];
          case Store(_, _, _, _) =>
            CopiesWf(ss[0], l, mode.stride, mode.count, scope);
            assert first == if MentionsS(ss[0], l) then ShiftedCopies(ss[0], l, mode.stride, mode.count) else [ss[0]];
          case _ => assert first == [ss[0]];
        }
      }
      MapStoresHead(ss, l, mode);
      WfAppend(first, MapStores(ss[1..], l, mode), scope);
      BoundAppend(first, MapStores(ss[1..], l, mode));
    }
  }

  /** The loops that grouping brings in are new. */
  predicate OnlyNew(out: seq<Stmt>, L: Stmt, next: LoopId)
  {
    forall l | l in BoundB(out) :: l in Bound(L) || next <= l
  }

  /** The widened loops pass verify() exactly when the new stride stays below its limit. */
  lemma {:induction false} WidenWf(L: Stmt, wf: nat, next: LoopId, scope: set<LoopId>)
    requires L.Loop? && WfS(L, scope) && Below(scope, next) && Below(Bound(L), next) && wf > 0 && CanWiden(L, wf)
    ensures L.stride * wf > 0
    ensures var out := GroupedLoops(L, Duplicate(wf, L.stride), next);
      (WfB(out, scope) <==> L.stride * wf < 1024) && OnlyNew(out, L, next)
  {
    hide CanWiden, MapStores, WfB;
    assert L.end >= L.stride * wf by { WidenFits(L, wf); }
    var mode := Duplicate(wf, L.stride);
    var g := L.stride * wf;
    CutFacts(L.end, L.stride, wf);
    var k := Cut(L.end, g);
    var G := Grouped(L, k, mode);
    MapStoresWf(L.body, L.id, mode, scope + {L.id});
    assert WfS(G, scope) <==> g < 1024;
    assert Bound(G) == Bound(L);
    Single(G);
    if L.end % g != 0 {
      var T := PeeledTail(L, k, next);
      PeelWf(L, k, next, scope);
      PairWf(PeeledHead(L, k), T, scope);
      PairWf(G, T, scope);
    }
  }

  lemma {:induction false} WidenFits(L: Stmt, wf: nat)
    requires L.Loop? && CanWiden(L, wf)
    ensures L.end >= L.stride * wf
  {}

  lemma {:induction false} PairWf(a: Stmt, b: Stmt, scope: set<LoopId>)
    ensures WfB([a, b], scope) == (WfS(a, scope) && WfS(b, scope) && Bound(a) !! Bound(b))
    ensures BoundB([a, b]) == Bound(a) + Bound(b)
  {
    assert [a, b] == [a] + [b];
    WfAppend([a], [b], scope);
    BoundAppend([a], [b]);
    Single(a);
    Single(b);
  }

  /** In its scope, too. */
  lemma {:induction false} WidenSplicedWf(ss: seq<Stmt>, pos: nat, wf: nat, next: LoopId, scope: set<LoopId>)
    requires pos < |ss| && ss[pos].Loop? && WfB(ss, scope) && Below(scope, next) && Below(BoundB(ss), next)
    requires wf > 0 && CanWiden(ss[pos], wf)
    ensures ss[pos].stride * wf > 0
    ensures var L := ss[pos];
      WfB(Spliced(ss, pos, GroupedLoops(L, Duplicate(wf, L.stride), next)), scope) <==> L.stride * wf < 1024
  {
    hide WfB, CanWiden, GroupedLoops;
    var L := ss[pos];
    SplitAt(ss, pos, scope);
    WidenWf(L, wf, next, scope);
    var r := GroupedLoops(L, Duplicate(wf, L.stride), next);
    if WfB(r, scope) { SplicedWf(ss, pos, r, scope); }
    WfAppend(ss[..pos] + r, ss[pos + 1..], scope);
    WfAppend(ss[..pos], r, scope);
  }

  /** A loop over 0..2048 with stride 512 is accepted by four, and gets a stride that verify() rejects. */
  lemma {:induction false} WidenStrideTooLarge(l: LoopId, next: LoopId, body: seq<Stmt>, scope: set<LoopId>)
    requires WfS(Loop(l, 2048, 512, body), scope) && Below(scope, next) && Below(Bound(Loop(l, 2048, 512, body)), next)
    requires !UsesLocals(body) && IndexInStores(body, l)
    ensures var L := Loop(l, 2048, 512, body);
      CanWiden(L, 4) && GroupedLoops(L, Duplicate(4, 512), next) == [Grouped(L, 2048, Duplicate(4, 512))] &&
      !WfB(GroupedLoops(L, Duplicate(4, 512), next), scope)
  {
    WidenWf(Loop(l, 2048, 512, body), 4, next, scope);
  }

  lemma {:induction false} CopiesCount(p: Stmt, l: LoopId, stride: nat, count: nat)
    requires p.Store?
    ensures |Leaves(ShiftedCopies(p, l, stride, count))| == count
  {
    if count > 0 {
      CopiesCount(p, l, stride, count - 1);
      var s := Shifted(p, l, (count - 1) * stride);
      LeavesAppend(ShiftedCopies(p, l, stride, count - 1), [s]);
      assert [s][1..] == [] && Leaves([s]) == [s];
    }
  }

  /** The leaves of ss are as many more after widening as its users of the index have copies. */
  predicate CountsCopies(ss: seq<Stmt>, l: LoopId, mode: Mode)
    requires mode.count > 0
  {
    |Leaves(MapStores(ss, l, mode))| == |Leaves(ss)| + (mode.count - 1) * Users(Leaves(ss), l)
  }

  lemma {:induction false} WidenedOne(s: Stmt, l: LoopId, mode: Mode)
    requires mode.Duplicate? && mode.count > 0 && (s.IsScope() ==> CountsCopies(s.body, l, mode))
    ensures CountsCopies([s], l, mode)
  {
    hide ShiftedCopies;
    NothingMapped(l, mode);
    var first := MapStores([s], l, mode);
    assert [s][1..] == [] && Leaves([]) == [];
    match s
    case Loop(id, end, stride, body) =>
      var s' := Loop(id, end, stride, MapStores(body, l, mode));
      assert first == [s'] && [s'][1..] == [] && Leaves(first) == Leaves(s'.body) && Leaves([s]) == Leaves(body);
    case IfRange(v, start, stop, body) =>
      var s' := IfRange(v, start, stop, MapStores(body, l, mode));
      assert first == [s'] && [s'][1..] == [] && Leaves(first) == Leaves(s'.body) && Leaves([s]) == Leaves(body);
    case Store(_, _, _, _) =>
      CopiesCount(s, l, mode.stride, mode.count);
      assert first == if MentionsS(s, l) then ShiftedCopies(s, l, mode.stride, mode.count) else [s];
      assert Leaves([s]) == [s] && Users([s], l) == if MentionsS(s, l) then 1 else 0;
    case _ => assert first == [s] && Leaves([s]) == [s] && Users([s], l) == 0;
  }

  /** Every store that uses the index becomes as many stores as a group has iterations. */
  lemma {:induction false} WidenedCount(ss: seq<Stmt>, l: LoopId, mode: Mode)
    requires mode.Duplicate? && mode.count > 0
    ensures CountsCopies(ss, l, mode)
    decreases ss
  {
    hide MapStores, Leaves, Users;
    if ss == [] {
      NothingMapped(l, mode);
      NoLeaves(l);
    } else {
      var one, rest, c := [ss[0]], ss[1..], mode.count - 1;
      if ss[0].IsScope() { WidenedCount(ss[0].body, l, mode); }
      WidenedOne(ss[0], l, mode);
      WidenedCount(rest, l, mode);
      assert ss == one + rest;
      MapStoresHead(ss, l, mode);
      LeavesAppend(MapStores(one, l, mode), MapStores(rest, l, mode));
      LeavesAppend(one, rest);
      UsersAppend(Leaves(one), Leaves(rest), l);
      var n, m := Users(Leaves(one), l), Users(Leaves(rest), l);
      assert c * (n + m) == c * n + c * m;
    }
  }

  lemma {:induction false} NoLeaves(l: LoopId)
    ensures Leaves([]) == [] && Users([], l) == 0
  {}

  /** What the widened scope looks like at pos. */
  lemma {:induction false} GroupedAt(ss: seq<Stmt>, pos: nat, mode: Mode, next: LoopId)
    requires pos < |ss| && ss[pos].Loop? && 0 < ss[pos].stride * mode.count <= ss[pos].end
    ensures var L := ss[pos];
      var g := L.stride * mode.count;
      var out := Spliced(ss, pos, GroupedLoops(L, mode, next));
      pos < |out| && out[pos] == Grouped(L, Cut(L.end, g), mode) &&
      out[pos].end <= L.end < out[pos].end + g && out[pos].end % g == 0
  {
    hide MapStores, CloneB, SubstB;
    var L := ss[pos];
    var g := L.stride * mode.count;
    CutMultiple(L.end, g);
    var G, T := Grouped(L, Cut(L.end, g), mode), PeeledTail(L, Cut(L.end, g), next);
    assert GroupedLoops(L, mode, next) == if L.end % g == 0 then [G] else [G, T];
    assert GroupedLoops(L, mode, next)[0] == G;
  }

  /** The copies with offsets from * stride and up. */
  function ShiftedFrom(s: Stmt, l: LoopId, stride: nat, from: nat, wf: nat): seq<Stmt>
    decreases wf - from
  {
    if from >= wf then [] else [Shifted(s, l, from * stride)] + ShiftedFrom(s, l, stride, from + 1, wf)
  }

  lemma {:induction false} CopiesSplit(s: Stmt, l: LoopId, stride: nat, wf: nat, from: nat)
    requires from <= wf
    ensures ShiftedCopies(s, l, stride, wf) == ShiftedCopies(s, l, stride, from) + ShiftedFrom(s, l, stride, from, wf)
    decreases wf - from
  {
    hide Shifted;
    if from < wf {
      CopiesSplit(s, l, stride, wf, from + 1);
    }
  }

  lemma {:induction false} InsertSecond(a: Stmt, rest: seq<Stmt>, b: Stmt)
    ensures ([a] + rest)[..1] + [b] + ([a] + rest)[1..] == [a] + ([b] + rest)
  {}

  /** Duplicates a store wf - 1 times; every copy is inserted right after the original, so
      the copy with the largest offset comes first. */
  method WidenStore(S: Stmt, l: LoopId, stride: nat, wf: nat) returns (site: Scope)
    requires S.Store? && wf > 0
    ensures fresh(site) && site.body == ShiftedCopies(S, l, stride, wf)
  {
    site := new Scope([S]);
    var i := 1;
    while i < wf
      invariant 1 <= i <= wf && fresh(site)
      invariant site.body == [S] + ShiftedFrom(S, l, stride, wf - i + 1, wf)
    {
      var c := wf - i;
      MulNonneg(c, stride);
      var copy := Shifted(S, l, c * stride);
      InsertSecond(S, ShiftedFrom(S, l, stride, c + 1, wf), copy);
      site.InsertAfterStmt(copy, 0);
      assert ShiftedFrom(S, l, stride, c, wf) == [copy] + ShiftedFrom(S, l, stride, c + 1, wf);
      i := i + 1;
    }
    CopiesSplit(S, l, stride, wf, 1);
    assert ShiftedCopies(S, l, stride, 0) == [];
    assert ShiftedCopies(S, l, stride, 1) == [S];
  }

  lemma {:induction false} NothingMapped(l: LoopId, mode: Mode)
    ensures MapStores([], l, mode) == []
  {}

  lemma {:induction false} MapStoresAppend(a: seq<Stmt>, b: seq<Stmt>, l: LoopId, mode: Mode)
    ensures MapStores(a + b, l, mode) == MapStores(a, l, mode) + MapStores(b, l, mode)
  {
    hide MapStores, Image;
    if a == [] {
      assert a + b == b;
      NothingMapped(l, mode);
    } else {
      assert (a + b)[0] == a[0] && (a + b)[1..] == a[1..] + b;
      MapStoresHead(a, l, mode);
      MapStoresHead(a + b, l, mode);
      MapStoresAppend(a[1..], b, l, mode);
    }
  }

  /** Widens every store site of the scope and of the scopes inside it. */
  method WidenSites(s: Scope, l: LoopId, stride: nat, wf: nat)
    requires wf > 0
    modifies s
    ensures s.body == MapStores(old(s.body), l, Duplicate(wf, stride))
    decreases s.body
  {
    var ss := s.body;
    ghost var mode := Duplicate(wf, stride);
    var out: seq<Stmt> := [];
    var i := 0;
    while i < |ss|
      invariant 0 <= i <= |ss| && out == MapStores(ss[..i], l, mode)
    {
      var S := ss[i];
      assert ss[..i + 1] == ss[..i] + [S];
      MapStoresAppend(ss[..i], [S], l, mode);
      assert [S][1..] == [] && MapStores([], l, mode) == [];
      match S {
        case Store(_, _, _, _) =>
          if MentionsS(S, l) {
            var site := WidenStore(S, l, stride, wf);
            out := out + site.body;
          } else {
            out := out + [S];
          }
        case Loop(id, end, st, body) =>
          var inner := new Scope(body);
          WidenSites(inner, l, stride, wf);
          out := out + [Loop(id, end, st, inner.body)];
        case IfRange(v, start, stop, body) =>
          var inner := new Scope(body);
          WidenSites(inner, l, stride, wf);
          out := out + [IfRange(v, start, stop, inner.body)];
        case _ => out := out + [S];
      }
      i := i + 1;
    }
    assert ss[..i] == ss;
    s.body := out;
  }

  /** Cuts off the tail if there is one, and turns the rest into the grouped loop. */
  method SplitTail(parent: Scope, pos: nat, newStride: nat, ids: IdSupply, ghost scope: set<LoopId>)
    returns (r: LoopId, end: nat)
    requires pos < |parent.body| && parent.body[pos].Loop? && 0 < newStride <= parent.body[pos].end
    requires parent.body[pos].stride > 0
    requires WfB(parent.body, scope) && ids.Newer(scope) && ids.Newer(BoundB(parent.body))
    requires Cut(parent.body[pos].end, newStride) % parent.body[pos].stride == 0
    modifies parent, ids
    ensures var L := old(parent.body[pos]);
      end == Cut(L.end, newStride) &&
      (L.end % newStride == 0 ==> r == L.id && parent.body == old(parent.body)) &&
      (L.end % newStride != 0 ==>
        (r == old(ids.next) &&
         parent.body == Spliced(old(parent.body), pos, [PeeledHead(L, end), PeeledTail(L, end, old(ids.next))])))
    ensures pos < |parent.body| && parent.body[pos] == PeeledHead(old(parent.body[pos]), end)
    ensures ids.Newer(scope) && ids.Newer(BoundB(parent.body))
  {
    var L := parent.body[pos];
    CutMultiple(L.end, newStride);
    r := L.id;
    end := L.end;
    if L.end % newStride != 0 {
      end := L.end - L.end % newStride;
      var l2 := PeelLoop(parent, pos, end, ids, scope);
      r := l2.value;
    }
  }

  lemma {:induction false} SplicedHead(ss: seq<Stmt>, pos: nat, a: Stmt, rest: seq<Stmt>, b: Stmt)
    requires pos < |ss|
    ensures Spliced(ss, pos, [a] + rest)[pos := b] == Spliced(ss, pos, [b] + rest)
    ensures ss[pos := b] == Spliced(ss, pos, [b])
  {}

  /** Replacing a loop by one with the same id over a body with the same loops declares the same loops. */
  lemma {:induction false} SameBound(ss: seq<Stmt>, pos: nat, G: Stmt)
    requires pos < |ss| && Bound(G) == Bound(ss[pos])
    ensures BoundB(ss[pos := G]) == BoundB(ss)
  {
    SplicedHead(ss, pos, ss[pos], [], G);
    assert Spliced(ss, pos, [ss[pos]]) == ss;
    BoundSpliced(ss, pos, [ss[pos]]);
    BoundSpliced(ss, pos, [G]);
    Single(ss[pos]);
    Single(G);
  }

  /** Replacing what SplitTail left at pos by the grouped loop completes the rewrite. */
  lemma {:induction false} GroupedSplice(ss: seq<Stmt>, pos: nat, mode: Mode, next: LoopId)
    requires pos < |ss| && ss[pos].Loop? && 0 < ss[pos].stride * mode.count <= ss[pos].end
    ensures var L := ss[pos];
      var g := L.stride * mode.count;
      var end := Cut(L.end, g);
      var cut := if L.end % g == 0 then ss else Spliced(ss, pos, [PeeledHead(L, end), PeeledTail(L, end, next)]);
      pos < |cut| && cut[pos := Grouped(L, end, mode)] == Spliced(ss, pos, GroupedLoops(L, mode, next))
  {
    hide MapStores, CloneB, SubstB;
    var L := ss[pos];
    var g := L.stride * mode.count;
    var end := Cut(L.end, g);
    var G, H, T := Grouped(L, end, mode), PeeledHead(L, end), PeeledTail(L, end, next);
    SplicedHead(ss, pos, H, [T], G);
    assert [H] + [T] == [H, T] && [G] + [T] == [G, T];
  }

  /** widen(L, wf) for the loop at parent.body[pos]; the loops around it have ranges t. */
  method Widen(parent: Scope, pos: nat, wf: nat, ids: IdSupply, ghost t: Table)
    returns (r: Option<LoopId>)
    requires pos < |parent.body| && parent.body[pos].Loop? && 1 < wf < 1024
    requires WfB(parent.body, t.Keys) && ids.Newer(t.Keys) && ids.Newer(BoundB(parent.body))
    modifies parent, ids
    ensures r.Some? <==>
      var L := old(parent.body[pos]);
      Fusion.VarsRead(L.body) == {} && Fusion.VarsWritten(L.body) == {} && L.end >= L.stride * wf &&
      OnlyStoresUse(L.body, L.id)
    ensures r.None? ==> parent.body == old(parent.body)
    // Whole groups stay with L, and what is left over is shorter than a group.
    ensures r.Some? ==>
      var L := old(parent.body[pos]);
      var g := L.stride * wf;
      g > 0 && pos < |parent.body| && parent.body[pos].Loop? && parent.body[pos].stride == g &&
      parent.body[pos].end <= L.end < parent.body[pos].end + g && parent.body[pos].end % g == 0 &&
      (var was, now := Leaves(L.body), Leaves(parent.body[pos].body);
       |now| == |was| + (wf - 1) * Users(was, L.id))
    ensures r.Some? ==>
      var L := old(parent.body[pos]);
      L.stride * wf > 0 &&
      parent.body == Spliced(old(parent.body), pos, GroupedLoops(L, Duplicate(wf, L.stride), old(ids.next))) &&
      r.value == (if L.end % (L.stride * wf) == 0 then L.id else old(ids.next))
    ensures r.Some? && WidenLegal(t, old(parent.body[pos])) ==> SameIn(t, old(parent.body), parent.body)
    ensures r.Some? ==> (WfB(parent.body, t.Keys) <==> old(parent.body[pos]).stride * wf < 1024)
    ensures ids.Newer(t.Keys) && ids.Newer(BoundB(parent.body))
  {
    hide MapStores, WidenLegal, GroupedLoops, Spliced, SameIn, CanWiden, OnlyStoresUse;
    var L := parent.body[pos];
    SplitAt(parent.body, pos, t.Keys);
    assert WfS(L, t.Keys);
    var stride := L.stride;
    var newStride := stride * wf;
    LocalsUsed(L.body);
    SitesFound(L.body, L.id);
    CanWidenExactly(L, wf);
    if UsesLocals(L.body) { return None; }
    if L.end < newStride { return None; }
    if !IndexInStores(L.body, L.id) { return None; }
    GroupedAt(parent.body, pos, Duplicate(wf, stride), ids.next);
    WidenedCount(L.body, L.id, Duplicate(wf, stride));
    CutFacts(L.end, stride, wf);
    WidenSpliced(parent.body, pos, wf, ids.next, t);
    WidenSplicedWf(parent.body, pos, wf, ids.next, t.Keys);
    // Divide the trip count: the rest goes to a peeled loop.
    ghost var before, next := parent.body, ids.next;
    var res, end := SplitTail(parent, pos, newStride, ids, t.Keys);
    // Duplicate the stores and widen the stride.
    var body := new Scope(L.body);
    WidenSites(body, L.id, stride, wf);
    var G := Loop(L.id, end, newStride, body.body);
    GroupedSplice(before, pos, Duplicate(wf, stride), next);
    MapStoresWf(L.body, L.id, Duplicate(wf, stride), t.Keys + {L.id});
    SameBound(parent.body, pos, G);
    parent.ReplaceStmt(G, pos);
    r := Some(res);
  }

  lemma {:induction false} WidenSpliced(ss: seq<Stmt>, pos: nat, wf: nat, next: LoopId, t: Table)
    requires pos < |ss| && ss[pos].Loop? && WfB(ss, t.Keys) && Below(t.Keys, next) && Below(BoundB(ss), next)
    requires wf > 0 && CanWiden(ss[pos], wf)
    ensures ss[pos].stride * wf > 0
    ensures WidenLegal(t, ss[pos]) ==>
      SameIn(t, ss, Spliced(ss, pos, GroupedLoops(ss[pos], Duplicate(wf, ss[pos].stride), next)))
  {
    var L := ss[pos];
    SplitAt(ss, pos, t.Keys);
    CutFacts(L.end, L.stride, wf);
    if WidenLegal(t, L) {
      WidenPreserves(t, L, wf, next, t.Keys);
      SplicedSame(t, ss, pos, GroupedLoops(L, Duplicate(wf, L.stride), next));
    }
  }
}
