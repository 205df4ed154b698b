/** promoteLICM over a whole program, in place. */
module Promotion {
  import opened IR
  import opened Families
  import opened Semantics
  import opened Context
  import opened Interchange
  import opened Scopes
  import opened Locals
  import opened Footprint
  import opened Dependence
  import opened Fusion
  import opened Types
  import opened Hiding
  import opened Sinking
  import opened Licm

  /** Only stores in the loop, and no buffer is both loaded and stored. */
  predicate Candidate(L: Stmt)
  {
    L.Loop? && OnlyStores(L.body) && ArgsRead(L.body) !! ArgsWritten(L.body)
  }

  function PromoteLoop(L: Stmt, names: nat -> string, used: set<string>): Rewritten
    requires Candidate(L)
  {
    var h := HoistB(L.body, L.id, names, used);
    var r := SinkFrom(HoistedLoop(L, names, used), 0, names, h.used);
    Rewritten(h.saves + r.out, r.used)
  }

  function PromoteS(s: Stmt, names: nat -> string, used: set<string>): Rewritten
    decreases s, 1
  {
    match s
    case Loop(id, end, stride, body) =>
      if Candidate(s) then PromoteLoop(s, names, used)
      else var r := PromoteB(body, names, used); Rewritten([Loop(id, end, stride, r.out)], r.used)
    case IfRange(v, start, stop, body) =>
      var r := PromoteB(body, names, used);
      Rewritten([IfRange(v, start, stop, r.out)], r.used)
    case _ => Rewritten([s], used)
  }

  /** Every loop in turn. */
  function PromoteB(ss: seq<Stmt>, names: nat -> string, used: set<string>): Rewritten
    decreases ss, 0
  {
    if ss == [] then Rewritten([], used)
    else
      var x := PromoteS(ss[0], names, used);
      var y := PromoteB(ss[1..], names, x.used);
      Rewritten(x.out + y.out, y.used)
  }

  /** promoteLICM reports a change: some store is sunk. Hoisted loads are not reported. */
  predicate ReportsS(s: Stmt)
    decreases s, 1
  {
    match s
    case Loop(_, _, _, body) => if Candidate(s) then SinksSome(s) else Reports(body)
    case IfRange(_, _, _, body) => Reports(body)
    case _ => false
  }

  predicate Reports(ss: seq<Stmt>)
    decreases ss, 0
  {
    ss != [] && (ReportsS(ss[0]) || Reports(ss[1..]))
  }

  /** Loops run at least once; the loops that are rewritten hold well-typed stores, at most
      one for each buffer. */
  predicate ReadyS(s: Stmt)
    decreases s, 1
  {
    match s
    case Loop(id, end, stride, body) =>
      Trip(end, stride) > 0 && if Candidate(s) then BlockReady(body, id) && OnePerBuffer(body) else Ready(body)
    case IfRange(_, _, _, body) => Ready(body)
    case _ => true
  }

  predicate Ready(ss: seq<Stmt>)
    decreases ss, 0
  {
    ss == [] || (ReadyS(ss[0]) && Ready(ss[1..]))
  }

  lemma {:induction false} HoistedReady(L: Stmt, names: nat -> string, used: set<string>)
    requires Candidate(L) && BlockReady(L.body, L.id) && OnePerBuffer(L.body) && VarsRead(L.body) <= used
    ensures SinkReady(HoistedLoop(L, names, used), HoistB(L.body, L.id, names, used).used)
  {
    var h := HoistB(L.body, L.id, names, used);
    HoistBFacts(L.body, L.id, names, used);
    StoresWriteNoLocals(h.outs);
    HoistedWrites(L.body, h.outs);
    forall s | s in h.outs
      ensures Typed(s.value) && (TypeOf(s.value).elem == IndexTy || TypeOf(s.value).elem == Float32Ty)
    {
      var i :| 0 <= i < |h.outs| && h.outs[i] == s;
      assert SameStore(L.body[i], h.outs[i]);
      assert L.body[i] in L.body && StoreReady(L.body[i], L.id);
    }
    forall i, j | 0 <= i < j < |h.outs| && h.outs[i].Store? && h.outs[j].Store?
      ensures h.outs[i].arg != h.outs[j].arg
    {
      assert SameStore(L.body[i], h.outs[i]) && SameStore(L.body[j], h.outs[j]);
    }
  }

  lemma {:induction false} HoistedWrites(a: seq<Stmt>, b: seq<Stmt>)
    requires |a| == |b| && forall i | 0 <= i < |a| :: SameStore(a[i], b[i])
    ensures ArgsWritten(a) == ArgsWritten(b)
  {
    if a != [] {
      assert SameStore(a[0], b[0]);
      forall i | 0 <= i < |a[1..]| ensures SameStore(a[1..][i], b[1..][i]) { assert SameStore(a[i + 1], b[i + 1]); }
      HoistedWrites(a[1..], b[1..]);
    }
  }

  lemma {:induction false} SavesUse(saves: seq<Stmt>, used: set<string>, used': set<string>, vars: set<string>)
    requires GoodSaves(saves, used, used', vars)
    ensures VarsRead(saves) <= vars
  {
    if saves != [] {
      assert GoodSaves(saves[1..], used, used', vars);
      SavesUse(saves[1..], used, used', vars);
    }
  }

  lemma {:induction false} PromoteLoopSame(t: Table, L: Stmt, names: nat -> string, used: set<string>)
    requires Candidate(L) && BlockReady(L.body, L.id) && OnePerBuffer(L.body)
    requires VarsRead(L.body) <= used && Trip(L.end, L.stride) > 0
    ensures var r := PromoteLoop(L, names, used);
      used <= r.used && SameBut(r.used - used, t, [L], r.out) && VarsRead(r.out) <= VarsRead(L.body) + (r.used - used)
  {
    var h, L' := HoistB(L.body, L.id, names, used), HoistedLoop(L, names, used);
    var r := SinkFrom(L', 0, names, h.used);
    var T, T' := h.used - used, r.used - h.used;
    HoistBFacts(L.body, L.id, names, used);
    HoistSame(t, L, names, used);
    HoistedReady(L, names, used);
    SinkSame(t, L', 0, names, h.used);
    SavesUse(h.saves, used, h.used, VarsRead(L.body));
    SameButSelf(T', t, h.saves);
    SameButAppend(T', t, h.saves, [L'], h.saves, r.out);
    SameButTrans(T, T', t, [L], h.saves + [L'], h.saves + r.out);
    assert T + T' == r.used - used;
    UsesAppend(h.saves, r.out);
  }

  /** promoteLICM keeps the final buffers of the program; only new locals differ. */
  lemma {:induction false} PromotePreserves(t: Table, ss: seq<Stmt>, names: nat -> string, used: set<string>)
    requires Ready(ss) && VarsRead(ss) <= used
    ensures var r := PromoteB(ss, names, used);
      used <= r.used && SameBut(r.used - used, t, ss, r.out) && VarsRead(r.out) <= VarsRead(ss) + (r.used - used)
    decreases ss, 0
  {
    if ss == [] {
      SameButSelf({}, t, []);
      assert used - used == {};
    } else {
      var s, rest := ss[0], ss[1..];
      var x := PromoteS(s, names, used);
      var y := PromoteB(rest, names, x.used);
      PromoteOne(t, s, names, used);
      PromotePreserves(t, rest, names, x.used);
      var T := y.used - used;
      SameButMore(x.used - used, T, t, [s], x.out);
      SameButMore(y.used - x.used, T, t, rest, y.out);
      SameButAppend(T, t, [s], rest, x.out, y.out);
      assert ss == [s] + rest;
      UsesAppend(x.out, y.out);
    }
  }

  lemma {:induction false} PromoteOne(t: Table, s: Stmt, names: nat -> string, used: set<string>)
    requires ReadyS(s) && VarsReadS(s) <= used
    ensures var r := PromoteS(s, names, used);
      used <= r.used && SameBut(r.used - used, t, [s], r.out) && VarsRead(r.out) <= VarsReadS(s) + (r.used - used)
    decreases s, 1
  {
    var r := PromoteS(s, names, used);
    UsesOne(s);
    match s
    case Loop(id, end, stride, body) =>
      if Candidate(s) {
        PromoteLoopSame(t, s, names, used);
      } else {
        PromotePreserves(t[id := Extent(end, stride)], body, names, used);
        SameButLoop(r.used - used, t, id, end, stride, body, PromoteB(body, names, used).out);
        UsesOne(r.out[0]);
      }
    case IfRange(v, start, stop, body) =>
      PromotePreserves(t, body, names, used);
      SameButIf(r.used - used, t, v, start, stop, body, PromoteB(body, names, used).out);
      UsesOne(r.out[0]);
    case _ =>
      SameButSelf({}, t, [s]);
      assert used - used == {};
  }

  lemma {:induction false} WfRuns(L: Stmt, scope: set<LoopId>)
    requires L.Loop? && WfS(L, scope)
    ensures Trip(L.end, L.stride) > 0
  {
    TripRange(0, L.end, L.stride);
  }

  /** Ready without the part about running. */
  predicate StoresReady(ss: seq<Stmt>)
    decreases ss
  {
    ss == [] || (
      (match ss[0]
       case Loop(id, _, _, body) =>
         if Candidate(ss[0]) then BlockReady(body, id) && OnePerBuffer(body) else StoresReady(body)
       case IfRange(_, _, _, body) => StoresReady(body)
       case _ => true)
      && StoresReady(ss[1..]))
  }

  /** Well-formed loops run, so what verify() does not give of Ready is about the stores. */
  lemma {:induction false} WfReady(ss: seq<Stmt>, scope: set<LoopId>)
    requires WfB(ss, scope) && StoresReady(ss)
    ensures Ready(ss)
    decreases ss
  {
    if ss != [] {
      WfReady(ss[1..], scope);
      match ss[0] {
        case Loop(id, _, _, body) =>
          WfRuns(ss[0], scope);
          if !Candidate(ss[0]) { WfReady(body, scope + {id}); }
        case IfRange(_, _, _, body) => WfReady(body, scope);
        case _ =>
      }
    }
  }

  // ---- One store per buffer is needed ---------------------------------------------------------

  /** A store of one float that reads no memory, to subscripts that do not use the loop. */
  predicate SteadyStore(p: Stmt, l: LoopId)
  {
    p.Store? && Fixed(p.subs, l) && StateFree(p.value) && Typed(p.value) &&
    TypeOf(p.value) == ExprType(Float32Ty, 1)
  }

  /** for i { A[x] = c; A[y] = d }, where each of the two may accumulate. */
  predicate TwoStores(L: Stmt)
  {
    L.Loop? && L.end > 0 && L.stride > 0 && |L.body| == 2 &&
    SteadyStore(L.body[0], L.id) && SteadyStore(L.body[1], L.id) && L.body[0].arg == L.body[1].arg
  }

  const NOTHING := State(map[], [])

  /** Where p stores, and what the last iteration of the loop stores there. */
  function Target(p: Stmt, env: Env): Loc
    requires p.Store?
  {
    Elem(p.arg, EvalSubs(p.subs, env, NOTHING))
  }

  /** The floats that p stores in the iterations of L. */
  function Values(p: Stmt, L: Stmt, env: Env): nat -> real
    requires p.Store? && L.Loop?
  {
    (k: nat) => Coerce(Float32Ty, Eval(p.value, env.At(L.id, k * L.stride), NOTHING, 0)).f
  }

  function Total(c: nat -> real, n: nat): real { if n == 0 then 0.0 else Total(c, n - 1) + c(n - 1) }

  /** What a local that starts as zero holds after n iterations. */
  function Kept(acc: bool, c: nat -> real, n: nat): real
  {
    if acc then Total(c, n) else if n == 0 then 0.0 else c(n - 1)
  }

  /** Flushing the second store before the first leaves what n > 0 iterations of both leave. */
  predicate FlushesAlike(p: Stmt, q: Stmt, L: Stmt, env: Env)
    requires p.Store? && q.Store? && L.Loop? && Trip(L.end, L.stride) > 0
  {
    var n, c, d := Trip(L.end, L.stride), Values(p, L, env), Values(q, L, env);
    if p.acc && q.acc then true
    else if p.acc then Total(c, n) == 0.0
    else if q.acc then d(n - 1) == 0.0
    else c(n - 1) == d(n - 1)
  }

  /** The flushes come out in reverse order, so with two stores to one buffer the program is kept exactly
      when they always go to different elements, or both accumulate, or what the one that accumulates
      adds is zero (over all iterations before a plain store, in the last one after it), or both last
      store the same value. */
  lemma {:induction false} TwoStoresExactly(L: Stmt, names: nat -> string, used: set<string>)
    requires TwoStores(L)
    ensures Trip(L.end, L.stride) > 0
    ensures var r := PromoteB([L], names, used);
      SameBut(r.used - used, map[], [L], r.out) <==>
      forall env: Env | GoodMachine(env.m) ::
        Target(L.body[0], env) != Target(L.body[1], env) || FlushesAlike(L.body[0], L.body[1], L, env)
  {
    hide PromoteB, TwoSunk, SinkVar, Target, FlushesAlike, Exec, ExecS, Trip, Alike;
    TripRange(0, L.end, L.stride);
    var r := PromoteB([L], names, used);
    var p, q := L.body[0], L.body[1];
    forall env: Env, st: State, st': State | GoodMachine(env.m) && Alike({}, r.used - used, st, st')
      ensures Alike({}, r.used - used, Exec([L], env, st), Exec(r.out, env, st')) <==>
              (Target(p, env) != Target(q, env) || FlushesAlike(p, q, L, env))
    {
      TwoStoresRun(L, names, used, env, st, st');
    }
    forall env: Env | GoodMachine(env.m) && SameBut(r.used - used, map[], [L], r.out)
      ensures Target(p, env) != Target(q, env) || FlushesAlike(p, q, L, env)
    {
      AlikeSelf(r.used - used, NOTHING);
      assert ValidEnv(map[], env);
      assert Alike({}, r.used - used, Exec([L], env, NOTHING), Exec(r.out, env, NOTHING));
      TwoStoresRun(L, names, used, env, NOTHING, NOTHING);
    }
  }

  lemma {:induction false} AlikeSelf(T: set<string>, st: State)
    ensures Alike({}, T, st, st)
  {}

  lemma {:induction false} TwoStoresRun(L: Stmt, names: nat -> string, used: set<string>, env: Env, st: State,
                                        st': State)
    requires TwoStores(L) && GoodMachine(env.m) && Trip(L.end, L.stride) > 0
    requires Alike({}, PromoteB([L], names, used).used - used, st, st')
    ensures var r := PromoteB([L], names, used);
      var p, q := L.body[0], L.body[1];
      Alike({}, r.used - used, Exec([L], env, st), Exec(r.out, env, st')) <==>
      (Target(p, env) != Target(q, env) || FlushesAlike(p, q, L, env))
  {
    hide PromoteB, SinkVar, Target, Exec, ExecS, Trip, Iter, Values, SteadyStore, Kept, Total, Alike;
    var p, q, n := L.body[0], L.body[1], Trip(L.end, L.stride);
    StoresOnly(p, L.id);
    StoresOnly(q, L.id);
    var v := SinkVar(L, 0, names, used);
    var w := SinkVar(L, 1, names, used + {v.name});
    TwoStoresOut(L, names, used);
    SinkTypes(L, names, used);
    TwoRun(L, n, env, st);
    TwoSunkRun(L, v, w, env, st');
    TargetElem(p, env);
    TargetElem(q, env);
    var c, d := Values(p, L, env), Values(q, L, env);
    ReversedFlushes({v.name, w.name}, p.acc, q.acc, Target(p, env), Target(q, env), c, d, n, st, st', v.name, w.name);
    assert used + {v.name, w.name} - used == {v.name, w.name};
  }

  /** Iteration k puts c(k) at a and then d(k) at b. */
  function Pairs(a: Loc, pa: bool, c: nat -> real, b: Loc, qa: bool, d: nat -> real): (nat, State) -> State
  {
    (k: nat, st: State) => Put(Put(st, a, pa, c(k)), b, qa, d(k))
  }

  /** Two puts at one location. */
  lemma {:induction false} PutSame(st: State, a: Loc, p: bool, x: real, q: bool, y: real)
    ensures Put(Put(st, a, p, x), a, q, y) == Put(st, a, p && q, if q then x + y else y)
  {
    var mid := Put(st, a, p, x);
    var v := Put(mid, a, q, y).mem[a];
    assert Held(mid, a) == if p then Held(st, a) + x else x;
    assert mid.mem[a := v] == st.mem[a := v];
  }

  /** Puts at two locations. */
  lemma {:induction false} PutSwap(st: State, a: Loc, p: bool, x: real, b: Loc, q: bool, y: real)
    requires a != b
    ensures Put(Put(st, a, p, x), b, q, y) == Put(Put(st, b, q, y), a, p, x)
  {
    var v, w := Put(st, a, p, x).mem[a], Put(st, b, q, y).mem[b];
    assert Held(Put(st, a, p, x), b) == Held(st, b) && Held(Put(st, b, q, y), a) == Held(st, a);
    assert st.mem[a := v][b := w] == st.mem[b := w][a := v];
  }

  lemma {:induction false} PutAgain(st: State, a: Loc, pa: bool, x: real, c: real, b: Loc, qa: bool, y: real, d: real)
    requires a != b
    ensures Put(Put(Put(Put(st, a, pa, x), b, qa, y), a, pa, c), b, qa, d) ==
      Put(Put(st, a, pa, if pa then x + c else c), b, qa, if qa then y + d else d)
  {
    hide Put;
    var one := Put(st, a, pa, x);
    PutSwap(one, b, qa, y, a, pa, c);
    PutSame(st, a, pa, x, pa, c);
    PutSame(Put(one, a, pa, c), b, qa, y, qa, d);
  }

  /** At two locations each keeps its own. */
  lemma {:induction false} PairsApart(a: Loc, pa: bool, c: nat -> real, b: Loc, qa: bool, d: nat -> real, n: nat,
                                      st: State)
    requires a != b && n > 0
    ensures Iter(Pairs(a, pa, c, b, qa, d), n, st) == Put(Put(st, a, pa, Kept(pa, c, n)), b, qa, Kept(qa, d, n))
  {
    hide Put;
    var f := Pairs(a, pa, c, b, qa, d);
    assert Iter(f, n, st) == f(n - 1, Iter(f, n - 1, st));
    if n > 1 {
      PairsApart(a, pa, c, b, qa, d, n - 1, st);
      PutAgain(st, a, pa, Kept(pa, c, n - 1), c(n - 1), b, qa, Kept(qa, d, n - 1), d(n - 1));
    } else {
      assert Iter(f, 0, st) == st && Total(c, 1) == Total(c, 0) + c(0) == c(0) &&
        Total(d, 1) == Total(d, 0) + d(0) == d(0);
    }
  }

  /** What n > 0 iterations put at one location. */
  function Together(pa: bool, c: nat -> real, qa: bool, d: nat -> real, n: nat): real
    requires n > 0
  {
    if !qa then d(n - 1) else if !pa then c(n - 1) + d(n - 1) else Total(c, n) + Total(d, n)
  }

  lemma {:induction false} PairsTogether(a: Loc, pa: bool, c: nat -> real, qa: bool, d: nat -> real, n: nat, st: State)
    requires n > 0
    ensures Iter(Pairs(a, pa, c, a, qa, d), n, st) == Put(st, a, pa && qa, Together(pa, c, qa, d, n))
  {
    hide Put;
    var f, x, y := Pairs(a, pa, c, a, qa, d), c(n - 1), d(n - 1);
    assert Iter(f, n, st) == f(n - 1, Iter(f, n - 1, st));
    assert Total(c, n) == Total(c, n - 1) + x && Total(d, n) == Total(d, n - 1) + y;
    if n > 1 {
      PairsTogether(a, pa, c, qa, d, n - 1, st);
      var t := Together(pa, c, qa, d, n - 1);
      PutSame(st, a, pa && qa, t, pa, x);
      PutSame(st, a, pa && qa, if pa then t + x else x, qa, y);
    } else {
      assert Iter(f, 0, st) == st && Total(c, 0) == 0.0 && Total(d, 0) == 0.0;
      PutSame(st, a, pa, x, qa, y);
    }
  }

  /** The loop with its two locals, and then the flushes. */
  function Flushed(a: Loc, pa: bool, c: real, b: Loc, qa: bool, d: real, v: string, w: string, st: State): State
  {
    Put(Put(st.(mem := st.mem[Local(v, 0) := F(c)][Local(w, 0) := F(d)]), b, qa, d), a, pa, c)
  }

  lemma {:induction false} ReversedFlushes(T: set<string>, pa: bool, qa: bool, a: Loc, b: Loc, c: nat -> real,
                                           d: nat -> real, n: nat, st: State, st': State, v: string, w: string)
    requires T == {v, w} && a.Elem? && b.Elem? && n > 0 && Alike({}, T, st, st')
    ensures Alike({}, T, Iter(Pairs(a, pa, c, b, qa, d), n, st),
        Flushed(a, pa, Kept(pa, c, n), b, qa, Kept(qa, d, n), v, w, st')) <==>
      a != b || (if pa && qa then true else if pa then Total(c, n) == 0.0 else if qa then d(n - 1) == 0.0
                 else c(n - 1) == d(n - 1))
  {
    hide Total, Iter, Coerce;
    var x := Iter(Pairs(a, pa, c, b, qa, d), n, st);
    var y := Flushed(a, pa, Kept(pa, c, n), b, qa, Kept(qa, d, n), v, w, st');
    if a != b { PairsApart(a, pa, c, b, qa, d, n, st); } else { PairsTogether(a, pa, c, qa, d, n, st); }
    assert !Hidden({}, T, a) && !Hidden({}, T, b);
    assert Look(st, a) == Look(st', a) && Look(st, b) == Look(st', b);
    assert Held(st, a) == Held(st', a) && Held(st, b) == Held(st', b);
    OutsideFlushed(T, a, pa, Kept(pa, c, n), b, qa, Kept(qa, d, n), v, w, st');
    forall z: Loc | !Hidden({}, T, z) && z != a && z != b ensures Look(x, z) == Look(y, z) {
      assert Look(st, z) == Look(st', z);
    }
    assert x.calls == y.calls;
    assert a != b ==> Look(x, a) == Look(y, a) && Look(x, b) == Look(y, b);
  }

  lemma {:induction false} OutsideFlushed(T: set<string>, a: Loc, pa: bool, c: real, b: Loc, qa: bool, d: real,
                                          v: string, w: string, st: State)
    requires T == {v, w} && a.Elem? && b.Elem?
    ensures var y := Flushed(a, pa, c, b, qa, d, v, w, st);
      y.calls == st.calls &&
      (forall z: Loc | !Hidden({}, T, z) && z != a && z != b :: Look(y, z) == Look(st, z)) &&
      Look(y, a) == Some(F(if a == b && pa then (if qa then Held(st, a) + d else d) + c
                           else if pa then Held(st, a) + c else c)) &&
      (a != b ==> Look(y, b) == Some(F(if qa then Held(st, b) + d else d)))
  {}

  lemma {:induction false} TargetElem(p: Stmt, env: Env)
    requires p.Store?
    ensures Target(p, env).Elem?
  {}

  lemma {:induction false} SinkTypes(L: Stmt, names: nat -> string, used: set<string>)
    requires TwoStores(L)
    ensures SinkVar(L, 0, names, used).ty == SinkVar(L, 1, names, used + {SinkVar(L, 0, names, used).name}).ty ==
      ExprType(Float32Ty, 1)
  {}

  function TwoSunk(L: Stmt, v: LocalVar, w: LocalVar): seq<Stmt>
    requires L.Loop? && |L.body| == 2 && L.body[0].Store? && L.body[1].Store?
  {
    [Init(v), Init(w), Loop(L.id, L.end, L.stride, [Save(v, L.body[0]), Save(w, L.body[1])]),
     Flush(w, L.body[1]), Flush(v, L.body[0])]
  }

  lemma {:induction false} TwoStoresOut(L: Stmt, names: nat -> string, used: set<string>)
    requires TwoStores(L)
    ensures var v := SinkVar(L, 0, names, used);
      var w := SinkVar(L, 1, names, used + {v.name});
      v.name != w.name && v.name !in used && w.name !in used &&
      PromoteB([L], names, used) == Rewritten(TwoSunk(L, v, w), used + {v.name, w.name})
  {
    hide SinkFrom, HoistB, SinkVar, TwoSunk, HoistedLoop;
    var v := SinkVar(L, 0, names, used);
    var w := SinkVar(L, 1, names, used + {v.name});
    TwoStoresHoist(L, names, used);
    TwoStoresSink(L, names, used);
    var u := used + {v.name, w.name};
    assert PromoteLoop(L, names, used) == Rewritten([] + TwoSunk(L, v, w), u);
    assert [] + TwoSunk(L, v, w) == TwoSunk(L, v, w);
    assert [L][1..] == [];
    assert PromoteB([], names, u) == Rewritten([], u);
    assert TwoSunk(L, v, w) + [] == TwoSunk(L, v, w);
    assert PromoteB([L], names, used) == Rewritten(TwoSunk(L, v, w) + [], u);
  }

  /** An expression that reads no memory has nothing to hoist. */
  lemma {:induction false} StateFreeHoist(e: Expr, l: LoopId, names: nat -> string, used: set<string>)
    requires StateFree(e)
    ensures HoistE(e, l, names, used) == Hoisted(e, [], used) && ArgsReadE(e) == {}
  {
    match e
    case Binary(_, a, b) =>
      StateFreeHoist(a, l, names, used);
      StateFreeHoist(b, l, names, used);
    case Unary(_, v) => StateFreeHoist(v, l, names, used);
    case Broadcast(x, _) => StateFreeHoist(x, l, names, used);
    case _ =>
  }

  lemma {:induction false} StateFreeHoistAll(es: seq<Expr>, l: LoopId, names: nat -> string, used: set<string>)
    requires forall x | x in es :: StateFree(x)
    ensures HoistAll(es, l, names, used) == HoistedAll(es, [], used) && ArgsReadAll(es) == {}
  {
    if es != [] {
      StateFreeHoist(es[0], l, names, used);
      StateFreeHoistAll(es[1..], l, names, used);
      assert [es[0]] + es[1..] == es;
    }
  }

  lemma {:induction false} SteadyHoist(p: Stmt, l: LoopId, names: nat -> string, used: set<string>)
    requires SteadyStore(p, l)
    ensures HoistS(p, l, names, used) == HoistedBlock([p], [], used) && ArgsReadS(p) == {}
  {
    StateFreeHoistAll(p.subs, l, names, used);
    StateFreeHoist(p.value, l, names, used);
  }

  lemma {:induction false} TwoStoresHoist(L: Stmt, names: nat -> string, used: set<string>)
    requires TwoStores(L)
    ensures Candidate(L) && HoistedLoop(L, names, used) == L
    ensures HoistB(L.body, L.id, names, used) == HoistedBlock(L.body, [], used)
  {
    hide SteadyStore, HoistS, ArgsReadS;
    var p, q := L.body[0], L.body[1];
    assert p.Store? && q.Store? by {
      assert SteadyStore(p, L.id) && SteadyStore(q, L.id); StoresOnly(p, L.id); StoresOnly(q, L.id);
    }
    assert L.body == [p, q];
    SteadyHoist(p, L.id, names, used);
    SteadyHoist(q, L.id, names, used);
    assert L.body[1..] == [q] && [q][1..] == [];
    assert HoistB([], L.id, names, used) == HoistedBlock([], [], used);
    assert HoistB([q], L.id, names, used) == HoistedBlock([q] + [], [] + [], used);
    assert HoistB(L.body, L.id, names, used) == HoistedBlock([p] + [q], [] + [], used) && [p] + [q] == L.body;
    UsesOne(p);
    UsesOne(q);
    assert ArgsRead([]) == {} && ArgsRead(L.body) == {};
  }

  lemma {:induction false} StoresOnly(p: Stmt, l: LoopId)
    requires SteadyStore(p, l)
    ensures p.Store? && !MentionsAny(p.subs, l)
  {}

  lemma {:induction false} TwoStoresSink(L: Stmt, names: nat -> string, used: set<string>)
    requires TwoStores(L)
    ensures var v := SinkVar(L, 0, names, used);
      var w := SinkVar(L, 1, names, used + {v.name});
      v.name != w.name && v.name !in used && w.name !in used &&
      SinkFrom(L, 0, names, used) == Rewritten(TwoSunk(L, v, w), used + {v.name, w.name})
  {
    var p, q := L.body[0], L.body[1];
    assert L.body == [p, q];
    var v := SinkVar(L, 0, names, used);
    var w := SinkVar(L, 1, names, used + {v.name});
    FirstFreeIs(names(p.arg), used, 1);
    FirstFreeIs(names(q.arg), used + {v.name}, 1);
    var L1 := SinkAt(L, 0, v);
    var L2 := SinkAt(L1, 1, w);
    assert L1.body == [Save(v, p), q] && L2.body == [Save(v, p), Save(w, q)];
    assert SinkVar(L1, 1, names, used + {v.name}) == w;
    StoresOnly(p, L.id);
    StoresOnly(q, L.id);
    assert Sinks(L, 0) && Sinks(L1, 1);
    var u := used + {v.name} + {w.name};
    assert SinkFrom(L2, 2, names, u) == Rewritten([L2], u);
    assert SinkFrom(L1, 1, names, used + {v.name}) == Rewritten([Init(w)] + [L2] + [Flush(w, q)], u);
    assert SinkFrom(L, 0, names, used) == Rewritten([Init(v)] + ([Init(w)] + [L2] + [Flush(w, q)]) + [Flush(v, p)], u);
    assert u == used + {v.name, w.name};
  }

  /** A store of one float writes one element. */
  lemma {:induction false} OneWritten(p: Stmt, env: Env, st: State)
    requires p.Store? && Width(p.value) == 1
    ensures Eval(p.value, env, st, 0).F? ==>
      ExecS(p, env, st) == Put(st, Elem(p.arg, EvalSubs(p.subs, env, st)), p.acc, Eval(p.value, env, st, 0).f)
  {
    var idx := EvalSubs(p.subs, env, st);
    assert Bump(idx, 0) == idx;
    assert WriteElems(st, p.arg, idx, p.value, p.acc, env, 0) == st.mem;
  }

  lemma {:induction false} SteadyRun(p: Stmt, L: Stmt, k: nat, env: Env, st: State)
    requires L.Loop? && SteadyStore(p, L.id) && GoodMachine(env.m)
    ensures ExecS(p, env.At(L.id, k * L.stride), st) == Put(st, Target(p, env), p.acc, Values(p, L, env)(k))
  {
    var e := env.At(L.id, k * L.stride);
    OneWritten(p, e, st);
    FixedSubs(p.subs, L.id, env, k * L.stride, st, NOTHING);
    StateFreeEval(p.value, e, st, NOTHING, 0);
    KindSound(p.value, e, NOTHING, 0);
  }

  lemma {:induction false} TwoRun(L: Stmt, n: nat, env: Env, st: State)
    requires TwoStores(L) && GoodMachine(env.m) && n == Trip(L.end, L.stride)
    ensures var p, q := L.body[0], L.body[1];
      Exec([L], env, st) ==
      Iter(Pairs(Target(p, env), p.acc, Values(p, L, env), Target(q, env), q.acc, Values(q, L, env)), n, st)
  {
    hide Target, SteadyStore, ExecS, Exec, Values, Put;
    var p, q := L.body[0], L.body[1];
    StoresOnly(p, L.id);
    StoresOnly(q, L.id);
    var f, g := Body(L.body, L.id, L.stride, env),
      Pairs(Target(p, env), p.acc, Values(p, L, env), Target(q, env), q.acc, Values(q, L, env));
    ExecOne(L, env, st);
    ExecLoop(L.id, L.end, L.stride, L.body, env, st);
    forall k: nat, x: State ensures f(k, x) == g(k, x) {
      var e := env.At(L.id, k * L.stride);
      SteadyRun(p, L, k, env, x);
      SteadyRun(q, L, k, env, ExecS(p, e, x));
      assert L.body == [p] + [q];
      ExecAppend([p], [q], e, x);
      ExecOne(p, e, x);
      ExecOne(q, e, ExecS(p, e, x));
    }
    IterCong(f, g, n, st);
  }

  /** A scalar local is set to the float that is stored. */
  lemma {:induction false} SaveRun(s: Stmt, env: Env, st: State)
    requires s.StoreLocal? && StateFree(s.value) && Width(s.value) == 1 && Eval(s.value, env, NOTHING, 0).F?
    ensures ExecS(s, env, st) == Put(st, Local(s.v.name, 0), s.acc, Eval(s.value, env, NOTHING, 0).f)
  {
    StateFreeEval(s.value, env, st, NOTHING, 0);
    assert WriteLocals(st, s.v, s.value, s.acc, env, 0) == st.mem;
  }

  lemma {:induction false} TwoSavesRun(L: Stmt, n: nat, v: LocalVar, w: LocalVar, env: Env, st: State)
    requires TwoStores(L) && v.name != w.name && n > 0 && GoodMachine(env.m)
    requires Held(st, Local(v.name, 0)) == 0.0 == Held(st, Local(w.name, 0))
    ensures var p, q := L.body[0], L.body[1];
      Iter(Body([Save(v, p), Save(w, q)], L.id, L.stride, env), n, st) ==
      st.(mem := st.mem[Local(v.name, 0) := F(Kept(p.acc, Values(p, L, env), n))]
                       [Local(w.name, 0) := F(Kept(q.acc, Values(q, L, env), n))])
  {
    hide Eval, ExecS, Exec, Put, Kept, GoodMachine;
    var p, q := Save(v, L.body[0]), Save(w, L.body[1]);
    var c, d := Values(L.body[0], L, env), Values(L.body[1], L, env);
    var a, b := Local(v.name, 0), Local(w.name, 0);
    var f, g := Body([p, q], L.id, L.stride, env), Pairs(a, p.acc, c, b, q.acc, d);
    forall k: nat, x: State ensures f(k, x) == g(k, x) {
      var e := env.At(L.id, k * L.stride);
      KindSound(p.value, e, NOTHING, 0);
      KindSound(q.value, e, NOTHING, 0);
      SaveRun(p, e, x);
      SaveRun(q, e, ExecS(p, e, x));
      assert [p, q] == [p] + [q];
      ExecAppend([p], [q], e, x);
      ExecOne(p, e, x);
      ExecOne(q, e, ExecS(p, e, x));
    }
    IterCong(f, g, n, st);
    PairsApart(a, p.acc, c, b, q.acc, d, n, st);
    PutOnZero(st, a, b, p.acc, Kept(p.acc, c, n), q.acc, Kept(q.acc, d, n));
  }

  lemma {:induction false} PutOnZero(st: State, a: Loc, b: Loc, pa: bool, c: real, qa: bool, d: real)
    requires a != b && Held(st, a) == 0.0 == Held(st, b)
    ensures Put(Put(st, a, pa, c), b, qa, d) == st.(mem := st.mem[a := F(c)][b := F(d)])
  {
    assert Held(Put(st, a, pa, c), b) == Held(st, b);
  }

  /** Flushing a local. */
  lemma {:induction false} FlushRun(v: LocalVar, p: Stmt, l: LoopId, env: Env, st: State)
    requires SteadyStore(p, l) && v.ty == ExprType(Float32Ty, 1)
    ensures ExecS(Flush(v, p), env, st) == Put(st, Target(p, env), p.acc, Held(st, Local(v.name, 0)))
  {
    OneWritten(Flush(v, p), env, st);
    forall k | 0 <= k < |p.subs| ensures EvalSubs(p.subs, env, st)[k] == EvalSubs(p.subs, env, NOTHING)[k] {
      assert p.subs[k] in p.subs;
      StateFreeEval(p.subs[k], env, st, NOTHING, 0);
    }
    assert EvalSubs(p.subs, env, st) == EvalSubs(p.subs, env, NOTHING);
  }

  lemma {:induction false} TwoSunkRun(L: Stmt, v: LocalVar, w: LocalVar, env: Env, st: State)
    requires TwoStores(L) && v.name != w.name && v.ty == ExprType(Float32Ty, 1) == w.ty && GoodMachine(env.m)
    requires Trip(L.end, L.stride) > 0
    ensures var p, q, n := L.body[0], L.body[1], Trip(L.end, L.stride);
      Exec(TwoSunk(L, v, w), env, st) ==
      Flushed(Target(p, env), p.acc, Kept(p.acc, Values(p, L, env), n), Target(q, env), q.acc,
              Kept(q.acc, Values(q, L, env), n), v.name, w.name, st)
  {
    hide Target, SteadyStore, ExecS, Trip, Iter, Eval, GoodMachine, Kept, Values;
    var p, q := L.body[0], L.body[1];
    StoresOnly(p, L.id);
    StoresOnly(q, L.id);
    var body' := [Save(v, p), Save(w, q)];
    var L' := Loop(L.id, L.end, L.stride, body');
    var mv, mw := Local(v.name, 0), Local(w.name, 0);
    var n := Trip(L.end, L.stride);
    var c, d := Kept(p.acc, Values(p, L, env), n), Kept(q.acc, Values(q, L, env), n);
    InitRun(v, env, st);
    var s1 := ExecS(Init(v), env, st);
    InitRun(w, env, s1);
    var s2 := ExecS(Init(w), env, s1);
    ExecLoop(L.id, L.end, L.stride, body', env, s2);
    TwoSavesRun(L, n, v, w, env, s2);
    var s3 := ExecS(L', env, s2);
    assert s3 == st.(mem := st.mem[mv := F(c)][mw := F(d)]) by {
      assert s2.mem[mv := F(c)][mw := F(d)] == st.mem[mv := F(c)][mw := F(d)];
    }
    TargetElem(p, env);
    TargetElem(q, env);
    FlushRun(w, q, L.id, env, s3);
    var s4 := ExecS(Flush(w, q), env, s3);
    FlushRun(v, p, L.id, env, s4);
    var s5 := ExecS(Flush(v, p), env, s4);
    RunFive(TwoSunk(L, v, w), env, st, s1, s2, s3, s4, s5);
  }

  lemma {:induction false} InitRun(v: LocalVar, env: Env, st: State)
    requires v.ty == ExprType(Float32Ty, 1)
    ensures ExecS(Init(v), env, st) == st.(mem := st.mem[Local(v.name, 0) := F(0.0)])
  {
    SaveRun(Init(v), env, st);
  }

  lemma {:induction false} RunFive(ss: seq<Stmt>, env: Env, s0: State, s1: State, s2: State, s3: State, s4: State,
                                   s5: State)
    requires |ss| == 5 && s1 == ExecS(ss[0], env, s0) && s2 == ExecS(ss[1], env, s1) && s3 == ExecS(ss[2], env, s2)
    requires s4 == ExecS(ss[3], env, s3) && s5 == ExecS(ss[4], env, s4)
    ensures Exec(ss, env, s0) == s5
  {
    hide ExecS;
    assert Exec(ss, env, s0) == Exec(ss[1..], env, s1);
    assert ss[1..][0] == ss[1] && Exec(ss[1..], env, s1) == Exec(ss[1..][1..], env, s2);
    assert ss[1..][1..] == ss[2..] && Exec(ss[2..], env, s2) == Exec(ss[2..][1..], env, s3);
    assert ss[2..][1..] == [ss[3]] + [ss[4]];
    ExecAppend([ss[3]], [ss[4]], env, s3);
    ExecOne(ss[3], env, s3);
    ExecOne(ss[4], env, s4);
  }

  // ---- What is reported ------------------------------------------------------------------------

  /** Some load in e does not use l. */
  predicate HoistsE(e: Expr, l: LoopId)
  {
    match e
    case Binary(_, a, b) => HoistsE(a, l) || HoistsE(b, l)
    case Unary(_, v) => HoistsE(v, l)
    case Load(_, subs, _) => !Mentions(e, l) || HoistsAll(subs, l)
    case Broadcast(x, _) => HoistsE(x, l)
    case _ => false
  }

  predicate HoistsAll(es: seq<Expr>, l: LoopId)
  {
    es != [] && (HoistsE(es[0], l) || HoistsAll(es[1..], l))
  }

  predicate HoistsStores(ss: seq<Stmt>, l: LoopId)
  {
    ss != [] && ((ss[0].Store? && (HoistsAll(ss[0].subs, l) || HoistsE(ss[0].value, l))) || HoistsStores(ss[1..], l))
  }

  predicate HoistsS(s: Stmt)
    decreases s, 1
  {
    match s
    case Loop(id, _, _, body) => if Candidate(s) then HoistsStores(body, id) else Hoists(body)
    case IfRange(_, _, _, body) => Hoists(body)
    case _ => false
  }

  /** A loop that is rewritten holds a load that is hoisted. */
  predicate Hoists(ss: seq<Stmt>)
    decreases ss, 0
  {
    ss != [] && (HoistsS(ss[0]) || Hoists(ss[1..]))
  }

  /** The number of statements, inner ones included. */
  function CountS(s: Stmt): nat
    decreases s, 1
  {
    if s.IsScope() then 1 + Count(s.body) else 1
  }

  function Count(ss: seq<Stmt>): nat
    decreases ss, 0
  {
    if ss == [] then 0 else CountS(ss[0]) + Count(ss[1..])
  }

  lemma {:induction false} CountAppend(a: seq<Stmt>, b: seq<Stmt>)
    ensures Count(a + b) == Count(a) + Count(b)
  {
    if a == [] {
      assert a + b == b;
    } else {
      assert (a + b)[0] == a[0] && (a + b)[1..] == a[1..] + b;
      CountAppend(a[1..], b);
    }
  }

  lemma {:induction false} CountOne(s: Stmt)
    ensures Count([s]) == CountS(s) >= 1
  {
    assert [s][1..] == [];
  }

  lemma {:induction false} CountLeaves(ss: seq<Stmt>)
    requires AllStores(ss)
    ensures Count(ss) == |ss|
  {
    if ss != [] {
      assert ss[0] in ss && forall s | s in ss[1..] :: s in ss;
      CountLeaves(ss[1..]);
    }
  }

  lemma {:induction false} CountSome(ss: seq<Stmt>)
    ensures Count(ss) >= |ss|
  {
    if ss != [] { CountSome(ss[1..]); }
  }

  /** Without a load to hoist nothing changes; every hoisted load is saved. */
  lemma {:induction false} HoistsExactlyE(e: Expr, l: LoopId, names: nat -> string, used: set<string>)
    ensures var h := HoistE(e, l, names, used);
      if HoistsE(e, l) then h.saves != [] else h == Hoisted(e, [], used)
    decreases e
  {
    match e
    case Binary(_, a, b) =>
      HoistsExactlyE(a, l, names, used);
      HoistsExactlyE(b, l, names, HoistE(a, l, names, used).used);
    case Unary(_, v) => HoistsExactlyE(v, l, names, used);
    case Load(_, subs, _) => HoistsExactlyAll(subs, l, names, used);
    case Broadcast(x, _) => HoistsExactlyE(x, l, names, used);
    case _ =>
  }

  lemma {:induction false} HoistsExactlyAll(es: seq<Expr>, l: LoopId, names: nat -> string, used: set<string>)
    ensures var h := HoistAll(es, l, names, used);
      if HoistsAll(es, l) then h.saves != [] else h == HoistedAll(es, [], used)
    decreases es
  {
    if es != [] {
      HoistsExactlyE(es[0], l, names, used);
      HoistsExactlyAll(es[1..], l, names, HoistE(es[0], l, names, used).used);
      assert [es[0]] + es[1..] == es;
    }
  }

  lemma {:induction false} HoistsExactlyB(ss: seq<Stmt>, l: LoopId, names: nat -> string, used: set<string>)
    requires OnlyStores(ss)
    ensures var h := HoistB(ss, l, names, used);
      if HoistsStores(ss, l) then h.saves != [] else h == HoistedBlock(ss, [], used)
  {
    if ss != [] {
      var s := ss[0];
      assert s in ss && s.Store? && forall x | x in ss[1..] :: x in ss;
      HoistsExactlyAll(s.subs, l, names, used);
      HoistsExactlyE(s.value, l, names, HoistAll(s.subs, l, names, used).used);
      HoistsExactlyB(ss[1..], l, names, HoistS(s, l, names, used).used);
      assert [s] + ss[1..] == ss;
    }
  }

  /** Sinking a store from pos on adds two statements; otherwise nothing changes. */
  lemma {:induction false} SinksExactly(L: Stmt, pos: nat, names: nat -> string, used: set<string>)
    requires L.Loop? && pos <= |L.body| && AllStores(L.body)
    ensures var r := SinkFrom(L, pos, names, used);
      if exists k: nat :: pos <= k < |L.body| && Sinks(L, k) then Count(r.out) > CountS(L)
      else r == Rewritten([L], used)
    decreases |L.body| - pos
  {
    hide Count, CountS, SinkVar;
    CountOne(L);
    if pos < |L.body| {
      if Sinks(L, pos) {
        var v := SinkVar(L, pos, names, used);
        var L' := SinkAt(L, pos, v);
        SinksExactly(L', pos + 1, names, used + {v.name});
        var r := SinkFrom(L', pos + 1, names, used + {v.name});
        SameLeaves(L, L');
        CountOne(L');
        CountAppend([Init(v)] + r.out, [Flush(v, L.body[pos])]);
        CountAppend([Init(v)], r.out);
        CountOne(Init(v));
        CountOne(Flush(v, L.body[pos]));
      } else {
        SinksExactly(L, pos + 1, names, used);
      }
    }
  }

  lemma {:induction false} SameLeaves(L: Stmt, L': Stmt)
    requires L.Loop? && L'.Loop? && |L.body| == |L'.body| && AllStores(L.body) && AllStores(L'.body)
    ensures CountS(L) == CountS(L')
  {
    CountLeaves(L.body);
    CountLeaves(L'.body);
  }

  lemma {:induction false} PromotesExactlyLoop(L: Stmt, names: nat -> string, used: set<string>)
    requires Candidate(L)
    ensures var r := PromoteLoop(L, names, used);
      if SinksSome(L) || HoistsStores(L.body, L.id) then Count(r.out) > CountS(L) else r == Rewritten([L], used)
  {
    hide Count, CountS;
    var h := HoistB(L.body, L.id, names, used);
    var H := HoistedLoop(L, names, used);
    HoistsExactlyB(L.body, L.id, names, used);
    HoistKeepsB(L.body, L.id, names, used);
    assert AllStores(L.body) && AllStores(H.body);
    SameLeaves(L, H);
    SinksExactly(H, 0, names, h.used);
    var r := SinkFrom(H, 0, names, h.used);
    CountAppend(h.saves, r.out);
    CountSome(h.saves);
    CountOne(H);
    assert forall k: nat | k < |L.body| :: Sinks(H, k) == Sinks(L, k);
    if !HoistsStores(L.body, L.id) { assert H == L && [] + r.out == r.out; }
  }

  lemma {:induction false} PromotesExactlyS(s: Stmt, names: nat -> string, used: set<string>)
    ensures var r := PromoteS(s, names, used);
      if ReportsS(s) || HoistsS(s) then Count(r.out) > CountS(s) else r == Rewritten([s], used)
    decreases s, 1
  {
    match s
    case Loop(id, end, stride, body) =>
      if Candidate(s) {
        PromotesExactlyLoop(s, names, used);
      } else {
        PromotesExactly(body, names, used);
        CountOne(Loop(id, end, stride, PromoteB(body, names, used).out));
      }
    case IfRange(v, start, stop, body) =>
      PromotesExactly(body, names, used);
      CountOne(IfRange(v, start, stop, PromoteB(body, names, used).out));
    case _ =>
  }

  /** A program with something to sink or to hoist gets more statements, and any other one stays. */
  lemma {:induction false} PromotesExactly(ss: seq<Stmt>, names: nat -> string, used: set<string>)
    ensures var r := PromoteB(ss, names, used);
      if Reports(ss) || Hoists(ss) then Count(r.out) > Count(ss) else r == Rewritten(ss, used)
    decreases ss, 0
  {
    if ss != [] {
      var x := PromoteS(ss[0], names, used);
      PromotesExactlyS(ss[0], names, used);
      PromotesExactly(ss[1..], names, x.used);
      CountAppend(x.out, PromoteB(ss[1..], names, x.used).out);
      CountOne(ss[0]);
      assert [ss[0]] + ss[1..] == ss;
    }
  }

  /** promoteLICM is to report whether the program was modified. It does exactly when it sinks some
      store or has no load to hoist. */
  lemma {:induction false} ReportExactly(ss: seq<Stmt>, names: nat -> string, used: set<string>)
    ensures var modified := PromoteB(ss, names, used).out != ss;
      (Reports(ss) <==> modified) <==> Reports(ss) || !Hoists(ss)
  {
    PromotesExactly(ss, names, used);
  }

  /** for i in 0..4 { A[i] = B[0] }: the load is hoisted, and no change is reported. */
  lemma {:induction false} HoistUnreported(l: LoopId, names: nat -> string, used: set<string>)
    ensures var L := Loop(l, 4, 1, [Store(0, [Idx(l)], Load(1, [Const(0)], ExprType(Float32Ty, 1)), false)]);
      PromoteB([L], names, used).out != [L] && !Reports([L])
  {
    var e := Load(1, [Const(0)], ExprType(Float32Ty, 1));
    var p := Store(0, [Idx(l)], e, false);
    var L := Loop(l, 4, 1, [p]);
    UsesOne(p);
    assert [Idx(l)][1..] == [] && [Const(0)][1..] == [] && [p][1..] == [] && [L][1..] == [];
    assert ArgsReadAll([Idx(l)]) == {} && ArgsReadAll([Const(0)]) == {};
    assert Candidate(L);
    assert Mentions(Idx(l), l) && Idx(l) in p.subs;
    assert !Sinks(L, 0);
    assert !Mentions(e, l) && HoistsStores(L.body, l) && HoistsS(L);
    PromotesExactly([L], names, used);
  }

  // ---- promoteLICM in place ------------------------------------------------------------------

  /** Rewrites e; every hoisted load is saved right before the loop, which is at pos. */
  method HoistExpr(e: Expr, l: LoopId, names: nat -> string, vars: VarTable, parent: Scope, pos: nat)
    returns (out: Expr, end: nat)
    requires pos < |parent.body|
    modifies vars, parent
    ensures var r := HoistE(e, l, names, Names(old(vars.vars)));
      out == r.out && Names(vars.vars) == r.used && end == pos + |r.saves| &&
      parent.body == old(parent.body)[..pos] + r.saves + old(parent.body)[pos..]
    decreases e
  {
    ghost var ss := parent.body;
    end := pos;
    match e {
      case Binary(op, a, b) =>
        var x, y;
        x, end := HoistExpr(a, l, names, vars, parent, pos);
        y, end := HoistExpr(b, l, names, vars, parent, end);
        out := Binary(op, x, y);
      case Unary(op, v) =>
        var x;
        x, end := HoistExpr(v, l, names, vars, parent, pos);
        out := Unary(op, x);
      case Load(arg, subs, ty) =>
        if Mentions(e, l) {
          var xs;
          xs, end := HoistExprs(subs, l, names, vars, parent, pos);
          out := Load(arg, xs, ty);
        } else {
          var v := vars.AddTempVar(names(arg), ty);
          parent.InsertBeforeStmt(StoreLocal(v, e, false), pos);
          out := LoadLocal(v);
          end := pos + 1;
        }
      case Broadcast(v, vf) =>
        var x;
        x, end := HoistExpr(v, l, names, vars, parent, pos);
        out := Broadcast(x, vf);
      case _ => out := e;
    }
  }

  method HoistExprs(es: seq<Expr>, l: LoopId, names: nat -> string, vars: VarTable, parent: Scope, pos: nat)
    returns (outs: seq<Expr>, end: nat)
    requires pos < |parent.body|
    modifies vars, parent
    ensures var r := HoistAll(es, l, names, Names(old(vars.vars)));
      outs == r.outs && Names(vars.vars) == r.used && end == pos + |r.saves| &&
      parent.body == old(parent.body)[..pos] + r.saves + old(parent.body)[pos..]
    decreases es
  {
    end := pos;
    if es == [] { return [], pos; }
    var x, ys;
    x, end := HoistExpr(es[0], l, names, vars, parent, pos);
    ys, end := HoistExprs(es[1..], l, names, vars, parent, end);
    outs := [x] + ys;
  }

  lemma {:induction false} HoistBAppend(a: seq<Stmt>, s: Stmt, l: LoopId, names: nat -> string, used: set<string>)
    requires OnlyStores(a + [s])
    ensures OnlyStores(a) && s.Store?
    ensures var x := HoistB(a, l, names, used);
      var y := HoistS(s, l, names, x.used);
      HoistB(a + [s], l, names, used) == HoistedBlock(x.outs + y.outs, x.saves + y.saves, y.used)
  {
    assert s in a + [s];
    forall z | z in a ensures z.Store? { assert z in a + [s]; }
    if a == [] {
      assert a + [s] == [s] && [s][1..] == [];
      assert HoistB([], l, names, HoistS(s, l, names, used).used) ==
        HoistedBlock([], [], HoistS(s, l, names, used).used);
    } else {
      assert (a + [s])[0] == a[0] && (a + [s])[1..] == a[1..] + [s];
      HoistBAppend(a[1..], s, l, names, HoistS(a[0], l, names, used).used);
    }
  }

  method HoistStoreExprs(s: Stmt, l: LoopId, names: nat -> string, vars: VarTable, parent: Scope, pos: nat)
    returns (s': Stmt, end: nat)
    requires s.Store? && pos < |parent.body|
    modifies vars, parent
    ensures var r := HoistS(s, l, names, Names(old(vars.vars)));
      [s'] == r.outs && Names(vars.vars) == r.used && end == pos + |r.saves| &&
      parent.body == old(parent.body)[..pos] + r.saves + old(parent.body)[pos..]
  {
    ghost var ss := parent.body;
    ghost var x := HoistAll(s.subs, l, names, Names(vars.vars));
    ghost var y := HoistE(s.value, l, names, x.used);
    var subs, value;
    subs, end := HoistExprs(s.subs, l, names, vars, parent, pos);
    value, end := HoistExpr(s.value, l, names, vars, parent, end);
    SpliceMore(ss, pos, x.saves, y.saves);
    s' := Store(s.arg, subs, value, s.acc);
  }

  // ---- What is left ----------------------------------------------------------------------------

  /** Every load uses the index of l. */
  predicate LoadsUse(accs: seq<Access>, l: LoopId) { forall a | a in accs :: MentionsAny(a.subs, l) }

  lemma {:induction false} HoistLeavesE(e: Expr, l: LoopId, names: nat -> string, used: set<string>)
    ensures LoadsUse(LoadsE(HoistE(e, l, names, used).out, map[]), l)
    decreases e
  {
    match e
    case Binary(_, a, b) => HoistLeavesE(a, l, names, used); HoistLeavesE(b, l, names, HoistE(a, l, names, used).used);
    case Unary(_, v) => HoistLeavesE(v, l, names, used);
    case Load(_, subs, _) =>
      if Mentions(e, l) {
        HoistLeavesAll(subs, l, names, used);
        HoistKeepsAll(subs, l, names, used);
      }
    case Broadcast(v, _) => HoistLeavesE(v, l, names, used);
    case _ =>
  }

  lemma {:induction false} HoistLeavesAll(es: seq<Expr>, l: LoopId, names: nat -> string, used: set<string>)
    ensures LoadsUse(LoadsAll(HoistAll(es, l, names, used).outs, map[]), l)
    decreases es
  {
    if es != [] {
      var x := HoistE(es[0], l, names, used);
      var y := HoistAll(es[1..], l, names, x.used);
      HoistLeavesE(es[0], l, names, used);
      HoistLeavesAll(es[1..], l, names, x.used);
      assert ([x.out] + y.outs)[1..] == y.outs;
    }
  }

  /** Every load that is left in the loop uses its index. */
  lemma {:induction false} HoistLeaves(ss: seq<Stmt>, l: LoopId, names: nat -> string, used: set<string>)
    requires OnlyStores(ss)
    ensures var h := HoistB(ss, l, names, used);
      OnlyStores(h.outs) && LoadsUse(LoadsB(h.outs, map[]), l)
    decreases ss
  {
    hide MentionsAny;
    if ss != [] {
      var s := ss[0];
      assert s in ss;
      var x := HoistS(s, l, names, used);
      var y := HoistB(ss[1..], l, names, x.used);
      HoistLeavesAll(s.subs, l, names, used);
      HoistLeavesE(s.value, l, names, HoistAll(s.subs, l, names, used).used);
      HoistLeaves(ss[1..], l, names, x.used);
      assert (x.outs + y.outs)[1..] == y.outs && x.outs[0] == (x.outs + y.outs)[0];
    }
  }

  /** The stores from pos on that are sunk. */
  function SinkCount(L: Stmt, pos: nat): nat
    requires L.Loop? && pos <= |L.body|
    decreases |L.body| - pos
  {
    if pos == |L.body| then 0 else (if Sinks(L, pos) then 1 else 0) + SinkCount(L, pos + 1)
  }

  lemma {:induction false} SinkCountSame(L: Stmt, M: Stmt, pos: nat)
    requires L.Loop? && M.Loop? && L.id == M.id && |L.body| == |M.body| && pos <= |L.body|
    requires forall k | pos <= k < |L.body| :: L.body[k] == M.body[k]
    ensures SinkCount(L, pos) == SinkCount(M, pos)
    decreases |L.body| - pos
  {
    if pos < |L.body| { SinkCountSame(L, M, pos + 1); }
  }

  /** The loop with as many statements before it as after it, n of each, none of them a scope; in it
      every store from pos on that does not use the index in its subscripts has become a save. */
  ghost predicate SinkShape(L: Stmt, pos: nat, out: seq<Stmt>, n: nat)
    requires L.Loop? && pos <= |L.body|
  {
    |out| == 2 * n + 1 && (forall k: nat | k < |out| && k != n :: !out[k].IsScope()) &&
    out[n].Loop? && out[n].id == L.id && out[n].end == L.end && out[n].stride == L.stride &&
    |out[n].body| == |L.body| &&
    forall k: nat | k < |L.body| ::
      if k >= pos && L.body[k].Store? && !MentionsAny(L.body[k].subs, L.id) then out[n].body[k].StoreLocal?
      else out[n].body[k] == L.body[k]
  }

  lemma {:induction false} SinkLeaves(L: Stmt, pos: nat, names: nat -> string, used: set<string>)
    requires L.Loop? && pos <= |L.body|
    ensures SinkShape(L, pos, SinkFrom(L, pos, names, used).out, SinkCount(L, pos))
    decreases |L.body| - pos
  {
    hide MentionsAny;
    if pos < |L.body| {
      if Sinks(L, pos) {
        var v := SinkVar(L, pos, names, used);
        var M := SinkAt(L, pos, v);
        SinkLeaves(M, pos + 1, names, used + {v.name});
        SinkCountSame(L, M, pos + 1);
        var n := SinkCount(M, pos + 1);
        var r := SinkFrom(M, pos + 1, names, used + {v.name}).out;
        var out := [Init(v)] + r + [Flush(v, L.body[pos])];
        assert out[n + 1] == r[n];
        forall k: nat | k < |out| && k != n + 1 ensures !out[k].IsScope() {
          if 0 < k < |out| - 1 { assert out[k] == r[k - 1]; }
        }
      } else {
        SinkLeaves(L, pos + 1, names, used);
      }
    }
  }

  /** In a loop of stores that reads no buffer it writes, every access uses the index; and so for all
      loops of the block. */
  predicate Settled(ss: seq<Stmt>)
  {
    ss == [] || (
      (match ss[0]
       case Loop(id, _, _, body) =>
         Settled(body) &&
         ((forall s | s in body :: s.Store?) && ArgsRead(body) !! ArgsWritten(body) ==>
           (forall s | s in body :: MentionsAny(s.subs, id)) && LoadsUse(LoadsB(body, map[]), id))
       case IfRange(_, _, _, body) => Settled(body)
       case _ => true)
      && Settled(ss[1..]))
  }

  lemma {:induction false} SettledAppend(a: seq<Stmt>, b: seq<Stmt>)
    ensures Settled(a + b) == (Settled(a) && Settled(b))
  {
    if a == [] {
      assert a + b == b;
    } else {
      assert (a + b)[0] == a[0] && (a + b)[1..] == a[1..] + b;
      SettledAppend(a[1..], b);
    }
  }

  lemma {:induction false} SettledLeaves(ss: seq<Stmt>)
    requires forall k: nat | k < |ss| :: !ss[k].IsScope()
    ensures Settled(ss)
  {
    if ss != [] { SettledLeaves(ss[1..]); }
  }

  lemma {:induction false} SettledAround(a: seq<Stmt>, M: Stmt, b: seq<Stmt>)
    requires (forall k: nat | k < |a| :: !a[k].IsScope()) && (forall k: nat | k < |b| :: !b[k].IsScope())
    requires Settled([M])
    ensures Settled(a + [M] + b)
  {
    hide Settled;
    SettledLeaves(a);
    SettledLeaves(b);
    SettledAppend(a + [M], b);
    SettledAppend(a, [M]);
  }

  lemma {:induction false} SettledLoop(L: Stmt, names: nat -> string, used: set<string>)
    requires Candidate(L)
    ensures Settled(PromoteLoop(L, names, used).out)
  {
    hide Settled, MentionsAny, SinkFrom, HoistB, LoadsB, ArgsRead, ArgsWritten, SinkCount, LoadsUse;
    var h, H := HoistB(L.body, L.id, names, used), HoistedLoop(L, names, used);
    HoistLeaves(L.body, L.id, names, used);
    SavesAreLocal(L.body, L.id, names, used);
    SinkLeaves(H, 0, names, h.used);
    var r, n := SinkFrom(H, 0, names, h.used).out, SinkCount(H, 0);
    SettledOne(H, r[n]);
    var a, b := h.saves + r[..n], r[n + 1..];
    forall k: nat | k < |a| ensures !a[k].IsScope() { if k < |h.saves| { assert h.saves[k] in h.saves; } }
    SettledAround(a, r[n], b);
    assert h.saves + r == a + [r[n]] + b;
  }

  lemma {:induction false} SettledOne(H: Stmt, M: Stmt)
    requires H.Loop? && M.Loop? && M.id == H.id && |M.body| == |H.body| && OnlyStores(H.body)
    requires LoadsUse(LoadsB(H.body, map[]), H.id)
    requires forall k: nat | k < |H.body| ::
      if H.body[k].Store? && !MentionsAny(H.body[k].subs, H.id) then M.body[k].StoreLocal? else M.body[k] == H.body[k]
    ensures Settled([M])
  {
    hide MentionsAny, LoadsB, ArgsRead, ArgsWritten;
    forall k: nat | k < |M.body| ensures !M.body[k].IsScope() {
      assert H.body[k] in H.body;
    }
    SettledLeaves(M.body);
    assert [M][1..] == [];
    if forall s | s in M.body :: s.Store? {
      forall k: nat | k < |M.body| ensures M.body[k] == H.body[k] && MentionsAny(M.body[k].subs, M.id) {
        assert M.body[k] in M.body && H.body[k] in H.body;
      }
      assert M.body == H.body;
    }
  }

  lemma {:induction false} SavesAreLocalE(e: Expr, l: LoopId, names: nat -> string, used: set<string>)
    ensures forall s | s in HoistE(e, l, names, used).saves :: s.StoreLocal?
    decreases e
  {
    match e
    case Binary(_, a, b) =>
      SavesAreLocalE(a, l, names, used);
      SavesAreLocalE(b, l, names, HoistE(a, l, names, used).used);
    case Unary(_, v) => SavesAreLocalE(v, l, names, used);
    case Load(_, subs, _) => SavesAreLocalAll(subs, l, names, used);
    case Broadcast(v, _) => SavesAreLocalE(v, l, names, used);
    case _ =>
  }

  lemma {:induction false} SavesAreLocalAll(es: seq<Expr>, l: LoopId, names: nat -> string, used: set<string>)
    ensures forall s | s in HoistAll(es, l, names, used).saves :: s.StoreLocal?
    decreases es
  {
    if es != [] {
      SavesAreLocalE(es[0], l, names, used);
      SavesAreLocalAll(es[1..], l, names, HoistE(es[0], l, names, used).used);
    }
  }

  lemma {:induction false} SavesAreLocal(ss: seq<Stmt>, l: LoopId, names: nat -> string, used: set<string>)
    requires OnlyStores(ss)
    ensures forall s | s in HoistB(ss, l, names, used).saves :: s.StoreLocal?
    decreases ss
  {
    if ss != [] {
      var s := ss[0];
      SavesAreLocalAll(s.subs, l, names, used);
      SavesAreLocalE(s.value, l, names, HoistAll(s.subs, l, names, used).used);
      SavesAreLocal(ss[1..], l, names, HoistS(s, l, names, used).used);
    }
  }

  /** A block that comes out as nothing but stores went in like that. */
  lemma {:induction false} StoresStay(ss: seq<Stmt>, names: nat -> string, used: set<string>)
    requires forall s | s in PromoteB(ss, names, used).out :: s.Store?
    ensures PromoteB(ss, names, used).out == ss
    decreases ss
  {
    if ss != [] {
      var x := PromoteS(ss[0], names, used);
      var y := PromoteB(ss[1..], names, x.used);
      assert forall s | s in y.out :: s in x.out + y.out;
      StoresStay(ss[1..], names, x.used);
      if ss[0].IsScope() { ScopeStays(ss[0], names, used); }
    }
  }

  lemma {:induction false} ScopeStays(s: Stmt, names: nat -> string, used: set<string>)
    requires s.IsScope()
    ensures exists x :: x in PromoteS(s, names, used).out && !x.Store?
  {
    var k := 0;
    if s.Loop? && Candidate(s) {
      var h, H := HoistB(s.body, s.id, names, used), HoistedLoop(s, names, used);
      SinkLeaves(H, 0, names, h.used);
      k := |h.saves| + SinkCount(H, 0);
      assert (h.saves + SinkFrom(H, 0, names, h.used).out)[k] == SinkFrom(H, 0, names, h.used).out[SinkCount(H, 0)];
    }
    var out := PromoteS(s, names, used).out;
    assert out[k] in out && !out[k].Store?;
  }

  lemma {:induction false} SettledS(s: Stmt, names: nat -> string, used: set<string>)
    ensures Settled(PromoteS(s, names, used).out)
    decreases s, 1
  {
    hide MentionsAny, LoadsB, PromoteLoop;
    match s
    case Loop(id, end, stride, body) =>
      if Candidate(s) {
        SettledLoop(s, names, used);
      } else {
        PromoteSettles(body, names, used);
        var r := PromoteB(body, names, used);
        if forall x | x in r.out :: x.Store? { StoresStay(body, names, used); }
        assert [Loop(id, end, stride, r.out)][1..] == [];
      }
    case IfRange(v, start, stop, body) =>
      PromoteSettles(body, names, used);
      assert [IfRange(v, start, stop, PromoteB(body, names, used).out)][1..] == [];
    case _ => assert [s][1..] == [];
  }

  /** After promoteLICM no loop of stores that reads no buffer it writes has a store or a load left
      that does not use its index. */
  lemma {:induction false} PromoteSettles(ss: seq<Stmt>, names: nat -> string, used: set<string>)
    ensures Settled(PromoteB(ss, names, used).out)
    decreases ss, 0
  {
    hide Settled;
    if ss != [] {
      var x := PromoteS(ss[0], names, used);
      SettledS(ss[0], names, used);
      PromoteSettles(ss[1..], names, x.used);
      SettledAppend(x.out, PromoteB(ss[1..], names, x.used).out);
    } else {
      SettledLeaves([]);
    }
  }

  /** hoistLoads for the loop at pos; it returns false whatever it did, as the source does. */
  method HoistLoads(parent: Scope, pos: nat, names: nat -> string, vars: VarTable) returns (changed: bool, end: nat)
    requires pos < |parent.body| && parent.body[pos].Loop?
    modifies vars, parent
    ensures !changed
    ensures var L := old(parent.body[pos]);
      if (forall s | s in L.body :: s.Store?) && ArgsRead(L.body) !! ArgsWritten(L.body) then
        var h := HoistB(L.body, L.id, names, Names(old(vars.vars)));
        end == pos + |h.saves| && Names(vars.vars) == h.used &&
        parent.body == Spliced(old(parent.body), pos, h.saves + [HoistedLoop(L, names, Names(old(vars.vars)))]) &&
        end < |parent.body| && parent.body[end].Loop? && LoadsUse(LoadsB(parent.body[end].body, map[]), L.id)
      else end == pos && parent.body == old(parent.body) && vars.vars == old(vars.vars)
  {
    var L := parent.body[pos];
    ghost var ss, used := parent.body, Names(vars.vars);
    changed, end := false, pos;
    // Only a body of stores that reads none of its own buffers qualifies.
    if !(ArgsRead(L.body) !! ArgsWritten(L.body)) || !OnlyStores(L.body) { return; }
    var outs: seq<Stmt> := [];
    var i := 0;
    while i < |L.body|
      invariant 0 <= i <= |L.body| && OnlyStores(L.body[..i])
      invariant var h := HoistB(L.body[..i], L.id, names, used);
        outs == h.outs && Names(vars.vars) == h.used && end == pos + |h.saves| &&
        parent.body == ss[..pos] + h.saves + ss[pos..]
    {
      var s := L.body[i];
      assert s in L.body && L.body[..i + 1] == L.body[..i] + [s];
      forall z | z in L.body[..i + 1] ensures z.Store? {}
      HoistBAppend(L.body[..i], s, L.id, names, used);
      ghost var h := HoistB(L.body[..i], L.id, names, used);
      ghost var x := HoistS(s, L.id, names, h.used);
      var s';
      s', end := HoistStoreExprs(s, L.id, names, vars, parent, end);
      SpliceMore(ss, pos, h.saves, x.saves);
      outs := outs + [s'];
      i := i + 1;
    }
    assert L.body[..i] == L.body;
    ghost var h := HoistB(L.body, L.id, names, used);
    HoistLeaves(L.body, L.id, names, used);
    parent.ReplaceStmt(Loop(L.id, L.end, L.stride, outs), end);
    SpliceReplace(ss, pos, h.saves, Loop(L.id, L.end, L.stride, outs));
  }

  lemma {:induction false} SpliceMore(ss: seq<Stmt>, pos: nat, a: seq<Stmt>, b: seq<Stmt>)
    requires pos <= |ss|
    ensures var x := ss[..pos] + a + ss[pos..];
      x[..pos + |a|] + b + x[pos + |a|..] == ss[..pos] + (a + b) + ss[pos..]
  {
    var x := ss[..pos] + a + ss[pos..];
    assert x[..pos + |a|] == ss[..pos] + a && x[pos + |a|..] == ss[pos..];
  }

  lemma {:induction false} SpliceReplace(ss: seq<Stmt>, pos: nat, a: seq<Stmt>, s: Stmt)
    requires pos < |ss|
    ensures var x := ss[..pos] + a + ss[pos..];
      x[pos + |a| := s] == Spliced(ss, pos, a + [s])
  {}

  /** What SinkFrom wraps around the rest. */
  ghost predicate SunkSoFar(L: Stmt, k: nat, Lk: Stmt, inits: seq<Stmt>, flushes: seq<Stmt>,
                            names: nat -> string, used: set<string>, usedk: set<string>)
    requires L.Loop? && Lk.Loop? && k <= |Lk.body|
  {
    var a, b := SinkFrom(L, 0, names, used), SinkFrom(Lk, k, names, usedk);
    a.out == inits + b.out + flushes && a.used == b.used
  }

  lemma {:induction false} SunkOneMore(L: Stmt, k: nat, Lk: Stmt, inits: seq<Stmt>, flushes: seq<Stmt>,
                                       names: nat -> string, used: set<string>, usedk: set<string>)
    requires L.Loop? && Lk.Loop? && k < |Lk.body| && SunkSoFar(L, k, Lk, inits, flushes, names, used, usedk)
    ensures if Sinks(Lk, k) then
        var v := SinkVar(Lk, k, names, usedk);
        SunkSoFar(L, k + 1, SinkAt(Lk, k, v), inits + [Init(v)], [Flush(v, Lk.body[k])] + flushes, names, used,
          usedk + {v.name})
      else SunkSoFar(L, k + 1, Lk, inits, flushes, names, used, usedk)
  {
    if Sinks(Lk, k) {
      var v := SinkVar(Lk, k, names, usedk);
      var r := SinkFrom(SinkAt(Lk, k, v), k + 1, names, usedk + {v.name});
      assert inits + ([Init(v)] + r.out + [Flush(v, Lk.body[k])]) + flushes ==
             (inits + [Init(v)]) + r.out + ([Flush(v, Lk.body[k])] + flushes);
    }
  }

  /** Stores before k are looked at; Lk is the loop now, between inits and flushes. */
  ghost predicate SinkState(ss: seq<Stmt>, pos: nat, L: Stmt, k: nat, Lk: Stmt, inits: seq<Stmt>, flushes: seq<Stmt>,
                            body: seq<Stmt>, names: nat -> string, used: set<string>, now: set<string>)
  {
    pos < |ss| && L.Loop? && Lk.Loop? && Lk.id == L.id && k <= |L.body| == |Lk.body| &&
    body == Spliced(ss, pos, inits + [Lk] + flushes) && SunkSoFar(L, k, Lk, inits, flushes, names, used, now)
  }

  /** The body of the scope after one more store is sunk. */
  function SinkEdit(body: seq<Stmt>, at: nat, a: Stmt, b: Stmt, Lk: Stmt): seq<Stmt>
    requires at < |body|
  {
    var y := body[..at] + [a] + body[at..];
    (y[..at + 2] + [b] + y[at + 2..])[at + 1 := Lk]
  }

  lemma {:induction false} SinkMoves(ss: seq<Stmt>, pos: nat, L: Stmt, k: nat, Lk: Stmt, inits: seq<Stmt>,
                                     flushes: seq<Stmt>, body: seq<Stmt>, names: nat -> string, used: set<string>,
                                     now: set<string>)
    requires SinkState(ss, pos, L, k, Lk, inits, flushes, body, names, used, now) && k < |L.body| && Sinks(Lk, k)
    ensures pos + |inits| < |body|
    ensures var v := SinkVar(Lk, k, names, now);
      var a, b, L' := Init(v), Flush(v, Lk.body[k]), SinkAt(Lk, k, v);
      SinkState(ss, pos, L, k + 1, L', inits + [a], [b] + flushes, SinkEdit(body, pos + |inits|, a, b, L'),
                names, used, now + {v.name})
  {
    var v := SinkVar(Lk, k, names, now);
    SunkOneMore(L, k, Lk, inits, flushes, names, used, now);
    SinkSpliceOne(ss, pos, inits, Lk, flushes, Init(v), Flush(v, Lk.body[k]), SinkAt(Lk, k, v));
  }

  lemma {:induction false} SinkSkips(ss: seq<Stmt>, pos: nat, L: Stmt, k: nat, Lk: Stmt, inits: seq<Stmt>,
                                     flushes: seq<Stmt>, body: seq<Stmt>, names: nat -> string, used: set<string>,
                                     now: set<string>)
    requires SinkState(ss, pos, L, k, Lk, inits, flushes, body, names, used, now) && k < |L.body| && !Sinks(Lk, k)
    ensures SinkState(ss, pos, L, k + 1, Lk, inits, flushes, body, names, used, now)
  {
    SunkOneMore(L, k, Lk, inits, flushes, names, used, now);
  }

  /** sinkStores for the loop at pos, whose loads and stores are disjoint. */
  method SinkStores(parent: Scope, pos: nat, names: nat -> string, vars: VarTable) returns (changed: bool, end: nat)
    requires pos < |parent.body| && parent.body[pos].Loop?
    modifies vars, parent
    ensures var L := old(parent.body[pos]);
      if (forall s | s in L.body :: s.Store?) && ArgsRead(L.body) !! ArgsWritten(L.body) then
        var r := SinkFrom(L, 0, names, Names(old(vars.vars)));
        end == pos + |r.out| && Names(vars.vars) == r.used && SinkShape(L, 0, r.out, SinkCount(L, 0)) &&
        parent.body == Spliced(old(parent.body), pos, r.out) &&
        (changed <==> exists s :: s in L.body && !MentionsAny(s.subs, L.id))
      else !changed && end == pos + 1 && parent.body == old(parent.body) && vars.vars == old(vars.vars)
  {
    hide SinkFrom, SunkSoFar, ArgsRead, VarsRead, Names, ArgsWritten, Init, Flush, SinkAt, Spliced,
      SinkShape, SinkCount;
    var L := parent.body[pos];
    ghost var ss, used := parent.body, Names(vars.vars);
    changed, end := false, pos + 1;
    if !(ArgsRead(L.body) !! ArgsWritten(L.body)) || !OnlyStores(L.body) { return; }
    ghost var inits: seq<Stmt>, flushes: seq<Stmt> := [], [];
    var at := pos;
    var Lk := L;
    var k := 0;
    SunkNone(ss, pos, names, used);
    while k < |L.body|
      invariant at == pos + |inits| && end == pos + |inits| + 1 + |flushes|
      invariant SinkState(ss, pos, L, k, Lk, inits, flushes, parent.body, names, used, Names(vars.vars))
      invariant |Lk.body| == |L.body| && Lk.id == L.id && forall j | k <= j < |L.body| :: Lk.body[j] == L.body[j]
      invariant changed <==> exists j: nat :: j < k && Sinks(L, j)
    {
      assert Sinks(L, k) <==> Lk.body[k].Store? && !MentionsAny(Lk.body[k].subs, Lk.id);
      if Lk.body[k].Store? && !MentionsAny(Lk.body[k].subs, Lk.id) {
        var p := Lk.body[k];
        ghost var now, body := Names(vars.vars), parent.body;
        SinkMoves(ss, pos, L, k, Lk, inits, flushes, body, names, used, now);
        var v := vars.AddTempVar(names(p.arg), TypeOf(p.value));
        parent.InsertBeforeStmt(Init(v), at);
        parent.InsertAfterStmt(Flush(v, p), at + 1);
        SinkAtOnly(Lk, k, v);
        Lk := SinkAt(Lk, k, v);
        parent.ReplaceStmt(Lk, at + 1);
        assert parent.body == SinkEdit(body, at, Init(v), Flush(v, p), Lk);
        inits, flushes := inits + [Init(v)], [Flush(v, p)] + flushes;
        at, end := at + 1, end + 2;
        changed := true;
      } else {
        SinkSkips(ss, pos, L, k, Lk, inits, flushes, parent.body, names, used, Names(vars.vars));
      }
      k := k + 1;
    }
    SunkAll(L, Lk, inits, flushes, names, used, Names(vars.vars));
    SinkLeaves(L, 0, names, used);
    SinksAre(L);
  }

  lemma {:induction false} SinksAre(L: Stmt)
    requires L.Loop? && forall s | s in L.body :: s.Store?
    ensures SinksSome(L) <==> exists s :: s in L.body && !MentionsAny(s.subs, L.id)
  {
    if s :| s in L.body && !MentionsAny(s.subs, L.id) {
      var k: nat :| k < |L.body| && L.body[k] == s;
      assert Sinks(L, k);
    }
    if k: nat :| k < |L.body| && Sinks(L, k) { assert L.body[k] in L.body; }
  }

  lemma {:induction false} SinkAtOnly(L: Stmt, pos: nat, v: LocalVar)
    requires L.Loop? && pos < |L.body| && L.body[pos].Store?
    ensures var M := SinkAt(L, pos, v);
      M.Loop? && M.id == L.id && |M.body| == |L.body| && forall j | 0 <= j < |L.body| &&
        j != pos :: M.body[j] == L.body[j]
  {}

  lemma {:induction false} SunkAll(L: Stmt, Lk: Stmt, inits: seq<Stmt>, flushes: seq<Stmt>,
                                   names: nat -> string, used: set<string>, usedk: set<string>)
    requires L.Loop? && Lk.Loop? && SunkSoFar(L, |Lk.body|, Lk, inits, flushes, names, used, usedk)
    ensures SinkFrom(L, 0, names, used) == Rewritten(inits + [Lk] + flushes, usedk)
  {}

  lemma {:induction false} SunkNone(ss: seq<Stmt>, pos: nat, names: nat -> string, used: set<string>)
    requires pos < |ss| && ss[pos].Loop?
    ensures SinkState(ss, pos, ss[pos], 0, ss[pos], [], [], ss, names, used, used)
  {
    var L := ss[pos];
    assert [] + [L] + [] == [L];
    var b := SinkFrom(L, 0, names, used);
    assert [] + b.out + [] == b.out;
  }

  lemma {:induction false} SinkSpliceOne(ss: seq<Stmt>, pos: nat, inits: seq<Stmt>, M: Stmt, flushes: seq<Stmt>,
                                         a: Stmt, b: Stmt, L': Stmt)
    requires pos < |ss|
    ensures var at := pos + |inits|;
      var x := Spliced(ss, pos, inits + [M] + flushes);
      var y := x[..at] + [a] + x[at..];
      (y[..at + 2] + [b] + y[at + 2..])[at + 1 := L'] == Spliced(ss, pos, (inits + [a]) + [L'] + ([b] + flushes))
  {
    var pre, post := ss[..pos] + inits, flushes + ss[pos + 1..];
    assert Spliced(ss, pos, inits + [M] + flushes) == pre + [M] + post;
    EditAround(pre, M, post, a, b, L');
    assert Spliced(ss, pos, (inits + [a]) + [L'] + ([b] + flushes)) == (pre + [a]) + [L'] + ([b] + post);
  }

  /** M is replaced, with one statement put before it and one after it. */
  lemma {:induction false} EditAround(pre: seq<Stmt>, M: Stmt, post: seq<Stmt>, a: Stmt, b: Stmt, L': Stmt)
    ensures var at := |pre|;
      var x := pre + [M] + post;
      var y := x[..at] + [a] + x[at..];
      (y[..at + 2] + [b] + y[at + 2..])[at + 1 := L'] == (pre + [a]) + [L'] + ([b] + post)
  {
    var x := pre + [M] + post;
    assert x[..|pre|] == pre && x[|pre|..] == [M] + post;
    var y := pre + [a] + ([M] + post);
    assert y == pre + [a, M] + post;
    assert y[..|pre| + 2] == pre + [a, M] && y[|pre| + 2..] == post;
  }

  lemma {:induction false} PromoteAppend(a: seq<Stmt>, s: Stmt, names: nat -> string, used: set<string>)
    ensures var x := PromoteB(a, names, used);
      var y := PromoteS(s, names, x.used);
      PromoteB(a + [s], names, used) == Rewritten(x.out + y.out, y.used)
  {
    hide PromoteS;
    if a == [] {
      assert a + [s] == [s] && [s][1..] == [];
      assert PromoteB([], names, PromoteS(s, names, used).used) == Rewritten([], PromoteS(s, names, used).used);
    } else {
      assert (a + [s])[0] == a[0] && (a + [s])[1..] == a[1..] + [s];
      PromoteAppend(a[1..], s, names, PromoteS(a[0], names, used).used);
    }
  }

  /** hoistLoads and then sinkStores do, in place, what PromoteLoop says. */
  method PromoteAt(s: Scope, pos: nat, names: nat -> string, vars: VarTable) returns (changed: bool, end: nat)
    requires pos < |s.body| && Candidate(s.body[pos])
    modifies s, vars
    ensures var r := PromoteLoop(old(s.body[pos]), names, Names(old(vars.vars)));
      s.body == Spliced(old(s.body), pos, r.out) && Names(vars.vars) == r.used && end == pos + |r.out|
    ensures changed == SinksSome(old(s.body[pos]))
  {
    hide ArgsRead, ArgsWritten, SinkFrom, HoistB, SameBut, MentionsAny, OnlyStores;
    ghost var ss, used := s.body, Names(vars.vars);
    ghost var L := s.body[pos];
    ghost var h := HoistB(L.body, L.id, names, used);
    var hoisted, at := HoistLoads(s, pos, names, vars);
    ghost var L' := HoistedLoop(L, names, used);
    HoistKeepsB(L.body, L.id, names, used);
    assert s.body[at] == L' && Candidate(L');
    assert forall k: nat | k < |L.body| :: Sinks(L', k) == Sinks(L, k);
    SinksAre(L');
    ghost var r := SinkFrom(L', 0, names, h.used);
    changed, end := SinkStores(s, at, names, vars);
    SpliceTwice(ss, pos, h.saves, L', r.out);
    changed := hoisted || changed;
  }

  lemma {:induction false} SpliceTwice(ss: seq<Stmt>, pos: nat, a: seq<Stmt>, s: Stmt, r: seq<Stmt>)
    requires pos < |ss|
    ensures Spliced(Spliced(ss, pos, a + [s]), pos + |a|, r) == Spliced(ss, pos, a + r)
  {
    var x := Spliced(ss, pos, a + [s]);
    assert x[..pos + |a|] == ss[..pos] + a && x[pos + |a| + 1..] == ss[pos + 1..];
  }

  /** promoteLICM on the statement at pos and the loops inside it. */
  method PromoteStmt(s: Scope, pos: nat, names: nat -> string, vars: VarTable, ghost whole: seq<Stmt>)
    returns (changed: bool, end: nat)
    requires pos < |s.body| && s.body[pos] in whole
    modifies s, vars
    ensures var r := PromoteS(old(s.body[pos]), names, Names(old(vars.vars)));
      s.body == Spliced(old(s.body), pos, r.out) && Names(vars.vars) == r.used && end == pos + |r.out|
    ensures changed == ReportsS(old(s.body[pos]))
    decreases whole, 0
  {
    changed, end := false, pos + 1;
    match s.body[pos] {
      case Loop(id, stop, stride, body) =>
        if Candidate(s.body[pos]) {
          changed, end := PromoteAt(s, pos, names, vars);
        } else {
          var inner := new Scope(body);
          changed := PromoteLICM(inner, names, vars);
          s.ReplaceStmt(Loop(id, stop, stride, inner.body), pos);
        }
      case IfRange(v, start, stop, body) =>
        var inner := new Scope(body);
        changed := PromoteLICM(inner, names, vars);
        s.ReplaceStmt(IfRange(v, start, stop, inner.body), pos);
      case _ =>
    }
  }

  /** The first i statements of ss are rewritten, and fill body up to done. */
  predicate PromoteState(ss: seq<Stmt>, names: nat -> string, used: set<string>, body: seq<Stmt>, i: nat, done: nat,
                         now: set<string>)
  {
    i <= |ss| &&
    var r := PromoteB(ss[..i], names, used);
    body == r.out + ss[i..] && done == |r.out| && now == r.used
  }

  lemma {:induction false} PromoteKeeps(ss: seq<Stmt>, names: nat -> string, used: set<string>, body: seq<Stmt>, i: nat,
                                        done: nat, now: set<string>)
    requires PromoteState(ss, names, used, body, i, done, now) && i < |ss|
    ensures done < |body| && body[done] == ss[i]
    ensures var r := PromoteS(ss[i], names, now);
      PromoteState(ss, names, used, Spliced(body, done, r.out), i + 1, done + |r.out|, r.used)
  {
    hide PromoteS;
    var r, y := PromoteB(ss[..i], names, used), PromoteS(ss[i], names, now);
    assert ss[..i + 1] == ss[..i] + [ss[i]];
    PromoteAppend(ss[..i], ss[i], names, used);
    assert body[..done] == r.out && body[done + 1..] == ss[i + 1..];
  }

  lemma {:induction false} PromoteStarts(ss: seq<Stmt>, names: nat -> string, used: set<string>)
    ensures PromoteState(ss, names, used, ss, 0, 0, used)
  {
    assert ss[..0] == [] && [] + ss[0..] == ss;
  }

  lemma {:induction false} PromoteEnds(ss: seq<Stmt>, names: nat -> string, used: set<string>, body: seq<Stmt>,
                                       done: nat, now: set<string>)
    requires PromoteState(ss, names, used, body, |ss|, done, now)
    ensures PromoteB(ss, names, used) == Rewritten(body, now)
  {
    assert ss[..|ss|] == ss && ss[|ss|..] == [];
  }

  lemma {:induction false} ReportsAppend(a: seq<Stmt>, s: Stmt)
    ensures Reports(a + [s]) == (Reports(a) || ReportsS(s))
  {
    hide ReportsS;
    if a == [] {
      assert a + [s] == [s] && [s][1..] == [];
    } else {
      assert (a + [s])[0] == a[0] && (a + [s])[1..] == a[1..] + [s];
      ReportsAppend(a[1..], s);
    }
  }

  /** promoteLICM on every loop of the scope; it keeps the buffers of a program that is ready. */
  method PromoteLICM(s: Scope, names: nat -> string, vars: VarTable) returns (changed: bool)
    modifies s, vars
    ensures var r := PromoteB(old(s.body), names, Names(old(vars.vars)));
      s.body == r.out && Names(vars.vars) == r.used
    ensures changed == Reports(old(s.body)) && (s.body != old(s.body) <==> changed || Hoists(old(s.body)))
    ensures Settled(s.body)
    ensures Ready(old(s.body)) && VarsRead(old(s.body)) <= Names(old(vars.vars)) ==>
      SameBut(Names(vars.vars) - Names(old(vars.vars)), map[], old(s.body), s.body)
    decreases s.body, 1
  {
    hide PromoteS, PromoteB, PromoteState, Ready, ReadyS, SameBut, VarsRead, Names, Spliced, Reports, ReportsS, Hoists,
      Settled;
    ghost var ss, used := s.body, Names(vars.vars);
    changed := false;
    var done, i := 0, 0;
    var total := |s.body|;
    PromoteStarts(ss, names, used);
    NothingReports();
    assert ss[..0] == [];
    while i < total
      invariant i <= total == |ss| && PromoteState(ss, names, used, s.body, i, done, Names(vars.vars))
      invariant changed == Reports(ss[..i])
    {
      PromoteKeeps(ss, names, used, s.body, i, done, Names(vars.vars));
      ReportsAppend(ss[..i], ss[i]);
      assert ss[..i + 1] == ss[..i] + [ss[i]];
      var c, e := PromoteStmt(s, done, names, vars, ss);
      changed, done := changed || c, e;
      i := i + 1;
    }
    assert ss[..i] == ss;
    PromoteEnds(ss, names, used, s.body, done, Names(vars.vars));
    PromotesExactly(ss, names, used);
    PromoteSettles(ss, names, used);
    if Ready(ss) && VarsRead(ss) <= used { PromotePreserves(map[], ss, names, used); }
  }

  lemma {:induction false} NothingReports()
    ensures !Reports([])
  {}
}
