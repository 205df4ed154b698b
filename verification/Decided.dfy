/** Runs whose guards are decided in a given state, whatever the state they have come to: what a
    block does as long as its stores leave its guards alone. */
module Decided {
  import opened IR
  import opened Families
  import opened Semantics

  /** The guard of an if holds in g. */
  predicate Holds(v: Expr, start: int, stop: int, env: Env, g: State)
  {
    start <= AsInt(Eval(v, env, g, 0)) < stop
  }

  ghost function RunS(s: Stmt, env: Env, g: State, st: State): State
    decreases s
  {
    match s
    case Loop(id, end, stride, body) =>
      Iter((k: nat, x: State) => Run(body, env.At(id, k * stride), g, x), Trip(end, stride), st)
    case IfRange(v, start, stop, body) => if Holds(v, start, stop, env, g) then Run(body, env, g, st) else st
    case _ => ExecS(s, env, st)
  }

  ghost function Run(ss: seq<Stmt>, env: Env, g: State, st: State): State
    decreases ss
  {
    if ss == [] then st else Run(ss[1..], env, g, RunS(ss[0], env, g, st))
  }

  /** The k-th iteration of a loop body. */
  ghost function RunBody(body: seq<Stmt>, id: LoopId, stride: nat, env: Env, g: State): (nat, State) -> State
  {
    (k: nat, x: State) => Run(body, env.At(id, k * stride), g, x)
  }

  lemma {:induction false} RunLoop(s: Stmt, env: Env, g: State, st: State)
    requires s.Loop?
    ensures Run([s], env, g, st) == Iter(RunBody(s.body, s.id, s.stride, env, g), Trip(s.end, s.stride), st)
  {
    RunOne(s, env, g, st);
    var f := (k: nat, x: State) => Run(s.body, env.At(s.id, k * s.stride), g, x);
    IterCong(f, RunBody(s.body, s.id, s.stride, env, g), Trip(s.end, s.stride), st);
  }

  lemma {:induction false} RunOne(s: Stmt, env: Env, g: State, st: State)
    ensures Run([s], env, g, st) == RunS(s, env, g, st)
  {
    assert [s][1..] == [];
  }

  lemma {:induction false} RunAppend(a: seq<Stmt>, b: seq<Stmt>, env: Env, g: State, st: State)
    ensures Run(a + b, env, g, st) == Run(b, env, g, Run(a, env, g, st))
  {
    if a == [] {
      assert a + b == b;
    } else {
      assert (a + b)[0] == a[0] && (a + b)[1..] == a[1..] + b;
      RunAppend(a[1..], b, env, g, RunS(a[0], env, g, st));
    }
  }

  /** Without scopes there is nothing to decide. */
  lemma {:induction false} RunLeaves(ss: seq<Stmt>, env: Env, g: State, st: State)
    requires forall s | s in ss :: !s.IsScope()
    ensures Run(ss, env, g, st) == Exec(ss, env, st)
  {
    if ss != [] {
      assert ss[0] in ss && forall s | s in ss[1..] :: s in ss;
      RunLeaves(ss[1..], env, g, ExecS(ss[0], env, st));
    }
  }

  // ---- Instances ---------------------------------------------------------------------------

  /** p with the index values of pe is one of the leaf statements that ss runs, with the guards
      decided in g. */
  ghost predicate IsInstance(p: Stmt, pe: Env, ss: seq<Stmt>, env: Env, g: State)
    decreases ss
  {
    ss != [] && (
      (match ss[0]
       case Loop(id, end, stride, body) =>
         exists k: nat :: k < Trip(end, stride) && IsInstance(p, pe, body, env.At(id, k * stride), g)
       case IfRange(v, start, stop, body) => Holds(v, start, stop, env, g) && IsInstance(p, pe, body, env, g)
       case _ => p == ss[0] && pe == env)
      || IsInstance(p, pe, ss[1..], env, g))
  }

  lemma {:induction false} HeadInstances(ss: seq<Stmt>, env: Env, g: State)
    requires ss != []
    ensures forall p: Stmt, pe: Env :: IsInstance(p, pe, [ss[0]], env, g) ==> IsInstance(p, pe, ss, env, g)
    ensures forall p: Stmt, pe: Env :: IsInstance(p, pe, ss[1..], env, g) ==> IsInstance(p, pe, ss, env, g)
  {
    assert [ss[0]][1..] == [];
  }

  lemma {:induction false} LoopInstances(s: Stmt, env: Env, g: State, k: nat)
    requires s.Loop? && k < Trip(s.end, s.stride)
    ensures forall p: Stmt, pe: Env ::
      IsInstance(p, pe, s.body, env.At(s.id, k * s.stride), g) ==> IsInstance(p, pe, [s], env, g)
  {}

  lemma {:induction false} IfInstances(s: Stmt, env: Env, g: State)
    requires s.IfRange? && Holds(s.val, s.start, s.stop, env, g)
    ensures forall p: Stmt, pe: Env :: IsInstance(p, pe, s.body, env, g) ==> IsInstance(p, pe, [s], env, g)
  {}

  // ---- Guards that stay as they are ----------------------------------------------------------

  /** Every guard that a run of ss comes to has the same answer in x as in g. */
  ghost predicate SameGuards(ss: seq<Stmt>, env: Env, g: State, x: State)
    decreases ss
  {
    ss == [] || (
      (match ss[0]
       case Loop(id, end, stride, body) =>
         forall k: nat | k < Trip(end, stride) :: SameGuards(body, env.At(id, k * stride), g, x)
       case IfRange(v, start, stop, body) =>
         (Holds(v, start, stop, env, x) <==> Holds(v, start, stop, env, g)) &&
         (Holds(v, start, stop, env, g) ==> SameGuards(body, env, g, x))
       case _ => true)
      && SameGuards(ss[1..], env, g, x))
  }

  lemma {:induction false} SameGuardsSelf(ss: seq<Stmt>, env: Env, g: State)
    ensures SameGuards(ss, env, g, g)
    decreases ss
  {
    if ss != [] {
      SameGuardsSelf(ss[1..], env, g);
      match ss[0] {
        case Loop(id, end, stride, body) =>
          forall k: nat | k < Trip(end, stride) ensures SameGuards(body, env.At(id, k * stride), g, g) {
            SameGuardsSelf(body, env.At(id, k * stride), g);
          }
        case IfRange(_, _, _, body) => SameGuardsSelf(body, env, g);
        case _ =>
      }
    }
  }

  /** No instance of ss changes the answer of a guard of ss. */
  ghost predicate KeepsGuards(ss: seq<Stmt>, env: Env, g: State)
  {
    forall p: Stmt, pe: Env, x: State | IsInstance(p, pe, ss, env, g) && SameGuards(ss, env, g, x) ::
      SameGuards(ss, env, g, ExecS(p, pe, x))
  }

  /** Every instance of ss keeps inv, and inv fixes the guards of ss. */
  ghost predicate Fixes(ss: seq<Stmt>, env: Env, g: State, inv: State -> bool)
  {
    (forall p: Stmt, pe: Env, x: State | IsInstance(p, pe, ss, env, g) && inv(x) :: inv(ExecS(p, pe, x))) &&
    forall x: State | inv(x) :: SameGuards(ss, env, g, x)
  }

  lemma {:induction false} FixesHead(ss: seq<Stmt>, env: Env, g: State, inv: State -> bool)
    requires ss != [] && Fixes(ss, env, g, inv)
    ensures Fixes([ss[0]], env, g, inv) && Fixes(ss[1..], env, g, inv)
  {
    HeadInstances(ss, env, g);
    assert [ss[0]][1..] == [];
    forall x: State | inv(x) ensures SameGuards([ss[0]], env, g, x) && SameGuards(ss[1..], env, g, x) {
      assert SameGuards(ss, env, g, x);
    }
  }

  lemma {:induction false} FixesLoop(s: Stmt, env: Env, g: State, inv: State -> bool, k: nat)
    requires s.Loop? && k < Trip(s.end, s.stride) && Fixes([s], env, g, inv)
    ensures Fixes(s.body, env.At(s.id, k * s.stride), g, inv)
  {
    LoopInstances(s, env, g, k);
    forall x: State | inv(x) ensures SameGuards(s.body, env.At(s.id, k * s.stride), g, x) {
      assert SameGuards([s], env, g, x);
    }
  }

  lemma {:induction false} FixesIf(s: Stmt, env: Env, g: State, inv: State -> bool)
    requires s.IfRange? && Holds(s.val, s.start, s.stop, env, g) && Fixes([s], env, g, inv)
    ensures Fixes(s.body, env, g, inv)
  {
    IfInstances(s, env, g);
    forall x: State | inv(x) ensures SameGuards(s.body, env, g, x) {
      assert SameGuards([s], env, g, x);
    }
  }

  /** Where the guards are fixed a run goes the way they were decided. */
  lemma {:induction false} DecidedRun(ss: seq<Stmt>, env: Env, g: State, inv: State -> bool, x: State)
    requires Fixes(ss, env, g, inv) && inv(x)
    ensures Exec(ss, env, x) == Run(ss, env, g, x) && inv(Run(ss, env, g, x))
    decreases ss, 0, 0
  {
    if ss != [] {
      FixesHead(ss, env, g, inv);
      DecidedRunS(ss[0], env, g, inv, x);
      DecidedRun(ss[1..], env, g, inv, RunS(ss[0], env, g, x));
    }
  }

  lemma {:induction false} DecidedRunS(s: Stmt, env: Env, g: State, inv: State -> bool, x: State)
    requires Fixes([s], env, g, inv) && inv(x)
    ensures ExecS(s, env, x) == RunS(s, env, g, x) && inv(RunS(s, env, g, x))
    decreases s, 1, 0
  {
    match s
    case Loop(id, end, stride, body) =>
      ExecLoop(id, end, stride, body, env, x);
      RunLoop(s, env, g, x);
      RunOne(s, env, g, x);
      DecidedIter(s, env, g, inv, Trip(end, stride), x);
    case IfRange(v, start, stop, body) =>
      assert SameGuards([s], env, g, x);
      if Holds(v, start, stop, env, g) {
        FixesIf(s, env, g, inv);
        DecidedRun(body, env, g, inv, x);
      }
    case _ => assert IsInstance(s, env, [s], env, g);
  }

  lemma {:induction false} DecidedIter(s: Stmt, env: Env, g: State, inv: State -> bool, n: nat, x: State)
    requires s.Loop? && n <= Trip(s.end, s.stride) && Fixes([s], env, g, inv) && inv(x)
    ensures var f, h := Body(s.body, s.id, s.stride, env), RunBody(s.body, s.id, s.stride, env, g);
      Iter(f, n, x) == Iter(h, n, x) && inv(Iter(h, n, x))
    decreases s, 0, n
  {
    if n > 0 {
      DecidedIter(s, env, g, inv, n - 1, x);
      FixesLoop(s, env, g, inv, n - 1);
      var h := RunBody(s.body, s.id, s.stride, env, g);
      DecidedRun(s.body, env.At(s.id, (n - 1) * s.stride), g, inv, Iter(h, n - 1, x));
    }
  }
}
