/** Programs whose buffers are laid out differently: every access is rewritten, and every
    element moves to another place. */
module Relabel {
  import opened IR
  import opened Families
  import opened Semantics
  import opened Substitution
  import opened Footprint
  import opened Types

  /** How a layout rewrites the subscripts of an access to a buffer. */
  type Rewriting = (nat, seq<Expr>) -> seq<Expr>

  function RewriteE(e: Expr, R: Rewriting): Expr
    decreases e
  {
    match e
    case Binary(op, a, b) => Binary(op, RewriteE(a, R), RewriteE(b, R))
    case Unary(op, v) => Unary(op, RewriteE(v, R))
    case Load(arg, subs, ty) => Load(arg, R(arg, RewriteAll(subs, R)), ty)
    case Broadcast(x, vf) => Broadcast(RewriteE(x, R), vf)
    case _ => e
  }

  function RewriteAll(es: seq<Expr>, R: Rewriting): (r: seq<Expr>)
    ensures |r| == |es|
    decreases es
  {
    if es == [] then [] else [RewriteE(es[0], R)] + RewriteAll(es[1..], R)
  }

  lemma {:induction false} RewriteAt(es: seq<Expr>, R: Rewriting, i: nat)
    requires i < |es|
    ensures RewriteAll(es, R)[i] == RewriteE(es[i], R)
  {
    if i > 0 { RewriteAt(es[1..], R, i - 1); }
  }

  function RewriteS(s: Stmt, R: Rewriting): Stmt
    decreases s, 1
  {
    match s
    case Loop(id, end, stride, body) => Loop(id, end, stride, RewriteB(body, R))
    case IfRange(v, start, stop, body) => IfRange(RewriteE(v, R), start, stop, RewriteB(body, R))
    case Store(arg, subs, v, acc) => Store(arg, R(arg, RewriteAll(subs, R)), RewriteE(v, R), acc)
    case StoreLocal(x, v, acc) => StoreLocal(x, RewriteE(v, R), acc)
    case Call(name, ps) => Call(name, RewriteAll(ps, R))
  }

  function RewriteB(ss: seq<Stmt>, R: Rewriting): seq<Stmt>
    decreases ss, 0
  {
    if ss == [] then [] else [RewriteS(ss[0], R)] + RewriteB(ss[1..], R)
  }

  lemma {:induction false} RewriteType(e: Expr, R: Rewriting)
    ensures TypeOf(RewriteE(e, R)) == TypeOf(e)
  {
    match e
    case Binary(_, a, _) => RewriteType(a, R);
    case Unary(_, v) => RewriteType(v, R);
    case Broadcast(x, _) => RewriteType(x, R);
    case _ =>
  }

  /** Where the elements go, which elements exist, and which buffers are accessed by vectors. */
  datatype Layout = Layout(place: (nat, seq<int>) -> seq<int>, dom: (nat, seq<int>) -> bool, wide: nat -> bool)

  /** Lane k of an access at idx touches an element that exists. */
  predicate Within(y: Layout, arg: nat, idx: seq<int>, k: nat)
  {
    y.dom(arg, Bump(idx, k)) && (k == 0 || y.wide(arg))
  }

  ghost predicate SubsPlaced(y: Layout, R: Rewriting, arg: nat, subs: seq<Expr>, env: Env, st: State)
  {
    EvalSubs(R(arg, subs), env, st) == y.place(arg, EvalSubs(subs, env, st))
  }

  ghost predicate LanePlaced(y: Layout, arg: nat, idx: seq<int>, k: nat)
  {
    Within(y, arg, idx, k) ==> y.place(arg, Bump(idx, k)) == Bump(y.place(arg, idx), k)
  }

  ghost predicate Distinct(y: Layout, arg: nat, a: seq<int>, b: seq<int>)
  {
    y.dom(arg, a) && y.dom(arg, b) && y.place(arg, a) == y.place(arg, b) ==> a == b
  }

  /** The rewritten access goes where the layout puts the element, and no two elements of a
      buffer are put at the same place. */
  ghost predicate Sound(y: Layout, R: Rewriting)
  {
    (forall arg: nat, subs: seq<Expr>, env: Env, st: State :: SubsPlaced(y, R, arg, subs, env, st)) &&
    (forall arg: nat, idx: seq<int>, k: nat :: LanePlaced(y, arg, idx, k)) &&
    (forall arg: nat, a: seq<int>, b: seq<int> :: Distinct(y, arg, a, b))
  }

  /** b holds what a holds, in the other layout. */
  ghost predicate LaidOut(y: Layout, a: State, b: State)
  {
    a.calls == b.calls &&
    (forall name: string, lane: nat :: Look(b, Local(name, lane)) == Look(a, Local(name, lane))) &&
    (forall arg: nat, idx: seq<int> | y.dom(arg, idx) ::
      Look(b, Elem(arg, y.place(arg, idx))) == Look(a, Elem(arg, idx)))
  }

  // ---- Runs whose accesses are all within the buffers --------------------------------------

  ghost predicate WithinE(y: Layout, e: Expr, env: Env, st: State, lane: nat)
  {
    match e
    case Binary(_, a, b) => WithinE(y, a, env, st, lane) && WithinE(y, b, env, st, lane)
    case Unary(_, v) => WithinE(y, v, env, st, lane)
    case Load(arg, subs, ty) =>
      (forall x | x in subs :: WithinE(y, x, env, st, 0)) && Within(y, arg, EvalSubs(subs, env, st), LaneOf(ty, lane))
    case Broadcast(x, _) => WithinE(y, x, env, st, 0)
    case _ => true
  }

  ghost predicate WithinAll(y: Layout, es: seq<Expr>, env: Env, st: State)
  {
    forall x | x in es :: WithinE(y, x, env, st, 0)
  }

  ghost predicate WithinS(y: Layout, s: Stmt, env: Env, st: State)
    decreases s
  {
    match s
    case Loop(id, end, stride, body) =>
      forall k: nat | k < Trip(end, stride) ::
        WithinB(y, body, env.At(id, k * stride), Iter(Body(body, id, stride, env), k, st))
    case IfRange(v, start, stop, body) =>
      WithinE(y, v, env, st, 0) && (start <= AsInt(Eval(v, env, st, 0)) < stop ==> WithinB(y, body, env, st))
    case Store(arg, subs, value, _) =>
      WithinAll(y, subs, env, st) &&
      forall k: nat | k < Width(value) :: WithinE(y, value, env, st, k) && Within(y, arg, EvalSubs(subs, env, st), k)
    case StoreLocal(_, value, _) => forall k: nat | k < Width(value) :: WithinE(y, value, env, st, k)
    case Call(_, ps) => WithinAll(y, ps, env, st)
  }

  /** Every access of the run stays within its buffer. */
  ghost predicate WithinB(y: Layout, ss: seq<Stmt>, env: Env, st: State)
    decreases ss
  {
    ss == [] || (WithinS(y, ss[0], env, st) && WithinB(y, ss[1..], env, ExecS(ss[0], env, st)))
  }

  // ---- The rewritten program simulates the original -------------------------------------------

  lemma {:induction false} EvalLaidOut(y: Layout, R: Rewriting, e: Expr, env: Env, a: State, b: State, lane: nat)
    requires Sound(y, R) && LaidOut(y, a, b) && WithinE(y, e, env, a, lane)
    ensures Eval(RewriteE(e, R), env, b, lane) == Eval(e, env, a, lane)
    decreases e
  {
    match e
    case Binary(_, p, q) =>
      EvalLaidOut(y, R, p, env, a, b, lane);
      EvalLaidOut(y, R, q, env, a, b, lane);
    case Unary(_, v) => EvalLaidOut(y, R, v, env, a, b, lane);
    case Load(arg, subs, ty) =>
      var k := LaneOf(ty, lane);
      var idx := EvalSubs(subs, env, a);
      SubsLaidOut(y, R, subs, env, a, b);
      EvalLoad(e, env, a, lane);
      EvalLoad(RewriteE(e, R), env, b, lane);
      assert SubsPlaced(y, R, arg, RewriteAll(subs, R), env, b);
      assert LanePlaced(y, arg, idx, k);
      assert Look(b, Elem(arg, y.place(arg, Bump(idx, k)))) == Look(a, Elem(arg, Bump(idx, k)));
    case LoadLocal(v) =>
      assert Look(b, Local(v.name, LaneOf(v.ty, lane))) == Look(a, Local(v.name, LaneOf(v.ty, lane)));
    case Broadcast(x, _) => EvalLaidOut(y, R, x, env, a, b, 0);
    case _ =>
  }

  lemma {:induction false} SubsLaidOut(y: Layout, R: Rewriting, es: seq<Expr>, env: Env, a: State, b: State)
    requires Sound(y, R) && LaidOut(y, a, b) && WithinAll(y, es, env, a)
    ensures EvalSubs(RewriteAll(es, R), env, b) == EvalSubs(es, env, a)
    ensures EvalParams(RewriteAll(es, R), env, b) == EvalParams(es, env, a)
    decreases es
  {
    forall i | 0 <= i < |es|
      ensures Eval(RewriteAll(es, R)[i], env, b, 0) == Eval(es[i], env, a, 0)
    {
      assert es[i] in es;
      RewriteAt(es, R, i);
      EvalLaidOut(y, R, es[i], env, a, b, 0);
    }
  }

  /** The last lane at an element stays the last lane at its new place. */
  lemma {:induction false} LastLanePlaced(y: Layout, R: Rewriting, arg: nat, idx: seq<int>, n: nat, x: seq<int>)
    requires Sound(y, R) && y.dom(arg, x) && forall k: nat | k < n :: Within(y, arg, idx, k)
    ensures LastLane(arg, y.place(arg, idx), n, Elem(arg, y.place(arg, x))) == LastLane(arg, idx, n, Elem(arg, x))
  {
    if n > 0 {
      assert Within(y, arg, idx, n - 1) && LanePlaced(y, arg, idx, n - 1);
      assert Distinct(y, arg, Bump(idx, n - 1), x);
      LastLanePlaced(y, R, arg, idx, n - 1, x);
    }
  }

  lemma {:induction false} StoreLaidOut(y: Layout, R: Rewriting, s: Stmt, env: Env, a: State, b: State)
    requires Sound(y, R) && LaidOut(y, a, b) && s.Store? && WithinS(y, s, env, a)
    ensures LaidOut(y, ExecS(s, env, a), ExecS(RewriteS(s, R), env, b))
  {
    var arg, value, acc, s' := s.arg, s.value, s.acc, RewriteS(s, R);
    var a', b' := ExecS(s, env, a), ExecS(s', env, b);
    var idx, w := EvalSubs(s.subs, env, a), Width(value);
    SubsLaidOut(y, R, s.subs, env, a, b);
    RewriteType(value, R);
    assert SubsPlaced(y, R, arg, RewriteAll(s.subs, R), env, b);
    assert EvalSubs(s'.subs, env, b) == y.place(arg, idx);
    forall name: string, lane: nat
      ensures Look(b', Local(name, lane)) == Look(a', Local(name, lane))
    {
      LookElems(a, arg, idx, value, acc, env, w, Local(name, lane));
      LookElems(b, arg, y.place(arg, idx), s'.value, acc, env, w, Local(name, lane));
    }
    forall c: nat, x: seq<int> | y.dom(c, x)
      ensures Look(b', Elem(c, y.place(c, x))) == Look(a', Elem(c, x))
    {
      var p, q := Elem(c, x), Elem(c, y.place(c, x));
      LookElems(a, arg, idx, value, acc, env, w, p);
      LookElems(b, arg, y.place(arg, idx), s'.value, acc, env, w, q);
      assert Look(b, q) == Look(a, p);
      if c == arg {
        LastLanePlaced(y, R, arg, idx, w, x);
        var k := LastLane(arg, idx, w, p);
        if k.Some? { EvalLaidOut(y, R, value, env, a, b, k.value); }
      }
    }
  }

  lemma {:induction false} StoreLocalLaidOut(y: Layout, R: Rewriting, s: Stmt, env: Env, a: State, b: State)
    requires Sound(y, R) && LaidOut(y, a, b) && s.StoreLocal? && WithinS(y, s, env, a)
    ensures LaidOut(y, ExecS(s, env, a), ExecS(RewriteS(s, R), env, b))
  {
    var s' := RewriteS(s, R);
    var a', b' := ExecS(s, env, a), ExecS(s', env, b);
    RewriteType(s.value, R);
    forall name: string, lane: nat
      ensures Look(b', Local(name, lane)) == Look(a', Local(name, lane))
    {
      var x := Local(name, lane);
      LookLocals(a, s.v, s.value, s.acc, env, Width(s.value), x);
      LookLocals(b, s.v, s'.value, s.acc, env, Width(s.value), x);
      assert Look(b, x) == Look(a, x);
      if name == s.v.name && lane < Width(s.value) { EvalLaidOut(y, R, s.value, env, a, b, lane); }
    }
    forall c: nat, x: seq<int> | y.dom(c, x)
      ensures Look(b', Elem(c, y.place(c, x))) == Look(a', Elem(c, x))
    {
      LookLocals(a, s.v, s.value, s.acc, env, Width(s.value), Elem(c, x));
      LookLocals(b, s.v, s'.value, s.acc, env, Width(s.value), Elem(c, y.place(c, x)));
    }
  }

  lemma {:induction false} WithinIteration(y: Layout, L: Stmt, env: Env, st: State, k: nat)
    requires L.Loop? && WithinS(y, L, env, st) && k < Trip(L.end, L.stride)
    ensures WithinB(y, L.body, env.At(L.id, k * L.stride), Iter(Body(L.body, L.id, L.stride, env), k, st))
  {}

  lemma {:induction false} ExecLaidOutS(y: Layout, R: Rewriting, s: Stmt, env: Env, a: State, b: State)
    requires Sound(y, R) && LaidOut(y, a, b) && WithinS(y, s, env, a)
    ensures LaidOut(y, ExecS(s, env, a), ExecS(RewriteS(s, R), env, b))
    decreases s, 1
  {
    match s
    case Loop(id, end, stride, body) =>
      ExecLoop(id, end, stride, body, env, a);
      ExecLoop(id, end, stride, RewriteB(body, R), env, b);
      IterLaidOut(y, R, s, Trip(end, stride), env, a, b);
    case IfRange(v, _, _, body) =>
      EvalLaidOut(y, R, v, env, a, b, 0);
      if s.start <= AsInt(Eval(v, env, a, 0)) < s.stop { ExecLaidOut(y, R, body, env, a, b); }
    case Store(_, _, _, _) => StoreLaidOut(y, R, s, env, a, b);
    case StoreLocal(_, _, _) => StoreLocalLaidOut(y, R, s, env, a, b);
    case Call(_, ps) => SubsLaidOut(y, R, ps, env, a, b);
  }

  lemma {:induction false} IterLaidOut(y: Layout, R: Rewriting, L: Stmt, n: nat, env: Env, a: State, b: State)
    requires Sound(y, R) && LaidOut(y, a, b) && L.Loop? && n <= Trip(L.end, L.stride) && WithinS(y, L, env, a)
    ensures LaidOut(y, Iter(Body(L.body, L.id, L.stride, env), n, a),
      Iter(Body(RewriteB(L.body, R), L.id, L.stride, env), n, b))
    decreases L, 0, n
  {
    hide Sound, LaidOut, WithinS, WithinB, Exec, RewriteB;
    if n > 0 {
      var f, g := Body(L.body, L.id, L.stride, env), Body(RewriteB(L.body, R), L.id, L.stride, env);
      var e, a', b' := env.At(L.id, (n - 1) * L.stride), Iter(f, n - 1, a), Iter(g, n - 1, b);
      IterLaidOut(y, R, L, n - 1, env, a, b);
      WithinIteration(y, L, env, a, n - 1);
      ExecLaidOut(y, R, L.body, e, a', b');
      IterStep(L, n, env, a);
      IterStep(Loop(L.id, L.end, L.stride, RewriteB(L.body, R)), n, env, b);
    }
  }

  lemma {:induction false} IterStep(L: Stmt, n: nat, env: Env, st: State)
    requires L.Loop? && n > 0
    ensures var f := Body(L.body, L.id, L.stride, env);
      Iter(f, n, st) == Exec(L.body, env.At(L.id, (n - 1) * L.stride), Iter(f, n - 1, st))
  {}

  /** Running the rewritten program on the other layout gives the other layout of the result. */
  lemma {:induction false} ExecLaidOut(y: Layout, R: Rewriting, ss: seq<Stmt>, env: Env, a: State, b: State)
    requires Sound(y, R) && LaidOut(y, a, b) && WithinB(y, ss, env, a)
    ensures LaidOut(y, Exec(ss, env, a), Exec(RewriteB(ss, R), env, b))
    decreases ss, 2
  {
    if ss != [] {
      ExecLaidOutS(y, R, ss[0], env, a, b);
      ExecLaidOut(y, R, ss[1..], env, ExecS(ss[0], env, a), ExecS(RewriteS(ss[0], R), env, b));
      assert RewriteB(ss, R)[1..] == RewriteB(ss[1..], R);
    }
  }
}
