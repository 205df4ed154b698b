/** Where in a program a rewrite happens: enclosing scopes, the ranges of enclosing loops,
    and why replacing a block by an equivalent one preserves the whole program. */
module Context {
  import opened IR
  import opened Families
  import opened Semantics
  import opened Substitution

  // ---- Iteration arithmetic ---------------------------------------------------

  /** Distinct multiples of s are at least s apart. */
  lemma {:induction false} MulGap(a: int, b: int, s: int)
    requires s > 0
    ensures a < b ==> a * s + s <= b * s
    ensures a <= b ==> a * s <= b * s
  {
    if a < b {
      MulNonneg(b - a - 1, s);
      assert (b - a - 1) * s == b * s - a * s - s;
    }
  }

  lemma {:induction false} MulNonneg(a: int, b: int)
    requires a >= 0 && b >= 0
    ensures a * b >= 0
  {}

  lemma {:induction false} DivUnique(x: int, s: int, q: int, r: int)
    requires s > 0 && x == q * s + r && 0 <= r < s
    ensures x / s == q && x % s == r
  {
    var q', r' := x / s, x % s;
    assert x == s * q' + r';
    assert s * q' == q' * s;
    MulGap(q', q, s);
    MulGap(q, q', s);
  }

  lemma {:induction false} MulDiv(k: int, s: int)
    requires s > 0
    ensures (k * s) / s == k && (k * s) % s == 0
  {
    DivUnique(k * s, s, k, 0);
  }

  /** A loop of n strides runs its body n times. */
  lemma {:induction false} TripMul(n: nat, s: nat)
    requires s > 0
    ensures n * s >= 0 && Trip(n * s, s) == n
  {
    DivUnique(n * s + s - 1, s, n, s - 1);
  }

  lemma {:induction false} TripExact(end: nat, s: nat)
    requires s > 0 && end % s == 0
    ensures Trip(end, s) == end / s && end == (end / s) * s
  {
    var n := end / s;
    assert end == s * n;
    assert s * n == n * s;
    TripMul(n, s);
  }

  /** The indices of a loop are exactly the multiples of its stride below its end. */
  lemma {:induction false} TripRange(k: nat, end: nat, s: nat)
    requires s > 0
    ensures k < Trip(end, s) <==> k * s < end
  {
    var n := Trip(end, s);
    var r := (end + s - 1) % s;
    assert end + s - 1 == s * n + r;
    assert s * n == n * s;
    MulGap(k, n, s);
    MulGap(n, k, s);
  }

  // ---- Ranges of enclosing loops -----------------------------------------------

  datatype Extent = Extent(end: nat, stride: nat)

  type Table = map<LoopId, Extent>

  /** i is one of 0, stride, 2*stride, ... below end. */
  predicate InExtent(i: int, x: Extent)
  {
    0 <= i < x.end && x.stride > 0 && i % x.stride == 0
  }

  /** Every loop of the table has one of its own index values. */
  ghost predicate ValidEnv(t: Table, env: Env)
  {
    forall l | l in t :: InExtent(env.Get(l), t[l])
  }

  lemma {:induction false} ValidAt(t: Table, env: Env, id: LoopId, end: nat, stride: nat, k: nat)
    requires ValidEnv(t, env) && k < Trip(end, stride)
    ensures InExtent(k * stride, Extent(end, stride))
    ensures ValidEnv(t[id := Extent(end, stride)], env.At(id, k * stride))
  {
    TripRange(k, end, stride);
    MulDiv(k, stride);
  }

  /** a and b do the same thing wherever the loops of t have their index values. */
  ghost predicate SameIn(t: Table, a: seq<Stmt>, b: seq<Stmt>)
  {
    forall env: Env, st: State | ValidEnv(t, env) :: Exec(a, env, st) == Exec(b, env, st)
  }

  lemma {:induction false} SameAround(t: Table, pre: seq<Stmt>, a: seq<Stmt>, b: seq<Stmt>, post: seq<Stmt>)
    requires SameIn(t, a, b)
    ensures SameIn(t, pre + a + post, pre + b + post)
  {
    forall env: Env, st: State | ValidEnv(t, env)
      ensures Exec(pre + a + post, env, st) == Exec(pre + b + post, env, st)
    {
      ExecAppend(pre + a, post, env, st);
      ExecAppend(pre + b, post, env, st);
      ExecAppend(pre, a, env, st);
      ExecAppend(pre, b, env, st);
    }
  }

  lemma {:induction false} SameInLoop(t: Table, id: LoopId, end: nat, stride: nat, a: seq<Stmt>, b: seq<Stmt>)
    requires SameIn(t[id := Extent(end, stride)], a, b)
    ensures SameIn(t, [Loop(id, end, stride, a)], [Loop(id, end, stride, b)])
  {
    forall env: Env, st: State | ValidEnv(t, env)
      ensures Exec([Loop(id, end, stride, a)], env, st) == Exec([Loop(id, end, stride, b)], env, st)
    {
      ExecOne(Loop(id, end, stride, a), env, st);
      ExecOne(Loop(id, end, stride, b), env, st);
      ExecLoop(id, end, stride, a, env, st);
      ExecLoop(id, end, stride, b, env, st);
      forall k: nat, x: State | k < Trip(end, stride)
        ensures Body(a, id, stride, env)(k, x) == Body(b, id, stride, env)(k, x)
      {
        ValidAt(t, env, id, end, stride, k);
      }
      IterCong(Body(a, id, stride, env), Body(b, id, stride, env), Trip(end, stride), st);
    }
  }

  lemma {:induction false} SameInIf(t: Table, v: Expr, start: int, stop: int, a: seq<Stmt>, b: seq<Stmt>)
    requires SameIn(t, a, b)
    ensures SameIn(t, [IfRange(v, start, stop, a)], [IfRange(v, start, stop, b)])
  {
    forall env: Env, st: State | ValidEnv(t, env)
      ensures Exec([IfRange(v, start, stop, a)], env, st) == Exec([IfRange(v, start, stop, b)], env, st)
    {
      ExecOne(IfRange(v, start, stop, a), env, st);
      ExecOne(IfRange(v, start, stop, b), env, st);
    }
  }

  // ---- A position in a program ---------------------------------------------------

  /** An enclosing scope, with the statements before and after it in its own scope. */
  datatype Frame =
    | InLoop(before: seq<Stmt>, id: LoopId, end: nat, stride: nat, after: seq<Stmt>)
    | InIf(before: seq<Stmt>, val: Expr, start: int, stop: int, after: seq<Stmt>)

  function Wrap(f: Frame, body: seq<Stmt>): Stmt
  {
    match f
    case InLoop(_, id, end, stride, _) => Loop(id, end, stride, body)
    case InIf(_, v, start, stop, _) => IfRange(v, start, stop, body)
  }

  /** The whole program around a scope whose body is ss; the outermost frame comes first. */
  function Plug(fs: seq<Frame>, ss: seq<Stmt>): seq<Stmt>
  {
    if fs == [] then ss else fs[0].before + [Wrap(fs[0], Plug(fs[1..], ss))] + fs[0].after
  }

  /** The ranges known inside the frames. */
  function Inside(fs: seq<Frame>, t: Table): Table
  {
    if fs == [] then t
    else Inside(fs[1..], if fs[0].InLoop? then t[fs[0].id := Extent(fs[0].end, fs[0].stride)] else t)
  }

  /** Replacing the body of a scope by an equivalent one preserves the program around it. */
  lemma {:induction false} PlugSame(fs: seq<Frame>, t: Table, a: seq<Stmt>, b: seq<Stmt>)
    requires SameIn(Inside(fs, t), a, b)
    ensures SameIn(t, Plug(fs, a), Plug(fs, b))
  {
    if fs != [] {
      var t' := if fs[0].InLoop? then t[fs[0].id := Extent(fs[0].end, fs[0].stride)] else t;
      PlugSame(fs[1..], t', a, b);
      var a', b' := Plug(fs[1..], a), Plug(fs[1..], b);
      match fs[0] {
        case InLoop(_, id, end, stride, _) => SameInLoop(t, id, end, stride, a', b');
        case InIf(_, v, start, stop, _) => SameInIf(t, v, start, stop, a', b');
      }
      SameAround(t, fs[0].before, [Wrap(fs[0], a')], [Wrap(fs[0], b')], fs[0].after);
    }
  }

  /** Replacing well-formed statements by others that declare the same loops keeps the program
      around them well formed. */
  lemma {:induction false} PlugWf(fs: seq<Frame>, t: Table, a: seq<Stmt>, b: seq<Stmt>)
    requires WfB(Plug(fs, a), t.Keys) && BoundB(b) == BoundB(a)
    requires WfB(a, Inside(fs, t).Keys) ==> WfB(b, Inside(fs, t).Keys)
    ensures WfB(a, Inside(fs, t).Keys)
    ensures WfB(Plug(fs, b), t.Keys) && BoundB(Plug(fs, b)) == BoundB(Plug(fs, a))
  {
    if fs != [] {
      var f, a', b' := fs[0], Plug(fs[1..], a), Plug(fs[1..], b);
      var t' := if f.InLoop? then t[f.id := Extent(f.end, f.stride)] else t;
      assert f.InLoop? ==> t'.Keys == t.Keys + {f.id};
      AroundWf(f.before, [Wrap(f, a')], [Wrap(f, a')], f.after, t.Keys);
      Single(Wrap(f, a'));
      Single(Wrap(f, b'));
      PlugWf(fs[1..], t', a, b);
      AroundWf(f.before, [Wrap(f, a')], [Wrap(f, b')], f.after, t.Keys);
    }
  }

  lemma {:induction false} AroundWf(pre: seq<Stmt>, a: seq<Stmt>, b: seq<Stmt>, post: seq<Stmt>, scope: set<LoopId>)
    requires WfB(pre + a + post, scope)
    ensures WfB(a, scope)
    ensures BoundB(b) == BoundB(a) ==> BoundB(pre + b + post) == BoundB(pre + a + post)
    ensures BoundB(b) == BoundB(a) && WfB(b, scope) ==> WfB(pre + b + post, scope)
  {
    WfAppend(pre + a, post, scope);
    WfAppend(pre, a, scope);
    WfAppend(pre + b, post, scope);
    WfAppend(pre, b, scope);
    BoundAppend(pre + a, post);
    BoundAppend(pre, a);
    BoundAppend(pre + b, post);
    BoundAppend(pre, b);
  }
}
