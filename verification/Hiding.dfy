/** Programs that do the same thing except for what they leave in some local variables. */
module Hiding {
  import opened IR
  import opened Families
  import opened Semantics
  import opened Context
  import opened Footprint
  import opened Fusion
  import opened Types

  /** b does what a does, wherever the locals of T start and end. */
  ghost predicate SameBut(T: set<string>, t: Table, a: seq<Stmt>, b: seq<Stmt>)
  {
    forall env: Env, st: State, st': State | ValidEnv(t, env) && GoodMachine(env.m) && Alike({}, T, st, st') ::
      Alike({}, T, Exec(a, env, st), Exec(b, env, st'))
  }

  lemma {:induction false} SameButSelf(T: set<string>, t: Table, a: seq<Stmt>)
    requires VarsRead(a) !! T
    ensures SameBut(T, t, a, a)
  {
    forall env: Env, st: State, st': State | ValidEnv(t, env) && GoodMachine(env.m) && Alike({}, T, st, st')
      ensures Alike({}, T, Exec(a, env, st), Exec(a, env, st'))
    {
      ExecAlike(a, {}, T, env, st, st');
    }
  }

  lemma {:induction false} SameButAppend(T: set<string>, t: Table, a: seq<Stmt>, b: seq<Stmt>, a': seq<Stmt>,
                                         b': seq<Stmt>)
    requires SameBut(T, t, a, a') && SameBut(T, t, b, b')
    ensures SameBut(T, t, a + b, a' + b')
  {
    forall env: Env, st: State, st': State | ValidEnv(t, env) && GoodMachine(env.m) && Alike({}, T, st, st')
      ensures Alike({}, T, Exec(a + b, env, st), Exec(a' + b', env, st'))
    {
      ExecAppend(a, b, env, st);
      ExecAppend(a', b', env, st');
    }
  }

  lemma {:induction false} SameButLoop(T: set<string>, t: Table, id: LoopId, end: nat, stride: nat, a: seq<Stmt>,
                                       b: seq<Stmt>)
    requires SameBut(T, t[id := Extent(end, stride)], a, b)
    ensures SameBut(T, t, [Loop(id, end, stride, a)], [Loop(id, end, stride, b)])
  {
    forall env: Env, st: State, st': State | ValidEnv(t, env) && GoodMachine(env.m) && Alike({}, T, st, st')
      ensures Alike({}, T, Exec([Loop(id, end, stride, a)], env, st), Exec([Loop(id, end, stride, b)], env, st'))
    {
      ExecOne(Loop(id, end, stride, a), env, st);
      ExecOne(Loop(id, end, stride, b), env, st');
      ExecLoop(id, end, stride, a, env, st);
      ExecLoop(id, end, stride, b, env, st');
      SameButIter(T, t, id, end, stride, a, b, env, st, st', Trip(end, stride));
    }
  }

  lemma {:induction false} SameButIter(T: set<string>, t: Table, id: LoopId, end: nat, stride: nat, a: seq<Stmt>,
                                       b: seq<Stmt>, env: Env, st: State, st': State, n: nat)
    requires SameBut(T, t[id := Extent(end, stride)], a, b) && n <= Trip(end, stride)
    requires ValidEnv(t, env) && GoodMachine(env.m) && Alike({}, T, st, st')
    ensures Alike({}, T, Iter(Body(a, id, stride, env), n, st), Iter(Body(b, id, stride, env), n, st'))
  {
    if n > 0 {
      SameButIter(T, t, id, end, stride, a, b, env, st, st', n - 1);
      ValidAt(t, env, id, end, stride, n - 1);
    }
  }

  lemma {:induction false} SameButIf(T: set<string>, t: Table, v: Expr, start: int, stop: int, a: seq<Stmt>,
                                     b: seq<Stmt>)
    requires SameBut(T, t, a, b) && VarsReadE(v) !! T
    ensures SameBut(T, t, [IfRange(v, start, stop, a)], [IfRange(v, start, stop, b)])
  {
    forall env: Env, st: State, st': State | ValidEnv(t, env) && GoodMachine(env.m) && Alike({}, T, st, st')
      ensures Alike({}, T, Exec([IfRange(v, start, stop, a)], env, st), Exec([IfRange(v, start, stop, b)], env, st'))
    {
      ExecOne(IfRange(v, start, stop, a), env, st);
      ExecOne(IfRange(v, start, stop, b), env, st');
      EvalAlike(v, {}, T, env, st, st', 0);
    }
  }

  /** b with the locals of T as they are in a. */
  function Blend(T: set<string>, a: State, b: State): State
  {
    State(map x | x in a.mem.Keys + b.mem.Keys && (if Hidden({}, T, x) then x in a.mem else x in b.mem) ::
            if Hidden({}, T, x) then a.mem[x] else b.mem[x], b.calls)
  }

  lemma {:induction false} BlendLook(T: set<string>, a: State, b: State, x: Loc)
    ensures Look(Blend(T, a, b), x) == if Hidden({}, T, x) then Look(a, x) else Look(b, x)
  {}

  lemma {:induction false} SameButTrans(T1: set<string>, T2: set<string>, t: Table, a: seq<Stmt>, b: seq<Stmt>,
                                        c: seq<Stmt>)
    requires SameBut(T1, t, a, b) && SameBut(T2, t, b, c)
    ensures SameBut(T1 + T2, t, a, c)
  {
    forall env: Env, st: State, st': State | ValidEnv(t, env) && GoodMachine(env.m) && Alike({}, T1 + T2, st, st')
      ensures Alike({}, T1 + T2, Exec(a, env, st), Exec(c, env, st'))
    {
      // Start b with the locals of T2 as a has them, and everything else as c has it.
      var mid := Blend(T2, st, st');
      forall x: Loc { BlendLook(T2, st, st', x); }
      forall x: Loc | !Hidden({}, T1, x) ensures Look(st, x) == Look(mid, x) {
        if !Hidden({}, T2, x) { assert !Hidden({}, T1 + T2, x); }
      }
      assert Alike({}, T1, st, mid);
      assert Alike({}, T2, mid, st');
      var ra, rb, rc := Exec(a, env, st), Exec(b, env, mid), Exec(c, env, st');
      assert Alike({}, T1, ra, rb) && Alike({}, T2, rb, rc);
      forall x: Loc | !Hidden({}, T1 + T2, x) ensures Look(ra, x) == Look(rc, x) {
        assert !Hidden({}, T1, x) && !Hidden({}, T2, x);
        assert Look(ra, x) == Look(rb, x);
      }
    }
  }

  lemma {:induction false} SameButMore(T: set<string>, T': set<string>, t: Table, a: seq<Stmt>, b: seq<Stmt>)
    requires SameBut(T, t, a, b) && T <= T' && VarsRead(b) !! T' - T
    ensures SameBut(T', t, a, b)
  {
    SameButSelf(T' - T, t, b);
    SameButTrans(T, T' - T, t, a, b, b);
    assert T + (T' - T) == T';
  }

  /** Programs that agree but for some locals leave the same buffers and make the same calls. */
  lemma {:induction false} SameBuffers(T: set<string>, t: Table, a: seq<Stmt>, b: seq<Stmt>, env: Env, st: State)
    requires SameBut(T, t, a, b) && ValidEnv(t, env) && GoodMachine(env.m)
    ensures Exec(a, env, st).calls == Exec(b, env, st).calls
    ensures forall arg: nat, idx: seq<int> ::
      Read(Exec(a, env, st), Elem(arg, idx)) == Read(Exec(b, env, st), Elem(arg, idx))
  {
    assert Alike({}, T, st, st);
    forall arg: nat, idx: seq<int>
      ensures Read(Exec(a, env, st), Elem(arg, idx)) == Read(Exec(b, env, st), Elem(arg, idx))
    {
      assert !Hidden({}, T, Elem(arg, idx));
      assert Look(Exec(a, env, st), Elem(arg, idx)) == Look(Exec(b, env, st), Elem(arg, idx));
    }
  }
}
