/** One step of sinkStores: a store that does not move with the loop is kept in a local
    variable while the loop runs, and flushed once after it. */
module Sinking {
  import opened IR
  import opened Families
  import opened Semantics
  import opened Substitution
  import opened Context
  import opened Footprint
  import opened Fusion
  import opened Types
  import opened Hiding

  /** getZeroExpr. */
  function Zero(ty: ExprType): Expr
  {
    var z := if ty.IsIndexTy() then Const(0) else ConstFP(0.0);
    if ty.IsVector() then Broadcast(z, ty.width) else z
  }

  function Init(v: LocalVar): Stmt { StoreLocal(v, Zero(v.ty), false) }

  function Save(v: LocalVar, p: Stmt): Stmt
    requires p.Store?
  {
    StoreLocal(v, p.value, p.acc)
  }

  function Flush(v: LocalVar, p: Stmt): Stmt
    requires p.Store?
  {
    Store(p.arg, p.subs, LoadLocal(v), p.acc)
  }

  function SinkAt(L: Stmt, pos: nat, v: LocalVar): Stmt
    requires L.Loop? && pos < |L.body| && L.body[pos].Store?
  {
    Loop(L.id, L.end, L.stride, L.body[pos := Save(v, L.body[pos])])
  }

  /** The local can stand for what p stores: nothing else in the loop touches the buffer or
      the local, and p always stores to the same element. */
  predicate Sinkable(L: Stmt, pos: nat, v: LocalVar)
  {
    L.Loop? && AllStores(L.body) && pos < |L.body| && L.body[pos].Store? &&
    var p := L.body[pos];
    Typed(p.value) && TypeOf(p.value) == v.ty && (v.ty.elem == IndexTy || v.ty.elem == Float32Ty) &&
    !MentionsAny(p.subs, L.id) &&
    p.arg !in ArgsReadS(p) && v.name !in VarsReadS(p) &&
    ArgsReadAll(p.subs) !! ArgsWritten(L.body) && VarsReadAll(p.subs) !! VarsWritten(L.body) &&
    Apart(p.arg, v.name, L.body[..pos]) && Apart(p.arg, v.name, L.body[pos + 1..])
  }

  /** The block is made of stores that touch neither the buffer nor the local. */
  predicate Apart(arg: nat, name: string, ss: seq<Stmt>)
  {
    AllStores(ss) && Blind({arg}, {name}, ss) && arg !in ArgsWritten(ss) && name !in VarsWritten(ss)
  }

  function LocalAt(v: LocalVar, k: nat): Loc { Local(v.name, k) }

  function ZeroNum(elem: ElemKind): Num { if elem == IndexTy then I(0) else F(0.0) }

  /** Before the first iteration: the local is zero. */
  ghost predicate Started(v: LocalVar, a: State, b: State)
  {
    Alike({}, {v.name}, a, b) &&
    forall k: nat | k < v.ty.width :: Look(b, LocalAt(v, k)) == Some(ZeroNum(v.ty.elem))
  }

  /** a has at x what b has there once lane k of the local is flushed. */
  ghost predicate FlushedAt(p: Stmt, v: LocalVar, idx: seq<int>, m: Machine, a: State, b: State, x: Loc)
    requires p.Store?
  {
    var k := LastLane(p.arg, idx, v.ty.width, x);
    Look(a, x) == if k.None? then Look(b, x) else Some(NewValue(m, p.acc, Read(b, x), Read(b, LocalAt(v, k.value))))
  }

  ghost predicate Kinds(v: LocalVar, b: State)
  {
    forall k: nat | k < v.ty.width :: IsKind(Read(b, LocalAt(v, k)), v.ty.elem)
  }

  /** After the first iteration: a is b with the local flushed. */
  ghost predicate Pending(p: Stmt, v: LocalVar, idx: seq<int>, m: Machine, a: State, b: State)
    requires p.Store?
  {
    Alike({p.arg}, {v.name}, a, b) && Kinds(v, b) &&
    forall x: Loc | x.Elem? && x.arg == p.arg :: FlushedAt(p, v, idx, m, a, b, x)
  }

  // ---- The other stores of the body -------------------------------------------------------

  lemma {:induction false} ApartFrame(arg: nat, name: string, ss: seq<Stmt>, env: Env, st: State)
    requires Apart(arg, name, ss)
    ensures forall x: Loc | Hidden({arg}, {name}, x) :: Look(Exec(ss, env, st), x) == Look(st, x)
  {
    StoresFrame(ss, ArgsWritten(ss), VarsWritten(ss), env, st);
    forall x: Loc | Hidden({arg}, {name}, x)
      ensures Look(Exec(ss, env, st), x) == Look(st, x)
    {
      assert !Hidden(ArgsWritten(ss), VarsWritten(ss), x);
    }
  }

  lemma {:induction false} OthersStarted(v: LocalVar, arg: nat, ss: seq<Stmt>, env: Env, a: State, b: State)
    requires Started(v, a, b) && Apart(arg, v.name, ss)
    ensures Started(v, Exec(ss, env, a), Exec(ss, env, b))
  {
    ExecAlike(ss, {}, {v.name}, env, a, b);
    ApartFrame(arg, v.name, ss, env, b);
    forall k: nat | k < v.ty.width
      ensures Look(Exec(ss, env, b), LocalAt(v, k)) == Some(ZeroNum(v.ty.elem))
    {
      assert Hidden({arg}, {v.name}, LocalAt(v, k));
    }
  }

  lemma {:induction false} LookRead(a: State, b: State, x: Loc)
    requires Look(a, x) == Look(b, x)
    ensures Read(a, x) == Read(b, x)
  {}

  lemma {:induction false} OthersPending(p: Stmt, v: LocalVar, idx: seq<int>, m: Machine, ss: seq<Stmt>, env: Env,
                                         a: State, b: State)
    requires p.Store? && Pending(p, v, idx, m, a, b) && Apart(p.arg, v.name, ss)
    ensures Pending(p, v, idx, m, Exec(ss, env, a), Exec(ss, env, b))
  {
    var a', b' := Exec(ss, env, a), Exec(ss, env, b);
    ExecAlike(ss, {p.arg}, {v.name}, env, a, b);
    ApartFrame(p.arg, v.name, ss, env, a);
    ApartFrame(p.arg, v.name, ss, env, b);
    forall k: nat
      ensures Read(b', LocalAt(v, k)) == Read(b, LocalAt(v, k))
    {
      assert Hidden({p.arg}, {v.name}, LocalAt(v, k));
      LookRead(b', b, LocalAt(v, k));
    }
    forall x: Loc | x.Elem? && x.arg == p.arg
      ensures FlushedAt(p, v, idx, m, a', b', x)
    {
      assert Hidden({p.arg}, {v.name}, x);
      LookRead(b', b, x);
      assert FlushedAt(p, v, idx, m, a, b, x);
    }
  }

  // ---- The store itself -----------------------------------------------------------------------

  /** Adding to the sum and then to the element is adding twice to the element. */
  lemma {:induction false} AddTwice(m: Machine, acc: bool, old_: Num, s: Num, v: Num, elem: ElemKind)
    requires IsKind(s, elem) && IsKind(v, elem)
    ensures NewValue(m, acc, NewValue(m, acc, old_, s), v) == NewValue(m, acc, old_, NewValue(m, acc, s, v))
    ensures IsKind(NewValue(m, acc, s, v), elem)
  {}

  lemma {:induction false} AddFirst(m: Machine, acc: bool, old_: Num, v: Num, elem: ElemKind)
    requires IsKind(v, elem)
    ensures NewValue(m, acc, old_, v) == NewValue(m, acc, old_, NewValue(m, acc, ZeroNum(elem), v))
    ensures IsKind(NewValue(m, acc, ZeroNum(elem), v), elem)
  {}

  /** What the local holds after the store is redirected to it. */
  lemma {:induction false} SaveLook(p: Stmt, v: LocalVar, env: Env, b: State)
    requires p.Store? && TypeOf(p.value) == v.ty
    ensures var b' := ExecS(Save(v, p), env, b);
      b'.calls == b.calls &&
      (forall k: nat | k < v.ty.width ::
        Look(b', LocalAt(v, k)) == Some(NewValue(env.m, p.acc, Read(b, LocalAt(v, k)), Eval(p.value, env, b, k)))) &&
      (forall x: Loc | !Hidden({}, {v.name}, x) :: Look(b', x) == Look(b, x))
  {
    var b' := ExecS(Save(v, p), env, b);
    forall x: Loc
      ensures Look(b', x) ==
        if x.Local? && x.name == v.name && x.lane < v.ty.width
        then Some(NewValue(env.m, p.acc, Read(b, x), Eval(p.value, env, b, x.lane))) else Look(b, x)
    {
      LookLocals(b, v, p.value, p.acc, env, v.ty.width, x);
    }
  }

  /** What the store does to the element when it is not redirected. */
  lemma {:induction false} StoreLook(p: Stmt, w: nat, idx: seq<int>, env: Env, a: State, x: Loc)
    requires p.Store? && Width(p.value) == w && EvalSubs(p.subs, env, a) == idx
    ensures var k := LastLane(p.arg, idx, w, x);
      var a' := ExecS(p, env, a);
      a'.calls == a.calls &&
      Look(a', x) == if k.None? then Look(a, x)
        else Some(NewValue(env.m, p.acc, Read(a, x), Eval(p.value, env, a, k.value)))
    ensures var k := LastLane(p.arg, idx, w, x); k.Some? ==> k.value < w && x.Elem? && x.arg == p.arg
  {
    LookElems(a, p.arg, idx, p.value, p.acc, env, w, x);
  }

  /** p keeps to its buffer and its value sees neither the buffer nor the local. */
  predicate Separate(p: Stmt, v: LocalVar)
  {
    p.Store? && Typed(p.value) && TypeOf(p.value) == v.ty && p.arg !in ArgsReadE(p.value) &&
      v.name !in VarsReadE(p.value)
  }

  lemma {:induction false} FirstStep(p: Stmt, v: LocalVar, idx: seq<int>, env: Env, a: State, b: State)
    requires Separate(p, v) && GoodMachine(env.m) && Started(v, a, b) && EvalSubs(p.subs, env, a) == idx
    ensures Pending(p, v, idx, env.m, ExecS(p, env, a), ExecS(Save(v, p), env, b))
  {
    var a', b' := ExecS(p, env, a), ExecS(Save(v, p), env, b);
    SaveLook(p, v, env, b);
    forall k: nat | k < v.ty.width
      ensures Eval(p.value, env, a, k) == Eval(p.value, env, b, k) && IsKind(Eval(p.value, env, b, k), v.ty.elem)
      ensures Read(b', LocalAt(v, k)) == NewValue(env.m, p.acc, ZeroNum(v.ty.elem), Eval(p.value, env, b, k))
    {
      EvalAlike(p.value, {}, {v.name}, env, a, b, k);
      KindSound(p.value, env, b, k);
      assert Look(b, LocalAt(v, k)) == Some(ZeroNum(v.ty.elem));
      assert Read(b, LocalAt(v, k)) == ZeroNum(v.ty.elem);
    }
    forall k: nat | k < v.ty.width
      ensures IsKind(Read(b', LocalAt(v, k)), v.ty.elem)
    {
      AddFirst(env.m, p.acc, ZeroNum(v.ty.elem), Eval(p.value, env, b, k), v.ty.elem);
    }
    forall x: Loc | !Hidden({p.arg}, {v.name}, x)
      ensures Look(a', x) == Look(b', x)
    {
      StoreLook(p, v.ty.width, idx, env, a, x);
      assert !Hidden({}, {v.name}, x);
    }
    StoreLook(p, v.ty.width, idx, env, a, Local(v.name, 0));
    forall x: Loc | x.Elem? && x.arg == p.arg
      ensures FlushedAt(p, v, idx, env.m, a', b', x)
    {
      StoreLook(p, v.ty.width, idx, env, a, x);
      assert !Hidden({}, {v.name}, x);
      LookRead(a, b, x);
      LookRead(b', b, x);
      var k := LastLane(p.arg, idx, v.ty.width, x);
      if k.Some? {
        AddFirst(env.m, p.acc, Read(a, x), Eval(p.value, env, b, k.value), v.ty.elem);
      }
    }
  }

  lemma {:induction false} NextStep(p: Stmt, v: LocalVar, idx: seq<int>, env: Env, a: State, b: State)
    requires Separate(p, v) && GoodMachine(env.m) && Pending(p, v, idx, env.m, a, b) && EvalSubs(p.subs, env, a) == idx
    ensures Pending(p, v, idx, env.m, ExecS(p, env, a), ExecS(Save(v, p), env, b))
  {
    var a', b' := ExecS(p, env, a), ExecS(Save(v, p), env, b);
    SaveLook(p, v, env, b);
    forall k: nat | k < v.ty.width
      ensures Eval(p.value, env, a, k) == Eval(p.value, env, b, k) && IsKind(Eval(p.value, env, b, k), v.ty.elem)
      ensures Read(b', LocalAt(v, k)) == NewValue(env.m, p.acc, Read(b, LocalAt(v, k)), Eval(p.value, env, b, k))
    {
      EvalAlike(p.value, {p.arg}, {v.name}, env, a, b, k);
      KindSound(p.value, env, b, k);
      assert Look(b', LocalAt(v, k)).Some?;
    }
    forall k: nat | k < v.ty.width
      ensures IsKind(Read(b', LocalAt(v, k)), v.ty.elem)
    {
      AddTwice(env.m, p.acc, ZeroNum(v.ty.elem), Read(b, LocalAt(v, k)), Eval(p.value, env, b, k), v.ty.elem);
    }
    forall x: Loc | !Hidden({p.arg}, {v.name}, x)
      ensures Look(a', x) == Look(b', x)
    {
      StoreLook(p, v.ty.width, idx, env, a, x);
      assert !Hidden({}, {v.name}, x);
    }
    StoreLook(p, v.ty.width, idx, env, a, Local(v.name, 0));
    forall x: Loc | x.Elem? && x.arg == p.arg
      ensures FlushedAt(p, v, idx, env.m, a', b', x)
    {
      NextFlushed(p, v, idx, env, a, b, x);
    }
  }

  lemma {:induction false} NextFlushed(p: Stmt, v: LocalVar, idx: seq<int>, env: Env, a: State, b: State, x: Loc)
    requires Separate(p, v) && GoodMachine(env.m) && Pending(p, v, idx, env.m, a, b) && EvalSubs(p.subs, env, a) == idx
    requires x.Elem? && x.arg == p.arg
    ensures FlushedAt(p, v, idx, env.m, ExecS(p, env, a), ExecS(Save(v, p), env, b), x)
  {
    var b' := ExecS(Save(v, p), env, b);
    SaveLook(p, v, env, b);
    StoreLook(p, v.ty.width, idx, env, a, x);
    assert !Hidden({}, {v.name}, x);
    LookRead(b', b, x);
    assert FlushedAt(p, v, idx, env.m, a, b, x);
    var k := LastLane(p.arg, idx, v.ty.width, x);
    if k.Some? {
      EvalAlike(p.value, {p.arg}, {v.name}, env, a, b, k.value);
      KindSound(p.value, env, b, k.value);
      assert Look(b', LocalAt(v, k.value)).Some?;
      AddTwice(env.m, p.acc, Read(b, x), Read(b, LocalAt(v, k.value)), Eval(p.value, env, b, k.value), v.ty.elem);
    }
  }

  // ---- One iteration, all iterations ---------------------------------------------------------

  lemma {:induction false} SinkBody(L: Stmt, pos: nat, v: LocalVar)
    requires Sinkable(L, pos, v)
    ensures L.body == L.body[..pos] + ([L.body[pos]] + L.body[pos + 1..])
    ensures SinkAt(L, pos, v).body == L.body[..pos] + ([Save(v, L.body[pos])] + L.body[pos + 1..])
    ensures Separate(L.body[pos], v)
  {}

  lemma {:induction false} SinkWrites(L: Stmt, pos: nat)
    requires L.Loop? && pos < |L.body| && L.body[pos].Store?
    ensures ArgsWritten(L.body[..pos]) <= ArgsWritten(L.body) && VarsWritten(L.body[..pos]) <= VarsWritten(L.body)
    ensures L.body[pos].arg in ArgsWritten(L.body)
  {
    hide ArgsRead, VarsRead, ArgsWritten, VarsWritten, Typed, MentionsAny;
    var pre, p, post := L.body[..pos], L.body[pos], L.body[pos + 1..];
    assert L.body == pre + ([p] + post);
    UsesAppend(pre, [p] + post);
    UsesAppend([p], post);
    UsesOne(p);
  }

  lemma {:induction false} RunParts(pre: seq<Stmt>, s: Stmt, post: seq<Stmt>, env: Env, st: State)
    ensures Exec(pre + ([s] + post), env, st) == Exec(post, env, ExecS(s, env, Exec(pre, env, st)))
  {
    ExecAppend(pre, [s] + post, env, st);
    ExecAppend([s], post, env, Exec(pre, env, st));
    ExecOne(s, env, Exec(pre, env, st));
  }

  /** The subscripts of p have the same value throughout the loop. */
  lemma {:induction false} SubsStay(L: Stmt, pos: nat, v: LocalVar, n: nat, i: int, env: Env, st: State)
    requires Sinkable(L, pos, v)
    ensures var a := Iter(Body(L.body, L.id, L.stride, env), n, st);
      EvalSubs(L.body[pos].subs, env.At(L.id, i), Exec(L.body[..pos], env.At(L.id, i), a)) ==
      EvalSubs(L.body[pos].subs, env, st) == EvalSubs(L.body[pos].subs, env, a)
  {
    var p, e := L.body[pos], env.At(L.id, i);
    var W, T := ArgsWritten(L.body), VarsWritten(L.body);
    var a := Iter(Body(L.body, L.id, L.stride, env), n, st);
    var a' := Exec(L.body[..pos], e, a);
    SinkWrites(L, pos);
    StoreLoopFrame(L, n, W, T, env, st);
    StoresFrame(L.body[..pos], W, T, e, a);
    AlikeTrans(W, T, st, a, a');
    SubsAlike(p.subs, W, T, env, st, a');
    SubsAlike(p.subs, W, T, env, st, a);
    SubsAgree(p.subs, e, env, a');
  }

  lemma {:induction false} SinkFirst(L: Stmt, pos: nat, v: LocalVar, env: Env, a: State, b: State)
    requires Sinkable(L, pos, v) && GoodMachine(env.m) && Started(v, a, b)
    requires EvalSubs(L.body[pos].subs, env, Exec(L.body[..pos], env, a)) == EvalSubs(L.body[pos].subs, env, a)
    ensures Pending(L.body[pos], v, EvalSubs(L.body[pos].subs, env, a), env.m,
                    Exec(L.body, env, a), Exec(SinkAt(L, pos, v).body, env, b))
  {
    var p, pre, post := L.body[pos], L.body[..pos], L.body[pos + 1..];
    var idx := EvalSubs(p.subs, env, a);
    SinkBody(L, pos, v);
    RunParts(pre, p, post, env, a);
    RunParts(pre, Save(v, p), post, env, b);
    var a1, b1 := Exec(pre, env, a), Exec(pre, env, b);
    OthersStarted(v, p.arg, pre, env, a, b);
    FirstStep(p, v, idx, env, a1, b1);
    OthersPending(p, v, idx, env.m, post, env, ExecS(p, env, a1), ExecS(Save(v, p), env, b1));
  }

  lemma {:induction false} SinkNext(L: Stmt, pos: nat, v: LocalVar, idx: seq<int>, env: Env, a: State, b: State)
    requires Sinkable(L, pos, v) && GoodMachine(env.m) && Pending(L.body[pos], v, idx, env.m, a, b)
    requires EvalSubs(L.body[pos].subs, env, Exec(L.body[..pos], env, a)) == idx
    ensures Pending(L.body[pos], v, idx, env.m, Exec(L.body, env, a), Exec(SinkAt(L, pos, v).body, env, b))
  {
    var p, pre, post := L.body[pos], L.body[..pos], L.body[pos + 1..];
    SinkBody(L, pos, v);
    RunParts(pre, p, post, env, a);
    RunParts(pre, Save(v, p), post, env, b);
    var a1, b1 := Exec(pre, env, a), Exec(pre, env, b);
    OthersPending(p, v, idx, env.m, pre, env, a, b);
    NextStep(p, v, idx, env, a1, b1);
    OthersPending(p, v, idx, env.m, post, env, ExecS(p, env, a1), ExecS(Save(v, p), env, b1));
  }

  lemma {:induction false} SinkRun(L: Stmt, pos: nat, v: LocalVar, n: nat, env: Env, st: State, b: State)
    requires Sinkable(L, pos, v) && GoodMachine(env.m) && Started(v, st, b) && n > 0
    ensures Pending(L.body[pos], v, EvalSubs(L.body[pos].subs, env, st), env.m,
                    Iter(Body(L.body, L.id, L.stride, env), n, st),
                    Iter(Body(SinkAt(L, pos, v).body, L.id, L.stride, env), n, b))
  {
    var p := L.body[pos];
    var f, g := Body(L.body, L.id, L.stride, env), Body(SinkAt(L, pos, v).body, L.id, L.stride, env);
    var e := env.At(L.id, (n - 1) * L.stride);
    SubsStay(L, pos, v, n - 1, (n - 1) * L.stride, env, st);
    if n == 1 {
      assert Iter(f, 0, st) == st && Iter(g, 0, b) == b;
      SubsAgree(p.subs, e, env, st);
      SinkFirst(L, pos, v, e, st, b);
    } else {
      SinkRun(L, pos, v, n - 1, env, st, b);
      SinkNext(L, pos, v, EvalSubs(p.subs, env, st), e, Iter(f, n - 1, st), Iter(g, n - 1, b));
    }
  }

  lemma {:induction false} InitStarts(v: LocalVar, env: Env, st: State, st': State)
    requires Alike({}, {v.name}, st, st') && (v.ty.elem == IndexTy || v.ty.elem == Float32Ty)
    ensures Started(v, st, ExecS(Init(v), env, st'))
  {
    var b := ExecS(Init(v), env, st');
    assert Width(Zero(v.ty)) == v.ty.width;
    forall x: Loc
      ensures Look(b, x) == if x.Local? && x.name == v.name && x.lane < v.ty.width then Some(ZeroNum(v.ty.elem))
        else Look(st', x)
    {
      LookLocals(st', v, Zero(v.ty), false, env, v.ty.width, x);
      if x.Local? { ZeroValue(v.ty, env, st', x.lane); }
    }
  }

  lemma {:induction false} ZeroValue(ty: ExprType, env: Env, st: State, lane: nat)
    ensures Eval(Zero(ty), env, st, lane) == ZeroNum(ty.elem)
  {
    assert Eval(Const(0), env, st, lane) == I(0) == Eval(Const(0), env, st, 0);
    assert Eval(ConstFP(0.0), env, st, lane) == F(0.0) == Eval(ConstFP(0.0), env, st, 0);
  }

  /** Flushing makes the pending state real. */
  lemma {:induction false} FlushEnds(p: Stmt, v: LocalVar, env: Env, a: State, b: State)
    requires p.Store? && Pending(p, v, EvalSubs(p.subs, env, b), env.m, a, b)
    ensures Alike({}, {v.name}, a, ExecS(Flush(v, p), env, b))
  {
    var idx := EvalSubs(p.subs, env, b);
    var q, w := Flush(v, p), v.ty.width;
    var b' := ExecS(q, env, b);
    forall x: Loc | !Hidden({}, {v.name}, x)
      ensures Look(a, x) == Look(b', x)
    {
      StoreLook(q, w, idx, env, b, x);
      var k := LastLane(p.arg, idx, w, x);
      if k.Some? {
        assert FlushedAt(p, v, idx, env.m, a, b, x);
        assert IsKind(Read(b, LocalAt(v, k.value)), v.ty.elem);
        assert LaneOf(v.ty, k.value) == k.value;
        assert Eval(LoadLocal(v), env, b, k.value) == Read(b, LocalAt(v, k.value));
      } else if x.Elem? && x.arg == p.arg {
        assert FlushedAt(p, v, idx, env.m, a, b, x);
      } else {
        assert !Hidden({p.arg}, {v.name}, x);
      }
    }
    StoreLook(q, w, idx, env, b, Local(v.name, 0));
  }

  /** Zero-initialise, accumulate locally, flush once: the buffers end up the same. */
  lemma {:induction false} SinkOneSame(t: Table, L: Stmt, pos: nat, v: LocalVar)
    requires Sinkable(L, pos, v) && Trip(L.end, L.stride) > 0
    ensures SameBut({v.name}, t, [L], [Init(v)] + [SinkAt(L, pos, v)] + [Flush(v, L.body[pos])])
  {
    var p, L' := L.body[pos], SinkAt(L, pos, v);
    forall env: Env, st: State, st': State | ValidEnv(t, env) && GoodMachine(env.m) && Alike({}, {v.name}, st, st')
      ensures Alike({}, {v.name}, Exec([L], env, st), Exec([Init(v)] + [L'] + [Flush(v, p)], env, st'))
    {
      SinkOneRun(L, pos, v, env, st, st');
      ExecOne(L, env, st);
      var b := ExecS(Init(v), env, st');
      ExecAppend([Init(v)] + [L'], [Flush(v, p)], env, st');
      ExecAppend([Init(v)], [L'], env, st');
      ExecOne(Init(v), env, st');
      ExecOne(L', env, b);
      ExecOne(Flush(v, p), env, ExecS(L', env, b));
    }
  }

  lemma {:induction false} SinkOneRun(L: Stmt, pos: nat, v: LocalVar, env: Env, st: State, st': State)
    requires Sinkable(L, pos, v) && Trip(L.end, L.stride) > 0 && GoodMachine(env.m) && Alike({}, {v.name}, st, st')
    ensures Alike({}, {v.name}, ExecS(L, env, st),
                  ExecS(Flush(v, L.body[pos]), env, ExecS(SinkAt(L, pos, v), env, ExecS(Init(v), env, st'))))
  {
    var p, L', n := L.body[pos], SinkAt(L, pos, v), Trip(L.end, L.stride);
    InitStarts(v, env, st, st');
    var b := ExecS(Init(v), env, st');
    SinkRun(L, pos, v, n, env, st, b);
    ExecLoop(L.id, L.end, L.stride, L.body, env, st);
    ExecLoop(L.id, L.end, L.stride, L'.body, env, b);
    var an, bn := ExecS(L, env, st), ExecS(L', env, b);
    assert an == Iter(Body(L.body, L.id, L.stride, env), n, st);
    assert bn == Iter(Body(L'.body, L.id, L.stride, env), n, b);
    SubsStay(L, pos, v, n, 0, env, st);
    SinkWrites(L, pos);
    SubsAlike(p.subs, {p.arg}, {v.name}, env, an, bn);
    FlushEnds(p, v, env, an, bn);
  }
}
