/** Ifs inside a loop that widen or vectorize groups: when no store changes the answer of a guard,
    and exactly when one that does is harmless. */
module KeptGuards {
  import opened IR
  import opened Families
  import opened Semantics
  import opened Substitution
  import opened Context
  import opened Peeling
  import opened Footprint
  import opened Types
  import opened Decided
  import opened Instances
  import opened Widening
  import opened Vectorizing

  // ---- Guards that read nothing the loop writes --------------------------------------------

  /** The buffers that guards read. */
  function GuardsRead(ss: seq<Stmt>): set<nat>
  {
    if ss == [] then {}
    else
      (match ss[0]
       case Loop(_, _, _, body) => GuardsRead(body)
       case IfRange(v, _, _, body) => ArgsReadE(v) + GuardsRead(body)
       case _ => {})
      + GuardsRead(ss[1..])
  }

  lemma {:induction false} InstanceWrites(p: Stmt, pe: Env, ss: seq<Stmt>, env: Env, l: LoopId, g: State)
    requires StoresMention(ss, l) && IsInstance(p, pe, ss, env, g)
    ensures p.Store? && p.arg in ArgsWritten(ss)
    decreases ss
  {
    if IsInstance(p, pe, ss[1..], env, g) {
      InstanceWrites(p, pe, ss[1..], env, l, g);
    } else {
      match ss[0] {
        case Loop(id, end, stride, body) =>
          var k: nat :| k < Trip(end, stride) && IsInstance(p, pe, body, env.At(id, k * stride), g);
          InstanceWrites(p, pe, body, env.At(id, k * stride), l, g);
        case IfRange(_, _, _, body) => InstanceWrites(p, pe, body, env, l, g);
        case Store(_, _, _, _) =>
      }
    }
  }

  /** A state that differs only in buffers no guard reads gives the guards the same answers. */
  lemma {:induction false} GuardsAlike(ss: seq<Stmt>, W: set<nat>, env: Env, g: State, x: State, y: State)
    requires GuardsRead(ss) !! W && Alike(W, {}, x, y) && SameGuards(ss, env, g, x)
    ensures SameGuards(ss, env, g, y)
    decreases ss
  {
    hide Alike;
    if ss != [] {
      GuardsAlike(ss[1..], W, env, g, x, y);
      match ss[0] {
        case Loop(id, end, stride, body) =>
          forall k: nat | k < Trip(end, stride) ensures SameGuards(body, env.At(id, k * stride), g, y) {
            GuardsAlike(body, W, env.At(id, k * stride), g, x, y);
          }
        case IfRange(v, start, stop, body) =>
          EvalAlike(v, W, {}, env, x, y, 0);
          if Holds(v, start, stop, env, g) { GuardsAlike(body, W, env, g, x, y); }
        case _ =>
      }
    }
  }

  /** Guards over indices, locals and buffers that the loop does not write are kept. */
  lemma {:induction false} SteadyKept(t: Table, L: Stmt)
    requires L.Loop? && StoresMention(L.body, L.id) && GuardsRead(L.body) !! ArgsWritten(L.body)
    ensures GuardsKept(t, L)
  {
    var ss, W := L.body, ArgsWritten(L.body);
    forall env: Env, g: State, p: Stmt, pe: Env, x: State | IsInstance(p, pe, ss, env, g) && SameGuards(ss, env, g, x)
      ensures SameGuards(ss, env, g, ExecS(p, pe, x))
    {
      InstanceWrites(p, pe, ss, env, L.id, g);
      UsesOne(p);
      StoresFrame([p], W, {}, pe, x);
      ExecOne(p, pe, x);
      GuardsAlike(ss, W, env, g, x, ExecS(p, pe, x));
    }
  }

  // ---- A guard that the loop itself can shut --------------------------------------------------

  /** A loop over if (B[at] in start..stop) { A[i] = value }, where A and B may be one buffer. */
  datatype Filling = Filling(l: LoopId, end: nat, stride: nat, guardArg: nat, at: int, start: int, stop: int, arg: nat,
                             value: int)
  {
    function Guard(): Expr { Load(guardArg, [Const(at)], ExprType(IndexTy, 1)) }

    function Fill(): Stmt { Store(arg, [Idx(l)], Const(value), false) }

    function If(): Stmt { IfRange(Guard(), start, stop, [Fill()]) }

    function L(): Stmt { Loop(l, end, stride, [If()]) }

    /** The element that the guard reads. */
    function Watched(): Loc { Elem(guardArg, [at]) }

    /** The guard holds. */
    predicate Open(st: State) { start <= AsInt(Coerce(IndexTy, Read(st, Watched()))) < stop }

    /** The loop writes the element that the guard reads, shuts the guard with it, and does so before
        the last iteration of a group. */
    predicate ShutsInGroup(count: nat)
      requires stride > 0 && count > 0
    {
      guardArg == arg && start < stop && !(start <= value < stop) &&
      0 <= at < Cut(end, stride * count) && at % stride == 0 && (at / stride) % count != count - 1
    }

    ghost function FillRun(base: int, step: nat, env: Env, n: nat, st: State): State
    {
      Iter(Nth([Fill()], l, base, step, env), n, st)
    }

    ghost function GuardedRun(base: int, step: nat, env: Env, n: nat, st: State): State
    {
      Iter(Nth([If()], l, base, step, env), n, st)
    }
  }

  lemma {:induction false} FillOnce(f: Filling, env: Env, i: int, st: State)
    ensures Exec([f.Fill()], env.At(f.l, i), st) == st.(mem := st.mem[Elem(f.arg, [i]) := I(f.value)])
  {
    var p, e := f.Fill(), env.At(f.l, i);
    ExecOne(p, e, st);
    StoreOne(p, e, st);
    assert EvalSubs(p.subs, e, st) == [i];
  }

  lemma {:induction false} GuardReads(f: Filling, env: Env, st: State)
    ensures Holds(f.Guard(), f.start, f.stop, env, st) <==> f.Open(st)
  {
    EvalLoad(f.Guard(), env, st, 0);
    assert EvalSubs(f.Guard().subs, env, st) == [f.at];
    BumpNone([f.at]);
  }

  lemma {:induction false} IfOnce(f: Filling, env: Env, st: State)
    ensures Exec([f.If()], env, st) == if f.Open(st) then Exec([f.Fill()], env, st) else st
  {
    ExecOne(f.If(), env, st);
    GuardReads(f, env, st);
  }

  /** Element z is one of the first n that are filled. */
  predicate Filled(f: Filling, base: int, step: nat, n: nat, z: Loc)
  {
    n > 0 && (z == Elem(f.arg, [base + (n - 1) * step]) || Filled(f, base, step, n - 1, z))
  }

  lemma {:induction false} FillLook(f: Filling, base: int, step: nat, env: Env, n: nat, st: State, z: Loc)
    ensures Look(f.FillRun(base, step, env, n, st), z) ==
      if Filled(f, base, step, n, z) then Some(I(f.value)) else Look(st, z)
  {
    if n > 0 {
      FillLook(f, base, step, env, n - 1, st, z);
      FillOnce(f, env, base + (n - 1) * step, f.FillRun(base, step, env, n - 1, st));
    }
  }

  lemma {:induction false} FilledAt(f: Filling, base: int, step: nat, n: nat, i: int) returns (j: nat)
    requires Filled(f, base, step, n, Elem(f.arg, [i]))
    ensures j < n && i == base + j * step
  {
    if Elem(f.arg, [i]) == Elem(f.arg, [base + (n - 1) * step]) {
      assert [i][0] == [base + (n - 1) * step][0];
      j := n - 1;
    } else {
      j := FilledAt(f, base, step, n - 1, i);
    }
  }

  lemma {:induction false} FilledThere(f: Filling, base: int, step: nat, n: nat, j: nat)
    requires j < n
    ensures Filled(f, base, step, n, Elem(f.arg, [base + j * step]))
  {
    if j < n - 1 { FilledThere(f, base, step, n - 1, j); }
  }

  /** While the guard stays open every iteration fills. */
  lemma {:induction false} OpenRun(f: Filling, base: int, step: nat, env: Env, n: nat, st: State)
    requires forall j: nat | j < n :: f.Open(f.FillRun(base, step, env, j, st))
    ensures f.GuardedRun(base, step, env, n, st) == f.FillRun(base, step, env, n, st)
  {
    if n > 0 {
      OpenRun(f, base, step, env, n - 1, st);
      IfOnce(f, env.At(f.l, base + (n - 1) * step), f.FillRun(base, step, env, n - 1, st));
    }
  }

  lemma {:induction false} ShutRun(f: Filling, base: int, step: nat, env: Env, n: nat, st: State)
    requires !f.Open(st)
    ensures f.GuardedRun(base, step, env, n, st) == st
  {
    if n > 0 {
      ShutRun(f, base, step, env, n - 1, st);
      IfOnce(f, env.At(f.l, base + (n - 1) * step), st);
    }
  }

  /** The ways widen and vectorize group the iterations of this loop. */
  predicate Grouping(f: Filling, mode: Mode)
  {
    f.stride > 0 && mode.count > 1 && mode.Step() == f.stride
  }

  lemma {:induction false} FillImage(f: Filling, mode: Mode, pe: Env)
    requires Grouping(f, mode)
    ensures ImageOk(f.Fill(), pe, f.l, mode)
  {
    var p := f.Fill();
    forall st: State
      ensures Exec(Image(p, f.l, mode), pe, st) == Iter(Nth([p], f.l, pe.Get(f.l), mode.Step(), pe), mode.count, st)
    {
      if mode.Duplicate? {
        CopiesRun(p, f.l, mode.stride, mode.count, pe, st);
      } else {
        FillApart(f, mode.count, pe);
        VectorRun(p, f.l, mode.count, pe, st);
      }
    }
  }

  lemma {:induction false} FillStorable(f: Filling)
    ensures VecStorable(f.Fill(), f.l) && MentionsS(f.Fill(), f.l)
  {
    assert f.Fill().subs == [Idx(f.l)];
    assert Idx(f.l) in f.Fill().subs;
  }

  lemma {:induction false} ApartFills(f: Filling, env: Env, i: int, env2: Env, j: int)
    requires i != j
    ensures Apart(f.Fill(), env.At(f.l, i), f.Fill(), env2.At(f.l, j))
  {
    forall a: State, b: State
      ensures WriteLoc(f.Fill(), env.At(f.l, i), a) != WriteLoc(f.Fill(), env2.At(f.l, j), b)
    {
      assert EvalSubs(f.Fill().subs, env.At(f.l, i), a) == [i];
      assert EvalSubs(f.Fill().subs, env2.At(f.l, j), b) == [j];
      assert [i][0] != [j][0];
    }
  }

  lemma {:induction false} FillApart(f: Filling, count: nat, pe: Env)
    ensures VecStorable(f.Fill(), f.l) && LanesApart(f.Fill(), f.l, count, pe)
  {
    FillStorable(f);
    forall i: nat, j: nat | i < count && j < count && i != j
      ensures Apart(f.Fill(), LaneEnv(pe, f.l, i), f.Fill(), LaneEnv(pe, f.l, j))
    {
      ApartFills(f, pe, pe.Get(f.l) + i, pe, pe.Get(f.l) + j);
    }
  }

  lemma {:induction false} ImageRun(f: Filling, mode: Mode, base: int, env: Env, st: State)
    requires Grouping(f, mode)
    ensures Exec(Image(f.Fill(), f.l, mode), env.At(f.l, base), st) == f.FillRun(base, f.stride, env, mode.count, st)
  {
    hide Exec, Run, Image;
    var p := f.Fill();
    FillImage(f, mode, env.At(f.l, base));
    StoreGroup(p, f.l, base, mode, env, st, st);
    forall k: nat, x: State
      ensures NthIn([p], f.l, base, f.stride, env, st)(k, x) == Nth([p], f.l, base, f.stride, env)(k, x)
    {
      RunLeaves([p], env.At(f.l, base + k * f.stride), st, x);
    }
    IterCong(NthIn([p], f.l, base, f.stride, env, st), Nth([p], f.l, base, f.stride, env), mode.count, st);
  }

  /** The mapped body asks the guard once, and then fills the whole group. */
  lemma {:induction false} MappedRun(f: Filling, mode: Mode, base: int, env: Env, st: State)
    requires Grouping(f, mode)
    ensures Exec(MapStores(f.L().body, f.l, mode), env.At(f.l, base), st) ==
      if f.Open(st) then f.FillRun(base, f.stride, env, mode.count, st) else st
  {
    hide Exec, Iter, Image, Filling.FillRun, Filling.Open, Holds;
    var p, e0 := f.Fill(), env.At(f.l, base);
    var I' := IfRange(f.Guard(), f.start, f.stop, Image(p, f.l, mode));
    FillStorable(f);
    assert [p][1..] == [] && [f.If()][1..] == [] && MapStores([], f.l, mode) == [];
    assert MapStores([p], f.l, mode) == Image(p, f.l, mode) + [] == Image(p, f.l, mode);
    assert MapStores([f.If()], f.l, mode) == [I'];
    ExecOne(I', e0, st);
    GuardReads(f, e0, st);
    ImageRun(f, mode, base, env, st);
    IfIs(I', e0, st);
  }

  lemma {:induction false} IfIs(s: Stmt, env: Env, st: State)
    requires s.IfRange?
    ensures ExecS(s, env, st) == if Holds(s.val, s.start, s.stop, env, st) then Exec(s.body, env, st) else st
  {}

  // ---- It is harmless when the guard is not shut inside a group ---------------------------------

  lemma {:induction false} StaysOpen(f: Filling, count: nat, env: Env, k: nat, j: nat, st: State)
    requires f.stride > 0 && count > 1 && !f.ShutsInGroup(count) && f.Open(st) && j < count
    requires k < Trip(Cut(f.end, f.stride * count), f.stride * count)
    ensures f.Open(f.FillRun(k * (f.stride * count), f.stride, env, j, st))
  {
    hide Filling.FillRun;
    var base := k * (f.stride * count);
    FillLook(f, base, f.stride, env, j, st, f.Watched());
    if Filled(f, base, f.stride, j, f.Watched()) && !(f.start <= f.value < f.stop) {
      FilledArg(f, base, f.stride, j, f.Watched());
      var m := FilledAt(f, base, f.stride, j, f.at);
      PlaceInGroup(f.end, f.stride, count, k, m);
      assert false;
    }
  }

  lemma {:induction false} FilledArg(f: Filling, base: int, step: nat, n: nat, z: Loc)
    requires Filled(f, base, step, n, z)
    ensures z.Elem? && z.arg == f.arg
  {
    if z != Elem(f.arg, [base + (n - 1) * step]) { FilledArg(f, base, step, n - 1, z); }
  }

  /** Place m of group k, for the value that the index has there. */
  lemma {:induction false} PlaceInGroup(end: nat, s: nat, c: nat, k: nat, m: nat)
    requires s > 0 && c > 0 && s * c > 0 && k < Trip(Cut(end, s * c), s * c) && m < c
    ensures var v := k * (s * c) + m * s;
      0 <= v < Cut(end, s * c) && v % s == 0 && v / s == k * c + m && (v / s) % c == m && (v / s) / c == k
  {
    hide Cut, Trip;
    CutWhole(end, s * c);
    var cut, v := Cut(end, s * c), k * (s * c) + m * s;
    GroupIndex(cut, cut, s, c, k, m);
    assert v == (k * c + m) * s;
    MulDiv(k * c + m, s);
    TripRange(k * c + m, cut, s);
    DivMod(k, c, m);
  }

  lemma {:induction false} CutWhole(end: nat, g: nat)
    requires g > 0
    ensures Cut(end, g) <= end && Cut(end, g) % g == 0
  {
    if end >= g { CutMultiple(end, g); }
  }

  lemma {:induction false} DivMod(k: nat, c: nat, m: nat)
    requires m < c
    ensures (k * c + m) / c == k && (k * c + m) % c == m
  {
    DivUnique(k * c + m, c, k, m);
  }

  lemma {:induction false} HarmlessGroups(f: Filling, mode: Mode)
    requires Grouping(f, mode) && !f.ShutsInGroup(mode.count)
    ensures GroupsRun(map[], f.L(), Cut(f.end, f.stride * mode.count), mode)
  {
    hide MapStores, Exec, Iter, Nth;
    var g := f.stride * mode.count;
    forall env: Env, k: nat, st: State | ValidEnv(map[], env) && k < Trip(Cut(f.end, g), g)
      ensures Exec(MapStores(f.L().body, f.l, mode), env.At(f.l, k * g), st) ==
              Iter(Nth(f.L().body, f.l, k * g, f.stride, env), mode.count, st)
    {
      MappedRun(f, mode, k * g, env, st);
      if f.Open(st) {
        forall j: nat | j < mode.count ensures f.Open(f.FillRun(k * g, f.stride, env, j, st)) {
          StaysOpen(f, mode.count, env, k, j, st);
        }
        OpenRun(f, k * g, f.stride, env, mode.count, st);
      } else {
        ShutRun(f, k * g, f.stride, env, mode.count, st);
      }
    }
  }

  // ---- Otherwise the iteration after it shows ---------------------------------------------------

  /** The guard is shut by iteration u. */
  predicate ShutBy(f: Filling, u: nat)
  {
    f.guardArg == f.arg && f.start < f.stop && !(f.start <= f.value < f.stop) && f.stride > 0 && f.at == u * f.stride
  }

  /** Where the guard is open and nothing else is known. */
  function OpenState(f: Filling): State { State(map[f.Watched() := I(f.start)], []) }

  /** The element of the iteration after it. */
  function NextElem(f: Filling, u: nat): Loc { Elem(f.arg, [(u + 1) * f.stride]) }

  lemma {:induction false} ElemIs(arg: nat, i: int, j: int)
    ensures Elem(arg, [i]) == Elem(arg, [j]) <==> i == j
  {
    if i != j { assert [i][0] != [j][0]; }
  }

  lemma {:induction false} TimesIs(a: int, b: int, s: int)
    requires s > 0
    ensures a * s == b * s <==> a == b
  {
    MulGap(a, b, s);
    MulGap(b, a, s);
  }

  /** The loop never gets to that element. */
  lemma {:induction false} ScalarMisses(f: Filling, u: nat, env: Env, n: nat)
    requires ShutBy(f, u)
    ensures var r := Iter(Body(f.L().body, f.l, f.stride, env), n, OpenState(f));
      Look(r, NextElem(f, u)) == None && Look(r, f.Watched()) == Some(I(if n > u then f.value else f.start))
  {
    ElemIs(f.arg, (u + 1) * f.stride, f.at);
    TimesIs(u + 1, u, f.stride);
    if n > 0 {
      var i := (n - 1) * f.stride;
      ScalarMisses(f, u, env, n - 1);
      var r := Iter(Body(f.L().body, f.l, f.stride, env), n - 1, OpenState(f));
      IfOnce(f, env.At(f.l, i), r);
      FillOnce(f, env, i, r);
      ElemIs(f.arg, i, f.at);
      TimesIs(n - 1, u, f.stride);
      ElemIs(f.arg, i, (u + 1) * f.stride);
      TimesIs(n - 1, u + 1, f.stride);
    }
  }

  /** The grouped loop does. */
  lemma {:induction false} GroupedHits(f: Filling, mode: Mode, u: nat, env: Env, k: nat)
    requires ShutBy(f, u) && Grouping(f, mode) && u % mode.count != mode.count - 1
    ensures var g := f.stride * mode.count;
      var r := Iter(Body(MapStores(f.L().body, f.l, mode), f.l, g, env), k, OpenState(f));
      if k > u / mode.count then Look(r, NextElem(f, u)).Some? else Look(r, f.Watched()) == Some(I(f.start))
  {
    hide MapStores, Filling.FillRun, Exec, Filled;
    if k > 0 {
      var g, c := f.stride * mode.count, mode.count;
      GroupedHits(f, mode, u, env, k - 1);
      var r := Iter(Body(MapStores(f.L().body, f.l, mode), f.l, g, env), k - 1, OpenState(f));
      MappedRun(f, mode, (k - 1) * g, env, r);
      FillLook(f, (k - 1) * g, f.stride, env, c, r, f.Watched());
      FillLook(f, (k - 1) * g, f.stride, env, c, r, NextElem(f, u));
      if k - 1 < u / c {
        NotInGroup(f, c, u, k - 1);
      } else if k - 1 == u / c {
        NextInGroup(f, c, u, k - 1);
      }
    }
  }

  lemma {:induction false} NotInGroup(f: Filling, c: nat, u: nat, k: nat)
    requires ShutBy(f, u) && c > 0 && k < u / c
    ensures !Filled(f, k * (f.stride * c), f.stride, c, f.Watched())
  {
    if Filled(f, k * (f.stride * c), f.stride, c, f.Watched()) {
      var j := FilledAt(f, k * (f.stride * c), f.stride, c, f.at);
      BlockIndex(k, f.stride, c, j);
      TimesIs(k * c + j, u, f.stride);
      DivMod(k, c, j);
      assert false;
    }
  }

  lemma {:induction false} NextInGroup(f: Filling, c: nat, u: nat, k: nat)
    requires ShutBy(f, u) && c > 1 && k == u / c && u % c != c - 1
    ensures Filled(f, k * (f.stride * c), f.stride, c, NextElem(f, u))
  {
    var j := u % c + 1;
    assert u == c * k + u % c;
    assert c * k == k * c;
    BlockIndex(k, f.stride, c, j);
    FilledThere(f, k * (f.stride * c), f.stride, c, j);
  }

  /** Memory never forgets a location. */
  lemma {:induction false} StillThere(ss: seq<Stmt>, env: Env, st: State, x: Loc)
    requires Look(st, x).Some?
    ensures Look(Exec(ss, env, st), x).Some?
    decreases ss, 1, 0
  {
    if ss != [] {
      StillThereS(ss[0], env, st, x);
      StillThere(ss[1..], env, ExecS(ss[0], env, st), x);
    }
  }

  lemma {:induction false} StillThereS(s: Stmt, env: Env, st: State, x: Loc)
    requires Look(st, x).Some?
    ensures Look(ExecS(s, env, st), x).Some?
    decreases s, 2, 0
  {
    match s
    case Loop(id, end, stride, body) =>
      ExecLoop(id, end, stride, body, env, st);
      StillThereIter(s, env, Trip(end, stride), st, x);
    case IfRange(_, _, _, body) => StillThere(body, env, st, x);
    case Store(arg, subs, value, acc) => LookElems(st, arg, EvalSubs(subs, env, st), value, acc, env, Width(value), x);
    case StoreLocal(v, value, acc) => LookLocals(st, v, value, acc, env, Width(value), x);
    case Call(_, _) =>
  }

  lemma {:induction false} StillThereIter(s: Stmt, env: Env, n: nat, st: State, x: Loc)
    requires s.Loop? && Look(st, x).Some?
    ensures Look(Iter(Body(s.body, s.id, s.stride, env), n, st), x).Some?
    decreases s, 1, n
  {
    if n > 0 {
      StillThereIter(s, env, n - 1, st, x);
      StillThere(s.body, env.At(s.id, (n - 1) * s.stride), Iter(Body(s.body, s.id, s.stride, env), n - 1, st), x);
    }
  }

  lemma {:induction false} ShutPlace(f: Filling, count: nat) returns (u: nat)
    requires f.stride > 0 && count > 1 && f.stride * count > 0 && f.ShutsInGroup(count)
    ensures ShutBy(f, u) && u % count != count - 1
    ensures var g := f.stride * count; u / count < Trip(Cut(f.end, g), g)
  {
    var g := f.stride * count;
    u := f.at / f.stride;
    assert f.at == f.stride * u + f.at % f.stride;
    assert f.stride * u == u * f.stride;
    var q := u / count;
    assert u == count * q + u % count;
    BlockIndex(q, f.stride, count, u % count);
    assert count * q == q * count;
    MulNonneg(u % count, f.stride);
    TripRange(q, Cut(f.end, g), g);
  }

  lemma {:induction false} ShutShows(f: Filling, mode: Mode, next: LoopId)
    requires Grouping(f, mode) && f.stride * mode.count > 0 && f.ShutsInGroup(mode.count)
    ensures !SameIn(map[], [f.L()], GroupedLoops(f.L(), mode, next))
  {
    hide MapStores, Exec, Iter, Filling.ShutsInGroup, ShutBy, Trip;
    var L, g := f.L(), f.stride * mode.count;
    var cut := Cut(L.end, g);
    var G := Grouped(L, cut, mode);
    var u := ShutPlace(f, mode.count);
    var env, st := Env(EmptyMachine(), map[]), OpenState(f);
    ExecOne(L, env, st);
    ExecLoop(f.l, f.end, f.stride, L.body, env, st);
    ScalarMisses(f, u, env, Trip(f.end, f.stride));
    ExecOne(G, env, st);
    ExecLoop(f.l, cut, g, G.body, env, st);
    GroupedHits(f, mode, u, env, Trip(cut, g));
    if L.end % g != 0 {
      var T := PeeledTail(L, cut, next);
      assert [G, T] == [G] + [T];
      ExecAppend([G], [T], env, st);
      StillThere([T], env, Exec([G], env, st), NextElem(f, u));
    }
    assert Exec([L], env, st) != Exec(GroupedLoops(L, mode, next), env, st);
  }

  /** Widening and vectorizing a loop over one guarded store is right exactly when the loop does not
      shut the guard inside a group. */
  lemma {:induction false} GuardedStoreExactly(f: Filling, mode: Mode, next: LoopId, scope: set<LoopId>)
    requires WfS(f.L(), scope) && Below(scope, next) && Below(Bound(f.L()), next)
    requires Grouping(f, mode) && f.stride * mode.count > 0 && f.end >= f.stride * mode.count
    ensures SameIn(map[], [f.L()], GroupedLoops(f.L(), mode, next)) <==> !f.ShutsInGroup(mode.count)
  {
    hide WfS, SameIn, GroupedLoops, GroupsRun, Filling.ShutsInGroup;
    if f.ShutsInGroup(mode.count) {
      ShutShows(f, mode, next);
    } else {
      HarmlessGroups(f, mode);
      GroupedLoopsPreserve(map[], f.L(), mode, next, scope);
    }
  }

  // ---- All that is asked for but kept guards ---------------------------------------------------

  lemma {:induction false} FillInstance(f: Filling, p: Stmt, pe: Env, env: Env, g: State)
    requires IsInstance(p, pe, f.L().body, env, g)
    ensures p == f.Fill() && pe == env
  {
    assert f.L().body[1..] == [] && [f.Fill()][1..] == [];
    assert IsInstance(p, pe, [f.Fill()], env, g);
  }

  lemma {:induction false} FillingBody(f: Filling)
    ensures VecBody(f.L().body, f.l)
  {
    hide VecStorable;
    var I := f.If();
    FillStorable(f);
    assert I.body == [f.Fill()] && [f.Fill()][1..] == [] && VecBody([], f.l);
    assert I.val == f.Guard() && !MentionsAny([Const(f.at)], f.l);
    assert VecBody(I.body, f.l);
    assert f.L().body == [I] && [I][1..] == [];
  }

  /** Its stores use the index, keep apart and commute; only the guard can go wrong. */
  lemma {:induction false} FillingLegal(t: Table, f: Filling)
    requires f.stride > 0
    ensures StoresMention(f.L().body, f.l) && IterationsCommute(t, f.L())
    ensures VecBody(f.L().body, f.l) && IterationsApart(t, f.L())
  {
    var L := f.L();
    FillingBody(f);
    VecBodyFacts(L.body, f.l);
    forall env: Env, g: State, i: nat, j: nat, p: Stmt, pe: Env, q: Stmt, qe: Env
      | i != j && IsInstance(p, pe, L.body, env.At(L.id, i * L.stride), g) &&
        IsInstance(q, qe, L.body, env.At(L.id, j * L.stride), g)
      ensures p.Store? && q.Store? && Apart(p, pe, q, qe)
    {
      FillInstance(f, p, pe, env.At(L.id, i * L.stride), g);
      FillInstance(f, q, qe, env.At(L.id, j * L.stride), g);
      TimesIs(i, j, L.stride);
      ApartFills(f, env, i * L.stride, env, j * L.stride);
    }
    ApartIterationsCommute(t, L);
  }

  /** for i in 0..2: if (B[0] in 0..1) { B[i] = 1 }. */
  function ShutAtOnce(): Filling { Filling(0, 2, 1, 0, 0, 0, 1, 0, 1) }

  lemma {:induction false} ShutAtOnceWf()
    ensures WfS(ShutAtOnce().L(), {})
  {
    var f := ShutAtOnce();
    Single(f.Fill());
    Single(f.If());
    assert [f.If()][1..] == [] && [f.Fill()][1..] == [] && f.Guard().subs[1..] == [] && f.Fill().subs[1..] == [];
    assert {} + {0} == {0};
    assert WfE(f.Guard(), {0}) && WfS(f.Fill(), {0}) && WfB([f.Fill()], {0}) && WfB([f.If()], {0});
  }

  lemma {:induction false} ShutAtOnceAccepted()
    ensures CanWiden(ShutAtOnce().L(), 2) && CanVectorize(ShutAtOnce().L(), 2)
  {
    var f := ShutAtOnce();
    FillStorable(f);
    assert [f.If()][1..] == [] && [f.Fill()][1..] == [];
    assert !Mentions(f.Guard(), 0) && !UsesLocalsE(f.Guard()) && !UsesLocals([f.Fill()]);
    assert MayVectorizeBody([f.Fill()], 0) && IndexInStores([f.Fill()], 0);
  }

  lemma {:induction false} ShutAtOnceCut()
    ensures var f := ShutAtOnce(); f.stride * 2 == 2 && 0 <= f.at < Cut(f.end, f.stride * 2)
  {
    var f := ShutAtOnce();
    assert f.stride * 2 == 2 && f.end == 2;
    assert Cut(2, 2) == 2;
  }

  lemma {:induction false} ShutAtOncePlace()
    ensures var f := ShutAtOnce();
      f.stride > 0 && f.at % f.stride == 0 && (f.at / f.stride) % 2 != 2 - 1 &&
      f.guardArg == f.arg && f.start < f.stop && !(f.start <= f.value < f.stop)
  {
    var f := ShutAtOnce();
    assert f.at == 0 && f.stride == 1;
  }

  lemma {:induction false} ShutAtOnceShuts()
    ensures ShutAtOnce().stride > 0 && ShutAtOnce().ShutsInGroup(2)
  {
    hide ShutAtOnce, Cut;
    ShutAtOnceCut();
    ShutAtOncePlace();
  }

  /** widen and vectorize accept that loop by two and change what it does: it never writes B[1]. */
  lemma {:induction false} GuardNotKept(next: LoopId)
    requires next > 0
    ensures var L := ShutAtOnce().L();
      WfS(L, {}) && CanWiden(L, 2) && CanVectorize(L, 2) &&
      !SameIn(map[], [L], GroupedLoops(L, Duplicate(2, 1), next)) &&
      !SameIn(map[], [L], GroupedLoops(L, Vector(2), next))
  {
    hide SameIn, GroupedLoops, CanWiden, CanVectorize, WfS, Filling.ShutsInGroup;
    ShutAtOnceWf();
    ShutAtOnceShuts();
    ShutAtOnceAccepted();
    ShutShows(ShutAtOnce(), Duplicate(2, 1), next);
    ShutShows(ShutAtOnce(), Vector(2), next);
  }
}
