/** fuse: two neighbouring loops over the same range run as one, and then their children. */
module Fusion {
  import opened IR
  import opened Families
  import opened Semantics
  import opened Substitution
  import opened Context
  import opened Ranges
  import opened Dependence
  import opened Footprint

  // ---- Collecting the accesses of a block -------------------------------------------

  function LoadsE(e: Expr, t: Table): seq<Access>
    decreases e
  {
    match e
    case Binary(_, a, b) => LoadsE(a, t) + LoadsE(b, t)
    case Unary(_, v) => LoadsE(v, t)
    case Load(arg, subs, _) => [Access(arg, subs, t)] + LoadsAll(subs, t)
    case Broadcast(x, _) => LoadsE(x, t)
    case _ => []
  }

  function LoadsAll(es: seq<Expr>, t: Table): seq<Access>
    decreases es
  {
    if es == [] then [] else LoadsE(es[0], t) + LoadsAll(es[1..], t)
  }

  function LoadsS(s: Stmt, t: Table): seq<Access>
    decreases s
  {
    match s
    case Loop(id, end, stride, body) => LoadsB(body, t[id := Extent(end, stride)])
    case IfRange(v, _, _, body) => LoadsE(v, t) + LoadsB(body, t)
    case Store(_, subs, v, _) => LoadsAll(subs, t) + LoadsE(v, t)
    case StoreLocal(_, v, _) => LoadsE(v, t)
    case Call(_, ps) => LoadsAll(ps, t)
  }

  function LoadsB(ss: seq<Stmt>, t: Table): seq<Access>
    decreases ss
  {
    if ss == [] then [] else LoadsS(ss[0], t) + LoadsB(ss[1..], t)
  }

  function StoresS(s: Stmt, t: Table): seq<Access>
    decreases s
  {
    match s
    case Loop(id, end, stride, body) => StoresB(body, t[id := Extent(end, stride)])
    case IfRange(_, _, _, body) => StoresB(body, t)
    case Store(arg, subs, _, _) => [Access(arg, subs, t)]
    case _ => []
  }

  function StoresB(ss: seq<Stmt>, t: Table): seq<Access>
    decreases ss
  {
    if ss == [] then [] else StoresS(ss[0], t) + StoresB(ss[1..], t)
  }

  function VarsReadE(e: Expr): set<string>
  {
    match e
    case Binary(_, a, b) => VarsReadE(a) + VarsReadE(b)
    case Unary(_, v) => VarsReadE(v)
    case Load(_, subs, _) => VarsReadAll(subs)
    case LoadLocal(v) => {v.name}
    case Broadcast(x, _) => VarsReadE(x)
    case _ => {}
  }

  function VarsReadAll(es: seq<Expr>): set<string>
  {
    if es == [] then {} else VarsReadE(es[0]) + VarsReadAll(es[1..])
  }

  function VarsReadS(s: Stmt): set<string>
  {
    match s
    case Loop(_, _, _, body) => VarsRead(body)
    case IfRange(v, _, _, body) => VarsReadE(v) + VarsRead(body)
    case Store(_, subs, v, _) => VarsReadAll(subs) + VarsReadE(v)
    case StoreLocal(_, v, _) => VarsReadE(v)
    case Call(_, ps) => VarsReadAll(ps)
  }

  function VarsRead(ss: seq<Stmt>): set<string>
  {
    if ss == [] then {} else VarsReadS(ss[0]) + VarsRead(ss[1..])
  }

  function VarsWrittenS(s: Stmt): set<string>
  {
    match s
    case Loop(_, _, _, body) => VarsWritten(body)
    case IfRange(_, _, _, body) => VarsWritten(body)
    case StoreLocal(v, _, _) => {v.name}
    case _ => {}
  }

  function VarsWritten(ss: seq<Stmt>): set<string>
  {
    if ss == [] then {} else VarsWrittenS(ss[0]) + VarsWritten(ss[1..])
  }

  // ---- The programs the theorem is about ----------------------------------------------

  /** Every buffer access reads one element. */
  predicate ScalarLoads(e: Expr)
  {
    match e
    case Binary(_, a, b) => ScalarLoads(a) && ScalarLoads(b)
    case Unary(_, v) => ScalarLoads(v)
    case Load(_, subs, ty) => ty.width == 1 && ScalarLoadsAll(subs)
    case Broadcast(x, _) => ScalarLoads(x)
    case _ => true
  }

  predicate ScalarLoadsAll(es: seq<Expr>)
  {
    es == [] || (ScalarLoads(es[0]) && ScalarLoadsAll(es[1..]))
  }

  /** No calls, and every access to a buffer is scalar. */
  predicate SimpleS(s: Stmt)
  {
    match s
    case Loop(_, _, _, body) => Simple(body)
    case IfRange(v, _, _, body) => ScalarLoads(v) && Simple(body)
    case Store(_, subs, v, _) => ScalarLoadsAll(subs) && ScalarLoads(v) && Width(v) == 1
    case StoreLocal(_, v, _) => ScalarLoads(v)
    case Call(_, _) => false
  }

  predicate Simple(ss: seq<Stmt>)
  {
    ss == [] || (SimpleS(ss[0]) && Simple(ss[1..]))
  }

  // ---- Footprints from accesses --------------------------------------------------------

  /** What the accesses may touch while loop l is at i. */
  ghost function Touch(accs: seq<Access>, l: LoopId, i: int): iset<Loc>
  {
    iset x: Loc | Touched(accs, l, i, x)
  }

  ghost predicate Touched(accs: seq<Access>, l: LoopId, i: int, x: Loc)
  {
    exists a: Access, e: Env, st: State :: a in accs && TouchedBy(a, l, i, e, st, x)
  }

  ghost predicate TouchedBy(a: Access, l: LoopId, i: int, e: Env, st: State, x: Loc)
  {
    ValidEnv(a.t, e) && e.Get(l) == i && x == Elem(a.arg, EvalSubs(a.subs, e, st))
  }

  ghost function LocalsOf(names: set<string>): iset<Loc>
  {
    iset x: Loc | x.Local? && x.name in names
  }

  lemma {:induction false} BumpZero(idx: seq<int>)
    ensures Bump(idx, 0) == idx
  {}

  lemma {:induction false} ReadsTouch(e: Expr, t: Table, l: LoopId, i: int, env: Env, st: State, lane: nat,
                                      loads: seq<Access>, names: set<string>)
    requires ScalarLoads(e) && ValidEnv(t, env) && env.Get(l) == i
    requires (forall a | a in LoadsE(e, t) :: a in loads) && VarsReadE(e) <= names
    ensures ReadsIn(e, env, st, lane, Touch(loads, l, i) + LocalsOf(names))
    decreases e
  {
    match e
    case Binary(_, a, b) =>
      ReadsTouch(a, t, l, i, env, st, lane, loads, names);
      ReadsTouch(b, t, l, i, env, st, lane, loads, names);
    case Unary(_, v) => ReadsTouch(v, t, l, i, env, st, lane, loads, names);
    case Load(arg, subs, ty) =>
      var acc := Access(arg, subs, t);
      assert acc in LoadsE(e, t);
      BumpZero(EvalSubs(subs, env, st));
      assert TouchedBy(acc, l, i, env, st, Elem(arg, EvalSubs(subs, env, st)));
      AllReadsTouch(subs, t, l, i, env, st, loads, names);
    case Broadcast(x, _) => ReadsTouch(x, t, l, i, env, st, 0, loads, names);
    case _ =>
  }

  lemma {:induction false} AllReadsTouch(es: seq<Expr>, t: Table, l: LoopId, i: int, env: Env, st: State,
                                         loads: seq<Access>, names: set<string>)
    requires ScalarLoadsAll(es) && ValidEnv(t, env) && env.Get(l) == i
    requires (forall a | a in LoadsAll(es, t) :: a in loads) && VarsReadAll(es) <= names
    ensures ReadsAllIn(es, env, st, Touch(loads, l, i) + LocalsOf(names))
    decreases es
  {
    if es != [] {
      ReadsTouch(es[0], t, l, i, env, st, 0, loads, names);
      AllReadsTouch(es[1..], t, l, i, env, st, loads, names);
      forall k | 0 <= k < |es|
        ensures ReadsIn(es[k], env, st, 0, Touch(loads, l, i) + LocalsOf(names))
      {
        if k > 0 { assert es[k] == es[1..][k - 1]; }
      }
    }
  }

  lemma {:induction false} ConfinedTouchS(s: Stmt, t: Table, l: LoopId, i: int, env: Env,
                                          loads: seq<Access>, stores: seq<Access>, rd: set<string>, wr: set<string>)
    requires SimpleS(s) && ValidEnv(t, env) && env.Get(l) == i && l !in Bound(s)
    requires (forall a | a in LoadsS(s, t) :: a in loads) && (forall a | a in StoresS(s, t) :: a in stores)
    requires VarsReadS(s) <= rd && VarsWrittenS(s) <= wr
    ensures ConfinedS(s, env, Touch(loads, l, i) + LocalsOf(rd), Touch(stores, l, i) + LocalsOf(wr))
    decreases s
  {
    var R, W := Touch(loads, l, i) + LocalsOf(rd), Touch(stores, l, i) + LocalsOf(wr);
    match s
    case Loop(id, end, stride, body) =>
      forall k: nat | k < Trip(end, stride)
        ensures Confined(body, env.At(id, k * stride), R, W)
      {
        ValidAt(t, env, id, end, stride, k);
        ConfinedTouch(body, t[id := Extent(end, stride)], l, i, env.At(id, k * stride), loads, stores, rd, wr);
      }
    case IfRange(v, _, _, body) =>
      forall st: State ensures ReadsIn(v, env, st, 0, R) {
        ReadsTouch(v, t, l, i, env, st, 0, loads, rd);
      }
      ConfinedTouch(body, t, l, i, env, loads, stores, rd, wr);
    case Store(arg, subs, value, _) =>
      forall st: State ensures LeafIn(s, env, st, R, W) {
        AllReadsTouch(subs, t, l, i, env, st, loads, rd);
        ReadsTouch(value, t, l, i, env, st, 0, loads, rd);
        var acc := Access(arg, subs, t);
        assert acc in StoresS(s, t);
        BumpZero(EvalSubs(subs, env, st));
        assert TouchedBy(acc, l, i, env, st, Elem(arg, EvalSubs(subs, env, st)));
      }
    case StoreLocal(v, value, _) =>
      forall st: State ensures LeafIn(s, env, st, R, W) {
        forall lane: nat { ReadsTouch(value, t, l, i, env, st, lane, loads, rd); }
      }
  }

  /** A block whose loop l is at i touches only what its accesses touch there. */
  lemma {:induction false} ConfinedTouch(ss: seq<Stmt>, t: Table, l: LoopId, i: int, env: Env,
                                         loads: seq<Access>, stores: seq<Access>, rd: set<string>, wr: set<string>)
    requires Simple(ss) && ValidEnv(t, env) && env.Get(l) == i && l !in BoundB(ss)
    requires (forall a | a in LoadsB(ss, t) :: a in loads) && (forall a | a in StoresB(ss, t) :: a in stores)
    requires VarsRead(ss) <= rd && VarsWritten(ss) <= wr
    ensures Confined(ss, env, Touch(loads, l, i) + LocalsOf(rd), Touch(stores, l, i) + LocalsOf(wr))
    decreases ss
  {
    if ss != [] {
      ConfinedTouchS(ss[0], t, l, i, env, loads, stores, rd, wr);
      ConfinedTouch(ss[1..], t, l, i, env, loads, stores, rd, wr);
    }
  }

  // ---- The checks of fuse -----------------------------------------------------------------

  function LoopTable(L: Stmt, t: Table): Table
    requires L.Loop?
  {
    t[L.id := Extent(L.end, L.stride)]
  }

  function LoadsOf(L: Stmt, t: Table): seq<Access> requires L.Loop? { LoadsB(L.body, LoopTable(L, t)) }
  function StoresOf(L: Stmt, t: Table): seq<Access> requires L.Loop? { StoresB(L.body, LoopTable(L, t)) }

  /** Accesses to the same buffer have as many subscripts as the buffer has dimensions. */
  ghost predicate Ranked(accs: seq<Access>, rank: nat -> nat)
  {
    forall a | a in accs :: |a.subs| == rank(a.arg)
  }

  ghost predicate LoopRanked(L: Stmt, t: Table, rank: nat -> nat)
    requires L.Loop?
  {
    Ranked(LoadsOf(L, t), rank) && Ranked(StoresOf(L, t), rank)
  }

  /** The accesses x of loop i1 and y of loop i2 show no dependence. */
  predicate PairOk(i1: LoopId, i2: LoopId, x: Access, y: Access)
  {
    (x.arg == y.arg ==> |x.subs| == |y.subs|) && Depends(i1, i2, x, y) != SomeDep
  }

  predicate ChecksPass(L: Stmt, L2: Stmt, t: Table)
    requires L.Loop? && L2.Loop?
  {
    L.end == L2.end && L.stride == L2.stride &&
    VarsWritten(L.body) !! VarsWritten(L2.body) &&
    VarsWritten(L.body) !! VarsRead(L2.body) &&
    VarsRead(L.body) !! VarsWritten(L2.body) &&
    (forall x, y | x in StoresOf(L, t) && y in StoresOf(L2, t) :: PairOk(L.id, L2.id, x, y)) &&
    (forall x, y | x in StoresOf(L, t) && y in LoadsOf(L2, t) :: PairOk(L.id, L2.id, x, y)) &&
    (forall x, y | x in LoadsOf(L, t) && y in StoresOf(L2, t) :: PairOk(L2.id, L.id, y, x))
  }

  /** No pair of xs and ys depends; the pair is swapped for the anti-dependence test. */
  method PairsIndependent(i1: LoopId, i2: LoopId, xs: seq<Access>, ys: seq<Access>, swapped: bool,
                          ghost rank: nat -> nat)
    returns (ok: bool)
    requires Ranked(xs, rank) && Ranked(ys, rank)
    ensures !swapped ==> (ok <==> forall x, y | x in xs && y in ys :: PairOk(i1, i2, x, y))
    ensures swapped ==> (ok <==> forall x, y | x in xs && y in ys :: PairOk(i2, i1, y, x))
  {
    var i := 0;
    while i < |xs|
      invariant 0 <= i <= |xs|
      invariant !swapped ==> forall x, y | x in xs[..i] && y in ys :: PairOk(i1, i2, x, y)
      invariant swapped ==> forall x, y | x in xs[..i] && y in ys :: PairOk(i2, i1, y, x)
    {
      assert xs[i] in xs;
      var j := 0;
      while j < |ys|
        invariant 0 <= j <= |ys|
        invariant !swapped ==> forall y | y in ys[..j] :: PairOk(i1, i2, xs[i], y)
        invariant swapped ==> forall y | y in ys[..j] :: PairOk(i2, i1, y, xs[i])
      {
        assert ys[j] in ys;
        var v: Verdict;
        if swapped {
          v := CheckWeakSIV(i2, i1, ys[j], xs[i]);
        } else {
          v := CheckWeakSIV(i1, i2, xs[i], ys[j]);
        }
        if v == SomeDep { return false; }
        assert ys[..j + 1] == ys[..j] + [ys[j]];
        j := j + 1;
      }
      assert ys[..j] == ys;
      assert xs[..i + 1] == xs[..i] + [xs[i]];
      i := i + 1;
    }
    assert xs[..i] == xs;
    return true;
  }

  method FuseChecks(L: Stmt, L2: Stmt, t: Table, ghost rank: nat -> nat) returns (ok: bool)
    requires L.Loop? && L2.Loop? && LoopRanked(L, t, rank) && LoopRanked(L2, t, rank)
    ensures ok <==> ChecksPass(L, L2, t)
  {
    // Loops of another shape are not fused.
    if L.end != L2.end || L.stride != L2.stride { return false; }
    // No local that one loop writes may be used by the other.
    if !(VarsWritten(L.body) !! VarsWritten(L2.body)) ||
       !(VarsWritten(L.body) !! VarsRead(L2.body)) ||
       !(VarsRead(L.body) !! VarsWritten(L2.body)) { return false; }
    ok := PairsIndependent(L.id, L2.id, StoresOf(L, t), StoresOf(L2, t), false, rank);
    if !ok { return; }
    ok := PairsIndependent(L.id, L2.id, StoresOf(L, t), LoadsOf(L2, t), false, rank);
    if !ok { return; }
    ok := PairsIndependent(L.id, L2.id, LoadsOf(L, t), StoresOf(L2, t), true, rank);
  }

  // ---- When passing the checks is enough ---------------------------------------------------

  ghost predicate PairsSeparated(i1: LoopId, i2: LoopId, xs: seq<Access>, ys: seq<Access>)
  {
    forall x, y | x in xs && y in ys && x.arg == y.arg :: Separated(i1, i2, x, y)
  }

  /** Every pair of accesses to one buffer with a write in it has a separating dimension. */
  ghost predicate AllSeparated(L: Stmt, L2: Stmt, t: Table)
    requires L.Loop? && L2.Loop?
  {
    PairsSeparated(L.id, L2.id, StoresOf(L, t), StoresOf(L2, t)) &&
    PairsSeparated(L.id, L2.id, StoresOf(L, t), LoadsOf(L2, t)) &&
    PairsSeparated(L.id, L2.id, LoadsOf(L, t), StoresOf(L2, t))
  }

  // ---- What passing the checks says about the subscripts -------------------------------------

  /** All pairs of accesses to one buffer are aligned. */
  ghost predicate PairsAligned(i1: LoopId, i2: LoopId, xs: seq<Access>, ys: seq<Access>)
  {
    forall x, y | x in xs && y in ys && x.arg == y.arg :: AllAligned(i1, i2, x, y)
  }

  /** Every pair of accesses to one buffer with a write in it is aligned in every dimension. */
  ghost predicate LoopsAligned(L: Stmt, L2: Stmt, t: Table)
    requires L.Loop? && L2.Loop?
  {
    PairsAligned(L.id, L2.id, StoresOf(L, t), StoresOf(L2, t)) &&
    PairsAligned(L.id, L2.id, StoresOf(L, t), LoadsOf(L2, t)) &&
    PairsAligned(L2.id, L.id, StoresOf(L2, t), LoadsOf(L, t))
  }

  /** The loops have one shape, and neither writes a local that the other uses. */
  predicate SameShape(L: Stmt, L2: Stmt)
    requires L.Loop? && L2.Loop?
  {
    L.end == L2.end && L.stride == L2.stride &&
    VarsWritten(L.body) !! VarsWritten(L2.body) + VarsRead(L2.body) &&
    VarsRead(L.body) !! VarsWritten(L2.body)
  }

  /** The known ranges of all subscripts are right. */
  predicate RangesTrusted(accs: seq<Access>) { forall a | a in accs :: AccessTrusted(a) }

  /** All subscripts rise with their indices. */
  predicate SubscriptsRise(accs: seq<Access>) { forall a | a in accs :: AccessRising(a) }

  lemma {:induction false} PairsExactly(i1: LoopId, i2: LoopId, xs: seq<Access>, ys: seq<Access>, rank: nat -> nat)
    requires Ranked(xs, rank) && Ranked(ys, rank) && GoodTables(xs) && GoodTables(ys)
    ensures RangesTrusted(xs) && RangesTrusted(ys) && (forall x, y | x in xs && y in ys :: PairOk(i1, i2, x, y)) ==>
      PairsAligned(i1, i2, xs, ys)
    ensures SubscriptsRise(xs) && SubscriptsRise(ys) ==>
      ((forall x, y | x in xs && y in ys :: PairOk(i1, i2, x, y)) <==> PairsAligned(i1, i2, xs, ys))
  {
    hide Depends, AllAligned, AccessRising, AccessTrusted, GoodTable;
    if RangesTrusted(xs) && RangesTrusted(ys) && (forall x, y | x in xs && y in ys :: PairOk(i1, i2, x, y)) {
      forall x, y | x in xs && y in ys && x.arg == y.arg ensures AllAligned(i1, i2, x, y) {
        assert PairOk(i1, i2, x, y);
        SameBuffer(i1, i2, x, y);
        EqualsAligned(i1, i2, x, y);
      }
    }
    if SubscriptsRise(xs) && SubscriptsRise(ys) {
      forall x, y | x in xs && y in ys
        ensures PairOk(i1, i2, x, y) <==> (x.arg == y.arg ==> AllAligned(i1, i2, x, y))
      {
        if x.arg == y.arg { EqualsIffAligned(i1, i2, x, y); } else { OtherBuffer(i1, i2, x, y); }
      }
    }
  }

  lemma {:induction false} SameBuffer(i1: LoopId, i2: LoopId, x: Access, y: Access)
    requires x.arg == y.arg && PairOk(i1, i2, x, y)
    ensures Depends(i1, i2, x, y) == Equals
  {}

  lemma {:induction false} OtherBuffer(i1: LoopId, i2: LoopId, x: Access, y: Access)
    requires x.arg != y.arg
    ensures PairOk(i1, i2, x, y)
  {}

  /** All accesses of both loops. */
  function BothAccesses(L: Stmt, L2: Stmt, t: Table): seq<Access>
    requires L.Loop? && L2.Loop?
  {
    StoresOf(L, t) + LoadsOf(L, t) + StoresOf(L2, t) + LoadsOf(L2, t)
  }

  /** Loops that pass are of one shape, and aligned wherever they share a buffer; and loops whose
      subscripts rise with their indices pass exactly when they are. */
  lemma {:induction false} ChecksExactly(L: Stmt, L2: Stmt, t: Table, rank: nat -> nat)
    requires L.Loop? && L2.Loop? && WfS(L, t.Keys) && WfS(L2, t.Keys) && GoodTable(t)
    requires LoopRanked(L, t, rank) && LoopRanked(L2, t, rank)
    ensures RangesTrusted(BothAccesses(L, L2, t)) && ChecksPass(L, L2, t) ==>
      SameShape(L, L2) && LoopsAligned(L, L2, t)
    ensures SubscriptsRise(BothAccesses(L, L2, t)) ==>
      (ChecksPass(L, L2, t) <==> SameShape(L, L2) && LoopsAligned(L, L2, t))
  {
    hide PairsAligned, PairOk, Depends, AccessRising, AccessTrusted, WfB, LoadsB, StoresB, GoodTable;
    var w1, l1, w2, l2, all := StoresOf(L, t), LoadsOf(L, t), StoresOf(L2, t), LoadsOf(L2, t), BothAccesses(L, L2, t);
    assert forall a :: a in all <==> a in w1 || a in l1 || a in w2 || a in l2;
    GoodLoop(L, t);
    GoodLoop(L2, t);
    PairsExactly(L.id, L2.id, w1, w2, rank);
    PairsExactly(L.id, L2.id, w1, l2, rank);
    PairsExactly(L2.id, L.id, w2, l1, rank);
    // The anti-dependence test takes its pairs the other way round.
    assert (forall x, y | x in l1 && y in w2 :: PairOk(L2.id, L.id, y, x)) <==>
      (forall y, x | y in w2 && x in l1 :: PairOk(L2.id, L.id, y, x));
  }

  lemma {:induction false} GoodLoop(L: Stmt, t: Table)
    requires L.Loop? && WfS(L, t.Keys) && GoodTable(t)
    ensures GoodTables(LoadsOf(L, t)) && GoodTables(StoresOf(L, t))
  {
    DividesLeq(L.end, L.stride);
    assert LoopTable(L, t).Keys == t.Keys + {L.id};
    GoodLoads(L.body, LoopTable(L, t));
  }

  ghost predicate GoodTables(accs: seq<Access>) { forall a | a in accs :: GoodTable(a.t) }

  lemma {:induction false} TouchDisjoint(i1: LoopId, i2: LoopId, xs: seq<Access>, ys: seq<Access>, i: int, j: int)
    requires PairsSeparated(i1, i2, xs, ys) && i != j && GoodTables(xs) && GoodTables(ys)
    ensures forall l | l in Touch(xs, i1, i) :: l !in Touch(ys, i2, j)
  {
    forall l | l in Touch(xs, i1, i)
      ensures l !in Touch(ys, i2, j)
    {
      if l in Touch(ys, i2, j) {
        var a: Access, e1: Env, s1: State :| a in xs && TouchedBy(a, i1, i, e1, s1, l);
        var b: Access, e2: Env, s2: State :| b in ys && TouchedBy(b, i2, j, e2, s2, l);
        SeparatedNeverMeet(i1, i2, a, b, e1, e2, s1, s2);
      }
    }
  }

  lemma {:induction false} GoodLoads(ss: seq<Stmt>, t: Table)
    requires WfB(ss, t.Keys) && GoodTable(t)
    ensures GoodTables(LoadsB(ss, t)) && GoodTables(StoresB(ss, t))
    decreases ss
  {
    if ss != [] {
      GoodLoads(ss[1..], t);
      match ss[0] {
        case Loop(id, end, stride, body) =>
          assert t[id := Extent(end, stride)].Keys == t.Keys + {id};
          DividesLeq(end, stride);
          GoodLoads(body, t[id := Extent(end, stride)]);
        case IfRange(v, _, _, body) => GoodLoadsE(v, t); GoodLoads(body, t);
        case Store(_, subs, v, _) => GoodLoadsAll(subs, t); GoodLoadsE(v, t);
        case StoreLocal(_, v, _) => GoodLoadsE(v, t);
        case Call(_, ps) => GoodLoadsAll(ps, t);
      }
    }
  }

  lemma {:induction false} DividesLeq(end: nat, stride: nat)
    requires end > 0 && stride > 0 && end % stride == 0
    ensures stride <= end
  {}

  lemma {:induction false} GoodLoadsE(e: Expr, t: Table)
    requires GoodTable(t)
    ensures GoodTables(LoadsE(e, t))
    decreases e
  {
    match e
    case Binary(_, a, b) => GoodLoadsE(a, t); GoodLoadsE(b, t);
    case Unary(_, v) => GoodLoadsE(v, t);
    case Load(_, subs, _) => GoodLoadsAll(subs, t);
    case Broadcast(x, _) => GoodLoadsE(x, t);
    case _ =>
  }

  lemma {:induction false} GoodLoadsAll(es: seq<Expr>, t: Table)
    requires GoodTable(t)
    ensures GoodTables(LoadsAll(es, t))
    decreases es
  {
    if es != [] { GoodLoadsE(es[0], t); GoodLoadsAll(es[1..], t); }
  }

  /** L followed by L2 in one loop: the body of L2 now counts with L. */
  function Fused(L: Stmt, L2: Stmt): Stmt
    requires L.Loop? && L2.Loop?
  {
    Loop(L.id, L.end, L.stride, L.body + SubstB(L2.body, L2.id, Idx(L.id)))
  }

  /** An iteration of the first body passes an earlier iteration of the second. */
  lemma {:induction false} SeparatedCommute(L: Stmt, L2: Stmt, t: Table, env: Env, i: nat, j: nat, x: State)
    requires L.Loop? && L2.Loop? && WfS(L, t.Keys) && WfS(L2, t.Keys) && GoodTable(t) && ValidEnv(t, env)
    requires ChecksPass(L, L2, t) && AllSeparated(L, L2, t) && Simple(L.body) && Simple(L2.body)
    requires i < j < Trip(L.end, L.stride)
    ensures Exec(L.body, env.At(L.id, j * L.stride), Exec(L2.body, env.At(L2.id, i * L.stride), x)) ==
            Exec(L2.body, env.At(L2.id, i * L.stride), Exec(L.body, env.At(L.id, j * L.stride), x))
  {
    var s := L.stride;
    var t1, t2 := LoopTable(L, t), LoopTable(L2, t);
    var e1, e2 := env.At(L.id, j * s), env.At(L2.id, i * s);
    ValidAt(t, env, L.id, L.end, s, j);
    ValidAt(t, env, L2.id, L2.end, s, i);
    MulGap(i, j, s);
    var l1, w1, l2, w2 := LoadsOf(L, t), StoresOf(L, t), LoadsOf(L2, t), StoresOf(L2, t);
    var rd1, wr1, rd2, wr2 := VarsRead(L.body), VarsWritten(L.body), VarsRead(L2.body), VarsWritten(L2.body);
    WfBoundFresh(L.body, t.Keys + {L.id});
    WfBoundFresh(L2.body, t.Keys + {L2.id});
    ConfinedTouch(L.body, t1, L.id, j * s, e1, l1, w1, rd1, wr1);
    ConfinedTouch(L2.body, t2, L2.id, i * s, e2, l2, w2, rd2, wr2);
    assert t1.Keys == t.Keys + {L.id} && t2.Keys == t.Keys + {L2.id};
    DividesLeq(L.end, s);
    GoodLoads(L.body, t1);
    GoodLoads(L2.body, t2);
    TouchDisjoint(L.id, L2.id, w1, w2, j * s, i * s);
    TouchDisjoint(L.id, L2.id, w1, l2, j * s, i * s);
    TouchDisjoint(L.id, L2.id, l1, w2, j * s, i * s);
    ConfinedCommute(L.body, e1, Touch(l1, L.id, j * s) + LocalsOf(rd1), Touch(w1, L.id, j * s) + LocalsOf(wr1),
                    L2.body, e2, Touch(l2, L2.id, i * s) + LocalsOf(rd2), Touch(w2, L2.id, i * s) + LocalsOf(wr2), x);
  }

  /** Merging two loops that pass the checks, with all conflicting accesses separated,
      leaves the final state unchanged. */
  lemma {:induction false} FusePreserves(L: Stmt, L2: Stmt, t: Table)
    requires L.Loop? && L2.Loop? && WfB([L, L2], t.Keys) && GoodTable(t)
    requires ChecksPass(L, L2, t) && AllSeparated(L, L2, t) && Simple(L.body) && Simple(L2.body)
    ensures SameIn(t, [L, L2], [Fused(L, L2)])
  {
    assert [L, L2][1..] == [L2];
    Single(L2);
    var s, n := L.stride, Trip(L.end, L.stride);
    var b2 := SubstB(L2.body, L2.id, Idx(L.id));
    forall env: Env, st: State | ValidEnv(t, env)
      ensures Exec([L, L2], env, st) == Exec([Fused(L, L2)], env, st)
    {
      assert [L, L2] == [L] + [L2];
      ExecAppend([L], [L2], env, st);
      ExecOne(L, env, st);
      ExecOne(L2, env, ExecS(L, env, st));
      ExecOne(Fused(L, L2), env, st);
      ExecLoop(L.id, L.end, s, L.body, env, st);
      ExecLoop(L2.id, L2.end, s, L2.body, env, ExecS(L, env, st));
      ExecLoop(L.id, L.end, s, L.body + b2, env, st);
      var f, g := Body(L.body, L.id, s, env), Body(L2.body, L2.id, s, env);
      forall i: nat, j: nat, x: State | i < j < n
        ensures f(j, g(i, x)) == g(i, f(j, x))
      {
        SeparatedCommute(L, L2, t, env, i, j, x);
      }
      IterDistribute(f, g, n, st);
      forall k: nat, x: State
        ensures Body(L.body + b2, L.id, s, env)(k, x) == Then(f, g)(k, x)
      {
        FusedStep(L, L2, t, env, k, x);
      }
      IterCong(Body(L.body + b2, L.id, s, env), Then(f, g), n, st);
    }
  }

  lemma {:induction false} FusedStep(L: Stmt, L2: Stmt, t: Table, env: Env, k: nat, x: State)
    requires L.Loop? && L2.Loop? && WfS(L, t.Keys) && WfS(L2, t.Keys) && Bound(L) !! Bound(L2)
    ensures Exec(Fused(L, L2).body, env.At(L.id, k * L.stride), x) ==
            Exec(L2.body, env.At(L2.id, k * L.stride), Exec(L.body, env.At(L.id, k * L.stride), x))
  {
    var v := k * L.stride;
    var b2 := SubstB(L2.body, L2.id, Idx(L.id));
    var e := env.At(L.id, v);
    var y := Exec(L.body, e, x);
    ExecAppend(L.body, b2, e, x);
    assert L.id in Bound(L) && L2.id in Bound(L2);
    WfScalar(L2.body, t.Keys + {L2.id});
    WfBoundFresh(L2.body, t.Keys + {L2.id});
    ExecSubst(L2.body, L2.id, Idx(L.id), e, y);
    AtAt(env, L.id, v, L2.id, v);
    if MentionsB(L2.body, L.id) { WfMentions(L2.body, t.Keys + {L2.id}, L.id); }
    ExecUnmentioned(L2.body, env.At(L2.id, v), L.id, v, y);
  }
}
