/** Whole programs as bytecode: what is written is read back, up to the identity of loops. */
module Bytecode {
  import opened IR
  import opened Interning
  import opened Records
  import opened BytecodeExprs
  import opened BytecodeStmts
  import opened Substitution

  // ---- The program over the numbers of its loops ---------------------------------------------

  function RenameS(s: Stmt, stmts: seq<Ref>): Stmt
    decreases s, 1
  {
    match s
    case Loop(l, end, stride, body) => Loop(RefId(stmts, LoopRef(l)), end, stride, RenameB(body, stmts))
    case IfRange(v, start, stop, body) => IfRange(RenameE(v, stmts), start, stop, RenameB(body, stmts))
    case Store(arg, subs, v, acc) => Store(arg, RenameAll(subs, stmts), RenameE(v, stmts), acc)
    case StoreLocal(x, v, acc) => StoreLocal(x, RenameE(v, stmts), acc)
    case Call(name, ps) => Call(name, RenameAll(ps, stmts))
  }

  function RenameB(ss: seq<Stmt>, stmts: seq<Ref>): seq<Stmt>
    decreases ss, 0
  {
    if ss == [] then [] else [RenameS(ss[0], stmts)] + RenameB(ss[1..], stmts)
  }

  /** No ifs, and plain expressions. */
  predicate PlainS(vars: seq<LocalVar>, fl: Floats, s: Stmt)
    decreases s, 1
  {
    match s
    case Loop(_, _, _, body) => PlainB(vars, fl, body)
    case IfRange(_, _, _, _) => false
    case Store(_, subs, v, _) => PlainAll(vars, fl, subs) && Plain(vars, fl, v)
    case StoreLocal(x, v, _) => x in vars && Plain(vars, fl, v)
    case Call(_, ps) => PlainAll(vars, fl, ps)
  }

  predicate PlainB(vars: seq<LocalVar>, fl: Floats, ss: seq<Stmt>)
    decreases ss, 0
  {
    ss == [] || (PlainS(vars, fl, ss[0]) && PlainB(vars, fl, ss[1..]))
  }

  // ---- All expressions are registered before the first statement is read -----------------------

  /** The roots that s refers to are registered. */
  predicate HeldS(m: Nodes, stmts: seq<Ref>, s: Stmt, n: nat)
    decreases s, 1
  {
    match s
    case Loop(_, _, _, body) => HeldB(m, stmts, body, n)
    case IfRange(_, _, _, _) => false
    case Store(arg, subs, v, _) =>
      var g := n + CountAll(subs);
      g in m && m[g] == NG(arg, RenameAll(subs, stmts)) && IsExpr(m, g + CountE(v)) &&
        m[g + CountE(v)].e == RenameE(v, stmts)
    case StoreLocal(_, v, _) => IsExpr(m, n + CountE(v) - 1) && m[n + CountE(v) - 1].e == RenameE(v, stmts)
    case Call(_, ps) => AreExprs(m, RootIds(ps, n)) && ExprsAt(m, RootIds(ps, n)) == RenameAll(ps, stmts)
  }

  predicate HeldB(m: Nodes, stmts: seq<Ref>, ss: seq<Stmt>, n: nat)
    decreases ss, 0
  {
    ss == [] || (HeldS(m, stmts, ss[0], n) && HeldB(m, stmts, ss[1..], n + CountExprsS(ss[0])))
  }

  lemma {:induction false} ExprsAtGrows(m: Nodes, m': Nodes, ids: seq<nat>)
    requires AreExprs(m, ids) && Grows(m, m')
    ensures AreExprs(m', ids) && ExprsAt(m', ids) == ExprsAt(m, ids)
  {
    forall i | 0 <= i < |ids| ensures IsExpr(m', ids[i]) { assert IsExpr(m, ids[i]); }
    if ids != [] {
      forall i | 0 <= i < |ids[1..]| ensures IsExpr(m, ids[1..][i]) { assert IsExpr(m, ids[i + 1]); }
      ExprsAtGrows(m, m', ids[1..]);
    }
  }

  lemma {:induction false} HeldGrowsS(m: Nodes, m': Nodes, stmts: seq<Ref>, s: Stmt, n: nat)
    requires HeldS(m, stmts, s, n) && Grows(m, m')
    ensures HeldS(m', stmts, s, n)
    decreases s, 1
  {
    match s
    case Loop(_, _, _, body) => HeldGrows(m, m', stmts, body, n);
    case Call(_, ps) => ExprsAtGrows(m, m', RootIds(ps, n));
    case Store(_, _, _, _) =>
    case StoreLocal(_, _, _) =>
  }

  lemma {:induction false} HeldGrows(m: Nodes, m': Nodes, stmts: seq<Ref>, ss: seq<Stmt>, n: nat)
    requires HeldB(m, stmts, ss, n) && Grows(m, m')
    ensures HeldB(m', stmts, ss, n)
    decreases ss, 0
  {
    if ss != [] {
      HeldGrowsS(m, m', stmts, ss[0], n);
      HeldGrows(m, m', stmts, ss[1..], n + CountExprsS(ss[0]));
    }
  }

  lemma {:induction false} StoreHeld(vars: seq<LocalVar>, fl: Floats, s: Stmt, n: nat, t: Tables, fin: Tables, m: Nodes)
    requires s.Store? && PlainS(vars, fl, s) && Upto(m, n) && Extends(EmitExprsS(vars, fl, s, n, t).t, fin)
    ensures var recs := EmitExprsS(vars, fl, s, n, t).recs;
      var m' := Built(vars, fl, fin, m, recs);
      Rebuilds(vars, fl, fin, m, recs, n, CountExprsS(s), m') && HeldS(m', fin.stmts, s, n)
  {
    hide Rebuilds, BuildE, Built, Plain, EmitE, EmitAll, RenameE, RenameAll;
    var subs, v, c := s.subs, s.value, CountAll(s.subs);
    var x := EmitAll(vars, fl, subs, n, t);
    var y := EmitE(vars, fl, v, n + c + 1, x.t);
    EmitCount(vars, fl, v, n + c + 1, x.t);
    ExprsBuilt(vars, fl, subs, n, t, fin, m);
    var m1 := Built(vars, fl, fin, m, x.recs);
    var g := Numbered(n + c, RGep(s.arg, RootIds(subs, n)));
    var address := NG(s.arg, RenameAll(subs, fin.stmts));
    assert NodeOf(vars, fl, fin.etys, m1, g.rec) == Some(address);
    RootBuilt(vars, fl, fin, m, x.recs, n, c, m1, g, address);
    var m2 := Built(vars, fl, fin, m, x.recs + [g]);
    RebuildsUpto(vars, fl, fin, m, x.recs + [g], n, c + 1, m2);
    ExprBuilt(vars, fl, v, n + c + 1, x.t, fin, m2);
    var m3 := Built(vars, fl, fin, m2, y.recs);
    RebuildsUpto(vars, fl, fin, m2, y.recs, n + c + 1, CountE(v), m3);
    BuildBoth(vars, fl, fin, m, x.recs + [g], n, c + 1, m2, y.recs, CountE(v), m3);
    RebuildsBuilt(vars, fl, fin, m, x.recs + [g] + y.recs, n, c + 1 + CountE(v), m3);
    assert m3[n + c] == address && m3[n + c + CountE(v)] == NE(RenameE(v, fin.stmts));
    assert HeldS(m3, fin.stmts, s, n);
  }

  lemma {:induction false} ExprsHeldS(vars: seq<LocalVar>, fl: Floats, s: Stmt, n: nat, t: Tables, fin: Tables,
                                      m: Nodes)
    requires PlainS(vars, fl, s) && Upto(m, n) && Extends(EmitExprsS(vars, fl, s, n, t).t, fin)
    ensures var recs := EmitExprsS(vars, fl, s, n, t).recs;
      var m' := Built(vars, fl, fin, m, recs);
      Rebuilds(vars, fl, fin, m, recs, n, CountExprsS(s), m') && HeldS(m', fin.stmts, s, n)
    decreases s, 1
  {
    hide Rebuilds, BuildE, Built, Plain;
    match s
    case Loop(_, _, _, body) => ExprsHeld(vars, fl, body, n, t, fin, m);
    case Store(_, _, _, _) => StoreHeld(vars, fl, s, n, t, fin, m);
    case StoreLocal(_, v, _) => ExprBuilt(vars, fl, v, n, t, fin, m);
      RebuildsUpto(vars, fl, fin, m, EmitE(vars, fl, v, n, t).recs, n, CountE(v),
        Built(vars, fl, fin, m, EmitE(vars, fl, v, n, t).recs));
    case Call(_, ps) => ExprsBuilt(vars, fl, ps, n, t, fin, m);
  }

  /** Reading all expression records registers every root that the statements refer to. */
  lemma {:induction false} ExprsHeld(vars: seq<LocalVar>, fl: Floats, ss: seq<Stmt>, n: nat, t: Tables, fin: Tables,
                                     m: Nodes)
    requires PlainB(vars, fl, ss) && Upto(m, n) && Extends(EmitExprs(vars, fl, ss, n, t).t, fin)
    ensures var recs := EmitExprs(vars, fl, ss, n, t).recs;
      var m' := Built(vars, fl, fin, m, recs);
      Rebuilds(vars, fl, fin, m, recs, n, CountExprs(ss), m') && HeldB(m', fin.stmts, ss, n)
    decreases ss, 0
  {
    hide PlainS, HeldS, EmitExprsS, CountExprsS;
    if ss != [] {
      var s, rest := ss[0], ss[1..];
      var x := EmitExprsS(vars, fl, s, n, t);
      var y := EmitExprs(vars, fl, rest, n + CountExprsS(s), x.t);
      EmitExprsCount(vars, fl, rest, n + CountExprsS(s), x.t);
      ExprsHeldS(vars, fl, s, n, t, fin, m);
      var m1 := Built(vars, fl, fin, m, x.recs);
      ExprsHeld(vars, fl, rest, n + CountExprsS(s), x.t, fin, m1);
      var m2 := Built(vars, fl, fin, m1, y.recs);
      BuildBoth(vars, fl, fin, m, x.recs, n, CountExprsS(s), m1, y.recs, CountExprs(rest), m2);
      RebuildsBuilt(vars, fl, fin, m, x.recs + y.recs, n, CountExprsS(s) + CountExprs(rest), m2);
      HeldGrowsS(m1, m2, fin.stmts, s, n);
    }
  }

  // ---- The statements come back ------------------------------------------------------------------

  /** The statements that are written for s. */
  function RefsS(s: Stmt, k: nat): set<Ref>
    decreases s, 1
  {
    match s
    case Loop(l, _, _, body) => {LoopRef(l)} + RefsB(body, k)
    case IfRange(_, _, _, body) => {LeafRef(k)} + RefsB(body, k + 1)
    case _ => {LeafRef(k)}
  }

  function RefsB(ss: seq<Stmt>, k: nat): set<Ref>
    decreases ss, 0
  {
    if ss == [] then {} else RefsS(ss[0], k) + RefsB(ss[1..], k + LeavesS(ss[0]))
  }

  /** The references of a block: its loops, and its leaves in turn. */
  lemma {:induction false} RefsAre(ss: seq<Stmt>, k: nat)
    ensures forall r | r in RefsB(ss, k) ::
      (r.LoopRef? && r.loop in BoundB(ss)) || (r.LeafRef? && k <= r.k < k + Leaves(ss))
    decreases ss, 0
  {
    if ss != [] {
      RefsAreS(ss[0], k);
      RefsAre(ss[1..], k + LeavesS(ss[0]));
    }
  }

  lemma {:induction false} RefsAreS(s: Stmt, k: nat)
    ensures forall r | r in RefsS(s, k) ::
      (r.LoopRef? && r.loop in Bound(s)) || (r.LeafRef? && k <= r.k < k + LeavesS(s))
    decreases s, 1
  {
    match s
    case Loop(_, _, _, body) => RefsAre(body, k);
    case IfRange(_, _, _, body) => RefsAre(body, k + 1);
    case _ =>
  }

  /** Exactly the statements of seen are registered, and the loops among them have their names. */
  ghost predicate Known(b: Builder, seen: set<Ref>, stmts: seq<Ref>, names: map<LoopId, string>)
  {
    (forall r | r in seen :: RefId(stmts, r) in b.ids) &&
    (forall x | x in b.ids :: x < |stmts| && stmts[x] in seen) &&
    LoopsIn(b.body) <= b.ids &&
    (forall l: LoopId | LoopRef(l) in seen ::
      RefId(stmts, LoopRef(l)) in b.names && b.names[RefId(stmts, LoopRef(l))] == LoopName(names, l))
  }

  lemma {:induction false} NewId(b: Builder, seen: set<Ref>, stmts: seq<Ref>, names: map<LoopId, string>, r: Ref)
    requires Known(b, seen, stmts, names) && r !in seen && RefId(stmts, r) < |stmts|
    ensures RefId(stmts, r) !in b.ids && stmts[RefId(stmts, r)] == r
  {
    FindIs(stmts, r, SameRef());
  }

  /** Where a statement is put below its parent. */
  predicate Registers(fin: Tables, t: Tables, me: Ref, parent: Ref)
  {
    Extends(WithRef(WithRef(t, me), parent), fin)
  }

  lemma {:induction false} IdsFinal(fin: Tables, t: Tables, me: Ref, parent: Ref)
    requires Registers(fin, t, me, parent)
    ensures var t1 := WithRef(WithRef(t, me), parent);
      RefId(t1.stmts, me) == RefId(fin.stmts, me) < |fin.stmts| &&
      RefId(t1.stmts, parent) == RefId(fin.stmts, parent) < |fin.stmts|
  {
    RefEquivalence();
    var a := WithRef(t, me).stmts;
    InternExtends(a, parent, SameRef());
    IdStays(t.stmts, me, SameRef(), Interned(a, parent, SameRef()));
    IdStays(t.stmts, me, SameRef(), fin.stmts);
    IdStays(a, parent, SameRef(), fin.stmts);
  }

  /** One more statement keeps Known. */
  lemma {:induction false} KnownMore(b: Builder, seen: set<Ref>, stmts: seq<Ref>, names: map<LoopId, string>, r: Ref,
                                     pid: nat, s: Stmt, b': Builder)
    requires Known(b, seen, stmts, names) && r !in seen && RefId(stmts, r) < |stmts|
    requires b'.body == Under(b.body, pid, s) && b'.ids == b.ids + {RefId(stmts, r)}
    requires LoopsIn([s]) <= {RefId(stmts, r)}
    requires if r.LoopRef? then b'.names == b.names[RefId(stmts, r) := LoopName(names, r.loop)] else b'.names == b.names
    ensures Known(b', seen + {r}, stmts, names)
  {
    NewId(b, seen, stmts, names, r);
    LoopsUnder(b.body, pid, s);
    LoopsInAppend(b.body, [s]);
    forall l: LoopId | LoopRef(l) in seen
      ensures RefId(stmts, LoopRef(l)) != RefId(stmts, r)
    {
      assert RefId(stmts, LoopRef(l)) in b.ids;
    }
  }

  /** Reading the records of a block puts its statements, in order, below its parent. */
  ghost predicate Restores(vars: seq<LocalVar>, fin: Tables, m: Nodes, b: Builder, recs: seq<Placed>,
                           names: map<LoopId, string>, body: seq<Stmt>, seen: set<Ref>, b': Builder)
  {
    BuildS(vars, fin.strs, m, b, recs) == Some(b') && b'.body == body && Known(b', seen, fin.stmts, names)
  }

  ghost function Restored(vars: seq<LocalVar>, fin: Tables, m: Nodes, b: Builder, recs: seq<Placed>): Builder
  {
    var r := BuildS(vars, fin.strs, m, b, recs);
    if r.Some? then r.value else b
  }

  /** What the next records need. */
  ghost predicate ReadyFor(vars: seq<LocalVar>, fl: Floats, fin: Tables, m: Nodes, b: Builder,
                           names: map<LoopId, string>, ss: seq<Stmt>, scope: set<LoopId>, parent: Ref, n: nat, k: nat,
                           seen: set<Ref>)
  {
    PlainB(vars, fl, ss) && WfB(ss, scope) && HeldB(m, fin.stmts, ss, n) && Known(b, seen, fin.stmts, names) &&
    parent in seen && ProgRef in seen && fin.stmts != [] && fin.stmts[0] == ProgRef &&
    forall r | r in RefsB(ss, k) :: r !in seen
  }

  lemma {:induction false} LeafRestored(vars: seq<LocalVar>, fl: Floats, names: map<LoopId, string>, s: Stmt,
                                        scope: set<LoopId>, parent: Ref, n: nat, k: nat, t: Tables, fin: Tables,
                                        m: Nodes, b: Builder, seen: set<Ref>)
    requires s.Store? || s.StoreLocal? || s.Call?
    requires ReadyFor(vars, fl, fin, m, b, names, [s], scope, parent, n, k, seen)
    requires Extends(EmitS(vars, names, s, parent, n, k, t).t, fin)
    ensures var recs := EmitS(vars, names, s, parent, n, k, t).recs;
      Restores(vars, fin, m, b, recs, names, Under(b.body, RefId(fin.stmts, parent), RenameS(s, fin.stmts)),
               seen + RefsS(s, k), Restored(vars, fin, m, b, recs))
  {
    hide EmitS, EmitB, WithRef, WithStr, LeafRec, Placing, WfB, Under, RenameS, HeldS, PlainS, RefId, StrId, VarIndex;
    var me := LeafRef(k);
    assert [s][1..] == [];
    var p := LeafWritten(vars, fl, names, s, parent, n, k, t, fin);
    assert me in RefsB([s], k) && [p][1..] == [];
    NewId(b, seen, fin.stmts, names, me);
    LeafPlaced(vars, fin, m, b, s, n, p);
    var b' := Builder(Under(b.body, p.parent, RenameS(s, fin.stmts)), b.names, b.ids + {p.id});
    KnownMore(b, seen, fin.stmts, names, me, p.parent, RenameS(s, fin.stmts), b');
    assert RefsS(s, k) == {me};
    assert BuildS(vars, fin.strs, m, b, [p]) == Some(b');
    assert Restored(vars, fin, m, b, [p]) == b';
    assert Known(b', seen + RefsS(s, k), fin.stmts, names);
  }

  /** The one record of a leaf, in terms of the final tables. */
  lemma {:induction false} LeafWritten(vars: seq<LocalVar>, fl: Floats, names: map<LoopId, string>, s: Stmt,
                                       parent: Ref, n: nat, k: nat, t: Tables, fin: Tables) returns (p: Placed)
    requires s.Store? || s.StoreLocal? || s.Call?
    requires PlainS(vars, fl, s) && Extends(EmitS(vars, names, s, parent, n, k, t).t, fin)
    ensures EmitS(vars, names, s, parent, n, k, t).recs == [p]
    ensures p == Placed(RefId(fin.stmts, LeafRef(k)), RefId(fin.stmts, parent), LeafRec(vars, s, n, fin.strs))
    ensures p.id < |fin.stmts| && p.parent < |fin.stmts|
    ensures s.StoreLocal? ==> VarIndex(vars, s.v) < |vars| && vars[VarIndex(vars, s.v)] == s.v
    ensures s.Call? ==> StrId(fin.strs, s.name) < |fin.strs| && fin.strs[StrId(fin.strs, s.name)] == s.name
  {
    var recs := EmitS(vars, names, s, parent, n, k, t).recs;
    p := recs[0];
    assert recs[1..] == [] && recs == [p];
    var t1 := WithRef(WithRef(t, LeafRef(k)), parent);
    if s.Call? {
      Equivalences();
      IdStays(t1.strs, s.name, SameString(), fin.strs);
      InternExtends(t1.strs, s.name, SameString());
    } else if s.StoreLocal? {
      VarIndexIs(vars, s.v);
    }
    IdsFinal(fin, t, LeafRef(k), parent);
  }

  lemma {:induction false} LeafPlaced(vars: seq<LocalVar>, fin: Tables, m: Nodes, b: Builder, s: Stmt, n: nat,
                                      p: Placed)
    requires s.Store? || s.StoreLocal? || s.Call?
    requires HeldS(m, fin.stmts, s, n) && p.id !in b.ids && p.parent in b.ids && p.rec == LeafRec(vars, s, n, fin.strs)
    requires s.StoreLocal? ==> VarIndex(vars, s.v) < |vars| && vars[VarIndex(vars, s.v)] == s.v
    requires s.Call? ==> StrId(fin.strs, s.name) < |fin.strs| && fin.strs[StrId(fin.strs, s.name)] == s.name
    ensures Placing(vars, fin.strs, m, b, p) ==
      Some(Builder(Under(b.body, p.parent, RenameS(s, fin.stmts)), b.names, b.ids + {p.id}))
    ensures LoopsIn([RenameS(s, fin.stmts)]) == {}
  {
    var x := RenameS(s, fin.stmts);
    assert [x][1..] == [];
  }

  lemma {:induction false} StmtRestored(vars: seq<LocalVar>, fl: Floats, names: map<LoopId, string>, s: Stmt,
                                        scope: set<LoopId>, parent: Ref, n: nat, k: nat, t: Tables, fin: Tables,
                                        m: Nodes, b: Builder, seen: set<Ref>)
    requires ReadyFor(vars, fl, fin, m, b, names, [s], scope, parent, n, k, seen)
    requires Extends(EmitS(vars, names, s, parent, n, k, t).t, fin)
    ensures var recs := EmitS(vars, names, s, parent, n, k, t).recs;
      Restores(vars, fin, m, b, recs, names, Under(b.body, RefId(fin.stmts, parent), RenameS(s, fin.stmts)),
               seen + RefsS(s, k), Restored(vars, fin, m, b, recs))
    decreases s, 1
  {
    hide Restores, Known, BuildS, Restored;
    assert [s][1..] == [];
    assert PlainS(vars, fl, s);
    match s
    case Loop(_, _, _, _) => LoopRestored(vars, fl, names, s, scope, parent, n, k, t, fin, m, b, seen);
    case IfRange(_, _, _, _) =>
    case _ => LeafRestored(vars, fl, names, s, scope, parent, n, k, t, fin, m, b, seen);
  }

  /** The loop s is added below its parent, still empty. */
  function WithLoop(b: Builder, fin: Tables, names: map<LoopId, string>, s: Stmt, parent: Ref): Builder
    requires s.Loop?
  {
    var id := RefId(fin.stmts, LoopRef(s.id));
    Builder(Under(b.body, RefId(fin.stmts, parent), Loop(id, s.end, s.stride, [])),
      b.names[id := LoopName(names, s.id)], b.ids + {id})
  }

  /** The record of a loop adds the loop, still empty. */
  lemma {:induction false} LoopPlaced(vars: seq<LocalVar>, names: map<LoopId, string>, s: Stmt, parent: Ref, t: Tables,
                                      fin: Tables, m: Nodes, b: Builder, seen: set<Ref>)
    requires s.Loop? && Known(b, seen, fin.stmts, names) && parent in seen && LoopRef(s.id) !in seen
    requires var t1 := WithRef(WithRef(t, LoopRef(s.id)), parent); Extends(WithStr(t1, LoopName(names, s.id)), fin)
    ensures var t1 := WithRef(WithRef(t, LoopRef(s.id)), parent);
      RefId(t1.stmts, LoopRef(s.id)) == RefId(fin.stmts, LoopRef(s.id)) < |fin.stmts| &&
      RefId(t1.stmts, parent) == RefId(fin.stmts, parent)
    ensures RefId(fin.stmts, LoopRef(s.id)) !in b.ids && RefId(fin.stmts, parent) in b.ids
    ensures var name := StrId(WithStr(WithRef(WithRef(t, LoopRef(s.id)), parent), LoopName(names, s.id)).strs,
      LoopName(names, s.id));
      Placing(vars, fin.strs, m, b, Placed(RefId(fin.stmts, LoopRef(s.id)), RefId(fin.stmts, parent),
        SLoop(name, s.end, s.stride))) ==
      Some(WithLoop(b, fin, names, s, parent))
    ensures Known(WithLoop(b, fin, names, s, parent), seen + {LoopRef(s.id)}, fin.stmts, names)
  {
    var me := LoopRef(s.id);
    var t1 := WithRef(WithRef(t, me), parent);
    Equivalences();
    IdStays(t1.strs, LoopName(names, s.id), SameString(), fin.strs);
    IdsFinal(fin, t, me, parent);
    NewId(b, seen, fin.stmts, names, me);
    var id, pid := RefId(fin.stmts, me), RefId(fin.stmts, parent);
    var L := Loop(id, s.end, s.stride, []);
    assert [L][1..] == [] && LoopsIn([L]) == {id};
    var name := StrId(WithStr(t1, LoopName(names, s.id)).strs, LoopName(names, s.id));
    assert name < |fin.strs| && fin.strs[name] == LoopName(names, s.id);
    assert id !in b.ids && pid in b.ids;
    var b1 := WithLoop(b, fin, names, s, parent);
    KnownMore(b, seen, fin.stmts, names, me, pid, L, b1);
    assert RefId(t1.stmts, me) == id && RefId(t1.stmts, parent) == pid && id < |fin.stmts|;
    assert Placing(vars, fin.strs, m, b, Placed(id, pid, SLoop(name, s.end, s.stride))) == Some(b1);
  }

  lemma {:induction false} BuildSFirst(vars: seq<LocalVar>, strs: seq<string>, m: Nodes, b: Builder, p: Placed,
                                       recs: seq<Placed>, b1: Builder)
    requires Placing(vars, strs, m, b, p) == Some(b1)
    ensures BuildS(vars, strs, m, b, [p] + recs) == BuildS(vars, strs, m, b1, recs)
  {
    assert ([p] + recs)[1..] == recs;
  }

  lemma {:induction false} RestoresIs(vars: seq<LocalVar>, fin: Tables, m: Nodes, b: Builder, recs: seq<Placed>,
                                      names: map<LoopId, string>, body: seq<Stmt>, seen: set<Ref>)
    requires Restores(vars, fin, m, b, recs, names, body, seen, Restored(vars, fin, m, b, recs))
    ensures BuildS(vars, fin.strs, m, b, recs).Some? &&
      BuildS(vars, fin.strs, m, b, recs).value.body == body &&
        Known(BuildS(vars, fin.strs, m, b, recs).value, seen, fin.stmts, names)
  {}

  lemma {:induction false} IsRestores(vars: seq<LocalVar>, fin: Tables, m: Nodes, b: Builder, recs: seq<Placed>,
                                      names: map<LoopId, string>, body: seq<Stmt>, seen: set<Ref>)
    requires BuildS(vars, fin.strs, m, b, recs).Some? &&
      BuildS(vars, fin.strs, m, b, recs).value.body == body &&
        Known(BuildS(vars, fin.strs, m, b, recs).value, seen, fin.stmts, names)
    ensures Restores(vars, fin, m, b, recs, names, body, seen, Restored(vars, fin, m, b, recs))
  {}

  /** An empty new loop that is then filled is the loop of the program. */
  lemma {:induction false} LoopFilled(b: Builder, seen: set<Ref>, names: map<LoopId, string>, fin: Tables, s: Stmt,
                                      parent: Ref)
    requires s.Loop? && Known(b, seen, fin.stmts, names) && parent in seen && ProgRef in seen
    requires fin.stmts != [] && fin.stmts[0] == ProgRef && RefId(fin.stmts, LoopRef(s.id)) !in b.ids
    ensures var id, pid := RefId(fin.stmts, LoopRef(s.id)), RefId(fin.stmts, parent);
      AllUnder(Under(b.body, pid, Loop(id, s.end, s.stride, [])), id, RenameB(s.body, fin.stmts)) ==
      Under(b.body, pid, RenameS(s, fin.stmts))
  {
    var id, pid := RefId(fin.stmts, LoopRef(s.id)), RefId(fin.stmts, parent);
    assert RefId(fin.stmts, ProgRef) == 0;
    FillLoop(b.body, pid, id, s.end, s.stride, [], RenameB(s.body, fin.stmts));
    assert [] + RenameB(s.body, fin.stmts) == RenameB(s.body, fin.stmts);
  }

  lemma {:induction false} EmitLoop(vars: seq<LocalVar>, names: map<LoopId, string>, s: Stmt, parent: Ref, n: nat,
                                    k: nat, t: Tables)
    requires s.Loop?
    ensures var t1 := WithRef(WithRef(t, LoopRef(s.id)), parent);
      var t2 := WithStr(t1, LoopName(names, s.id));
      var x := EmitB(vars, names, s.body, LoopRef(s.id), n, k, t2);
      var p := Placed(RefId(t1.stmts, LoopRef(s.id)), RefId(t1.stmts, parent),
                      SLoop(StrId(t2.strs, LoopName(names, s.id)), s.end, s.stride));
      EmitS(vars, names, s, parent, n, k, t) == EmittedS([p] + x.recs, x.t)
  {}

  lemma {:induction false} LoopRestored(vars: seq<LocalVar>, fl: Floats, names: map<LoopId, string>, s: Stmt,
                                        scope: set<LoopId>, parent: Ref, n: nat, k: nat, t: Tables, fin: Tables,
                                        m: Nodes, b: Builder, seen: set<Ref>)
    requires s.Loop? && ReadyFor(vars, fl, fin, m, b, names, [s], scope, parent, n, k, seen)
    requires Extends(EmitS(vars, names, s, parent, n, k, t).t, fin)
    ensures var recs := EmitS(vars, names, s, parent, n, k, t).recs;
      Restores(vars, fin, m, b, recs, names, Under(b.body, RefId(fin.stmts, parent), RenameS(s, fin.stmts)),
               seen + RefsS(s, k), Restored(vars, fin, m, b, recs))
    decreases s, 0
  {
    hide WfS, WfB, PlainS, PlainB, HeldS, HeldB, Known, Restores, Restored, BuildS, Placing, Under, AllUnder, RenameS,
      RefId, StrId;
    hide EmitS, EmitB, WithRef, WithStr, LoopName, ReadyFor;
    EmitLoop(vars, names, s, parent, n, k, t);
    var me := LoopRef(s.id);
    var t1 := WithRef(WithRef(t, me), parent);
    var t2 := WithStr(t1, LoopName(names, s.id));
    var x := EmitB(vars, names, s.body, me, n, k, t2);
    EmitExtends(vars, names, s.body, me, n, k, t2);
    LoopParts(vars, fl, fin, m, b, names, s, scope, parent, n, k, seen);
    LoopPlaced(vars, names, s, parent, t, fin, m, b, seen);
    var id, pid := RefId(fin.stmts, me), RefId(fin.stmts, parent);
    var b1 := WithLoop(b, fin, names, s, parent);
    var p := Placed(id, pid, SLoop(StrId(t2.strs, LoopName(names, s.id)), s.end, s.stride));
    BodyReady(vars, fl, fin, m, b1, names, s, scope, n, k, seen);
    BlockRestored(vars, fl, names, s.body, scope + {s.id}, me, n, k, t2, fin, m, b1, seen + {me});
    LoopFilled(b, seen, names, fin, s, parent);
    RestoresIs(vars, fin, m, b1, x.recs, names, AllUnder(b1.body, id, RenameB(s.body, fin.stmts)),
      seen + {me} + RefsB(s.body, k));
    BuildSFirst(vars, fin.strs, m, b, p, x.recs, b1);
    assert seen + {me} + RefsB(s.body, k) == seen + RefsS(s, k);
    IsRestores(vars, fin, m, b, [p] + x.recs, names, Under(b.body, pid, RenameS(s, fin.stmts)), seen + RefsS(s, k));
  }

  /** What readiness for a loop says about it. */
  lemma {:induction false} LoopParts(vars: seq<LocalVar>, fl: Floats, fin: Tables, m: Nodes, b: Builder,
                                     names: map<LoopId, string>, s: Stmt, scope: set<LoopId>, parent: Ref, n: nat,
                                     k: nat, seen: set<Ref>)
    requires s.Loop? && ReadyFor(vars, fl, fin, m, b, names, [s], scope, parent, n, k, seen)
    ensures LoopRef(s.id) !in seen && parent in seen && ProgRef in seen
    ensures PlainB(vars, fl, s.body) && WfB(s.body, scope + {s.id}) && HeldB(m, fin.stmts, s.body, n)
    ensures forall r | r in RefsB(s.body, k) :: r !in seen && r != LoopRef(s.id)
    ensures fin.stmts != [] && fin.stmts[0] == ProgRef
    ensures Known(b, seen, fin.stmts, names)
  {
    hide Known;
    assert [s][1..] == [];
    assert PlainS(vars, fl, s) && WfS(s, scope) && HeldS(m, fin.stmts, s, n);
    assert RefsB([s], k) == RefsS(s, k) + RefsB([], k + LeavesS(s));
    WfBoundFresh(s.body, scope + {s.id});
    RefsAre(s.body, k);
  }

  lemma {:induction false} BodyReady(vars: seq<LocalVar>, fl: Floats, fin: Tables, m: Nodes, b1: Builder,
                                     names: map<LoopId, string>, s: Stmt, scope: set<LoopId>, n: nat, k: nat,
                                     seen: set<Ref>)
    requires s.Loop? && ProgRef in seen && Known(b1, seen + {LoopRef(s.id)}, fin.stmts, names)
    requires PlainB(vars, fl, s.body) && WfB(s.body, scope + {s.id}) && HeldB(m, fin.stmts, s.body, n)
    requires forall r | r in RefsB(s.body, k) :: r !in seen && r != LoopRef(s.id)
    requires fin.stmts != [] && fin.stmts[0] == ProgRef
    ensures ReadyFor(vars, fl, fin, m, b1, names, s.body, scope + {s.id}, LoopRef(s.id), n, k, seen + {LoopRef(s.id)})
  {}

  /** The records of a block rebuild its statements below its parent, in order. */
  lemma {:induction false} BlockRestored(vars: seq<LocalVar>, fl: Floats, names: map<LoopId, string>, ss: seq<Stmt>,
                                         scope: set<LoopId>, parent: Ref, n: nat, k: nat, t: Tables, fin: Tables,
                                         m: Nodes, b: Builder, seen: set<Ref>)
    requires ReadyFor(vars, fl, fin, m, b, names, ss, scope, parent, n, k, seen)
    requires Extends(EmitB(vars, names, ss, parent, n, k, t).t, fin)
    ensures var recs := EmitB(vars, names, ss, parent, n, k, t).recs;
      Restores(vars, fin, m, b, recs, names, AllUnder(b.body, RefId(fin.stmts, parent), RenameB(ss, fin.stmts)),
               seen + RefsB(ss, k), Restored(vars, fin, m, b, recs))
    decreases ss, 2
  {
    hide WfS, WfB, PlainS, PlainB, HeldS, HeldB, Known, Restores, Restored, BuildS, Placing, Under, RenameS, RefsS,
      EmitS, LeavesS, CountExprsS;
    if ss == [] {
      NothingRestored(vars, fin, m, b, names, seen);
      assert seen + RefsB(ss, k) == seen;
      assert ReadyFor(vars, fl, fin, m, b, names, ss, scope, parent, n, k, seen);
    } else {
      var s, rest := ss[0], ss[1..];
      var n', k' := n + CountExprsS(s), k + LeavesS(s);
      var x := EmitS(vars, names, s, parent, n, k, t);
      var y := EmitB(vars, names, rest, parent, n', k', x.t);
      var pid := RefId(fin.stmts, parent);
      EmitExtends(vars, names, rest, parent, n', k', x.t);
      HeadReady(vars, fl, fin, m, b, names, ss, scope, parent, n, k, seen);
      StmtRestored(vars, fl, names, s, scope, parent, n, k, t, fin, m, b, seen);
      var b1 := Restored(vars, fin, m, b, x.recs);
      RestoredIs(vars, fin, m, b, x.recs, names, Under(b.body, pid, RenameS(s, fin.stmts)), seen + RefsS(s, k));
      RestReady(vars, fl, fin, m, b, b1, names, ss, scope, parent, n, k, seen);
      BlockRestored(vars, fl, names, rest, scope, parent, n', k', x.t, fin, m, b1, seen + RefsS(s, k));
      var all := AllUnder(b1.body, pid, RenameB(rest, fin.stmts));
      RestoresIs(vars, fin, m, b1, y.recs, names, all, seen + RefsS(s, k) + RefsB(rest, k'));
      BuildSAppend(vars, fin.strs, m, b, x.recs, y.recs);
      assert seen + RefsS(s, k) + RefsB(rest, k') == seen + RefsB(ss, k);
      assert RenameB(ss, fin.stmts) == [RenameS(s, fin.stmts)] + RenameB(rest, fin.stmts);
      assert all == AllUnder(b.body, pid, RenameB(ss, fin.stmts));
      IsRestores(vars, fin, m, b, x.recs + y.recs, names, all, seen + RefsB(ss, k));
    }
  }

  lemma {:induction false} NothingRestored(vars: seq<LocalVar>, fin: Tables, m: Nodes, b: Builder,
                                           names: map<LoopId, string>, seen: set<Ref>)
    requires Known(b, seen, fin.stmts, names)
    ensures Restores(vars, fin, m, b, [], names, b.body, seen, Restored(vars, fin, m, b, []))
  {}

  lemma {:induction false} RestoredIs(vars: seq<LocalVar>, fin: Tables, m: Nodes, b: Builder, recs: seq<Placed>,
                                      names: map<LoopId, string>, body: seq<Stmt>, seen: set<Ref>)
    requires Restores(vars, fin, m, b, recs, names, body, seen, Restored(vars, fin, m, b, recs))
    ensures var b1 := Restored(vars, fin, m, b, recs);
      BuildS(vars, fin.strs, m, b, recs) == Some(b1) && b1.body == body && Known(b1, seen, fin.stmts, names)
  {}

  lemma {:induction false} HeadReady(vars: seq<LocalVar>, fl: Floats, fin: Tables, m: Nodes, b: Builder,
                                     names: map<LoopId, string>, ss: seq<Stmt>, scope: set<LoopId>, parent: Ref, n: nat,
                                     k: nat, seen: set<Ref>)
    requires ss != [] && ReadyFor(vars, fl, fin, m, b, names, ss, scope, parent, n, k, seen)
    ensures ReadyFor(vars, fl, fin, m, b, names, [ss[0]], scope, parent, n, k, seen)
  {
    assert [ss[0]][1..] == [];
    assert RefsB([ss[0]], k) == RefsS(ss[0], k) + RefsB([], k + LeavesS(ss[0]));
    Single(ss[0]);
  }

  lemma {:induction false} RestReady(vars: seq<LocalVar>, fl: Floats, fin: Tables, m: Nodes, b: Builder, b1: Builder,
                                     names: map<LoopId, string>, ss: seq<Stmt>, scope: set<LoopId>, parent: Ref, n: nat,
                                     k: nat, seen: set<Ref>)
    requires ss != [] && ReadyFor(vars, fl, fin, m, b, names, ss, scope, parent, n, k, seen)
    requires Known(b1, seen + RefsS(ss[0], k), fin.stmts, names)
    ensures ReadyFor(vars, fl, fin, m, b1, names, ss[1..], scope, parent, n + CountExprsS(ss[0]), k + LeavesS(ss[0]),
                     seen + RefsS(ss[0], k))
  {
    hide Known, PlainS, WfS, HeldS, RefsS, CountExprsS, LeavesS;
    RefsAreS(ss[0], k);
    RefsAre(ss[1..], k + LeavesS(ss[0]));
    forall r | r in RefsB(ss[1..], k + LeavesS(ss[0])) ensures r !in seen + RefsS(ss[0], k) {
      assert r in RefsB(ss, k);
    }
  }
}
