/** Bytecode of statements: parents before children, and building the tree again. */
module BytecodeStmts {
  import opened IR
  import opened Interning
  import opened Records
  import opened BytecodeExprs

  // ---- The expressions of all statements, in program order ----------------------------------

  function CountExprsS(s: Stmt): nat
    decreases s, 1
  {
    match s
    case Loop(_, _, _, body) => CountExprs(body)
    case IfRange(v, _, _, body) => CountE(v) + CountExprs(body)
    case Store(_, subs, v, _) => CountAll(subs) + 1 + CountE(v)
    case StoreLocal(_, v, _) => CountE(v)
    case Call(_, ps) => CountAll(ps)
  }

  function CountExprs(ss: seq<Stmt>): nat
    decreases ss, 0
  {
    if ss == [] then 0 else CountExprsS(ss[0]) + CountExprs(ss[1..])
  }

  function EmitExprsS(vars: seq<LocalVar>, fl: Floats, s: Stmt, n: nat, t: Tables): Emitted
    decreases s, 1
  {
    match s
    case Loop(_, _, _, body) => EmitExprs(vars, fl, body, n, t)
    case IfRange(v, _, _, body) =>
      var x := EmitE(vars, fl, v, n, t);
      var y := EmitExprs(vars, fl, body, n + CountE(v), x.t);
      Emitted(x.recs + y.recs, y.t)
    case Store(arg, subs, v, _) =>
      var x := EmitAll(vars, fl, subs, n, t);
      var g := Numbered(n + CountAll(subs), RGep(arg, RootIds(subs, n)));
      var y := EmitE(vars, fl, v, n + CountAll(subs) + 1, x.t);
      Emitted(x.recs + [g] + y.recs, y.t)
    case StoreLocal(_, v, _) => EmitE(vars, fl, v, n, t)
    case Call(_, ps) => EmitAll(vars, fl, ps, n, t)
  }

  function EmitExprs(vars: seq<LocalVar>, fl: Floats, ss: seq<Stmt>, n: nat, t: Tables): Emitted
    decreases ss, 0
  {
    if ss == [] then Emitted([], t)
    else
      var x := EmitExprsS(vars, fl, ss[0], n, t);
      var y := EmitExprs(vars, fl, ss[1..], n + CountExprsS(ss[0]), x.t);
      Emitted(x.recs + y.recs, y.t)
  }

  lemma {:induction false} EmitExprsCount(vars: seq<LocalVar>, fl: Floats, ss: seq<Stmt>, n: nat, t: Tables)
    ensures var r := EmitExprs(vars, fl, ss, n, t);
      |r.recs| == CountExprs(ss) && Extends(t, r.t) && (Unique(t) ==> Unique(r.t))
    decreases ss, 0
  {
    hide Unique;
    if ss != [] {
      EmitExprsCountS(vars, fl, ss[0], n, t);
      EmitExprsCount(vars, fl, ss[1..], n + CountExprsS(ss[0]), EmitExprsS(vars, fl, ss[0], n, t).t);
    }
  }

  lemma {:induction false} EmitExprsCountS(vars: seq<LocalVar>, fl: Floats, s: Stmt, n: nat, t: Tables)
    ensures var r := EmitExprsS(vars, fl, s, n, t);
      |r.recs| == CountExprsS(s) && Extends(t, r.t) && (Unique(t) ==> Unique(r.t))
    decreases s, 1
  {
    hide Unique;
    match s
    case Loop(_, _, _, body) => EmitExprsCount(vars, fl, body, n, t);
    case IfRange(v, _, _, body) =>
      EmitCount(vars, fl, v, n, t);
      EmitExprsCount(vars, fl, body, n + CountE(v), EmitE(vars, fl, v, n, t).t);
    case Store(_, subs, v, _) =>
      EmitAllCount(vars, fl, subs, n, t);
      EmitCount(vars, fl, v, n + CountAll(subs) + 1, EmitAll(vars, fl, subs, n, t).t);
    case StoreLocal(_, v, _) => EmitCount(vars, fl, v, n, t);
    case Call(_, ps) => EmitAllCount(vars, fl, ps, n, t);
  }

  // ---- Writing statements ----------------------------------------------------------------------

  datatype EmittedS = EmittedS(recs: seq<Placed>, t: Tables)

  function LoopName(names: map<LoopId, string>, l: LoopId): string { if l in names then names[l] else "" }

  /** The number of statements that are not loops. */
  function LeavesS(s: Stmt): nat
    decreases s, 1
  {
    match s
    case Loop(_, _, _, body) => Leaves(body)
    case IfRange(_, _, _, body) => 1 + Leaves(body)
    case _ => 1
  }

  function Leaves(ss: seq<Stmt>): nat
    decreases ss, 0
  {
    if ss == [] then 0 else LeavesS(ss[0]) + Leaves(ss[1..])
  }

  /** The fields of a statement that is no loop. */
  function LeafRec(vars: seq<LocalVar>, s: Stmt, n: nat, strs: seq<string>): SRec
    requires !s.Loop?
  {
    match s
    case IfRange(v, start, stop, _) => SIfRange(n + CountE(v) - 1, start % WORD, stop % WORD)
    case Store(_, subs, v, acc) => SStore(acc, n + CountAll(subs) + CountE(v), n + CountAll(subs))
    case StoreLocal(v, value, acc) => SStoreLocal(VarIndex(vars, v), acc, n + CountE(value) - 1)
    case Call(callee, ps) => SCall(StrId(strs, callee), RootIds(ps, n))
  }

  /** The records of s, whose first expression has number n and whose first leaf is leaf k. */
  function EmitS(vars: seq<LocalVar>, names: map<LoopId, string>, s: Stmt, parent: Ref, n: nat, k: nat,
                 t: Tables): EmittedS
    decreases s, 1
  {
    var me := if s.Loop? then LoopRef(s.id) else LeafRef(k);
    var t1 := WithRef(WithRef(t, me), parent);
    var id, pid := RefId(t1.stmts, me), RefId(t1.stmts, parent);
    match s
    case Loop(l, end, stride, body) =>
      var t2 := WithStr(t1, LoopName(names, l));
      var x := EmitB(vars, names, body, me, n, k, t2);
      EmittedS([Placed(id, pid, SLoop(StrId(t2.strs, LoopName(names, l)), end, stride))] + x.recs, x.t)
    case IfRange(v, _, _, body) =>
      var x := EmitB(vars, names, body, me, n + CountE(v), k + 1, t1);
      EmittedS([Placed(id, pid, LeafRec(vars, s, n, t1.strs))] + x.recs, x.t)
    case Call(callee, _) =>
      var t2 := WithStr(t1, callee);
      EmittedS([Placed(id, pid, LeafRec(vars, s, n, t2.strs))], t2)
    case _ => EmittedS([Placed(id, pid, LeafRec(vars, s, n, t1.strs))], t1)
  }

  function EmitB(vars: seq<LocalVar>, names: map<LoopId, string>, ss: seq<Stmt>, parent: Ref, n: nat, k: nat,
                 t: Tables): EmittedS
    decreases ss, 0
  {
    if ss == [] then EmittedS([], t)
    else
      var x := EmitS(vars, names, ss[0], parent, n, k, t);
      var y := EmitB(vars, names, ss[1..], parent, n + CountExprsS(ss[0]), k + LeavesS(ss[0]), x.t);
      EmittedS(x.recs + y.recs, y.t)
  }

  lemma {:induction false} EmitExtendsS(vars: seq<LocalVar>, names: map<LoopId, string>, s: Stmt, parent: Ref, n: nat,
                                        k: nat, t: Tables)
    ensures var u := EmitS(vars, names, s, parent, n, k, t).t; Extends(t, u) && (Unique(t) ==> Unique(u))
    decreases s, 1
  {
    hide Unique, Interned;
    var me := if s.Loop? then LoopRef(s.id) else LeafRef(k);
    var t1 := WithRef(WithRef(t, me), parent);
    var y := ExprType(IndexTy, 1);
    WithStep(t, "", y, me);
    WithStep(WithRef(t, me), "", y, parent);
    match s
    case Loop(l, _, _, body) =>
      WithStep(t1, LoopName(names, l), y, me);
      EmitExtends(vars, names, body, me, n, k, WithStr(t1, LoopName(names, l)));
    case IfRange(v, _, _, body) => EmitExtends(vars, names, body, me, n + CountE(v), k + 1, t1);
    case Call(callee, _) => WithStep(t1, callee, y, me);
    case _ =>
  }

  lemma {:induction false} EmitExtends(vars: seq<LocalVar>, names: map<LoopId, string>, ss: seq<Stmt>, parent: Ref,
                                       n: nat, k: nat, t: Tables)
    ensures var u := EmitB(vars, names, ss, parent, n, k, t).t; Extends(t, u) && (Unique(t) ==> Unique(u))
    decreases ss, 0
  {
    hide Unique;
    if ss != [] {
      EmitExtendsS(vars, names, ss[0], parent, n, k, t);
      EmitExtends(vars, names, ss[1..], parent, n + CountExprsS(ss[0]), k + LeavesS(ss[0]),
                  EmitS(vars, names, ss[0], parent, n, k, t).t);
    }
  }

  // ---- Reading ------------------------------------------------------------------------------------

  /** addStmt on the loop with number pid. */
  function UnderLoop(ss: seq<Stmt>, pid: nat, s: Stmt): seq<Stmt>
  {
    if ss == [] then []
    else
      [match ss[0]
       case Loop(id, end, stride, body) =>
         if id == pid then Loop(id, end, stride, body + [s]) else Loop(id, end, stride, UnderLoop(body, pid, s))
       case _ => ss[0]]
      + UnderLoop(ss[1..], pid, s)
  }

  /** addStmt on the program (number zero) or on a loop. */
  function Under(ss: seq<Stmt>, pid: nat, s: Stmt): seq<Stmt>
  {
    if pid == 0 then ss + [s] else UnderLoop(ss, pid, s)
  }

  function AllUnder(ss: seq<Stmt>, pid: nat, xs: seq<Stmt>): seq<Stmt>
    decreases |xs|
  {
    if xs == [] then ss else AllUnder(Under(ss, pid, xs[0]), pid, xs[1..])
  }

  /** What is built so far: the program, the names of its loops, and the registered numbers. */
  datatype Builder = Builder(body: seq<Stmt>, names: map<nat, string>, ids: set<nat>)

  /** deserializeStmt: one more statement below its parent. A loop is identified by its number. */
  function Placing(vars: seq<LocalVar>, strs: seq<string>, m: Nodes, b: Builder, p: Placed): Option<Builder>
  {
    if p.id in b.ids || p.parent !in b.ids then None
    else
      match p.rec
      case SLoop(name, end, stride) =>
        if name >= |strs| then None
        else Some(Builder(Under(b.body, p.parent, Loop(p.id, end, stride, [])), b.names[p.id := strs[name]],
          b.ids + {p.id}))
      case SStore(acc, v, g) =>
        if IsExpr(m, v) && g in m && m[g].NG?
        then Some(Builder(Under(b.body, p.parent, Store(m[g].arg, m[g].subs, m[v].e, acc)), b.names, b.ids + {p.id}))
        else None
      case SStoreLocal(v, acc, x) =>
        if v < |vars| && IsExpr(m, x)
        then Some(Builder(Under(b.body, p.parent, StoreLocal(vars[v], m[x].e, acc)), b.names, b.ids + {p.id}))
        else None
      case SCall(callee, ps) =>
        if callee < |strs| && AreExprs(m, ps)
        then Some(Builder(Under(b.body, p.parent, Call(strs[callee], ExprsAt(m, ps))), b.names, b.ids + {p.id}))
        else None
      // Ifs are built as well, but their statements cannot be told apart here.
      case SIfRange(_, _, _) => None
  }

  function BuildS(vars: seq<LocalVar>, strs: seq<string>, m: Nodes, b: Builder, recs: seq<Placed>): Option<Builder>
    decreases |recs|
  {
    if recs == [] then Some(b)
    else
      var x := Placing(vars, strs, m, b, recs[0]);
      if x.None? then None else BuildS(vars, strs, m, x.value, recs[1..])
  }

  lemma {:induction false} BuildSAppend(vars: seq<LocalVar>, strs: seq<string>, m: Nodes, b: Builder, x: seq<Placed>,
                                        y: seq<Placed>)
    ensures var r := BuildS(vars, strs, m, b, x);
      BuildS(vars, strs, m, b, x + y) == if r.None? then None else BuildS(vars, strs, m, r.value, y)
    decreases |x|
  {
    if x == [] {
      assert x + y == y;
    } else {
      assert (x + y)[0] == x[0] && (x + y)[1..] == x[1..] + y;
      var r := Placing(vars, strs, m, b, x[0]);
      if r.Some? { BuildSAppend(vars, strs, m, r.value, x[1..], y); }
    }
  }

  // ---- Adding statements below a loop ---------------------------------------------------------

  lemma {:induction false} UnderLoopAppend(a: seq<Stmt>, b: seq<Stmt>, pid: nat, s: Stmt)
    ensures UnderLoop(a + b, pid, s) == UnderLoop(a, pid, s) + UnderLoop(b, pid, s)
  {
    if a == [] {
      assert a + b == b;
    } else {
      assert (a + b)[0] == a[0] && (a + b)[1..] == a[1..] + b;
      UnderLoopAppend(a[1..], b, pid, s);
    }
  }

  /** A number that no loop has changes nothing. */
  lemma {:induction false} UnderNone(ss: seq<Stmt>, pid: nat, s: Stmt)
    requires pid !in LoopsIn(ss)
    ensures UnderLoop(ss, pid, s) == ss
    decreases ss
  {
    if ss != [] {
      UnderNone(ss[1..], pid, s);
      if ss[0].Loop? { UnderNone(ss[0].body, pid, s); }
    }
  }

  /** The numbers of the loops that statements can be added to. */
  function LoopsIn(ss: seq<Stmt>): set<nat>
  {
    if ss == [] then {} else (if ss[0].Loop? then {ss[0].id} + LoopsIn(ss[0].body) else {}) + LoopsIn(ss[1..])
  }

  lemma {:induction false} LoopsInAppend(a: seq<Stmt>, b: seq<Stmt>)
    ensures LoopsIn(a + b) == LoopsIn(a) + LoopsIn(b)
  {
    if a == [] {
      assert a + b == b;
    } else {
      assert (a + b)[0] == a[0] && (a + b)[1..] == a[1..] + b;
      LoopsInAppend(a[1..], b);
    }
  }

  lemma {:induction false} LoopsUnder(ss: seq<Stmt>, pid: nat, s: Stmt)
    ensures LoopsIn(UnderLoop(ss, pid, s)) <= LoopsIn(ss) + LoopsIn([s])
    decreases ss
  {
    if ss != [] {
      LoopsUnder(ss[1..], pid, s);
      if ss[0].Loop? {
        LoopsUnder(ss[0].body, pid, s);
        LoopsInAppend(ss[0].body, [s]);
      }
    }
  }

  /** A statement added below a loop that was just added is in that loop. */
  lemma {:induction false} UnderNew(ss: seq<Stmt>, pid: nat, i: nat, end: nat, stride: nat, ys: seq<Stmt>, x: Stmt)
    requires i !in LoopsIn(ss) && i != pid
    ensures UnderLoop(UnderLoop(ss, pid, Loop(i, end, stride, ys)), i, x) ==
      UnderLoop(ss, pid, Loop(i, end, stride, ys + [x]))
    decreases ss
  {
    if ss != [] {
      UnderNew(ss[1..], pid, i, end, stride, ys, x);
      var L, L' := Loop(i, end, stride, ys), Loop(i, end, stride, ys + [x]);
      var a := UnderLoop(ss, pid, L);
      assert a[1..] == UnderLoop(ss[1..], pid, L);
      if ss[0].Loop? {
        if ss[0].id == pid {
          UnderNone(ss[0].body, i, x);
          UnderLoopAppend(ss[0].body, [L], i, x);
          assert [L][1..] == [];
          assert UnderLoop([L], i, x) == [L'] + [];
          assert UnderLoop(ss[0].body + [L], i, x) == ss[0].body + [L'];
          assert a[0] == Loop(pid, ss[0].end, ss[0].stride, ss[0].body + [L]);
        } else {
          UnderNew(ss[0].body, pid, i, end, stride, ys, x);
          assert a[0] == Loop(ss[0].id, ss[0].end, ss[0].stride, UnderLoop(ss[0].body, pid, L));
        }
      } else {
        assert a[0] == ss[0];
      }
      assert UnderLoop(a, i, x)[1..] == UnderLoop(a[1..], i, x);
    }
  }

  lemma {:induction false} NewUnder(ss: seq<Stmt>, pid: nat, i: nat, end: nat, stride: nat, ys: seq<Stmt>, x: Stmt)
    requires i !in LoopsIn(ss) && i != pid && i != 0
    ensures Under(Under(ss, pid, Loop(i, end, stride, ys)), i, x) == Under(ss, pid, Loop(i, end, stride, ys + [x]))
  {
    if pid == 0 {
      var L := Loop(i, end, stride, ys);
      UnderNone(ss, i, x);
      UnderLoopAppend(ss, [L], i, x);
      assert [L][1..] == [];
      assert UnderLoop([L], i, x) == [Loop(i, end, stride, ys + [x])] + [];
    } else {
      UnderNew(ss, pid, i, end, stride, ys, x);
    }
  }

  /** Filling a new loop one by one is adding the full loop. */
  lemma {:induction false} FillLoop(ss: seq<Stmt>, pid: nat, i: nat, end: nat, stride: nat, ys: seq<Stmt>,
                                    xs: seq<Stmt>)
    requires i !in LoopsIn(ss) && i != pid && i != 0
    ensures AllUnder(Under(ss, pid, Loop(i, end, stride, ys)), i, xs) == Under(ss, pid, Loop(i, end, stride, ys + xs))
    decreases |xs|
  {
    if xs == [] {
      assert ys + xs == ys;
    } else {
      NewUnder(ss, pid, i, end, stride, ys, xs[0]);
      FillLoop(ss, pid, i, end, stride, ys + [xs[0]], xs[1..]);
      assert ys + [xs[0]] + xs[1..] == ys + xs;
    }
  }

  lemma {:induction false} AllUnderProgram(ss: seq<Stmt>, xs: seq<Stmt>)
    ensures AllUnder(ss, 0, xs) == ss + xs
    decreases |xs|
  {
    if xs != [] {
      AllUnderProgram(ss + [xs[0]], xs[1..]);
    }
  }
}
