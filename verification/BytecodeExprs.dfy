/** Bytecode of expressions: numbering, interning, and building the expressions again. */
module BytecodeExprs {
  import opened IR
  import opened Interning
  import opened Records

  /** What a statement number stands for: the program, a loop, or the k-th other statement. */
  datatype Ref = ProgRef | LoopRef(loop: LoopId) | LeafRef(k: nat)

  function SameRef(): (Ref, Ref) -> bool { (a: Ref, b: Ref) => a == b }

  /** The tables that grow while the program is written. */
  datatype Tables = Tables(strs: seq<string>, etys: seq<ExprType>, stmts: seq<Ref>)

  /** Later tables extend earlier ones. */
  predicate Extends(t: Tables, u: Tables) { t.strs <= u.strs && t.etys <= u.etys && t.stmts <= u.stmts }

  /** No entry occurs twice. */
  predicate Unique(t: Tables)
  {
    Distinct(t.strs, SameString()) && Distinct(t.etys, SameExprType()) && Distinct(t.stmts, SameRef())
  }

  function WithStr(t: Tables, s: string): Tables { Tables(Interned(t.strs, s, SameString()), t.etys, t.stmts) }
  function WithEty(t: Tables, y: ExprType): Tables { Tables(t.strs, Interned(t.etys, y, SameExprType()), t.stmts) }
  function WithRef(t: Tables, r: Ref): Tables { Tables(t.strs, t.etys, Interned(t.stmts, r, SameRef())) }

  lemma {:induction false} WithUnique(t: Tables, s: string, y: ExprType, r: Ref)
    requires Unique(t)
    ensures Unique(WithStr(t, s)) && Unique(WithEty(t, y)) && Unique(WithRef(t, r))
  {
    Equivalences();
    RefEquivalence();
    InternedIs(t.strs, s, SameString());
    InternedIs(t.etys, y, SameExprType());
    InternedIs(t.stmts, r, SameRef());
  }

  function EtyId(etys: seq<ExprType>, y: ExprType): nat { Find(etys, y, SameExprType()) }
  function RefId(stmts: seq<Ref>, r: Ref): nat { Find(stmts, r, SameRef()) }

  lemma {:induction false} InternExtends<T>(t: seq<T>, x: T, same: (T, T) -> bool)
    ensures t <= Interned(t, x, same)
  {}

  /** The number that is written is the number in every later table. */
  lemma {:induction false} IdStays<T(!new)>(t: seq<T>, x: T, same: (T, T) -> bool, later: seq<T>)
    requires Equivalence(same) && Interned(t, x, same) <= later
    ensures var n := Find(Interned(t, x, same), x, same);
      n < |later| && Find(later, x, same) == n && same(later[n], x)
  {
    var u := Interned(t, x, same);
    FindIs(t, x, same);
    if Find(t, x, same) == |t| {
      assert forall i | 0 <= i < |t| :: u[i] == t[i];
      FindFirst(u, x, same, |t|);
    }
    FindIs(u, x, same);
    assert later == u + later[|u|..];
    FindStays(u, later[|u|..], x, same);
  }

  lemma {:induction false} RefEquivalence()
    ensures Equivalence(SameRef())
  {}

  // ---- Writing ----------------------------------------------------------------------------------

  function OpCode(op: BinOp): nat
  {
    match op
    case Mul => 0
    case Add => 1
    case Div => 2
    case Sub => 3
    case Max => 4
    case Min => 5
    case Pow => 6
  }

  function OpOf(c: nat): Option<BinOp>
  {
    if c == 0 then Some(Mul)
    else if c == 1 then Some(Add)
    else if c == 2 then Some(Div)
    else if c == 3 then Some(Sub)
    else if c == 4 then Some(Max)
    else if c == 5 then Some(Min)
    else if c == 6 then Some(Pow)
    else None
  }

  function UnCode(op: UnOp): nat
  {
    match op
    case Exp => 0
    case Log => 1
    case Sqrt => 2
    case Abs => 3
  }

  function UnOf(c: nat): Option<UnOp>
  {
    if c == 0 then Some(Exp)
    else if c == 1 then Some(Log)
    else if c == 2 then Some(Sqrt)
    else if c == 3 then Some(Abs)
    else None
  }

  /** The operators in the order of their declarations. */
  const BINARY_OPS: seq<BinOp> := [Mul, Add, Div, Sub, Max, Min, Pow]
  const UNARY_OPS: seq<UnOp> := [Exp, Log, Sqrt, Abs]

  /** An operator is written as its place in that order, and every other number is none. */
  lemma {:induction false} CodesAreOrdinals(c: nat)
    ensures OpOf(c) == if c < |BINARY_OPS| then Some(BINARY_OPS[c]) else None
    ensures UnOf(c) == if c < |UNARY_OPS| then Some(UNARY_OPS[c]) else None
    ensures forall op: BinOp :: OpCode(op) < |BINARY_OPS| && BINARY_OPS[OpCode(op)] == op
    ensures forall op: UnOp :: UnCode(op) < |UNARY_OPS| && UNARY_OPS[UnCode(op)] == op
  {
    forall op: BinOp ensures OpCode(op) < |BINARY_OPS| && BINARY_OPS[OpCode(op)] == op {
      match op
      case Mul => case Add => case Div => case Sub => case Max => case Min => case Pow =>
    }
    forall op: UnOp ensures UnCode(op) < |UNARY_OPS| && UNARY_OPS[UnCode(op)] == op {
      match op
      case Exp => case Log => case Sqrt => case Abs =>
    }
  }

  /** Floats are written by their 32 bits. */
  datatype Floats = Floats(bits: real -> nat, value: nat -> real)

  /** The position of a local variable in the program. */
  function VarIndex(vars: seq<LocalVar>, v: LocalVar): nat
  {
    if vars == [] then 0 else if vars[0] == v then 0 else 1 + VarIndex(vars[1..], v)
  }

  lemma {:induction false} VarIndexIs(vars: seq<LocalVar>, v: LocalVar)
    requires v in vars
    ensures VarIndex(vars, v) < |vars| && vars[VarIndex(vars, v)] == v
  {
    if vars[0] != v { VarIndexIs(vars[1..], v); }
  }

  /** How many nodes an expression has in the bytecode: a load is two, itself and its address. */
  function CountE(e: Expr): (n: nat)
    ensures n > 0
  {
    match e
    case Binary(_, a, b) => CountE(a) + CountE(b) + 1
    case Unary(_, v) => CountE(v) + 1
    case Load(_, subs, _) => CountAll(subs) + 2
    case Broadcast(x, _) => CountE(x) + 1
    case _ => 1
  }

  function CountAll(es: seq<Expr>): nat
  {
    if es == [] then 0 else CountE(es[0]) + CountAll(es[1..])
  }

  /** The numbers of the roots, when the first node gets number n. */
  function RootIds(es: seq<Expr>, n: nat): seq<nat>
  {
    if es == [] then [] else [n + CountE(es[0]) - 1] + RootIds(es[1..], n + CountE(es[0]))
  }

  datatype Emitted = Emitted(recs: seq<Numbered<ERec>>, t: Tables)

  /** The nodes of e in post-order, numbered from n. */
  function EmitE(vars: seq<LocalVar>, fl: Floats, e: Expr, n: nat, t: Tables): Emitted
    decreases e
  {
    var last := n + CountE(e) - 1;
    match e
    case Const(i) => Emitted([Numbered(last, RConst(i % WORD))], t)
    case ConstFP(f) => Emitted([Numbered(last, RFloat(fl.bits(f)))], t)
    case ConstStr(s) =>
      var t' := WithStr(t, s);
      Emitted([Numbered(last, RString(StrId(t'.strs, s)))], t')
    case Index(l, _) =>
      var t' := WithRef(t, LoopRef(l));
      Emitted([Numbered(last, RIndex(RefId(t'.stmts, LoopRef(l))))], t')
    case Binary(op, a, b) =>
      var x := EmitE(vars, fl, a, n, t);
      var y := EmitE(vars, fl, b, n + CountE(a), x.t);
      Emitted(x.recs + y.recs + [Numbered(last, RBinary(OpCode(op), n + CountE(a) - 1, last - 1))], y.t)
    case Unary(op, v) =>
      var x := EmitE(vars, fl, v, n, t);
      Emitted(x.recs + [Numbered(last, RUnary(UnCode(op), last - 1))], x.t)
    case Load(arg, subs, ty) =>
      var x := EmitAll(vars, fl, subs, n, t);
      var t' := WithEty(x.t, ty);
      Emitted(x.recs + [Numbered(last - 1, RGep(arg, RootIds(subs, n)))] +
                [Numbered(last, RLoad(EtyId(t'.etys, ty), last - 1))], t')
    case LoadLocal(v) => Emitted([Numbered(last, RLoadLocal(VarIndex(vars, v)))], t)
    case Broadcast(v, vf) =>
      var x := EmitE(vars, fl, v, n, t);
      Emitted(x.recs + [Numbered(last, RBroadcast(last - 1, vf))], x.t)
  }

  function EmitAll(vars: seq<LocalVar>, fl: Floats, es: seq<Expr>, n: nat, t: Tables): Emitted
    decreases es
  {
    if es == [] then Emitted([], t)
    else
      var x := EmitE(vars, fl, es[0], n, t);
      var y := EmitAll(vars, fl, es[1..], n + CountE(es[0]), x.t);
      Emitted(x.recs + y.recs, y.t)
  }

  lemma {:induction false} EmitCount(vars: seq<LocalVar>, fl: Floats, e: Expr, n: nat, t: Tables)
    ensures var r := EmitE(vars, fl, e, n, t); |r.recs| == CountE(e) && Extends(t, r.t) && (Unique(t) ==> Unique(r.t))
    decreases e
  {
    hide Unique, Interned;
    match e
    case Binary(_, a, b) =>
      EmitCount(vars, fl, a, n, t);
      EmitCount(vars, fl, b, n + CountE(a), EmitE(vars, fl, a, n, t).t);
    case Unary(_, v) => EmitCount(vars, fl, v, n, t);
    case Load(_, subs, ty) =>
      EmitAllCount(vars, fl, subs, n, t);
      WithStep(EmitAll(vars, fl, subs, n, t).t, "", ty, ProgRef);
    case Broadcast(v, _) => EmitCount(vars, fl, v, n, t);
    case ConstStr(s) => WithStep(t, s, ExprType(IndexTy, 1), ProgRef);
    case Index(l, _) => WithStep(t, "", ExprType(IndexTy, 1), LoopRef(l));
    case _ =>
  }

  lemma {:induction false} WithStep(t: Tables, s: string, y: ExprType, r: Ref)
    ensures Extends(t, WithStr(t, s)) && Extends(t, WithEty(t, y)) && Extends(t, WithRef(t, r))
    ensures Unique(t) ==> Unique(WithStr(t, s)) && Unique(WithEty(t, y)) && Unique(WithRef(t, r))
  {
    if Unique(t) { WithUnique(t, s, y, r); }
  }

  lemma {:induction false} EmitAllCount(vars: seq<LocalVar>, fl: Floats, es: seq<Expr>, n: nat, t: Tables)
    ensures var r := EmitAll(vars, fl, es, n, t);
      |r.recs| == CountAll(es) && Extends(t, r.t) && (Unique(t) ==> Unique(r.t))
    decreases es
  {
    hide Unique;
    if es != [] {
      EmitCount(vars, fl, es[0], n, t);
      EmitAllCount(vars, fl, es[1..], n + CountE(es[0]), EmitE(vars, fl, es[0], n, t).t);
    }
  }

  // ---- Reading ------------------------------------------------------------------------------------

  /** What a number stands for: an expression, or the address of a buffer element. */
  datatype Node = NE(e: Expr) | NG(arg: nat, subs: seq<Expr>)

  type Nodes = map<nat, Node>

  predicate IsExpr(m: Nodes, id: nat) { id in m && m[id].NE? }

  predicate AreExprs(m: Nodes, ids: seq<nat>) { forall i | 0 <= i < |ids| :: IsExpr(m, ids[i]) }

  function ExprsAt(m: Nodes, ids: seq<nat>): seq<Expr>
    requires AreExprs(m, ids)
  {
    if ids == [] then [] else assert IsExpr(m, ids[0]); [m[ids[0]].e] + ExprsAt(m, ids[1..])
  }

  /** deserializeExpr: the node of one record. */
  function NodeOf(vars: seq<LocalVar>, fl: Floats, etys: seq<ExprType>, m: Nodes, r: ERec): Option<Node>
  {
    match r
    case RConst(v) => Some(NE(Const(v)))
    case RFloat(b) => Some(NE(ConstFP(fl.value(b))))
    case RString(_) => None
    case RBinary(op, x, y) =>
      if OpOf(op).Some? && IsExpr(m, x) && IsExpr(m, y) then Some(NE(Binary(OpOf(op).value, m[x].e, m[y].e))) else None
    case RUnary(op, x) => if UnOf(op).Some? && IsExpr(m, x) then Some(NE(Unary(UnOf(op).value, m[x].e))) else None
    case RLoad(ty, g) =>
      if ty < |etys| && g in m && m[g].NG? then Some(NE(Load(m[g].arg, m[g].subs, etys[ty]))) else None
    case RLoadLocal(v) => if v < |vars| then Some(NE(LoadLocal(vars[v]))) else None
    case RBroadcast(x, vf) => if IsExpr(m, x) then Some(NE(Broadcast(m[x].e, vf))) else None
    // The loop is looked up when all statements are read; its number identifies it.
    case RIndex(n) => Some(NE(Index(n, 1)))
    case RGep(arg, ids) => if AreExprs(m, ids) then Some(NG(arg, ExprsAt(m, ids))) else None
  }

  /** Reads records one by one; a number must not be registered twice. */
  function BuildE(vars: seq<LocalVar>, fl: Floats, etys: seq<ExprType>, m: Nodes,
                  recs: seq<Numbered<ERec>>): Option<Nodes>
    decreases |recs|
  {
    if recs == [] then Some(m)
    else
      var x := NodeOf(vars, fl, etys, m, recs[0].rec);
      if x.None? || recs[0].id in m then None
      else BuildE(vars, fl, etys, m[recs[0].id := x.value], recs[1..])
  }

  lemma {:induction false} BuildAppend(vars: seq<LocalVar>, fl: Floats, etys: seq<ExprType>, m: Nodes,
                                       a: seq<Numbered<ERec>>, b: seq<Numbered<ERec>>)
    ensures var x := BuildE(vars, fl, etys, m, a);
      BuildE(vars, fl, etys, m, a + b) == if x.None? then None else BuildE(vars, fl, etys, x.value, b)
    decreases |a|
  {
    if a == [] {
      assert a + b == b;
    } else {
      assert (a + b)[0] == a[0] && (a + b)[1..] == a[1..] + b;
      var x := NodeOf(vars, fl, etys, m, a[0].rec);
      if x.Some? && a[0].id !in m { BuildAppend(vars, fl, etys, m[a[0].id := x.value], a[1..], b); }
    }
  }

  lemma {:induction false} BuildOne(vars: seq<LocalVar>, fl: Floats, etys: seq<ExprType>, m: Nodes, r: Numbered<ERec>)
    requires NodeOf(vars, fl, etys, m, r.rec).Some? && r.id !in m
    ensures BuildE(vars, fl, etys, m, [r]) == Some(m[r.id := NodeOf(vars, fl, etys, m, r.rec).value])
  {
    assert [r][1..] == [];
  }

  // ---- Round trip ------------------------------------------------------------------------------------

  /** The same expression over the numbers of the loops. */
  function RenameE(e: Expr, stmts: seq<Ref>): Expr
  {
    match e
    case Index(l, w) => Index(RefId(stmts, LoopRef(l)), w)
    case Binary(op, a, b) => Binary(op, RenameE(a, stmts), RenameE(b, stmts))
    case Unary(op, v) => Unary(op, RenameE(v, stmts))
    case Load(arg, subs, ty) => Load(arg, RenameAll(subs, stmts), ty)
    case Broadcast(x, vf) => Broadcast(RenameE(x, stmts), vf)
    case _ => e
  }

  function RenameAll(es: seq<Expr>, stmts: seq<Ref>): seq<Expr>
  {
    if es == [] then [] else [RenameE(es[0], stmts)] + RenameAll(es[1..], stmts)
  }

  /** Integer constants of 32 bits, floats that 32 bits represent, no strings, scalar indices,
      and only locals of the program. */
  predicate Plain(vars: seq<LocalVar>, fl: Floats, e: Expr)
  {
    match e
    case Const(i) => 0 <= i < WORD
    case ConstFP(f) => fl.value(fl.bits(f)) == f
    case ConstStr(_) => false
    case Index(_, w) => w == 1
    case Binary(_, a, b) => Plain(vars, fl, a) && Plain(vars, fl, b)
    case Unary(_, v) => Plain(vars, fl, v)
    case Load(_, subs, _) => PlainAll(vars, fl, subs)
    case LoadLocal(v) => v in vars
    case Broadcast(x, _) => Plain(vars, fl, x)
  }

  predicate PlainAll(vars: seq<LocalVar>, fl: Floats, es: seq<Expr>)
  {
    es == [] || (Plain(vars, fl, es[0]) && PlainAll(vars, fl, es[1..]))
  }

  /** Exactly the numbers below n are registered. */
  ghost predicate Upto(m: Nodes, n: nat) { forall k: nat :: k in m <==> k < n }

  /** m' has all of m, and more. */
  ghost predicate Grows(m: Nodes, m': Nodes) { forall k | k in m :: k in m' && m'[k] == m[k] }

  /** Reading the records of an expression registers its nodes, the root last. */
  ghost predicate Rebuilds(vars: seq<LocalVar>, fl: Floats, fin: Tables, m: Nodes, recs: seq<Numbered<ERec>>,
                           n: nat, count: nat, m': Nodes)
  {
    BuildE(vars, fl, fin.etys, m, recs) == Some(m') && Upto(m', n + count) && Grows(m, m')
  }

  ghost function Built(vars: seq<LocalVar>, fl: Floats, fin: Tables, m: Nodes, recs: seq<Numbered<ERec>>): Nodes
  {
    var r := BuildE(vars, fl, fin.etys, m, recs);
    if r.Some? then r.value else m
  }

  /** One more record after those of the operands. */
  lemma {:induction false} BuildNext(vars: seq<LocalVar>, fl: Floats, fin: Tables, m: Nodes, recs: seq<Numbered<ERec>>,
                                     n: nat, count: nat, m': Nodes, r: Numbered<ERec>)
    requires Rebuilds(vars, fl, fin, m, recs, n, count, m') && r.id == n + count
    requires NodeOf(vars, fl, fin.etys, m', r.rec).Some?
    ensures Rebuilds(vars, fl, fin, m, recs + [r], n, count + 1,
      m'[r.id := NodeOf(vars, fl, fin.etys, m', r.rec).value])
  {
    BuildAppend(vars, fl, fin.etys, m, recs, [r]);
    BuildOne(vars, fl, fin.etys, m', r);
  }

  lemma {:induction false} BuildBoth(vars: seq<LocalVar>, fl: Floats, fin: Tables, m: Nodes,
                                     a: seq<Numbered<ERec>>, n: nat, ca: nat, ma: Nodes,
                                     b: seq<Numbered<ERec>>, cb: nat, mb: Nodes)
    requires Rebuilds(vars, fl, fin, m, a, n, ca, ma) && Rebuilds(vars, fl, fin, ma, b, n + ca, cb, mb)
    ensures Rebuilds(vars, fl, fin, m, a + b, n, ca + cb, mb)
  {
    BuildAppend(vars, fl, fin.etys, m, a, b);
  }

  /** A record without operands. */
  lemma {:induction false} LeafBuilt(vars: seq<LocalVar>, fl: Floats, fin: Tables, m: Nodes, r: Numbered<ERec>, x: Node)
    requires Upto(m, r.id) && NodeOf(vars, fl, fin.etys, m, r.rec) == Some(x)
    ensures Rebuilds(vars, fl, fin, m, [r], r.id, 1, Built(vars, fl, fin, m, [r])) &&
      Built(vars, fl, fin, m, [r])[r.id] == x
  {
    BuildOne(vars, fl, fin.etys, m, r);
  }

  /** A record after those of its operands. */
  lemma {:induction false} RootBuilt(vars: seq<LocalVar>, fl: Floats, fin: Tables, m: Nodes, recs: seq<Numbered<ERec>>,
                                     n: nat, count: nat, m': Nodes, r: Numbered<ERec>, x: Node)
    requires Rebuilds(vars, fl, fin, m, recs, n, count, m') && r.id == n + count
    requires NodeOf(vars, fl, fin.etys, m', r.rec) == Some(x)
    ensures var all := Built(vars, fl, fin, m, recs + [r]);
      Rebuilds(vars, fl, fin, m, recs + [r], n, count + 1, all) && all[r.id] == x
  {
    BuildNext(vars, fl, fin, m, recs, n, count, m', r);
  }

  ghost predicate BuiltAs(vars: seq<LocalVar>, fl: Floats, e: Expr, n: nat, t: Tables, fin: Tables, m: Nodes)
  {
    var recs := EmitE(vars, fl, e, n, t).recs;
    var m' := Built(vars, fl, fin, m, recs);
    Rebuilds(vars, fl, fin, m, recs, n, CountE(e), m') && m'[n + CountE(e) - 1] == NE(RenameE(e, fin.stmts))
  }

  /** The records of an expression build it again, over the numbers of the loops. */
  lemma {:induction false} ExprBuilt(vars: seq<LocalVar>, fl: Floats, e: Expr, n: nat, t: Tables, fin: Tables, m: Nodes)
    requires Plain(vars, fl, e) && Upto(m, n) && Extends(EmitE(vars, fl, e, n, t).t, fin)
    ensures BuiltAs(vars, fl, e, n, t, fin, m)
    decreases e
  {
    hide Rebuilds, BuildE, Built;
    match e
    case Binary(op, a, b) => BinaryBuilt(vars, fl, e, n, t, fin, m);
    case Unary(op, v) =>
      var recs := EmitE(vars, fl, v, n, t).recs;
      ExprBuilt(vars, fl, v, n, t, fin, m);
      var m1 := Built(vars, fl, fin, m, recs);
      RebuildsUpto(vars, fl, fin, m, recs, n, CountE(v), m1);
      RootBuilt(vars, fl, fin, m, recs, n, CountE(v), m1,
        Numbered(n + CountE(v), RUnary(UnCode(op), n + CountE(v) - 1)),
                NE(RenameE(e, fin.stmts)));
    case Broadcast(v, vf) =>
      var recs := EmitE(vars, fl, v, n, t).recs;
      ExprBuilt(vars, fl, v, n, t, fin, m);
      var m1 := Built(vars, fl, fin, m, recs);
      RebuildsUpto(vars, fl, fin, m, recs, n, CountE(v), m1);
      RootBuilt(vars, fl, fin, m, recs, n, CountE(v), m1, Numbered(n + CountE(v), RBroadcast(n + CountE(v) - 1, vf)),
                NE(RenameE(e, fin.stmts)));
    case Load(_, _, _) => LoadBuilt(vars, fl, e, n, t, fin, m);
    case _ => LeafIsBuilt(vars, fl, e, n, t, fin, m);
  }

  lemma {:induction false} LeafIsBuilt(vars: seq<LocalVar>, fl: Floats, e: Expr, n: nat, t: Tables, fin: Tables,
                                       m: Nodes)
    requires e.Const? || e.ConstFP? || e.Index? || e.LoadLocal?
    requires Plain(vars, fl, e) && Upto(m, n) && Extends(EmitE(vars, fl, e, n, t).t, fin)
    ensures BuiltAs(vars, fl, e, n, t, fin, m)
  {
    hide Rebuilds, BuildE, Built;
    if e.Index? {
      RefEquivalence();
      IdStays(t.stmts, LoopRef(e.loop), SameRef(), fin.stmts);
    } else if e.LoadLocal? {
      VarIndexIs(vars, e.v);
    }
    LeafBuilt(vars, fl, fin, m, EmitE(vars, fl, e, n, t).recs[0], NE(RenameE(e, fin.stmts)));
    assert EmitE(vars, fl, e, n, t).recs == [EmitE(vars, fl, e, n, t).recs[0]];
  }

  lemma {:induction false} EmitBinary(vars: seq<LocalVar>, fl: Floats, e: Expr, n: nat, t: Tables)
    requires e.Binary?
    ensures var ca, cb := CountE(e.lhs), CountE(e.rhs);
      var x := EmitE(vars, fl, e.lhs, n, t);
      var y := EmitE(vars, fl, e.rhs, n + ca, x.t);
      CountE(e) == ca + cb + 1 && Extends(x.t, y.t) && |x.recs| == ca && |y.recs| == cb &&
      EmitE(vars, fl, e, n, t) ==
        Emitted(x.recs + y.recs + [Numbered(n + ca + cb, RBinary(OpCode(e.op), n + ca - 1, n + ca + cb - 1))], y.t)
  {
    hide OpCode, EmitAll;
    EmitCount(vars, fl, e.lhs, n, t);
    EmitCount(vars, fl, e.rhs, n + CountE(e.lhs), EmitE(vars, fl, e.lhs, n, t).t);
  }

  lemma {:induction false} BinaryBuilt(vars: seq<LocalVar>, fl: Floats, e: Expr, n: nat, t: Tables, fin: Tables,
                                       m: Nodes)
    requires e.Binary? && Plain(vars, fl, e) && Upto(m, n) && Extends(EmitE(vars, fl, e, n, t).t, fin)
    ensures BuiltAs(vars, fl, e, n, t, fin, m)
    decreases e, 0
  {
    hide Rebuilds, BuildE, Built, Plain, NodeOf, OpCode, OpOf, RenameE, EmitAll, EmitE, CountE;
    EmitBinary(vars, fl, e, n, t);
    var a, b := e.lhs, e.rhs;
    var ca, cb := CountE(a), CountE(b);
    PlainParts(vars, fl, e);
    var x := EmitE(vars, fl, a, n, t);
    var y := EmitE(vars, fl, b, n + ca, x.t);
    ExprBuilt(vars, fl, a, n, t, fin, m);
    var m1 := Built(vars, fl, fin, m, x.recs);
    RebuildsUpto(vars, fl, fin, m, x.recs, n, ca, m1);
    ExprBuilt(vars, fl, b, n + ca, x.t, fin, m1);
    var m2 := Built(vars, fl, fin, m1, y.recs);
    RebuildsUpto(vars, fl, fin, m1, y.recs, n + ca, cb, m2);
    BuildBoth(vars, fl, fin, m, x.recs, n, ca, m1, y.recs, cb, m2);
    var r := Numbered(n + ca + cb, RBinary(OpCode(e.op), n + ca - 1, n + ca + cb - 1));
    BinaryNode(vars, fl, fin, e, n + ca - 1, n + ca + cb - 1, m1, m2);
    RootBuilt(vars, fl, fin, m, x.recs + y.recs, n, ca + cb, m2, r, NE(RenameE(e, fin.stmts)));
  }

  lemma {:induction false} BinaryNode(vars: seq<LocalVar>, fl: Floats, fin: Tables, e: Expr, i: nat, j: nat, m1: Nodes,
                                      m2: Nodes)
    requires e.Binary? && Grows(m1, m2) && i in m1 && m1[i] == NE(RenameE(e.lhs, fin.stmts))
    requires j in m2 && m2[j] == NE(RenameE(e.rhs, fin.stmts))
    ensures NodeOf(vars, fl, fin.etys, m2, RBinary(OpCode(e.op), i, j)) == Some(NE(RenameE(e, fin.stmts)))
  {}

  lemma {:induction false} PlainParts(vars: seq<LocalVar>, fl: Floats, e: Expr)
    requires Plain(vars, fl, e)
    ensures e.Binary? ==> Plain(vars, fl, e.lhs) && Plain(vars, fl, e.rhs)
    ensures e.Load? ==> PlainAll(vars, fl, e.subs)
  {}

  lemma {:induction false} RebuildsUpto(vars: seq<LocalVar>, fl: Floats, fin: Tables, m: Nodes,
                                        recs: seq<Numbered<ERec>>, n: nat, count: nat, m': Nodes)
    requires Rebuilds(vars, fl, fin, m, recs, n, count, m')
    ensures Upto(m', n + count) && Grows(m, m')
  {}

  lemma {:induction false} RebuildsBuilt(vars: seq<LocalVar>, fl: Floats, fin: Tables, m: Nodes,
                                         recs: seq<Numbered<ERec>>, n: nat, count: nat, m': Nodes)
    requires Rebuilds(vars, fl, fin, m, recs, n, count, m')
    ensures Built(vars, fl, fin, m, recs) == m'
  {}

  lemma {:induction false} LoadBuilt(vars: seq<LocalVar>, fl: Floats, e: Expr, n: nat, t: Tables, fin: Tables, m: Nodes)
    requires e.Load? && Plain(vars, fl, e) && Upto(m, n) && Extends(EmitE(vars, fl, e, n, t).t, fin)
    ensures BuiltAs(vars, fl, e, n, t, fin, m)
    decreases e, 0
  {
    hide Rebuilds, Plain, BuildE, Built;
    PlainParts(vars, fl, e);
    var c := CountAll(e.subs);
    var x := EmitAll(vars, fl, e.subs, n, t);
    ExprsBuilt(vars, fl, e.subs, n, t, fin, m);
    var m1 := Built(vars, fl, fin, m, x.recs);
    RebuildsUpto(vars, fl, fin, m, x.recs, n, c, m1);
    var g := Numbered(n + c, RGep(e.arg, RootIds(e.subs, n)));
    var address := NG(e.arg, RenameAll(e.subs, fin.stmts));
    assert NodeOf(vars, fl, fin.etys, m1, g.rec) == Some(address);
    RootBuilt(vars, fl, fin, m, x.recs, n, c, m1, g, address);
    var m2 := Built(vars, fl, fin, m, x.recs + [g]);
    RebuildsUpto(vars, fl, fin, m, x.recs + [g], n, c + 1, m2);
    Equivalences();
    IdStays(x.t.etys, e.ty, SameExprType(), fin.etys);
    var r := Numbered(n + c + 1, RLoad(EtyId(WithEty(x.t, e.ty).etys, e.ty), n + c));
    assert NodeOf(vars, fl, fin.etys, m2, r.rec) == Some(NE(RenameE(e, fin.stmts)));
    RootBuilt(vars, fl, fin, m, x.recs + [g], n, c + 1, m2, r, NE(RenameE(e, fin.stmts)));
  }

  /** The roots of a list of expressions are registered under their numbers. */
  lemma {:induction false} ExprsBuilt(vars: seq<LocalVar>, fl: Floats, es: seq<Expr>, n: nat, t: Tables, fin: Tables,
                                      m: Nodes)
    requires PlainAll(vars, fl, es) && Upto(m, n) && Extends(EmitAll(vars, fl, es, n, t).t, fin)
    ensures var recs := EmitAll(vars, fl, es, n, t).recs;
      var m' := Built(vars, fl, fin, m, recs);
      Rebuilds(vars, fl, fin, m, recs, n, CountAll(es), m') &&
      AreExprs(m', RootIds(es, n)) && ExprsAt(m', RootIds(es, n)) == RenameAll(es, fin.stmts)
    decreases es
  {
    hide EmitE, RenameE, Plain;
    if es != [] {
      var e, rest := es[0], es[1..];
      var x := EmitE(vars, fl, e, n, t);
      var y := EmitAll(vars, fl, rest, n + CountE(e), x.t);
      EmitAllCount(vars, fl, rest, n + CountE(e), x.t);
      ExprBuilt(vars, fl, e, n, t, fin, m);
      var m1 := Built(vars, fl, fin, m, x.recs);
      ExprsBuilt(vars, fl, rest, n + CountE(e), x.t, fin, m1);
      var m2 := Built(vars, fl, fin, m1, y.recs);
      BuildBoth(vars, fl, fin, m, x.recs, n, CountE(e), m1, y.recs, CountAll(rest), m2);
      RebuildsBuilt(vars, fl, fin, m, x.recs + y.recs, n, CountE(e) + CountAll(rest), m2);
      ConsRoots(m1, m2, es, n, fin.stmts);
    }
  }

  lemma {:induction false} ConsRoots(m1: Nodes, m2: Nodes, es: seq<Expr>, n: nat, stmts: seq<Ref>)
    requires es != [] && Grows(m1, m2)
    requires n + CountE(es[0]) - 1 in m1 && m1[n + CountE(es[0]) - 1] == NE(RenameE(es[0], stmts))
    requires var tail := RootIds(es[1..], n + CountE(es[0]));
      AreExprs(m2, tail) && ExprsAt(m2, tail) == RenameAll(es[1..], stmts)
    ensures AreExprs(m2, RootIds(es, n)) && ExprsAt(m2, RootIds(es, n)) == RenameAll(es, stmts)
  {
    var ids, tail := RootIds(es, n), RootIds(es[1..], n + CountE(es[0]));
    assert ids == [n + CountE(es[0]) - 1] + tail;
    forall i | 0 <= i < |ids| ensures IsExpr(m2, ids[i]) {
      if i > 0 { assert ids[i] == tail[i - 1] && IsExpr(m2, tail[i - 1]); }
    }
    assert ids[1..] == tail;
  }
}
