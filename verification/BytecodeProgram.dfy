/** serialize and deserialize of whole programs. */
module BytecodeProgram {
  import opened IR
  import opened Streams
  import opened Interning
  import opened Records
  import opened BytecodeExprs
  import opened BytecodeStmts
  import opened Bytecode

  datatype Argument = Argument(name: string, ty: TensorType)

  /** A program: its name, arguments, local variables, the names of its loops, and its body. */
  datatype Prog = Prog(name: string, args: seq<Argument>, vars: seq<LocalVar>, loops: map<LoopId, string>,
                       body: seq<Stmt>)

  // ---- Writing ------------------------------------------------------------------------------------

  /** The table after looking up all of xs in order. */
  function InternMany<T>(t: seq<T>, xs: seq<T>, same: (T, T) -> bool): seq<T>
    decreases |xs|
  {
    if xs == [] then t else InternMany(Interned(t, xs[0], same), xs[1..], same)
  }

  lemma {:induction false} ManyInterned<T(!new)>(t: seq<T>, xs: seq<T>, same: (T, T) -> bool)
    requires Equivalence(same) && Distinct(t, same)
    ensures var u := InternMany(t, xs, same);
      t <= u && Distinct(u, same) && forall x | x in xs :: Find(u, x, same) < |u| && same(u[Find(u, x, same)], x)
    decreases |xs|
  {
    if xs != [] {
      InternedIs(t, xs[0], same);
      var t1 := Interned(t, xs[0], same);
      ManyInterned(t1, xs[1..], same);
      var u := InternMany(t, xs, same);
      IdStays(t, xs[0], same, u);
      forall x | x in xs ensures Find(u, x, same) < |u| && same(u[Find(u, x, same)], x) {
        if x != xs[0] { assert x in xs[1..]; }
      }
    }
  }

  /** A number of an earlier table is the number in a later one. */
  lemma {:induction false} FindLater<T>(t: seq<T>, u: seq<T>, x: T, same: (T, T) -> bool)
    requires t <= u && Find(t, x, same) < |t|
    ensures Find(u, x, same) == Find(t, x, same)
  {
    assert u == t + u[|t|..];
    FindStays(t, u[|t|..], x, same);
  }

  function ArgNames(args: seq<Argument>): seq<string> { seq(|args|, i requires 0 <= i < |args| => args[i].name) }
  function ArgTypes(args: seq<Argument>): seq<TensorType> { seq(|args|, i requires 0 <= i < |args| => args[i].ty) }
  function VarNames(vars: seq<LocalVar>): seq<string> { seq(|vars|, i requires 0 <= i < |vars| => vars[i].name) }
  function VarTypes(vars: seq<LocalVar>): seq<ExprType> { seq(|vars|, i requires 0 <= i < |vars| => vars[i].ty) }

  /** The names of the dimensions of all types. */
  function DimNames(ts: seq<TensorType>): seq<string>
  {
    if ts == [] then [] else ts[0].names + DimNames(ts[1..])
  }

  /** The tables after the declarations; the program is statement zero. */
  function DeclTables(p: Prog): Tables
  {
    Tables(InternMany([], [p.name] + ArgNames(p.args) + VarNames(p.vars), SameString()),
           InternMany([], VarTypes(p.vars), SameExprType()), [ProgRef])
  }

  function TensorTable(p: Prog): seq<TensorType> { InternMany([], ArgTypes(p.args), SameTensor()) }

  function WrittenExprs(p: Prog, fl: Floats): Emitted { EmitExprs(p.vars, fl, p.body, 0, DeclTables(p)) }

  function WrittenStmts(p: Prog, fl: Floats): EmittedS
  {
    EmitB(p.vars, p.loops, p.body, ProgRef, 0, 0, WrittenExprs(p, fl).t)
  }

  function FinalTables(p: Prog, fl: Floats): Tables { WrittenStmts(p, fl).t }

  /** The header holds the names of the dimensions as well. */
  function HeaderOf(p: Prog, fl: Floats): Header
  {
    var fin := FinalTables(p, fl);
    Header(InternMany(fin.strs, DimNames(TensorTable(p)), SameString()), fin.etys, TensorTable(p))
  }

  function ArgCodes(p: Prog): seq<(nat, nat)>
  {
    seq(|p.args|, i requires 0 <= i < |p.args| =>
      (StrId(DeclTables(p).strs, p.args[i].name), Find(TensorTable(p), p.args[i].ty, SameTensor())))
  }

  function VarCodes(p: Prog): seq<(nat, nat)>
  {
    seq(|p.vars|, i requires 0 <= i < |p.vars| =>
      (StrId(DeclTables(p).strs, p.vars[i].name), EtyId(DeclTables(p).etys, p.vars[i].ty)))
  }

  function PutDecls(p: Prog): seq<Byte>
  {
    Word(StrId(DeclTables(p).strs, p.name)) + (PutList(ArgCodes(p), PutDim) + PutList(VarCodes(p), PutDim))
  }

  function Serialize(p: Prog, fl: Floats): seq<Byte>
  {
    PutHeader(HeaderOf(p, fl)) +
    (PutDecls(p) + (PutList(WrittenExprs(p, fl).recs, PutE) + PutList(WrittenStmts(p, fl).recs, PutS)))
  }

  // ---- Reading --------------------------------------------------------------------------------------

  datatype Decls = Decls(name: string, args: seq<Argument>, vars: seq<LocalVar>)

  predicate CodesOk(codes: seq<(nat, nat)>, a: nat, b: nat) { forall c | c in codes :: c.0 < a && c.1 < b }

  function ArgsOf(codes: seq<(nat, nat)>, h: Header): seq<Argument>
    requires CodesOk(codes, |h.strs|, |h.ttys|)
  {
    seq(|codes|, i requires 0 <= i < |codes| =>
      (assert codes[i] in codes; Argument(h.strs[codes[i].0], h.ttys[codes[i].1])))
  }

  function VarsOf(codes: seq<(nat, nat)>, h: Header): seq<LocalVar>
    requires CodesOk(codes, |h.strs|, |h.etys|)
  {
    seq(|codes|, i requires 0 <= i < |codes| =>
      (assert codes[i] in codes; LocalVar(h.strs[codes[i].0], h.etys[codes[i].1])))
  }

  function GetDecls(h: Header, s: seq<Byte>): Read<Decls>
  {
    match GetWord(s)
    case Bad => Bad
    case Got(name, r) =>
      match GetList(Get2, r)
      case Bad => Bad
      case Got(args, r1) =>
        match GetList(Get2, r1)
        case Bad => Bad
        case Got(vars, r2) =>
          if name < |h.strs| && CodesOk(args, |h.strs|, |h.ttys|) && CodesOk(vars, |h.strs|, |h.etys|)
          then Got(Decls(h.strs[name], ArgsOf(args, h), VarsOf(vars, h)), r2)
          else Bad
  }

  /** The body: all expressions, and then all statements below statement zero. */
  function GetBody(h: Header, d: Decls, fl: Floats, s: seq<Byte>): Option<Prog>
  {
    match GetList(GetE, s)
    case Bad => None
    case Got(exprs, r) =>
      match GetList(GetS, r)
      case Bad => None
      case Got(stmts, _) =>
        var m := BuildE(d.vars, fl, h.etys, map[], exprs);
        if m.None? then None
        else
          var b := BuildS(d.vars, h.strs, m.value, Builder([], map[], {0}), stmts);
          if b.None? then None else Some(Prog(d.name, d.args, d.vars, b.value.names, b.value.body))
  }

  function Deserialize(media: seq<Byte>, fl: Floats): Option<Prog>
  {
    match GetHeader(media)
    case Bad => None
    case Got(h, r) =>
      match GetDecls(h, r)
      case Bad => None
      case Got(d, r1) => GetBody(h, d, fl, r1)
  }

  // ---- Round trip -------------------------------------------------------------------------------------

  /** Every field fits the width it is written with. */
  predicate FitsProgram(p: Prog, fl: Floats)
  {
    var h := HeaderOf(p, fl);
    |h.strs| < WORD && |h.etys| < WORD && |h.ttys| < WORD && |p.args| < WORD && |p.vars| < WORD &&
    |WrittenExprs(p, fl).recs| < WORD && |WrittenStmts(p, fl).recs| < WORD &&
    (forall s | s in h.strs :: Writable(s)) && (forall t | t in h.etys :: FitsEty(t)) &&
    (forall t | t in h.ttys :: |t.names| == |t.dims| < 256 && forall d | d in t.dims :: d < WORD) &&
    (forall e | e in WrittenExprs(p, fl).recs :: FitsE(e)) && (forall s | s in WrittenStmts(p, fl).recs :: FitsS(s))
  }

  lemma {:induction false} TablesGrow(p: Prog, fl: Floats)
    ensures Extends(DeclTables(p), WrittenExprs(p, fl).t) && Extends(WrittenExprs(p, fl).t, FinalTables(p, fl))
    ensures Unique(FinalTables(p, fl)) && Unique(DeclTables(p))
    ensures FinalTables(p, fl).stmts != [] && FinalTables(p, fl).stmts[0] == ProgRef
  {
    Equivalences();
    ManyInterned([], [p.name] + ArgNames(p.args) + VarNames(p.vars), SameString());
    ManyInterned([], VarTypes(p.vars), SameExprType());
    EmitExprsCount(p.vars, fl, p.body, 0, DeclTables(p));
    EmitExtends(p.vars, p.loops, p.body, ProgRef, 0, 0, WrittenExprs(p, fl).t);
  }

  lemma {:induction false} DimNamesIn(ts: seq<TensorType>, t: TensorType)
    requires t in ts
    ensures forall n | n in t.names :: n in DimNames(ts)
  {
    if t != ts[0] { DimNamesIn(ts[1..], t); }
  }

  lemma {:induction false} HeaderFits(p: Prog, fl: Floats)
    requires FitsProgram(p, fl)
    ensures FitsHeader(HeaderOf(p, fl)) && FinalTables(p, fl).strs <= HeaderOf(p, fl).strs
  {
    var h, fin := HeaderOf(p, fl), FinalTables(p, fl);
    TablesGrow(p, fl);
    Equivalences();
    ManyInterned([], ArgTypes(p.args), SameTensor());
    ManyInterned(fin.strs, DimNames(h.ttys), SameString());
    forall t | t in h.ttys ensures FitsTty(h.strs, t) {
      DimNamesIn(h.ttys, t);
    }
  }

  lemma {:induction false} CodesBack(codes: seq<(nat, nat)>)
    requires CodesOk(codes, WORD, WORD)
    ensures forall i | 0 <= i < |codes| :: Back(PutDim, Get2, codes[i])
  {
    forall i | 0 <= i < |codes| ensures Back(PutDim, Get2, codes[i]) {
      assert codes[i] in codes;
      forall r: seq<Byte> ensures Get2(PutDim(codes[i]) + r) == Got(codes[i], r) {
        TwoBack(codes[i].0, codes[i].1, r);
      }
    }
  }

  /** Arguments with equal names and equal types, and the same variables. */
  predicate SameDecls(p: Prog, d: Decls)
  {
    d.name == p.name && d.vars == p.vars && |d.args| == |p.args| &&
    forall i | 0 <= i < |p.args| :: d.args[i].name == p.args[i].name && SameTensor()(d.args[i].ty, p.args[i].ty)
  }

  /** What the tables after the declarations hold, and the header too. */
  lemma {:induction false} DeclsInHeader(p: Prog, fl: Floats)
    requires FitsProgram(p, fl)
    ensures var h, t0 := HeaderOf(p, fl), DeclTables(p);
      t0.strs <= h.strs && t0.etys <= h.etys && h.ttys == TensorTable(p)
  {
    TablesGrow(p, fl);
    HeaderFits(p, fl);
  }

  lemma {:induction false} NamesFound(p: Prog)
    ensures var t := DeclTables(p).strs;
      StrId(t, p.name) < |t| && t[StrId(t, p.name)] == p.name &&
      (forall i | 0 <= i < |p.args| :: StrId(t, p.args[i].name) < |t| &&
        t[StrId(t, p.args[i].name)] == p.args[i].name) &&
      (forall i | 0 <= i < |p.vars| :: StrId(t, p.vars[i].name) < |t| && t[StrId(t, p.vars[i].name)] == p.vars[i].name)
  {
    var strs := [p.name] + ArgNames(p.args) + VarNames(p.vars);
    Equivalences();
    ManyInterned([], strs, SameString());
    assert strs[0] == p.name;
    forall i | 0 <= i < |p.args| ensures p.args[i].name in strs { assert strs[1 + i] == p.args[i].name; }
    forall i | 0 <= i < |p.vars| ensures p.vars[i].name in strs { assert strs[1 + |p.args| + i] == p.vars[i].name; }
  }

  lemma {:induction false} TypesFound(p: Prog)
    ensures var t := TensorTable(p);
      forall i | 0 <= i < |p.args| ::
        Find(t, p.args[i].ty, SameTensor()) < |t| && SameTensor()(t[Find(t, p.args[i].ty, SameTensor())], p.args[i].ty)
    ensures var y := DeclTables(p).etys;
      forall i | 0 <= i < |p.vars| :: EtyId(y, p.vars[i].ty) < |y| && y[EtyId(y, p.vars[i].ty)] == p.vars[i].ty
  {
    Equivalences();
    ManyInterned([], ArgTypes(p.args), SameTensor());
    ManyInterned([], VarTypes(p.vars), SameExprType());
    forall i | 0 <= i < |p.args| ensures p.args[i].ty in ArgTypes(p.args) {
      assert ArgTypes(p.args)[i] == p.args[i].ty;
    }
    forall i | 0 <= i < |p.vars| ensures p.vars[i].ty in VarTypes(p.vars) {
      assert VarTypes(p.vars)[i] == p.vars[i].ty;
    }
  }

  /** The numbers of names and types in the declarations find them in the header. */
  lemma {:induction false} DeclCodes(p: Prog, fl: Floats)
    requires FitsProgram(p, fl)
    ensures var h := HeaderOf(p, fl);
      var id := StrId(DeclTables(p).strs, p.name);
      id < |h.strs| && h.strs[id] == p.name &&
      CodesOk(ArgCodes(p), |h.strs|, |h.ttys|) && CodesOk(VarCodes(p), |h.strs|, |h.etys|) &&
      SameDecls(p, Decls(p.name, ArgsOf(ArgCodes(p), h), VarsOf(VarCodes(p), h)))
  {
    hide HeaderOf, DeclTables, TensorTable, StrId, EtyId, FitsProgram;
    var h, t0 := HeaderOf(p, fl), DeclTables(p);
    DeclsInHeader(p, fl);
    NamesFound(p);
    TypesFound(p);
    assert forall k | 0 <= k < |t0.strs| :: h.strs[k] == t0.strs[k];
    assert forall k | 0 <= k < |t0.etys| :: h.etys[k] == t0.etys[k];
    assert VarsOf(VarCodes(p), h) == p.vars;
  }

  lemma {:induction false} DeclsBack(p: Prog, fl: Floats, rest: seq<Byte>)
    requires FitsProgram(p, fl)
    ensures var h := HeaderOf(p, fl);
      CodesOk(ArgCodes(p), |h.strs|, |h.ttys|) && CodesOk(VarCodes(p), |h.strs|, |h.etys|) &&
      GetDecls(h, PutDecls(p) + rest) == Got(Decls(p.name, ArgsOf(ArgCodes(p), h), VarsOf(VarCodes(p), h)), rest)
  {
    hide Word, GetWord, PutList, GetList, ArgCodes, VarCodes, HeaderOf, DeclTables, SameDecls;
    DeclCodes(p, fl);
    var id := StrId(DeclTables(p).strs, p.name);
    var b := PutList(VarCodes(p), PutDim) + rest;
    var a := PutList(ArgCodes(p), PutDim) + b;
    assert PutDecls(p) + rest == Word(id) + a;
    WordBack(id, a);
    CodeCounts(p);
    CodesBack(ArgCodes(p));
    CodesBack(VarCodes(p));
    ListBack(ArgCodes(p), PutDim, Get2, b);
    ListBack(VarCodes(p), PutDim, Get2, rest);
  }

  lemma {:induction false} CodeCounts(p: Prog)
    ensures |ArgCodes(p)| == |p.args| && |VarCodes(p)| == |p.vars|
  {}

  lemma {:induction false} RecordsBack(exprs: seq<Numbered<ERec>>, stmts: seq<Placed>)
    requires forall e | e in exprs :: FitsE(e) && !e.rec.RString?
    requires forall s | s in stmts :: FitsS(s) && !s.rec.SIfRange?
    ensures forall i | 0 <= i < |exprs| :: Back(PutE, GetE, exprs[i])
    ensures forall i | 0 <= i < |stmts| :: Back(PutS, GetS, stmts[i])
  {
    hide PutE, GetE, PutS, GetS;
    forall i | 0 <= i < |exprs| ensures Back(PutE, GetE, exprs[i]) {
      assert exprs[i] in exprs;
      forall r: seq<Byte> ensures GetE(PutE(exprs[i]) + r) == Got(exprs[i], r) { ExprBack(exprs[i], r); }
    }
    forall i | 0 <= i < |stmts| ensures Back(PutS, GetS, stmts[i]) {
      assert stmts[i] in stmts;
      forall r: seq<Byte> ensures GetS(PutS(stmts[i]) + r) == Got(stmts[i], r) { StmtBack(stmts[i], r); }
    }
  }

  // ---- No strings and no ifs are written for plain programs --------------------------------------

  ghost predicate NoStrings(recs: seq<Numbered<ERec>>) { forall r | r in recs :: !r.rec.RString? }

  lemma {:induction false} PlainNoStrings(vars: seq<LocalVar>, fl: Floats, e: Expr, n: nat, t: Tables)
    requires Plain(vars, fl, e)
    ensures NoStrings(EmitE(vars, fl, e, n, t).recs)
    decreases e
  {
    match e
    case Binary(_, a, b) =>
      PlainNoStrings(vars, fl, a, n, t);
      PlainNoStrings(vars, fl, b, n + CountE(a), EmitE(vars, fl, a, n, t).t);
    case Unary(_, v) => PlainNoStrings(vars, fl, v, n, t);
    case Load(_, subs, _) => PlainNoStringsAll(vars, fl, subs, n, t);
    case Broadcast(v, _) => PlainNoStrings(vars, fl, v, n, t);
    case _ =>
  }

  lemma {:induction false} PlainNoStringsAll(vars: seq<LocalVar>, fl: Floats, es: seq<Expr>, n: nat, t: Tables)
    requires PlainAll(vars, fl, es)
    ensures NoStrings(EmitAll(vars, fl, es, n, t).recs)
    decreases es
  {
    if es != [] {
      PlainNoStrings(vars, fl, es[0], n, t);
      PlainNoStringsAll(vars, fl, es[1..], n + CountE(es[0]), EmitE(vars, fl, es[0], n, t).t);
    }
  }

  lemma {:induction false} PlainNoStringsB(vars: seq<LocalVar>, fl: Floats, ss: seq<Stmt>, n: nat, t: Tables)
    requires PlainB(vars, fl, ss)
    ensures NoStrings(EmitExprs(vars, fl, ss, n, t).recs)
    decreases ss, 0
  {
    if ss != [] {
      PlainNoStringsS(vars, fl, ss[0], n, t);
      PlainNoStringsB(vars, fl, ss[1..], n + CountExprsS(ss[0]), EmitExprsS(vars, fl, ss[0], n, t).t);
    }
  }

  lemma {:induction false} PlainNoStringsS(vars: seq<LocalVar>, fl: Floats, s: Stmt, n: nat, t: Tables)
    requires PlainS(vars, fl, s)
    ensures NoStrings(EmitExprsS(vars, fl, s, n, t).recs)
    decreases s, 1
  {
    match s
    case Loop(_, _, _, body) => PlainNoStringsB(vars, fl, body, n, t);
    case Store(_, subs, v, _) =>
      PlainNoStringsAll(vars, fl, subs, n, t);
      PlainNoStrings(vars, fl, v, n + CountAll(subs) + 1, EmitAll(vars, fl, subs, n, t).t);
    case StoreLocal(_, v, _) => PlainNoStrings(vars, fl, v, n, t);
    case Call(_, ps) => PlainNoStringsAll(vars, fl, ps, n, t);
    case IfRange(_, _, _, _) =>
  }

  ghost predicate NoIfs(recs: seq<Placed>) { forall r | r in recs :: !r.rec.SIfRange? }

  lemma {:induction false} PlainNoIfs(vars: seq<LocalVar>, fl: Floats, names: map<LoopId, string>, ss: seq<Stmt>,
                                      parent: Ref, n: nat, k: nat, t: Tables)
    requires PlainB(vars, fl, ss)
    ensures NoIfs(EmitB(vars, names, ss, parent, n, k, t).recs)
    decreases ss, 0
  {
    if ss != [] {
      PlainNoIfsS(vars, fl, names, ss[0], parent, n, k, t);
      PlainNoIfs(vars, fl, names, ss[1..], parent, n + CountExprsS(ss[0]), k + LeavesS(ss[0]),
                 EmitS(vars, names, ss[0], parent, n, k, t).t);
    }
  }

  lemma {:induction false} PlainNoIfsS(vars: seq<LocalVar>, fl: Floats, names: map<LoopId, string>, s: Stmt,
                                       parent: Ref, n: nat, k: nat, t: Tables)
    requires PlainS(vars, fl, s)
    ensures NoIfs(EmitS(vars, names, s, parent, n, k, t).recs)
    decreases s, 1
  {
    if s.Loop? {
      var t1 := WithRef(WithRef(t, LoopRef(s.id)), parent);
      PlainNoIfs(vars, fl, names, s.body, LoopRef(s.id), n, k, WithStr(t1, LoopName(names, s.id)));
    }
  }

  // ---- The body -----------------------------------------------------------------------------------------

  /** What the reader makes of the body of p. */
  ghost predicate BodyRestored(p: Prog, fl: Floats, q: Prog)
  {
    var fin := FinalTables(p, fl);
    q.body == RenameB(p.body, fin.stmts) &&
    forall l | l in BoundB(p.body) ::
      RefId(fin.stmts, LoopRef(l)) in q.loops && q.loops[RefId(fin.stmts, LoopRef(l))] == LoopName(p.loops, l)
  }

  lemma {:induction false} BoundRefs(ss: seq<Stmt>, k: nat)
    ensures forall l | l in BoundB(ss) :: LoopRef(l) in RefsB(ss, k)
    decreases ss, 0
  {
    if ss != [] {
      BoundRefs(ss[1..], k + LeavesS(ss[0]));
      match ss[0] {
        case Loop(_, _, _, body) => BoundRefs(body, k);
        case IfRange(_, _, _, body) => BoundRefs(body, k + 1);
        case _ =>
      }
    }
  }

  /** Building from the written records gives the program over the numbers of its loops. */
  lemma {:induction false} BodyBuilt(p: Prog, fl: Floats, strs: seq<string>)
    requires WfB(p.body, {}) && PlainB(p.vars, fl, p.body) && FinalTables(p, fl).strs <= strs
    ensures var fin := FinalTables(p, fl);
      var m := BuildE(p.vars, fl, fin.etys, map[], WrittenExprs(p, fl).recs);
      m.Some? &&
      var b := BuildS(p.vars, strs, m.value, Builder([], map[], {0}), WrittenStmts(p, fl).recs);
      b.Some? && BodyRestored(p, fl, Prog(p.name, p.args, p.vars, b.value.names, b.value.body))
  {
    hide WfB, PlainB, EmitExprs, EmitB, RenameB, DeclTables, AllUnder;
    var t0 := FinalTables(p, fl);
    var fin := Tables(strs, t0.etys, t0.stmts);
    TablesGrow(p, fl);
    ExprsHeld(p.vars, fl, p.body, 0, DeclTables(p), fin, map[]);
    var recs := WrittenExprs(p, fl).recs;
    var m := Built(p.vars, fl, fin, map[], recs);
    var b0 := Builder([], map[], {0});
    var seen := {ProgRef};
    assert RefId(fin.stmts, ProgRef) == 0;
    assert Known(b0, seen, fin.stmts, p.loops);
    RefsAre(p.body, 0);
    BlockRestored(p.vars, fl, p.loops, p.body, {}, ProgRef, 0, 0, WrittenExprs(p, fl).t, fin, m, b0, seen);
    RestoredIs(p.vars, fin, m, b0, WrittenStmts(p, fl).recs, p.loops,
               AllUnder([], 0, RenameB(p.body, fin.stmts)), seen + RefsB(p.body, 0));
    AllUnderProgram([], RenameB(p.body, fin.stmts));
    assert [] + RenameB(p.body, fin.stmts) == RenameB(p.body, fin.stmts);
    BoundRefs(p.body, 0);
  }

  /** deserialize(serialize(p)) has the name, arguments and variables of p (types up to
      isEqual), and its body with every loop identified by its number, names included. */
  lemma {:induction false} RoundTrip(p: Prog, fl: Floats)
    requires WfB(p.body, {}) && PlainB(p.vars, fl, p.body) && FitsProgram(p, fl)
    ensures var q := Deserialize(Serialize(p, fl), fl);
      q.Some? && SameDecls(p, Decls(q.value.name, q.value.args, q.value.vars)) && BodyRestored(p, fl, q.value)
  {
    hide WfB, PlainB, EmitExprs, EmitB, RenameB, DeclTables, PutHeader, GetHeader, PutDecls, GetDecls, PutList, GetList,
      PutE, GetE, PutS, GetS, BuildE, BuildS, BodyRestored, SameDecls, WrittenExprs, WrittenStmts, HeaderOf, ArgsOf,
        VarsOf;
    var h := HeaderOf(p, fl);
    var exprs, stmts := WrittenExprs(p, fl).recs, WrittenStmts(p, fl).recs;
    var c := PutList(stmts, PutS);
    var b := PutList(exprs, PutE) + c;
    var a := PutDecls(p) + b;
    assert Serialize(p, fl) == PutHeader(h) + a;
    HeaderFits(p, fl);
    HeaderBack(h, a);
    DeclCodes(p, fl);
    DeclsBack(p, fl, b);
    NothingSpecial(p, fl);
    RecordsBack(exprs, stmts);
    ListBack(exprs, PutE, GetE, c);
    assert c + [] == c;
    ListBack(stmts, PutS, GetS, []);
    VarsSame(p, h);
    HeaderTypes(p, fl);
    BodyBuilt(p, fl, h.strs);
    var d := Decls(p.name, ArgsOf(ArgCodes(p), h), VarsOf(VarCodes(p), h));
    var m := BuildE(p.vars, fl, h.etys, map[], exprs);
    var bd := BuildS(p.vars, h.strs, m.value, Builder([], map[], {0}), stmts);
    assert GetBody(h, d, fl, b) == Some(Prog(d.name, d.args, d.vars, bd.value.names, bd.value.body));
    BodyOnly(p, fl, d.args, bd.value.names, bd.value.body);
  }

  lemma {:induction false} HeaderTypes(p: Prog, fl: Floats)
    ensures HeaderOf(p, fl).etys == FinalTables(p, fl).etys
  {}

  lemma {:induction false} VarsSame(p: Prog, h: Header)
    requires CodesOk(ArgCodes(p), |h.strs|, |h.ttys|) && CodesOk(VarCodes(p), |h.strs|, |h.etys|)
    requires SameDecls(p, Decls(p.name, ArgsOf(ArgCodes(p), h), VarsOf(VarCodes(p), h)))
    ensures VarsOf(VarCodes(p), h) == p.vars
  {}

  lemma {:induction false} BodyOnly(p: Prog, fl: Floats, args: seq<Argument>, names: map<nat, string>, body: seq<Stmt>)
    requires BodyRestored(p, fl, Prog(p.name, p.args, p.vars, names, body))
    ensures BodyRestored(p, fl, Prog(p.name, args, p.vars, names, body))
  {}

  lemma {:induction false} NothingSpecial(p: Prog, fl: Floats)
    requires PlainB(p.vars, fl, p.body) && FitsProgram(p, fl)
    ensures forall e | e in WrittenExprs(p, fl).recs :: FitsE(e) && !e.rec.RString?
    ensures forall s | s in WrittenStmts(p, fl).recs :: FitsS(s) && !s.rec.SIfRange?
    ensures |WrittenExprs(p, fl).recs| < WORD && |WrittenStmts(p, fl).recs| < WORD
  {
    PlainNoStringsB(p.vars, fl, p.body, 0, DeclTables(p));
    PlainNoIfs(p.vars, fl, p.loops, p.body, ProgRef, 0, 0, WrittenExprs(p, fl).t);
  }

  /** Different loops of p stay different, so the body that is read is p's up to the identity
      of its loops. */
  lemma {:induction false} LoopsStayApart(p: Prog, fl: Floats, a: LoopId, b: LoopId)
    requires WfB(p.body, {}) && PlainB(p.vars, fl, p.body) && a in BoundB(p.body) && b in BoundB(p.body)
    ensures RefId(FinalTables(p, fl).stmts, LoopRef(a)) == RefId(FinalTables(p, fl).stmts, LoopRef(b)) <==> a == b
  {
    var fin := FinalTables(p, fl);
    TablesGrow(p, fl);
    BoundRefs(p.body, 0);
    BoundNumbered(p.vars, p.loops, p.body, ProgRef, 0, 0, WrittenExprs(p, fl).t, a);
    FindIs(fin.stmts, LoopRef(a), SameRef());
    FindIs(fin.stmts, LoopRef(b), SameRef());
  }

  lemma {:induction false} BoundNumbered(vars: seq<LocalVar>, names: map<LoopId, string>, ss: seq<Stmt>, parent: Ref,
                                         n: nat, k: nat, t: Tables, l: LoopId)
    requires l in BoundB(ss)
    ensures var u := EmitB(vars, names, ss, parent, n, k, t).t; RefId(u.stmts, LoopRef(l)) < |u.stmts|
    decreases ss, 0
  {
    var x := EmitS(vars, names, ss[0], parent, n, k, t);
    var n', k' := n + CountExprsS(ss[0]), k + LeavesS(ss[0]);
    var y := EmitB(vars, names, ss[1..], parent, n', k', x.t);
    if l in BoundB(ss[1..]) {
      BoundNumbered(vars, names, ss[1..], parent, n', k', x.t, l);
    } else {
      BoundNumberedS(vars, names, ss[0], parent, n, k, t, l);
      EmitExtends(vars, names, ss[1..], parent, n', k', x.t);
      FindLater(x.t.stmts, y.t.stmts, LoopRef(l), SameRef());
    }
  }

  lemma {:induction false} BoundNumberedS(vars: seq<LocalVar>, names: map<LoopId, string>, s: Stmt, parent: Ref, n: nat,
                                          k: nat, t: Tables, l: LoopId)
    requires l in Bound(s)
    ensures var u := EmitS(vars, names, s, parent, n, k, t).t; RefId(u.stmts, LoopRef(l)) < |u.stmts|
    decreases s, 1
  {
    var me := if s.Loop? then LoopRef(s.id) else LeafRef(k);
    var t1 := WithRef(WithRef(t, me), parent);
    match s
    case Loop(id, _, _, body) =>
      var t2 := WithStr(t1, LoopName(names, id));
      if l in BoundB(body) {
        BoundNumbered(vars, names, body, me, n, k, t2, l);
      } else {
        var u := EmitB(vars, names, body, me, n, k, t2).t;
        EmitExtends(vars, names, body, me, n, k, t2);
        RefEquivalence();
        InternExtends(WithRef(t, me).stmts, parent, SameRef());
        IdStays(t.stmts, me, SameRef(), u.stmts);
      }
    case IfRange(v, _, _, body) => BoundNumbered(vars, names, body, me, n + CountE(v), k + 1, t1, l);
  }
}
