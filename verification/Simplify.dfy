/** simplify: rounds of all passes until a round reports no change. */
module Simplify {
  import opened IR
  import opened Context
  import opened Scopes
  import opened Ranges
  import opened SimplifyExpr
  import opened Safety
  import opened ExprPass
  import opened StmtPasses

  // ---- One round, and all rounds ---------------------------------------------------------------

  function RoundB(ss: seq<Stmt>, t: Table): Pass
  {
    var x := ExprsB(ss);
    if x.Failed? then Failed
    else
      var a := EmptyB(x.out);
      var b := IfsB(a, t);
      Pass(TripOneB(b), x.changed || !NoEmpty(x.out) || !NoDecided(a, t) || !NoTripOne(b))
  }

  /** A round that reports a change leaves fewer nodes; so simplify ends. */
  lemma {:induction false} RoundSize(ss: seq<Stmt>, t: Table)
    requires RoundB(ss, t).Pass?
    ensures var r := RoundB(ss, t); SizeB(r.out) <= SizeB(ss) && (r.changed ==> SizeB(r.out) < SizeB(ss))
  {
    var x := ExprsB(ss);
    ExprsSize(ss);
    EmptySize(x.out);
    IfsSize(EmptyB(x.out), t);
    TripOneSize(IfsB(EmptyB(x.out), t));
  }

  function SimplifyB(ss: seq<Stmt>, t: Table): Option<seq<Stmt>>
    decreases SizeB(ss)
  {
    var r := RoundB(ss, t);
    if r.Failed? then None
    else if r.changed then RoundSize(ss, t); SimplifyB(r.out, t)
    else Some(r.out)
  }

  /** In every round, every if that is removed is decided rightly. */
  predicate Legal(ss: seq<Stmt>, t: Table)
    decreases SizeB(ss)
  {
    var r := RoundB(ss, t);
    r.Pass? ==>
      IfsLegal(EmptyB(ExprsB(ss).out), t) && (r.changed ==> (RoundSize(ss, t); Legal(r.out, t)))
  }

  lemma {:induction false} RoundFollows(t: Table, ss: seq<Stmt>, scope: set<LoopId>)
    requires WfB(ss, scope) && TypedB(ss) && GoodTable(t) && RoundB(ss, t).Pass? && IfsLegal(EmptyB(ExprsB(ss).out), t)
    ensures var out := RoundB(ss, t).out;
      Follows(t, ss, out) && WfB(out, scope) && TypedB(out) && BoundB(out) <= BoundB(ss)
  {
    var x := ExprsB(ss).out;
    ExprsFollow(t, ss);
    ExprsWf(ss, scope);
    var a := EmptyB(x);
    EmptyFollows(t, x);
    EmptyWf(x, scope);
    var b := IfsB(a, t);
    IfsFollow(t, a, scope);
    IfsWf(a, t, scope);
    TripOneFollows(t, b, scope);
    TripOneWf(b, scope);
    FollowsTrans(t, ss, x, a);
    FollowsTrans(t, ss, a, b);
    FollowsTrans(t, ss, b, TripOneB(b));
  }

  /** simplify keeps what the program does on every run without a division by zero, and
      keeps it well formed and well typed. */
  lemma {:induction false} SimplifyPreserves(t: Table, ss: seq<Stmt>, scope: set<LoopId>)
    requires WfB(ss, scope) && TypedB(ss) && GoodTable(t) && Legal(ss, t) && SimplifyB(ss, t).Some?
    ensures var out := SimplifyB(ss, t).value;
      Follows(t, ss, out) && WfB(out, scope) && TypedB(out) && BoundB(out) <= BoundB(ss)
    decreases SizeB(ss)
  {
    var r := RoundB(ss, t);
    RoundFollows(t, ss, scope);
    if r.changed {
      RoundSize(ss, t);
      SimplifyPreserves(t, r.out, scope);
      FollowsTrans(t, ss, r.out, SimplifyB(ss, t).value);
    }
  }

  /** On return nothing is left to do: no empty loop, no loop that runs once, no decided if,
      and another simplify changes nothing. */
  lemma {:induction false} SimplifyFinal(ss: seq<Stmt>, t: Table)
    requires SimplifyB(ss, t).Some?
    ensures var out := SimplifyB(ss, t).value;
      NoEmpty(out) && NoTripOne(out) && NoDecided(out, t) && ExprsB(out) == Pass(out, false) &&
        SimplifyB(out, t) == Some(out)
    decreases SizeB(ss)
  {
    var r := RoundB(ss, t);
    if r.changed {
      RoundSize(ss, t);
      SimplifyFinal(r.out, t);
    } else {
      var x := ExprsB(ss).out;
      ExprsSettle(ss);
      EmptySize(x);
      IfsSize(x, t);
      TripOneSize(x);
    }
  }

  // ---- What is reported ------------------------------------------------------------------------

  lemma {:induction false} SimplifySizeB(ss: seq<Stmt>, t: Table)
    requires SimplifyB(ss, t).Some?
    ensures SizeB(SimplifyB(ss, t).value) <= SizeB(ss)
    decreases SizeB(ss)
  {
    var r := RoundB(ss, t);
    RoundSize(ss, t);
    if r.changed { SimplifySizeB(r.out, t); }
  }

  /** A program is modified exactly when the first round reports a change or some expression was
      busy: a new operand below a root that stays is not reported. */
  lemma {:induction false} ModifiedExactly(ss: seq<Stmt>, t: Table)
    requires SimplifyB(ss, t).Some?
    ensures SimplifyB(ss, t).value != ss <==> RoundB(ss, t).changed || BusyB(ss)
  {
    hide BusyB, ExprsB, EmptyB, IfsB, TripOneB, SizeB;
    var r := RoundB(ss, t);
    RoundSize(ss, t);
    if r.changed {
      SimplifySizeB(r.out, t);
    } else {
      var x := ExprsB(ss).out;
      ExprsKeepExactly(ss);
      EmptySize(x);
      IfsSize(x, t);
      TripOneSize(x);
    }
  }

  /** The pass over the expressions keeps the loops as they are. */
  lemma {:induction false} ExprsShape(ss: seq<Stmt>)
    requires ExprsB(ss).Pass?
    ensures var out := ExprsB(ss).out;
      |out| == |ss| && (NoEmpty(out) <==> NoEmpty(ss)) && (NoTripOne(out) <==> NoTripOne(ss))
    decreases ss
  {
    hide VisitE, SimplifyE, ProcessE, ProcessAll, VisitAll;
    if ss != [] {
      ExprsShape(ss[1..]);
      var x, ys := ExprsS(ss[0]).out, ExprsB(ss[1..]).out;
      match ss[0] {
        case Loop(_, _, _, body) => ExprsShape(body);
        case IfRange(_, _, _, body) => ExprsShape(body);
        case _ =>
      }
      assert (x + ys)[0] == x[0] && (x + ys)[1..] == ys;
    }
  }

  /** A change is reported exactly when an expression gets a new root, a loop is empty, a loop runs
      once, or an if is decided for its simplified condition. */
  lemma {:induction false} SimplifyReports(ss: seq<Stmt>, t: Table)
    requires RoundB(ss, t).Pass?
    ensures RoundB(ss, t).changed <==>
      ExprsB(ss).changed || !NoEmpty(ss) || !NoTripOne(ss) || !NoDecided(ExprsB(ss).out, t)
  {
    hide ExprsB, EmptyB, IfsB, TripOneB, SizeB, NoEmpty, NoTripOne, NoDecided;
    var x := ExprsB(ss).out;
    ExprsShape(ss);
    EmptySize(x);
    IfsSize(x, t);
  }

  /** simplify is to report whether the program was modified. It does exactly when something of that
      kind is there, or no expression was busy. */
  lemma {:induction false} SimplifyReportExactly(ss: seq<Stmt>, t: Table)
    requires SimplifyB(ss, t).Some?
    ensures var reported, modified := RoundB(ss, t).changed, SimplifyB(ss, t).value != ss;
      (reported <==> modified) <==>
        ExprsB(ss).changed || !NoEmpty(ss) || !NoTripOne(ss) || !NoDecided(ExprsB(ss).out, t) || !BusyB(ss)
  {
    ModifiedExactly(ss, t);
    SimplifyReports(ss, t);
  }

  /** v = (x + 0.0) + y becomes v = x + y, and no change is reported. */
  lemma {:induction false} OperandUnreported(v: LocalVar, x: LocalVar, y: LocalVar, t: Table)
    ensures var a, b := LoadLocal(x), LoadLocal(y);
      var before, after := [StoreLocal(v, Binary(Add, Binary(Add, a, ConstFP(0.0)), b), false)],
        [StoreLocal(v, Binary(Add, a, b), false)];
      RoundB(before, t) == Pass(after, false) && SimplifyB(before, t) == Some(after)
  {
    var a, b := LoadLocal(x), LoadLocal(y);
    var e, r := Binary(Add, Binary(Add, a, ConstFP(0.0)), b), Binary(Add, a, b);
    var before, after := [StoreLocal(v, e, false)], [StoreLocal(v, r, false)];
    assert SimplifyE(e.lhs) == Node(a, true) && SimplifyE(e) == Node(r, false);
    assert VisitE(r) == Visited(r, false) && ProcessE(e) == Visited(r, false);
    assert before[1..] == [] && after[1..] == [];
    assert ExprsB([]) == Pass([], false) && ExprsB(before) == Pass(after, false);
    assert EmptyB([]) == [] && IfsB([], t) == [] && TripOneB([]) == [];
    assert EmptyB(after) == after && IfsB(after, t) == after && TripOneB(after) == after;
    assert NoEmpty(after) && NoDecided(after, t) && NoTripOne(after);
  }

  // ---- In place ----------------------------------------------------------------------------------

  /** The statements from i on. */
  lemma {:induction false} FromAt(ss: seq<Stmt>, i: nat)
    requires i < |ss|
    ensures ss[i..] == [ss[i]] + ss[i + 1..] && ss[i..][0] == ss[i] && ss[i..][1..] == ss[i + 1..]
  {}

  /** The statement with every expression handle processed; scopes go on with their body. */
  method ExprSimplifyStmt(S: Stmt, ghost whole: seq<Stmt>) returns (ok: bool, out: Stmt, changed: bool)
    requires S in whole
    ensures ok <==> ExprsS(S).Pass?
    ensures ok ==> ExprsS(S) == Pass([out], changed)
    decreases whole, 0
  {
    ok, out, changed := false, S, false;
    match S {
      case Loop(id, end, stride, body) =>
        var inner := new Scope(body);
        ok, changed := ExprSimplify(inner);
        out := Loop(id, end, stride, inner.body);
      case IfRange(v, start, stop, body) =>
        var x := VisitE(v);
        if x.Broken? { return; }
        var y := SimplifyE(x.e);
        if y.Undefined? { return; }
        var inner := new Scope(body);
        var c;
        ok, c := ExprSimplify(inner);
        out, changed := IfRange(y.e, start, stop, inner.body), x.changed || y.moved || c;
      case Store(arg, subs, value, acc) =>
        var xs, y := ProcessAll(subs), ProcessE(value);
        if xs.BrokenAll? || y.Broken? { return; }
        ok, out, changed := true, Store(arg, xs.es, y.e, acc), xs.changed || y.changed;
      case StoreLocal(v, value, acc) =>
        var y := ProcessE(value);
        if y.Broken? { return; }
        ok, out, changed := true, StoreLocal(v, y.e, acc), y.changed;
      case Call(name, ps) =>
        var xs := VisitAll(ps);
        if xs.BrokenAll? { return; }
        ok, out, changed := true, Call(name, xs.es), xs.changed;
    }
  }

  method ExprSimplify(s: Scope) returns (ok: bool, changed: bool)
    modifies s
    ensures ok <==> ExprsB(old(s.body)).Pass?
    ensures ok ==> ExprsB(old(s.body)) == Pass(s.body, changed)
    decreases s.body, 1
  {
    hide ExprsB, ExprsS, ExprsState;
    ghost var ss := s.body;
    ok, changed := true, false;
    var i := 0;
    ExprsStarts(ss);
    while i < |s.body|
      invariant i <= |s.body| && ExprsState(ss, s.body, i, changed)
    {
      ghost var now := s.body;
      var S := s.body[i];
      ExprsStep(ss, now, i, changed);
      var o, out, c := ExprSimplifyStmt(S, ss);
      if !o { return false, changed; }
      s.ReplaceStmt(out, i);
      changed := changed || c;
      i := i + 1;
    }
    ExprsEnd(ss, s.body, changed);
  }

  /** The statements of body before i are simplified; those from i on are still those of ss. */
  predicate ExprsState(ss: seq<Stmt>, body: seq<Stmt>, i: nat, changed: bool)
  {
    i <= |body| == |ss| && body[i..] == ss[i..] &&
    var rest := ExprsB(ss[i..]);
    ExprsB(ss) == if rest.Failed? then Failed else Pass(body[..i] + rest.out, changed || rest.changed)
  }

  lemma {:induction false} ExprsStarts(ss: seq<Stmt>)
    ensures ExprsState(ss, ss, 0, false)
  {
    assert ss[0..] == ss && ss[..0] == [];
  }

  lemma {:induction false} ExprsStep(ss: seq<Stmt>, body: seq<Stmt>, i: nat, changed: bool)
    requires ExprsState(ss, body, i, changed) && i < |body|
    ensures body[i] in ss
    ensures ExprsS(body[i]).Failed? ==> ExprsB(ss).Failed?
    ensures forall out: Stmt, c: bool | ExprsS(body[i]) == Pass([out], c) ::
      ExprsState(ss, body[i := out], i + 1, changed || c)
  {
    hide ExprsS;
    FromAt(ss, i);
    FromAt(body, i);
    forall out: Stmt, c: bool | ExprsS(body[i]) == Pass([out], c)
      ensures ExprsState(ss, body[i := out], i + 1, changed || c)
    {
      Advance(body, i, out);
    }
  }

  lemma {:induction false} ExprsEnd(ss: seq<Stmt>, body: seq<Stmt>, changed: bool)
    requires ExprsState(ss, body, |body|, changed)
    ensures ExprsB(ss) == Pass(body, changed)
  {
    assert body[..|body|] == body && ss[|body|..] == [];
  }

  lemma {:induction false} Advance(now: seq<Stmt>, i: nat, out: Stmt)
    requires i < |now|
    ensures now[i := out][..i + 1] == now[..i] + [out] && now[i := out][i + 1..] == now[i + 1..]
  {}

  lemma {:induction false} Removed(now: seq<Stmt>, i: nat)
    requires i < |now|
    ensures (now[..i] + now[i + 1..])[..i] == now[..i] && (now[..i] + now[i + 1..])[i..] == now[i + 1..]
  {}

  lemma {:induction false} NoEmptyHead(ss: seq<Stmt>)
    requires ss != []
    ensures NoEmpty(ss) <==> NoEmpty([ss[0]]) && NoEmpty(ss[1..])
  {
    assert [ss[0]][1..] == [];
  }

  /** A statement that stays, with the empty loops inside it removed. */
  method RemoveEmptyInside(S: Stmt, ghost whole: seq<Stmt>) returns (out: Stmt, changed: bool)
    requires S in whole && !(S.Loop? && S.body == [])
    ensures EmptyOne(S) == [out] && changed == !NoEmpty([S])
    decreases whole, 0
  {
    assert [S][1..] == [];
    out, changed := S, false;
    match S {
      case Loop(id, end, stride, body) =>
        var inner := new Scope(body);
        changed := RemoveEmptyLoops(inner);
        out := Loop(id, end, stride, inner.body);
      case IfRange(v, start, stop, body) =>
        var inner := new Scope(body);
        changed := RemoveEmptyLoops(inner);
        out := IfRange(v, start, stop, inner.body);
      case _ =>
    }
  }

  /** The statements of body before i are done; those from i on are ss from at on. */
  predicate EmptyState(ss: seq<Stmt>, body: seq<Stmt>, i: nat, at: nat, changed: bool)
  {
    i <= |body| && at <= |ss| && body[i..] == ss[at..] &&
    EmptyB(ss) == body[..i] + EmptyB(ss[at..]) && (NoEmpty(ss) <==> !changed && NoEmpty(ss[at..]))
  }

  lemma {:induction false} EmptyDrops(ss: seq<Stmt>, body: seq<Stmt>, i: nat, at: nat, changed: bool)
    requires i < |body| && EmptyState(ss, body, i, at, changed) && body[i].Loop? && body[i].body == []
    ensures EmptyState(ss, body[..i] + body[i + 1..], i, at + 1, true)
  {
    FromAt(body, i);
    FromAt(ss, at);
    EmptyHead(ss[at..]);
    NoEmptyHead(ss[at..]);
    Removed(body, i);
    assert !NoEmpty([body[i]]);
  }

  lemma {:induction false} EmptyKeeps(ss: seq<Stmt>, body: seq<Stmt>, i: nat, at: nat, changed: bool, out: Stmt,
                                      c: bool)
    requires i < |body| && EmptyState(ss, body, i, at, changed)
    requires EmptyOne(body[i]) == [out] && c == !NoEmpty([body[i]])
    ensures EmptyState(ss, body[i := out], i + 1, at + 1, changed || c)
  {
    FromAt(body, i);
    FromAt(ss, at);
    EmptyHead(ss[at..]);
    NoEmptyHead(ss[at..]);
    Advance(body, i, out);
  }

  method RemoveEmptyLoops(s: Scope) returns (changed: bool)
    modifies s
    ensures s.body == EmptyB(old(s.body)) && changed == !NoEmpty(old(s.body))
    decreases s.body, 1
  {
    ghost var ss := s.body;
    changed := false;
    var i := 0;
    ghost var at := 0;
    while i < |s.body|
      invariant EmptyState(ss, s.body, i, at, changed)
      decreases |s.body| - i
    {
      ghost var now := s.body;
      var S := s.body[i];
      assert S == now[i..][0] == ss[at];
      if S.Loop? && S.body == [] {
        EmptyDrops(ss, now, i, at, changed);
        s.RemoveStmt(i);
        changed := true;
      } else {
        var out, c := RemoveEmptyInside(S, ss);
        EmptyKeeps(ss, now, i, at, changed, out, c);
        s.ReplaceStmt(out, i);
        changed := changed || c;
        i := i + 1;
      }
      at := at + 1;
    }
    assert s.body[..i] == s.body && ss[at..] == s.body[i..] == [];
  }

  lemma {:induction false} InsertedThenRemoved(ss: seq<Stmt>, i: nat, body: seq<Stmt>)
    requires i < |ss|
    ensures var x := ss[..i] + body + ss[i..];
      i + |body| < |x| &&
      var y := x[..i + |body|] + x[i + |body| + 1..];
      y[..i] == ss[..i] && y[i..] == body + ss[i + 1..]
  {
    var x := ss[..i] + body + ss[i..];
    assert x[..i + |body|] == ss[..i] + body && x[i + |body| + 1..] == ss[i + 1..];
    var y := x[..i + |body|] + x[i + |body| + 1..];
    assert y == ss[..i] + (body + ss[i + 1..]);
  }

  /** An if that the pass removes. */
  predicate Decided(S: Stmt, t: Table) { S.IfRange? && Decision(S, t) != Intersect }

  function IfsInside(S: Stmt, t: Table): Stmt
  {
    match S
    case Loop(id, end, stride, body) => Loop(id, end, stride, IfsB(body, t[id := Extent(end, stride)]))
    case IfRange(v, start, stop, body) => IfRange(v, start, stop, IfsB(body, t))
    case _ => S
  }

  lemma {:induction false} IfsHead(ss: seq<Stmt>, t: Table)
    requires ss != []
    ensures !Decided(ss[0], t) ==> IfsB(ss, t) == [IfsInside(ss[0], t)] + IfsB(ss[1..], t)
    ensures Decided(ss[0], t) ==>
      IfsB(ss, t) == IfsB((if Decision(ss[0], t) == Subset then ss[0].body else []) + ss[1..], t)
    ensures NoDecided(ss, t) <==> !Decided(ss[0], t) && NoDecided([ss[0]], t) && NoDecided(ss[1..], t)
  {
    assert [ss[0]][1..] == [];
    assert [] + ss[1..] == ss[1..];
  }

  /** A statement that stays, with the decided ifs inside it removed. */
  method SimplifyIfsInside(S: Stmt, t: Table) returns (out: Stmt, changed: bool)
    requires !Decided(S, t)
    ensures out == IfsInside(S, t) && changed == !NoDecided([S], t)
    decreases SizeS(S), 0
  {
    assert [S][1..] == [];
    out, changed := S, false;
    match S {
      case Loop(id, end, stride, body) =>
        var inner := new Scope(body);
        changed := SimplifyIfs(inner, t[id := Extent(end, stride)]);
        out := Loop(id, end, stride, inner.body);
      case IfRange(v, start, stop, body) =>
        var inner := new Scope(body);
        changed := SimplifyIfs(inner, t);
        out := IfRange(v, start, stop, inner.body);
      case _ =>
    }
  }

  /** The statements of body before i are done; those from i on are still to be looked at. */
  predicate IfsState(ss: seq<Stmt>, t: Table, body: seq<Stmt>, i: nat, changed: bool)
  {
    i <= |body| && SizeB(body[i..]) <= SizeB(ss) &&
    IfsB(ss, t) == body[..i] + IfsB(body[i..], t) && (NoDecided(ss, t) <==> !changed && NoDecided(body[i..], t))
  }

  lemma {:induction false} IfsStarts(ss: seq<Stmt>, t: Table)
    ensures IfsState(ss, t, ss, 0, false)
  {
    assert ss[..0] == [] && ss[0..] == ss;
  }

  lemma {:induction false} IfsEnds(ss: seq<Stmt>, t: Table, body: seq<Stmt>, changed: bool)
    requires IfsState(ss, t, body, |body|, changed)
    ensures body == IfsB(ss, t) && changed == !NoDecided(ss, t)
  {
    assert body[..|body|] == body && body[|body|..] == [];
  }

  lemma {:induction false} IfsRemoves(ss: seq<Stmt>, t: Table, body: seq<Stmt>, i: nat, changed: bool, body': seq<Stmt>)
    requires i < |body| && IfsState(ss, t, body, i, changed) && Decided(body[i], t) && i <= |body'|
    requires body'[..i] == body[..i]
    requires body'[i..] == (if Decision(body[i], t) == Subset then body[i].body else []) + body[i + 1..]
    ensures IfsState(ss, t, body', i, true) && SizeB(body'[i..]) < SizeB(body[i..])
  {
    FromAt(body, i);
    SizeSplit(body[i..]);
    IfsHead(body[i..], t);
    SizeAppend(if Decision(body[i], t) == Subset then body[i].body else [], body[i + 1..]);
  }

  lemma {:induction false} IfsKeeps(ss: seq<Stmt>, t: Table, body: seq<Stmt>, i: nat, changed: bool, c: bool)
    requires i < |body| && IfsState(ss, t, body, i, changed) && !Decided(body[i], t) && c == !NoDecided([body[i]], t)
    ensures var body' := body[i := IfsInside(body[i], t)];
      IfsState(ss, t, body', i + 1, changed || c) && SizeB(body'[i + 1..]) < SizeB(body[i..])
    ensures SizeS(body[i]) <= SizeB(ss)
  {
    FromAt(body, i);
    SizeSplit(body[i..]);
    IfsHead(body[i..], t);
    Advance(body, i, IfsInside(body[i], t));
  }

  method SimplifyIfs(s: Scope, t: Table) returns (changed: bool)
    modifies s
    ensures s.body == IfsB(old(s.body), t) && changed == !NoDecided(old(s.body), t)
    decreases SizeB(s.body), 1
  {
    hide IfsB, NoDecided, IfsInside, Decision, IfsState, RangeRelation;
    ghost var ss := s.body;
    changed := false;
    var i := 0;
    IfsStarts(ss, t);
    while i < |s.body|
      invariant i <= |s.body| && IfsState(ss, t, s.body, i, changed)
      decreases SizeB(s.body[i..])
    {
      ghost var now := s.body;
      var S := s.body[i];
      if S.IfRange? && Decision(S, t) == Disjoint {
        // Remove the if: the ranges do not meet.
        s.RemoveStmt(i);
        Removed(now, i);
        assert [] + now[i + 1..] == now[i + 1..];
        IfsRemoves(ss, t, now, i, changed, s.body);
        changed := true;
      } else if S.IfRange? && Decision(S, t) == Subset {
        // Always true: the body takes the place of the if.
        s.InsertAllBefore(S.body, i);
        s.RemoveStmt(i + |S.body|);
        InsertedThenRemoved(now, i, S.body);
        IfsRemoves(ss, t, now, i, changed, s.body);
        changed := true;
      } else {
        IfsKeeps(ss, t, now, i, changed, !NoDecided([S], t));
        var out, c := SimplifyIfsInside(S, t);
        s.ReplaceStmt(out, i);
        changed := changed || c;
        i := i + 1;
      }
    }
    IfsEnds(ss, t, s.body, changed);
  }

  function TripOneInside(S: Stmt): Stmt
  {
    match S
    case Loop(id, end, stride, body) => Loop(id, end, stride, TripOneB(body))
    case IfRange(v, start, stop, body) => IfRange(v, start, stop, TripOneB(body))
    case _ => S
  }

  predicate RunsOnce(S: Stmt) { S.Loop? && S.end == S.stride }

  lemma {:induction false} TripOneHead(ss: seq<Stmt>)
    requires ss != []
    ensures !RunsOnce(ss[0]) ==> TripOneB(ss) == [TripOneInside(ss[0])] + TripOneB(ss[1..])
    ensures RunsOnce(ss[0]) ==> TripOneB(ss) == TripOneB(AtZero(ss[0].body, ss[0].id) + ss[1..])
    ensures NoTripOne(ss) <==> !RunsOnce(ss[0]) && NoTripOne([ss[0]]) && NoTripOne(ss[1..])
  {
    assert [ss[0]][1..] == [];
  }

  /** A statement that stays, with the loops inside it that run once removed. */
  method RemoveTrip1Inside(S: Stmt) returns (out: Stmt, changed: bool)
    requires !RunsOnce(S)
    ensures out == TripOneInside(S) && changed == !NoTripOne([S])
    decreases SizeS(S), 0
  {
    assert [S][1..] == [];
    out, changed := S, false;
    match S {
      case Loop(id, end, stride, body) =>
        var inner := new Scope(body);
        changed := RemoveTrip1Loops(inner);
        out := Loop(id, end, stride, inner.body);
      case IfRange(v, start, stop, body) =>
        var inner := new Scope(body);
        changed := RemoveTrip1Loops(inner);
        out := IfRange(v, start, stop, inner.body);
      case _ =>
    }
  }

  predicate TripOneState(ss: seq<Stmt>, body: seq<Stmt>, i: nat, changed: bool)
  {
    i <= |body| && SizeB(body[i..]) <= SizeB(ss) &&
    TripOneB(ss) == body[..i] + TripOneB(body[i..]) && (NoTripOne(ss) <==> !changed && NoTripOne(body[i..]))
  }

  lemma {:induction false} TripOneRemoves(ss: seq<Stmt>, body: seq<Stmt>, i: nat, changed: bool, body': seq<Stmt>)
    requires i < |body| && TripOneState(ss, body, i, changed) && RunsOnce(body[i]) && i <= |body'|
    requires body'[..i] == body[..i] && body'[i..] == AtZero(body[i].body, body[i].id) + body[i + 1..]
    ensures TripOneState(ss, body', i, true) && SizeB(body'[i..]) < SizeB(body[i..])
  {
    FromAt(body, i);
    SizeSplit(body[i..]);
    TripOneHead(body[i..]);
    AtZeroSize(body[i].body, body[i].id);
    SizeAppend(AtZero(body[i].body, body[i].id), body[i + 1..]);
  }

  lemma {:induction false} TripOneKeeps(ss: seq<Stmt>, body: seq<Stmt>, i: nat, changed: bool, c: bool)
    requires i < |body| && TripOneState(ss, body, i, changed) && !RunsOnce(body[i]) && c == !NoTripOne([body[i]])
    ensures var body' := body[i := TripOneInside(body[i])];
      TripOneState(ss, body', i + 1, changed || c) && SizeB(body'[i + 1..]) < SizeB(body[i..])
    ensures SizeS(body[i]) <= SizeB(ss)
  {
    FromAt(body, i);
    SizeSplit(body[i..]);
    TripOneHead(body[i..]);
    Advance(body, i, TripOneInside(body[i]));
  }

  method RemoveTrip1Loops(s: Scope) returns (changed: bool)
    modifies s
    ensures s.body == TripOneB(old(s.body)) && changed == !NoTripOne(old(s.body))
    decreases SizeB(s.body), 1
  {
    ghost var ss := s.body;
    changed := false;
    var i := 0;
    while i < |s.body|
      invariant TripOneState(ss, s.body, i, changed)
      decreases SizeB(s.body[i..])
    {
      ghost var now := s.body;
      var S := s.body[i];
      if S.Loop? && S.end == S.stride {
        // One iteration at index zero takes the place of the loop.
        var z := SubstB(S.body, S.id, Const(0));
        s.InsertAllBefore(z, i);
        s.RemoveStmt(i + |z|);
        InsertedThenRemoved(now, i, z);
        TripOneRemoves(ss, now, i, changed, s.body);
        changed := true;
      } else {
        TripOneKeeps(ss, now, i, changed, !NoTripOne([S]));
        var out, c := RemoveTrip1Inside(S);
        s.ReplaceStmt(out, i);
        changed := changed || c;
        i := i + 1;
      }
    }
    assert s.body[..i] == s.body && s.body[i..] == [];
  }

  /** simplify(s) for a scope whose enclosing loops have the ranges t. */
  method SimplifyScope(s: Scope, t: Table) returns (ok: bool, changed: bool)
    modifies s
    ensures ok <==> SimplifyB(old(s.body), t).Some?
    ensures ok ==> SimplifyB(old(s.body), t) == Some(s.body)
    ensures ok ==> changed == RoundB(old(s.body), t).changed
    ensures ok ==> (s.body != old(s.body) <==> changed || BusyB(old(s.body)))
    ensures ok ==> NoEmpty(s.body) && NoTripOne(s.body) && NoDecided(s.body, t)
    ensures ok && WfB(old(s.body), t.Keys) && TypedB(old(s.body)) && GoodTable(t) && Legal(old(s.body), t) ==>
      Follows(t, old(s.body), s.body)
    decreases SizeB(s.body)
  {
    ghost var ss := s.body;
    ok, changed := ExprSimplify(s);
    if !ok { return; }
    var c := RemoveEmptyLoops(s);
    changed := changed || c;
    c := SimplifyIfs(s, t);
    changed := changed || c;
    c := RemoveTrip1Loops(s);
    changed := changed || c;
    assert RoundB(ss, t) == Pass(s.body, changed);
    if changed {
      RoundSize(ss, t);
      var again;
      ok, again := SimplifyScope(s, t);
    }
    if ok {
      SimplifyFinal(ss, t);
      ModifiedExactly(ss, t);
      if WfB(ss, t.Keys) && TypedB(ss) && GoodTable(t) && Legal(ss, t) { SimplifyPreserves(t, ss, t.Keys); }
    }
  }
}
