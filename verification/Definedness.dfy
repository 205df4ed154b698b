/** Where simplify is defined: programs without the constant pairs that it cannot fold. */
module Definedness {
  import opened IR
  import opened Substitution
  import opened Context
  import opened Types
  import opened SimplifyExpr
  import opened Safety
  import opened ExprPass
  import opened StmtPasses
  import opened Simplify

  predicate PlainAll(es: seq<Expr>) { forall x | x in es :: Plain(x) }

  predicate PlainS(s: Stmt)
    decreases s, 1
  {
    match s
    case Loop(_, _, _, body) => PlainB(body)
    case IfRange(v, _, _, body) => Plain(v) && PlainB(body)
    case Store(_, subs, value, _) => PlainAll(subs) && Plain(value)
    case StoreLocal(_, value, _) => Plain(value)
    case Call(_, ps) => PlainAll(ps)
  }

  predicate PlainB(ss: seq<Stmt>)
    decreases ss, 0
  {
    ss == [] || (PlainS(ss[0]) && PlainB(ss[1..]))
  }

  lemma {:induction false} PlainAppend(a: seq<Stmt>, b: seq<Stmt>)
    ensures PlainB(a + b) == (PlainB(a) && PlainB(b))
  {
    if a == [] {
      assert a + b == b;
    } else {
      assert (a + b)[0] == a[0] && (a + b)[1..] == a[1..] + b;
      PlainAppend(a[1..], b);
    }
  }

  lemma {:induction false} PlainHead(s: Stmt, rest: seq<Stmt>)
    ensures PlainB([s] + rest) == (PlainS(s) && PlainB(rest))
    ensures TypedB([s] + rest) == (TypedS(s) && TypedB(rest))
  {
    assert ([s] + rest)[1..] == rest;
  }

  // ---- Expressions ------------------------------------------------------------------------------

  /** The visitor is defined, and keeps an expression plain. */
  lemma {:induction false} VisitPlain(e: Expr)
    requires Plain(e) && Typed(e)
    ensures VisitE(e).Visited? && Plain(VisitE(e).e)
    decreases SizeE(e), 0, 0
  {
    match e
    case Binary(op, a, b) =>
      VisitPlain(a);
      VisitPlain(b);
      VisitSame(a);
      VisitRoot(b);
    case Unary(_, v) => VisitPlain(v);
    case Load(_, subs, _) => ProcessAllPlain(subs);
    case Broadcast(v, _) => VisitPlain(v);
    case _ =>
  }

  lemma {:induction false} ProcessPlain(e: Expr)
    requires Plain(e) && Typed(e)
    ensures ProcessE(e).Visited? && Plain(ProcessE(e).e)
    decreases SizeE(e), 1, 0
  {
    PlainDefined(e);
    SimplifySize(e);
    SimplifyShape(e);
    VisitPlain(SimplifyE(e).e);
  }

  lemma {:induction false} ProcessAllPlain(es: seq<Expr>)
    requires PlainAll(es) && forall x | x in es :: Typed(x)
    ensures ProcessAll(es).VisitedAll? && PlainAll(ProcessAll(es).es)
    decreases SizeAll(es), 2, |es|
  {
    if es != [] {
      ProcessPlain(es[0]);
      ProcessAllPlain(es[1..]);
    }
  }

  lemma {:induction false} VisitAllPlain(es: seq<Expr>)
    requires PlainAll(es) && forall x | x in es :: TypedParam(x)
    ensures VisitAll(es).VisitedAll? && PlainAll(VisitAll(es).es)
    decreases |es|
  {
    if es != [] {
      assert TypedParam(es[0]);
      if Typed(es[0]) { VisitPlain(es[0]); }
      VisitAllPlain(es[1..]);
    }
  }

  // ---- The passes --------------------------------------------------------------------------------

  lemma {:induction false} ExprsPlain(ss: seq<Stmt>)
    requires TypedB(ss) && PlainB(ss)
    ensures ExprsB(ss).Pass? && PlainB(ExprsB(ss).out)
    decreases ss, 0
  {
    if ss != [] {
      ExprsPlainS(ss[0]);
      ExprsPlain(ss[1..]);
      PlainAppend(ExprsS(ss[0]).out, ExprsB(ss[1..]).out);
    }
  }

  lemma {:induction false} ExprsPlainS(s: Stmt)
    requires TypedS(s) && PlainS(s)
    ensures ExprsS(s).Pass? && PlainB(ExprsS(s).out)
    decreases s, 1
  {
    match s {
      case Loop(_, _, _, body) => ExprsPlain(body);
      case IfRange(v, _, _, body) =>
        VisitPlain(v);
        VisitSame(v);
        PlainDefined(VisitE(v).e);
        ExprsPlain(body);
      case Store(_, subs, value, _) =>
        ProcessAllPlain(subs);
        ProcessPlain(value);
      case StoreLocal(_, value, _) => ProcessPlain(value);
      case Call(_, ps) => VisitAllPlain(ps);
    }
    var out := ExprsS(s).out;
    assert out == [out[0]] + [];
    PlainHead(out[0], []);
  }

  lemma {:induction false} EmptyPlain(ss: seq<Stmt>)
    requires PlainB(ss)
    ensures PlainB(EmptyB(ss))
  {
    if ss != [] {
      EmptyPlain(ss[1..]);
      EmptyHead(ss);
      if ss[0].IsScope() { EmptyPlain(ss[0].body); }
      PlainAppend(EmptyOne(ss[0]), EmptyB(ss[1..]));
    }
  }

  lemma {:induction false} IfsPlain(ss: seq<Stmt>, t: Table)
    requires PlainB(ss) && TypedB(ss)
    ensures PlainB(IfsB(ss, t)) && TypedB(IfsB(ss, t))
    decreases SizeB(ss)
  {
    if ss != [] {
      SizeSplit(ss);
      var s, rest := ss[0], ss[1..];
      match s {
        case Loop(id, end, stride, body) =>
          var t' := t[id := Extent(end, stride)];
          IfsPlain(body, t');
          IfsPlain(rest, t);
          PlainHead(Loop(id, end, stride, IfsB(body, t')), IfsB(rest, t));
        case IfRange(v, start, stop, body) =>
          match Decision(s, t) {
            case Intersect =>
              IfsPlain(body, t);
              IfsPlain(rest, t);
              PlainHead(IfRange(v, start, stop, IfsB(body, t)), IfsB(rest, t));
            case Disjoint => IfsPlain(rest, t);
            case Subset =>
              SizeAppend(body, rest);
              PlainAppend(body, rest);
              TypedAppend(body, rest);
              IfsPlain(body + rest, t);
          }
        case _ =>
          IfsPlain(rest, t);
          PlainHead(s, IfsB(rest, t));
      }
    }
  }

  // ---- Index zero --------------------------------------------------------------------------------

  lemma {:induction false} SubstPlain(e: Expr, l: LoopId)
    requires Plain(e) && Typed(e) && Scalar(e)
    ensures Plain(Subst(e, l, Const(0)))
  {
    match e
    case Binary(_, a, b) =>
      SubstPlain(a, l);
      SubstPlain(b, l);
      SubstTyped(a, l);
    case Unary(_, v) => SubstPlain(v, l);
    case Load(_, subs, _) => SubstPlainAll(subs, l);
    case Broadcast(x, _) => SubstPlain(x, l);
    case _ =>
  }

  lemma {:induction false} SubstPlainAll(es: seq<Expr>, l: LoopId)
    requires PlainAll(es) && ScalarAll(es) && forall x | x in es :: TypedParam(x)
    ensures PlainAll(SubstAll(es, l, Const(0)))
  {
    forall i | 0 <= i < |es| ensures Plain(Subst(es[i], l, Const(0))) {
      assert es[i] in es && TypedParam(es[i]);
      if Typed(es[i]) { SubstPlain(es[i], l); }
    }
  }

  lemma {:induction false} AtZeroPlain(ss: seq<Stmt>, l: LoopId)
    requires PlainB(ss) && TypedB(ss) && ScalarB(ss)
    ensures PlainB(AtZero(ss, l))
    decreases ss
  {
    if ss != [] {
      AtZeroPlain(ss[1..], l);
      var s' := SubstS(ss[0], l, Const(0));
      assert AtZero(ss, l) == [s'] + AtZero(ss[1..], l);
      PlainHead(s', AtZero(ss[1..], l));
      match ss[0] {
        case Loop(_, _, _, body) =>
          AtZeroPlain(body, l);
          assert s'.body == AtZero(body, l);
        case IfRange(v, _, _, body) => SubstPlain(v, l); AtZeroPlain(body, l);
        case Store(_, subs, v, _) => SubstPlainAll(subs, l); SubstPlain(v, l);
        case StoreLocal(_, v, _) => SubstPlain(v, l);
        case Call(_, ps) => SubstPlainAll(ps, l);
      }
    }
  }

  lemma {:induction false} TripOnePlain(ss: seq<Stmt>, scope: set<LoopId>)
    requires PlainB(ss) && TypedB(ss) && WfB(ss, scope)
    ensures PlainB(TripOneB(ss))
    decreases SizeB(ss)
  {
    if ss != [] {
      SizeSplit(ss);
      var s, rest := ss[0], ss[1..];
      assert ss == [s] + rest;
      match s {
        case Loop(id, end, stride, body) =>
          if end == stride {
            OnceWf(s, rest, scope);
            WfScalar(body, scope + {id});
            AtZeroPlain(body, id);
            PlainAppend(AtZero(body, id), rest);
            TripOnePlain(AtZero(body, id) + rest, scope);
          } else {
            TripOnePlain(body, scope + {id});
            TripOnePlain(rest, scope);
            PlainHead(Loop(id, end, stride, TripOneB(body)), TripOneB(rest));
          }
        case IfRange(v, start, stop, body) =>
          TripOnePlain(body, scope);
          TripOnePlain(rest, scope);
          PlainHead(IfRange(v, start, stop, TripOneB(body)), TripOneB(rest));
        case _ =>
          TripOnePlain(rest, scope);
          PlainHead(s, TripOneB(rest));
      }
    }
  }

  // ---- simplify ----------------------------------------------------------------------------------

  lemma {:induction false} RoundPlain(ss: seq<Stmt>, t: Table, scope: set<LoopId>)
    requires WfB(ss, scope) && TypedB(ss) && PlainB(ss)
    ensures RoundB(ss, t).Pass?
    ensures var out := RoundB(ss, t).out; WfB(out, scope) && TypedB(out) && PlainB(out)
  {
    hide WfB, TypedB, PlainB, ExprsB, EmptyB, IfsB, TripOneB, Follows;
    ExprsPlain(ss);
    ExprsFollow(t, ss);
    ExprsWf(ss, scope);
    var x := ExprsB(ss).out;
    EmptyPlain(x);
    EmptyFollows(t, x);
    EmptyWf(x, scope);
    var a := EmptyB(x);
    IfsPlain(a, t);
    IfsWf(a, t, scope);
    var b := IfsB(a, t);
    TripOnePlain(b, scope);
    TripOneFollows(t, b, scope);
    TripOneWf(b, scope);
  }

  /** simplify is defined on every well-formed, well-typed program that never takes a power, the
      Min or Max of floats, or a quotient other than by a constant that is not zero. */
  lemma {:induction false} SimplifyDefined(ss: seq<Stmt>, t: Table, scope: set<LoopId>)
    requires WfB(ss, scope) && TypedB(ss) && PlainB(ss)
    ensures SimplifyB(ss, t).Some? && PlainB(SimplifyB(ss, t).value)
    decreases SizeB(ss)
  {
    hide WfB, TypedB, PlainB, RoundB;
    RoundPlain(ss, t, scope);
    var r := RoundB(ss, t);
    if r.changed {
      RoundSize(ss, t);
      SimplifyDefined(r.out, t, scope);
    }
  }
}
