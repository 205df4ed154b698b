/** The passes of simplify that remove loops and ifs. */
module StmtPasses {
  import opened IR
  import opened Families
  import opened Semantics
  import opened Substitution
  import opened Context
  import opened Ranges
  import opened Types
  import opened SimplifyExpr
  import opened Safety
  import opened ExprPass

  // ---- removeEmptyLoops ----------------------------------------------------------------------

  /** A loop is looked at before the loops inside it, so a loop that only becomes empty stays. */
  function EmptyB(ss: seq<Stmt>): seq<Stmt>
  {
    if ss == [] then []
    else
      (match ss[0]
       case Loop(id, end, stride, body) => if body == [] then [] else [Loop(id, end, stride, EmptyB(body))]
       case IfRange(v, start, stop, body) => [IfRange(v, start, stop, EmptyB(body))]
       case _ => [ss[0]])
      + EmptyB(ss[1..])
  }

  predicate NoEmpty(ss: seq<Stmt>)
  {
    ss == [] || (
      (match ss[0]
       case Loop(_, _, _, body) => body != [] && NoEmpty(body)
       case IfRange(_, _, _, body) => NoEmpty(body)
       case _ => true)
      && NoEmpty(ss[1..]))
  }

  function EmptyOne(s: Stmt): seq<Stmt>
  {
    match s
    case Loop(id, end, stride, body) => if body == [] then [] else [Loop(id, end, stride, EmptyB(body))]
    case IfRange(v, start, stop, body) => [IfRange(v, start, stop, EmptyB(body))]
    case _ => [s]
  }

  lemma {:induction false} EmptyHead(ss: seq<Stmt>)
    requires ss != []
    ensures EmptyB(ss) == EmptyOne(ss[0]) + EmptyB(ss[1..])
  {}

  lemma {:induction false} EmptyIdle(id: LoopId, end: nat, stride: nat, env: Env, st: State)
    ensures Exec([Loop(id, end, stride, [])], env, st) == st
  {
    ExecOne(Loop(id, end, stride, []), env, st);
    ExecLoop(id, end, stride, [], env, st);
    IterIdle(Body([], id, stride, env), 0, Trip(end, stride), st);
  }

  /** Removing empty loops keeps what the program does, its types and its form. */
  lemma {:induction false} EmptyFollows(t: Table, ss: seq<Stmt>)
    requires TypedB(ss)
    ensures Follows(t, ss, EmptyB(ss)) && TypedB(EmptyB(ss))
    decreases ss, 0
  {
    if ss != [] {
      EmptyOneFollows(t, ss[0]);
      EmptyFollows(t, ss[1..]);
      EmptyHead(ss);
      assert ss == [ss[0]] + ss[1..];
      FollowsAppend(t, [ss[0]], ss[1..], EmptyOne(ss[0]), EmptyB(ss[1..]));
      TypedAppend(EmptyOne(ss[0]), EmptyB(ss[1..]));
    }
  }

  lemma {:induction false} EmptyOneFollows(t: Table, s: Stmt)
    requires TypedS(s)
    ensures Follows(t, [s], EmptyOne(s)) && TypedB(EmptyOne(s))
    decreases s, 1
  {
    match s
    case Loop(id, end, stride, body) =>
      if body == [] {
        forall env: Env, st: State ensures Exec(EmptyOne(s), env, st) == Exec([s], env, st) &&
          SafeB(EmptyOne(s), env, st) {
          EmptyIdle(id, end, stride, env, st);
        }
      } else {
        EmptyFollows(t[id := Extent(end, stride)], body);
        FollowsLoop(t, id, end, stride, body, EmptyB(body));
        TypedOne(EmptyOne(s)[0]);
      }
    case IfRange(v, start, stop, body) =>
      EmptyFollows(t, body);
      SameSelf(v);
      FollowsIf(t, v, v, start, stop, body, EmptyB(body));
      TypedOne(EmptyOne(s)[0]);
    case _ => TypedOne(s);
  }

  lemma {:induction false} EmptyWf(ss: seq<Stmt>, scope: set<LoopId>)
    requires WfB(ss, scope)
    ensures WfB(EmptyB(ss), scope) && BoundB(EmptyB(ss)) <= BoundB(ss)
    decreases ss
  {
    if ss != [] {
      EmptyWf(ss[1..], scope);
      EmptyHead(ss);
      var x := EmptyOne(ss[0]);
      match ss[0] {
        case Loop(id, end, stride, body) =>
          EmptyWf(body, scope + {id});
          if body != [] { Single(x[0]); }
        case IfRange(_, _, _, body) =>
          EmptyWf(body, scope);
          Single(x[0]);
        case _ => Single(x[0]);
      }
      WfAppend(x, EmptyB(ss[1..]), scope);
      BoundAppend(x, EmptyB(ss[1..]));
    }
  }

  /** Fewer nodes if there is an empty loop, and no change otherwise. */
  lemma {:induction false} EmptySize(ss: seq<Stmt>)
    ensures if NoEmpty(ss) then EmptyB(ss) == ss else SizeB(EmptyB(ss)) < SizeB(ss)
    decreases ss
  {
    if ss != [] {
      EmptySize(ss[1..]);
      EmptyHead(ss);
      var x := EmptyOne(ss[0]);
      SizeAppend(x, EmptyB(ss[1..]));
      if x != [] { TypedOne(x[0]); }
      match ss[0] {
        case Loop(_, _, _, body) => EmptySize(body);
        case IfRange(_, _, _, body) => EmptySize(body);
        case _ =>
      }
      if NoEmpty(ss) { assert x == [ss[0]]; }
    }
  }

  lemma {:induction false} SizeSplit(ss: seq<Stmt>)
    requires ss != []
    ensures SizeB(ss) == SizeS(ss[0]) + SizeB(ss[1..]) && SizeB(ss[1..]) < SizeB(ss)
    ensures ss[0].IsScope() ==> SizeB(ss[0].body) < SizeS(ss[0])
  {}

  // ---- simplifyIfs ------------------------------------------------------------------------------

  /** The relation of the condition of an if with its range, as far as it is known. */
  function Decision(s: Stmt, t: Table): Relation
    requires s.IfRange?
  {
    var r := KnownRange(s.val, t, None);
    if r.None? then Intersect else RangeRelation(r.value, s.start, s.stop)
  }

  /** Removes decided ifs; the content of an if that always runs is looked at in its place. */
  function IfsB(ss: seq<Stmt>, t: Table): seq<Stmt>
    decreases SizeB(ss)
  {
    if ss == [] then []
    else
      SizeSplit(ss);
      match ss[0]
      case Loop(id, end, stride, body) =>
        [Loop(id, end, stride, IfsB(body, t[id := Extent(end, stride)]))] + IfsB(ss[1..], t)
      case IfRange(v, start, stop, body) =>
        (match Decision(ss[0], t)
         case Intersect => [IfRange(v, start, stop, IfsB(body, t))] + IfsB(ss[1..], t)
         case Disjoint => IfsB(ss[1..], t)
         case Subset => SizeAppend(body, ss[1..]); IfsB(body + ss[1..], t))
      case _ => [ss[0]] + IfsB(ss[1..], t)
  }

  predicate NoDecided(ss: seq<Stmt>, t: Table)
  {
    ss == [] || (
      (match ss[0]
       case Loop(id, end, stride, body) => NoDecided(body, t[id := Extent(end, stride)])
       case IfRange(_, _, _, body) => Decision(ss[0], t) == Intersect && NoDecided(body, t)
       case _ => true)
      && NoDecided(ss[1..], t))
  }

  /** The decision of this if is right: the range of its condition is computed without Max and
      without overflow, and ends strictly below the bound it is compared with. */
  predicate DecidedRightly(s: Stmt, t: Table)
    requires s.IfRange?
  {
    match Decision(s, t)
    case Intersect => true
    case Subset => MaxFree(s.val) && Fits(s.val, t, None) && KnownRange(s.val, t, None).value.hi < s.stop
    case Disjoint =>
      MaxFree(s.val) && Fits(s.val, t, None) && (KnownRange(s.val, t, None).value.hi < s.start || s.start >= s.stop)
  }

  /** Every if that the pass removes is decided rightly. */
  predicate IfsLegal(ss: seq<Stmt>, t: Table)
    decreases SizeB(ss)
  {
    ss == [] || (
      SizeSplit(ss);
      match ss[0]
      case Loop(id, end, stride, body) => IfsLegal(body, t[id := Extent(end, stride)]) && IfsLegal(ss[1..], t)
      case IfRange(v, start, stop, body) =>
        DecidedRightly(ss[0], t) &&
        (match Decision(ss[0], t)
         case Intersect => IfsLegal(body, t) && IfsLegal(ss[1..], t)
         case Disjoint => IfsLegal(ss[1..], t)
         case Subset => SizeAppend(body, ss[1..]); IfsLegal(body + ss[1..], t))
      case _ => IfsLegal(ss[1..], t))
  }

  /** A rightly decided if runs its body always, or never. */
  lemma {:induction false} DecidedRuns(s: Stmt, t: Table, env: Env, st: State)
    requires s.IfRange? && Scalar(s.val) && GoodTable(t) && ValidEnv(t, env) && DecidedRightly(s, t)
    ensures Decision(s, t) == Subset ==> Exec([s], env, st) == Exec(s.body, env, st)
    ensures Decision(s, t) == Subset ==> SafeS(s, env, st) ==> SafeB(s.body, env, st)
    ensures Decision(s, t) == Disjoint ==> Exec([s], env, st) == st
  {
    ExecOne(s, env, st);
    if Decision(s, t) != Intersect {
      KnownRangeSound(s.val, t, None, env, st);
      var a := KnownRange(s.val, t, None).value;
      var i := Eval(s.val, env, st, 0).i;
      if Decision(s, t) == Subset {
        SubsetExactly(a, s.start, s.stop);
        assert InRange(i, s.start, s.stop);
      } else {
        DisjointExactly(a, s.start, s.stop);
        assert !InRange(i, s.start, s.stop);
      }
    }
  }

  /** For a condition that rises with its indices, the decision is right exactly when its last value
      lies strictly below the bound it is compared with: the if runs always, or never. */
  lemma {:induction false} IfRemovalExactly(v: Expr, start: int, stop: int, body: seq<Stmt>, t: Table)
    requires GoodTable(t) && Rising(v, t) && Fits(v, t, None)
    ensures var s := IfRange(v, start, stop, body);
      (Decision(s, t) == Subset ==>
        (DecidedRightly(s, t) <==>
         forall env: Env, st: State | ValidEnv(t, env) :: InRange(AsInt(Eval(v, env, st, 0)), start, stop))) &&
      (Decision(s, t) == Disjoint ==>
        (DecidedRightly(s, t) <==>
         forall env: Env, st: State | ValidEnv(t, env) :: !InRange(AsInt(Eval(v, env, st, 0)), start, stop)))
  {
    RisingKnown(v, t);
    var r := KnownRange(v, t, None).value;
    var none := State(map[], []);
    RisingTop(v, t, none);
    assert ValidEnv(t, LastEnv(t)) && AsInt(Eval(v, LastEnv(t), none, 0)) == r.hi;
    forall env: Env, st: State | ValidEnv(t, env)
      ensures r.lo <= AsInt(Eval(v, env, st, 0)) <= r.hi
    {
      KnownRangeSound(v, t, None, env, st);
    }
  }

  lemma {:induction false} GoodInside(t: Table, id: LoopId, end: nat, stride: nat)
    requires GoodTable(t) && end > 0 && stride > 0 && end % stride == 0
    ensures GoodTable(t[id := Extent(end, stride)])
  {
    TripExact(end, stride);
    MulGap(0, end / stride, stride);
    MulGap(1, end / stride, stride);
    MulGap(end / stride, 0, stride);
  }

  /** Removing rightly decided ifs keeps what the program does. */
  lemma {:induction false} IfsFollow(t: Table, ss: seq<Stmt>, scope: set<LoopId>)
    requires WfB(ss, scope) && TypedB(ss) && GoodTable(t) && IfsLegal(ss, t)
    ensures Follows(t, ss, IfsB(ss, t)) && TypedB(IfsB(ss, t))
    decreases SizeB(ss)
  {
    if ss != [] {
      SizeSplit(ss);
      var s, rest := ss[0], ss[1..];
      assert ss == [s] + rest;
      match s {
        case Loop(id, end, stride, body) =>
          GoodInside(t, id, end, stride);
          IfsFollow(t[id := Extent(end, stride)], body, scope + {id});
          IfsFollow(t, rest, scope);
          var s' := Loop(id, end, stride, IfsB(body, t[id := Extent(end, stride)]));
          FollowsLoop(t, id, end, stride, body, s'.body);
          KeptHead(t, s, rest, s', IfsB(rest, t));
        case IfRange(v, start, stop, body) =>
          match Decision(s, t) {
            case Intersect =>
              IfsFollow(t, body, scope);
              IfsFollow(t, rest, scope);
              var s' := IfRange(v, start, stop, IfsB(body, t));
              SameSelf(v);
              FollowsIf(t, v, v, start, stop, body, s'.body);
              KeptHead(t, s, rest, s', IfsB(rest, t));
            case Disjoint =>
              IfsFollow(t, rest, scope);
              DropDisjoint(t, s, rest);
              FollowsTrans(t, ss, rest, IfsB(rest, t));
            case Subset =>
              SizeAppend(body, rest);
              WfAppend(body, rest, scope);
              TypedAppend(body, rest);
              IfsFollow(t, body + rest, scope);
              OpenSubset(t, s, rest);
              FollowsTrans(t, ss, body + rest, IfsB(body + rest, t));
          }
        case _ =>
          IfsFollow(t, rest, scope);
          FollowsAppend(t, [s], rest, [s], IfsB(rest, t));
          KeptHead(t, s, rest, s, IfsB(rest, t));
      }
    }
  }

  lemma {:induction false} KeptHead(t: Table, s: Stmt, rest: seq<Stmt>, s': Stmt, rest': seq<Stmt>)
    requires Follows(t, [s], [s']) && Follows(t, rest, rest') && TypedS(s') && TypedB(rest')
    ensures Follows(t, [s] + rest, [s'] + rest') && TypedB([s'] + rest')
  {
    FollowsAppend(t, [s], rest, [s'], rest');
    TypedOne(s');
    TypedAppend([s'], rest');
  }

  lemma {:induction false} DropDisjoint(t: Table, s: Stmt, rest: seq<Stmt>)
    requires s.IfRange? && Scalar(s.val) && GoodTable(t) && DecidedRightly(s, t) && Decision(s, t) == Disjoint
    ensures Follows(t, [s] + rest, rest)
  {
    forall env: Env, st: State | ValidEnv(t, env) && GoodMachine(env.m) && SafeB([s] + rest, env, st)
      ensures SafeB(rest, env, st) && Exec(rest, env, st) == Exec([s] + rest, env, st)
    {
      DecidedRuns(s, t, env, st);
      SafeAppend([s], rest, env, st);
      ExecAppend([s], rest, env, st);
    }
  }

  lemma {:induction false} OpenSubset(t: Table, s: Stmt, rest: seq<Stmt>)
    requires s.IfRange? && Scalar(s.val) && GoodTable(t) && DecidedRightly(s, t) && Decision(s, t) == Subset
    ensures Follows(t, [s] + rest, s.body + rest)
  {
    forall env: Env, st: State | ValidEnv(t, env) && GoodMachine(env.m) && SafeB([s] + rest, env, st)
      ensures SafeB(s.body + rest, env, st) && Exec(s.body + rest, env, st) == Exec([s] + rest, env, st)
    {
      DecidedRuns(s, t, env, st);
      SafeAppend([s], rest, env, st);
      SafeAppend(s.body, rest, env, st);
      SafeOne(s, env, st);
      ExecAppend([s], rest, env, st);
      ExecAppend(s.body, rest, env, st);
    }
  }

  lemma {:induction false} IfsWf(ss: seq<Stmt>, t: Table, scope: set<LoopId>)
    requires WfB(ss, scope)
    ensures WfB(IfsB(ss, t), scope) && BoundB(IfsB(ss, t)) <= BoundB(ss)
    decreases SizeB(ss)
  {
    if ss != [] {
      SizeSplit(ss);
      var s, rest := ss[0], ss[1..];
      match s {
        case Loop(id, end, stride, body) =>
          var t' := t[id := Extent(end, stride)];
          IfsWf(body, t', scope + {id});
          IfsWf(rest, t, scope);
          HeadWf(Loop(id, end, stride, IfsB(body, t')), IfsB(rest, t), scope);
        case IfRange(v, start, stop, body) =>
          match Decision(s, t) {
            case Intersect =>
              IfsWf(body, t, scope);
              IfsWf(rest, t, scope);
              HeadWf(IfRange(v, start, stop, IfsB(body, t)), IfsB(rest, t), scope);
            case Disjoint => IfsWf(rest, t, scope);
            case Subset =>
              SizeAppend(body, rest);
              WfAppend(body, rest, scope);
              BoundAppend(body, rest);
              IfsWf(body + rest, t, scope);
          }
        case _ =>
          IfsWf(rest, t, scope);
          HeadWf(s, IfsB(rest, t), scope);
      }
    }
  }

  lemma {:induction false} HeadWf(s: Stmt, rest: seq<Stmt>, scope: set<LoopId>)
    requires WfS(s, scope) && WfB(rest, scope) && Bound(s) !! BoundB(rest)
    ensures WfB([s] + rest, scope) && BoundB([s] + rest) == Bound(s) + BoundB(rest)
  {
    Single(s);
    WfAppend([s], rest, scope);
    BoundAppend([s], rest);
  }

  /** Fewer nodes if some if is decided, and no change otherwise. */
  lemma {:induction false} IfsSize(ss: seq<Stmt>, t: Table)
    ensures if NoDecided(ss, t) then IfsB(ss, t) == ss else SizeB(IfsB(ss, t)) < SizeB(ss)
    decreases SizeB(ss)
  {
    if ss != [] {
      SizeSplit(ss);
      var s, rest := ss[0], ss[1..];
      match s {
        case Loop(id, end, stride, body) =>
          var t' := t[id := Extent(end, stride)];
          IfsSize(body, t');
          IfsSize(rest, t);
          HeadSize(Loop(id, end, stride, IfsB(body, t')), IfsB(rest, t));
        case IfRange(v, start, stop, body) =>
          match Decision(s, t) {
            case Intersect =>
              IfsSize(body, t);
              IfsSize(rest, t);
              HeadSize(IfRange(v, start, stop, IfsB(body, t)), IfsB(rest, t));
            case Disjoint => IfsSize(rest, t);
            case Subset =>
              SizeAppend(body, rest);
              IfsSize(body + rest, t);
          }
        case _ =>
          IfsSize(rest, t);
          HeadSize(s, IfsB(rest, t));
      }
    }
  }

  lemma {:induction false} HeadSize(s: Stmt, rest: seq<Stmt>)
    ensures SizeB([s] + rest) == SizeS(s) + SizeB(rest)
  {
    assert ([s] + rest)[1..] == rest;
  }

  // ---- removeTrip1Loops ----------------------------------------------------------------------------

  /** A loop that runs once is replaced by its body at index zero. */
  function TripOneB(ss: seq<Stmt>): seq<Stmt>
    decreases SizeB(ss)
  {
    if ss == [] then []
    else
      SizeSplit(ss);
      match ss[0]
      case Loop(id, end, stride, body) =>
        if end == stride then
          AtZeroSize(body, id);
          SizeAppend(AtZero(body, id), ss[1..]);
          TripOneB(AtZero(body, id) + ss[1..])
        else [Loop(id, end, stride, TripOneB(body))] + TripOneB(ss[1..])
      case IfRange(v, start, stop, body) => [IfRange(v, start, stop, TripOneB(body))] + TripOneB(ss[1..])
      case _ => [ss[0]] + TripOneB(ss[1..])
  }

  function AtZero(body: seq<Stmt>, id: LoopId): seq<Stmt> { SubstB(body, id, Const(0)) }

  predicate NoTripOne(ss: seq<Stmt>)
  {
    ss == [] || (
      (match ss[0]
       case Loop(_, end, stride, body) => end != stride && NoTripOne(body)
       case IfRange(_, _, _, body) => NoTripOne(body)
       case _ => true)
      && NoTripOne(ss[1..]))
  }

  lemma {:induction false} SubstSizeE(e: Expr, l: LoopId)
    ensures SizeE(Subst(e, l, Const(0))) == SizeE(e)
    decreases e, 0
  {
    match e
    case Binary(_, a, b) => SubstSizeE(a, l); SubstSizeE(b, l);
    case Unary(_, v) => SubstSizeE(v, l);
    case Load(_, subs, _) =>
      assert Subst(e, l, Const(0)).subs == SubstAll(subs, l, Const(0));
      SubstSizeAll(subs, l);
    case Broadcast(x, _) => SubstSizeE(x, l);
    case _ =>
  }

  lemma {:induction false} SubstSizeAll(es: seq<Expr>, l: LoopId)
    ensures SizeAll(SubstAll(es, l, Const(0))) == SizeAll(es)
    decreases es, 1
  {
    if es != [] {
      SubstSizeE(es[0], l);
      SubstSizeAll(es[1..], l);
      assert SubstAll(es, l, Const(0))[1..] == SubstAll(es[1..], l, Const(0));
    }
  }

  lemma {:induction false} AtZeroSize(ss: seq<Stmt>, l: LoopId)
    ensures SizeB(AtZero(ss, l)) == SizeB(ss)
    decreases ss
  {
    if ss != [] {
      AtZeroSize(ss[1..], l);
      var s' := SubstS(ss[0], l, Const(0));
      assert AtZero(ss, l) == [s'] + AtZero(ss[1..], l);
      HeadSize(s', AtZero(ss[1..], l));
      match ss[0] {
        case Loop(_, _, _, body) =>
          AtZeroSize(body, l);
          assert s'.body == AtZero(body, l);
        case IfRange(v, _, _, body) => SubstSizeE(v, l); AtZeroSize(body, l);
        case Store(_, subs, v, _) => SubstSizeAll(subs, l); SubstSizeE(v, l);
        case StoreLocal(_, v, _) => SubstSizeE(v, l);
        case Call(_, ps) => SubstSizeAll(ps, l);
      }
    }
  }

  lemma {:induction false} SubstTyped(e: Expr, l: LoopId)
    requires Typed(e) && Scalar(e)
    ensures Typed(Subst(e, l, Const(0))) && TypeOf(Subst(e, l, Const(0))) == TypeOf(e)
  {
    SubstType(e, l, Const(0));
    match e
    case Binary(_, a, b) => SubstTyped(a, l); SubstTyped(b, l);
    case Unary(_, v) => SubstTyped(v, l);
    case Load(_, subs, _) =>
      forall i | 0 <= i < |subs|
        ensures Typed(Subst(subs[i], l, Const(0))) && TypeOf(Subst(subs[i], l, Const(0))) == ExprType(IndexTy, 1)
      {
        assert subs[i] in subs;
        SubstTyped(subs[i], l);
      }
    case Broadcast(x, _) => SubstTyped(x, l);
    case _ =>
  }

  lemma {:induction false} SubstTypedSubs(es: seq<Expr>, l: LoopId)
    requires TypedSubs(es) && ScalarAll(es)
    ensures TypedSubs(SubstAll(es, l, Const(0)))
  {
    forall i | 0 <= i < |es|
      ensures Typed(Subst(es[i], l, Const(0))) && TypeOf(Subst(es[i], l, Const(0))) == ExprType(IndexTy, 1)
    {
      assert es[i] in es;
      SubstTyped(es[i], l);
    }
  }

  lemma {:induction false} AtZeroTyped(ss: seq<Stmt>, l: LoopId)
    requires TypedB(ss) && ScalarB(ss)
    ensures TypedB(AtZero(ss, l))
    decreases ss
  {
    if ss != [] {
      AtZeroTyped(ss[1..], l);
      var s' := SubstS(ss[0], l, Const(0));
      assert AtZero(ss, l) == [s'] + AtZero(ss[1..], l);
      TypedAppend([s'], AtZero(ss[1..], l));
      TypedOne(s');
      match ss[0] {
        case Loop(_, _, _, body) =>
          AtZeroTyped(body, l);
          assert s'.body == AtZero(body, l);
        case IfRange(v, _, _, body) => SubstTyped(v, l); AtZeroTyped(body, l);
        case Store(_, subs, v, _) => SubstTypedSubs(subs, l); SubstTyped(v, l);
        case StoreLocal(_, v, _) => SubstTyped(v, l);
        case Call(_, ps) =>
          forall x | x in SubstAll(ps, l, Const(0)) ensures TypedParam(x) {
            var i :| 0 <= i < |ps| && SubstAll(ps, l, Const(0))[i] == x;
            assert ps[i] in ps && TypedParam(ps[i]);
            if Typed(ps[i]) { SubstTyped(ps[i], l); }
          }
      }
    }
  }

  /** A loop that runs once runs its body at index zero. */
  lemma {:induction false} OnceFollows(t: Table, s: Stmt, rest: seq<Stmt>, scope: set<LoopId>)
    requires s.Loop? && s.end == s.stride && WfS(s, scope)
    ensures Follows(t, [s] + rest, AtZero(s.body, s.id) + rest)
  {
    var z := AtZero(s.body, s.id);
    WfScalar(s.body, scope + {s.id});
    WfBoundFresh(s.body, scope + {s.id});
    TripMul(1, s.stride);
    forall env: Env, st: State | ValidEnv(t, env) && GoodMachine(env.m) && SafeB([s] + rest, env, st)
      ensures SafeB(z + rest, env, st) && Exec(z + rest, env, st) == Exec([s] + rest, env, st)
    {
      SafeAppend([s], rest, env, st);
      SafeAppend(z, rest, env, st);
      SafeOne(s, env, st);
      ExecAppend([s], rest, env, st);
      ExecAppend(z, rest, env, st);
      ExecOne(s, env, st);
      ExecLoop(s.id, s.end, s.stride, s.body, env, st);
      var f := Body(s.body, s.id, s.stride, env);
      assert Iter(f, 0, st) == st && Iter(f, 1, st) == f(0, st);
      SafeIteration(s, env, st, 0);
      ExecSubst(s.body, s.id, Const(0), env, st);
      SafeSubst(s.body, s.id, 0, env, st);
    }
  }

  /** Removing loops that run once keeps what the program does. */
  lemma {:induction false} TripOneFollows(t: Table, ss: seq<Stmt>, scope: set<LoopId>)
    requires WfB(ss, scope) && TypedB(ss)
    ensures Follows(t, ss, TripOneB(ss)) && TypedB(TripOneB(ss))
    decreases SizeB(ss)
  {
    if ss != [] {
      SizeSplit(ss);
      var s, rest := ss[0], ss[1..];
      assert ss == [s] + rest;
      match s {
        case Loop(id, end, stride, body) =>
          if end == stride {
            OnceWf(s, rest, scope);
            OnceFollows(t, s, rest, scope);
            TripOneFollows(t, AtZero(body, id) + rest, scope);
            FollowsTrans(t, ss, AtZero(body, id) + rest, TripOneB(ss));
          } else {
            TripOneFollows(t[id := Extent(end, stride)], body, scope + {id});
            TripOneFollows(t, rest, scope);
            FollowsLoop(t, id, end, stride, body, TripOneB(body));
            KeptHead(t, s, rest, Loop(id, end, stride, TripOneB(body)), TripOneB(rest));
          }
        case IfRange(v, start, stop, body) =>
          TripOneFollows(t, body, scope);
          TripOneFollows(t, rest, scope);
          SameSelf(v);
          FollowsIf(t, v, v, start, stop, body, TripOneB(body));
          KeptHead(t, s, rest, IfRange(v, start, stop, TripOneB(body)), TripOneB(rest));
        case _ =>
          TripOneFollows(t, rest, scope);
          KeptHead(t, s, rest, s, TripOneB(rest));
      }
    }
  }

  lemma {:induction false} OnceWf(s: Stmt, rest: seq<Stmt>, scope: set<LoopId>)
    requires s.Loop? && WfS(s, scope) && WfB(rest, scope) && Bound(s) !! BoundB(rest)
    ensures var z := AtZero(s.body, s.id);
      WfB(z + rest, scope) && BoundB(z + rest) <= Bound(s) + BoundB(rest) && SizeB(z + rest) < SizeS(s) + SizeB(rest)
    ensures TypedB([s] + rest) ==> TypedB(AtZero(s.body, s.id) + rest)
  {
    var z := AtZero(s.body, s.id);
    WfBoundFresh(s.body, scope + {s.id});
    SubstWf(s.body, s.id, Const(0), scope + {s.id}, scope);
    WfAppend(z, rest, scope);
    BoundAppend(z, rest);
    AtZeroSize(s.body, s.id);
    SizeAppend(z, rest);
    if TypedB([s] + rest) {
      TypedAppend([s], rest);
      TypedOne(s);
      WfScalar(s.body, scope + {s.id});
      AtZeroTyped(s.body, s.id);
      TypedAppend(z, rest);
    }
  }

  lemma {:induction false} TripOneWf(ss: seq<Stmt>, scope: set<LoopId>)
    requires WfB(ss, scope)
    ensures WfB(TripOneB(ss), scope) && BoundB(TripOneB(ss)) <= BoundB(ss)
    decreases SizeB(ss)
  {
    if ss != [] {
      SizeSplit(ss);
      var s, rest := ss[0], ss[1..];
      match s {
        case Loop(id, end, stride, body) =>
          if end == stride {
            OnceWf(s, rest, scope);
            TripOneWf(AtZero(body, id) + rest, scope);
          } else {
            TripOneWf(body, scope + {id});
            TripOneWf(rest, scope);
            HeadWf(Loop(id, end, stride, TripOneB(body)), TripOneB(rest), scope);
          }
        case IfRange(v, start, stop, body) =>
          TripOneWf(body, scope);
          TripOneWf(rest, scope);
          HeadWf(IfRange(v, start, stop, TripOneB(body)), TripOneB(rest), scope);
        case _ =>
          TripOneWf(rest, scope);
          HeadWf(s, TripOneB(rest), scope);
      }
    }
  }

  /** Fewer nodes if some loop runs once, and no change otherwise. */
  lemma {:induction false} TripOneSize(ss: seq<Stmt>)
    ensures if NoTripOne(ss) then TripOneB(ss) == ss else SizeB(TripOneB(ss)) < SizeB(ss)
    decreases SizeB(ss)
  {
    if ss != [] {
      SizeSplit(ss);
      var s, rest := ss[0], ss[1..];
      match s {
        case Loop(id, end, stride, body) =>
          if end == stride {
            AtZeroSize(body, id);
            SizeAppend(AtZero(body, id), rest);
            TripOneSize(AtZero(body, id) + rest);
          } else {
            TripOneSize(body);
            TripOneSize(rest);
            HeadSize(Loop(id, end, stride, TripOneB(body)), TripOneB(rest));
          }
        case IfRange(v, start, stop, body) =>
          TripOneSize(body);
          TripOneSize(rest);
          HeadSize(IfRange(v, start, stop, TripOneB(body)), TripOneB(rest));
        case _ =>
          TripOneSize(rest);
          HeadSize(s, TripOneB(rest));
      }
    }
  }
}
