/** The statements and conditions of a loop nest, wherever they are nested. */
module Sites {
  import opened IR
  import opened Semantics
  import opened Substitution
  import opened Decided

  /** The statements of a block that are not scopes, in order. */
  function Leaves(ss: seq<Stmt>): seq<Stmt>
  {
    if ss == [] then []
    else (if ss[0].IsScope() then Leaves(ss[0].body) else [ss[0]]) + Leaves(ss[1..])
  }

  /** What the ifs of a block test. */
  function Conditions(ss: seq<Stmt>): seq<Expr>
  {
    if ss == [] then []
    else
      (match ss[0]
       case Loop(_, _, _, body) => Conditions(body)
       case IfRange(v, _, _, body) => [v] + Conditions(body)
       case _ => [])
      + Conditions(ss[1..])
  }

  /** No if uses the index of l. */
  predicate SteeredWithout(ss: seq<Stmt>, l: LoopId) { forall c | c in Conditions(ss) :: !Mentions(c, l) }

  /** Everything that uses the index of l is a store to a buffer. */
  predicate OnlyStoresUse(ss: seq<Stmt>, l: LoopId)
  {
    SteeredWithout(ss, l) && forall s | s in Leaves(ss) && !s.Store? :: !MentionsS(s, l)
  }

  /** What a block runs is among its leaves. */
  lemma {:induction false} InstanceLeaf(p: Stmt, pe: Env, ss: seq<Stmt>, env: Env, g: State)
    requires IsInstance(p, pe, ss, env, g)
    ensures p in Leaves(ss)
    decreases ss
  {
    if IsInstance(p, pe, ss[1..], env, g) {
      InstanceLeaf(p, pe, ss[1..], env, g);
    } else {
      match ss[0] {
        case Loop(id, end, stride, body) =>
          var k: nat :| k < Trip(end, stride) && IsInstance(p, pe, body, env.At(id, k * stride), g);
          InstanceLeaf(p, pe, body, env.At(id, k * stride), g);
        case IfRange(_, _, _, body) => InstanceLeaf(p, pe, body, env, g);
        case _ =>
      }
    }
  }

  /** Where no if uses the index, every iteration of l runs the same leaves: what iteration i runs,
      iteration j runs at its own index. */
  lemma {:induction false} InstanceMoves(p: Stmt, pe: Env, ss: seq<Stmt>, env: Env, l: LoopId, i: int, j: int,
                                         g: State)
    requires SteeredWithout(ss, l) && l !in BoundB(ss) && IsInstance(p, pe, ss, env.At(l, i), g)
    ensures pe.Get(l) == i && IsInstance(p, pe.At(l, j), ss, env.At(l, j), g)
    decreases ss
  {
    if IsInstance(p, pe, ss[1..], env.At(l, i), g) {
      InstanceMoves(p, pe, ss[1..], env, l, i, j, g);
    } else {
      match ss[0] {
        case Loop(id, end, stride, body) =>
          var k: nat :| k < Trip(end, stride) && IsInstance(p, pe, body, env.At(l, i).At(id, k * stride), g);
          AtAt(env, l, i, id, k * stride);
          AtAt(env, l, j, id, k * stride);
          InstanceMoves(p, pe, body, env.At(id, k * stride), l, i, j, g);
        case IfRange(v, start, stop, body) =>
          assert v in Conditions(ss);
          EvalAgree(v, env.At(l, i), env.At(l, j), g, 0);
          assert forall c | c in Conditions(body) :: c in Conditions(ss);
          InstanceMoves(p, pe, body, env, l, i, j, g);
        case _ =>
          assert env.idx[l := i][l := j] == env.idx[l := j];
      }
    }
  }

  /** The leaves of two blocks, one after the other. */
  lemma {:induction false} LeavesAppend(a: seq<Stmt>, b: seq<Stmt>)
    ensures Leaves(a + b) == Leaves(a) + Leaves(b)
  {
    if a == [] {
      assert a + b == b;
    } else {
      assert (a + b)[0] == a[0] && (a + b)[1..] == a[1..] + b;
      LeavesAppend(a[1..], b);
    }
  }

  /** How many of the statements are stores that use the index of l. */
  function Users(ps: seq<Stmt>, l: LoopId): nat
  {
    if ps == [] then 0 else (if ps[0].Store? && MentionsS(ps[0], l) then 1 else 0) + Users(ps[1..], l)
  }

  lemma {:induction false} UsersAppend(a: seq<Stmt>, b: seq<Stmt>, l: LoopId)
    ensures Users(a + b, l) == Users(a, l) + Users(b, l)
  {
    if a == [] {
      assert a + b == b;
    } else {
      assert (a + b)[0] == a[0] && (a + b)[1..] == a[1..] + b;
      UsersAppend(a[1..], b, l);
    }
  }
}
