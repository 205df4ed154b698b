/** vectorize keeps the type rules of verify(). */
module VectorTypes {
  import opened IR
  import opened Substitution
  import opened Clone
  import opened Peeling
  import opened Types
  import opened ExprPass
  import opened Instances
  import opened Widening
  import opened Vectorizing

  /** A vectorized scalar is typed, with the same kind of elements, one or vf wide. */
  lemma {:induction false} VecTyped(e: Expr, l: LoopId, vf: nat)
    requires Typed(e) && Width(e) == 1
    ensures var x := VecExpr(e, l, vf);
      Typed(x) && TypeOf(x).elem == TypeOf(e).elem && (Width(x) == 1 || Width(x) == vf)
  {
    match e
    case Binary(_, a, b) => VecTyped(a, l, vf); VecTyped(b, l, vf);
    case Unary(_, v) => VecTyped(v, l, vf);
    case _ =>
  }

  lemma {:induction false} VecStoreTyped(p: Stmt, l: LoopId, vf: nat)
    requires p.Store? && TypedS(p) && Width(p.value) == 1
    ensures TypedS(VecStore(p, l, vf)) && TypeOf(VecStore(p, l, vf).value).elem == TypeOf(p.value).elem
  {
    VecTyped(p.value, l, vf);
  }

  lemma {:induction false} MapStoresTyped(ss: seq<Stmt>, l: LoopId, vf: nat)
    requires TypedB(ss) && MayVectorizeBody(ss, l)
    ensures TypedB(MapStores(ss, l, Vector(vf)))
    decreases ss
  {
    hide Typed, VecExpr;
    var mode := Vector(vf);
    NothingMapped(l, mode);
    if ss != [] {
      MapStoresTyped(ss[1..], l, vf);
      assert [ss[0]][1..] == [];
      var out: Stmt;
      match ss[0] {
        case Loop(id, end, stride, body) =>
          MapStoresTyped(body, l, vf);
          out := Loop(id, end, stride, MapStores(body, l, mode));
        case IfRange(v, start, stop, body) =>
          MapStoresTyped(body, l, vf);
          out := IfRange(v, start, stop, MapStores(body, l, mode));
        case Store(_, _, _, _) =>
          if MentionsS(ss[0], l) { VecStoreTyped(ss[0], l, vf); }
          out := if MentionsS(ss[0], l) then VecStore(ss[0], l, vf) else ss[0];
      }
      assert MapStores([ss[0]], l, mode) == [out];
      MapStoresHead(ss, l, mode);
      TypedOne(out);
      TypedAppend([out], MapStores(ss[1..], l, mode));
    }
  }

  // ---- The peeled tail ---------------------------------------------------------------------

  lemma {:induction false} SubstKeepsTypes(e: Expr, l: LoopId, r: Expr)
    requires Typed(e) && Scalar(e) && IndexOnly(r) && Typed(r)
    ensures Typed(Subst(e, l, r)) && TypeOf(Subst(e, l, r)) == TypeOf(e)
  {
    SubstType(e, l, r);
    match e
    case Binary(_, a, b) => SubstKeepsTypes(a, l, r); SubstKeepsTypes(b, l, r);
    case Unary(_, v) => SubstKeepsTypes(v, l, r);
    case Load(_, subs, _) => SubstAllKeepsTypes(subs, l, r); assert Subst(e, l, r).subs == SubstAll(subs, l, r);
    case Broadcast(x, _) => SubstKeepsTypes(x, l, r);
    case _ =>
  }

  lemma {:induction false} SubstAllKeepsTypes(es: seq<Expr>, l: LoopId, r: Expr)
    requires TypedSubs(es) && ScalarAll(es) && IndexOnly(r) && Typed(r)
    ensures TypedSubs(SubstAll(es, l, r))
  {
    forall i | 0 <= i < |es|
      ensures Typed(Subst(es[i], l, r)) && TypeOf(Subst(es[i], l, r)) == ExprType(IndexTy, 1)
    {
      assert es[i] in es;
      SubstKeepsTypes(es[i], l, r);
    }
  }

  lemma {:induction false} CloneKeepsTypes(e: Expr, ctx: map<LoopId, LoopId>)
    requires Typed(e) && Scalar(e)
    ensures Typed(CloneE(e, ctx)) && TypeOf(CloneE(e, ctx)) == TypeOf(e)
  {
    match e
    case Binary(_, a, b) => CloneKeepsTypes(a, ctx); CloneKeepsTypes(b, ctx);
    case Unary(_, v) => CloneKeepsTypes(v, ctx);
    case Load(_, subs, _) => CloneAllKeepsTypes(subs, ctx); assert CloneE(e, ctx).subs == CloneAll(subs, ctx);
    case Broadcast(x, _) => CloneKeepsTypes(x, ctx);
    case _ =>
  }

  lemma {:induction false} CloneAllKeepsTypes(es: seq<Expr>, ctx: map<LoopId, LoopId>)
    requires TypedSubs(es) && ScalarAll(es)
    ensures TypedSubs(CloneAll(es, ctx))
  {
    forall i | 0 <= i < |es|
      ensures Typed(CloneE(es[i], ctx)) && TypeOf(CloneE(es[i], ctx)) == ExprType(IndexTy, 1)
    {
      assert es[i] in es;
      CloneKeepsTypes(es[i], ctx);
    }
  }

  /** A clone with one index replaced is typed. */
  lemma {:induction false} MovedTyped(ss: seq<Stmt>, ctx: map<LoopId, LoopId>, next: LoopId, l: LoopId, k: LoopId,
                                      r: Expr)
    requires TypedB(ss) && ScalarB(ss) && MayVectorizeBody(ss, k) && IndexOnly(r) && Typed(r)
    ensures var c := CloneB(ss, ctx, next);
      TypedB(SubstB(c.out, l, r))
    decreases ss
  {
    hide Typed, Scalar, IndexOnly;
    if ss != [] {
      var a := CloneS(ss[0], ctx, next);
      var b := CloneB(ss[1..], a.ctx, a.next);
      MovedTyped(ss[1..], a.ctx, a.next, l, k, r);
      CloneCtxS(ss[0], ctx, next);
      var s := a.out[0];
      assert a.out == [s] && a.out + b.out == [s] + b.out;
      var s' := SubstS(s, l, r);
      assert ([s] + b.out)[1..] == b.out;
      assert SubstB([s] + b.out, l, r) == [s'] + SubstB(b.out, l, r);
      match ss[0] {
        case Loop(id, _, _, body) => MovedTyped(body, ctx[id := next], next + 1, l, k, r);
        case IfRange(v, _, _, body) => MovedExpr(v, ctx, l, r); MovedTyped(body, ctx, next, l, k, r);
        case Store(_, subs, v, _) =>
          CloneAllKeepsTypes(subs, ctx);
          CloneAllScalar(subs, ctx);
          SubstAllKeepsTypes(CloneAll(subs, ctx), l, r);
          MovedExpr(v, ctx, l, r);
      }
      TypedOne(s');
      TypedAppend([s'], SubstB(b.out, l, r));
    }
  }

  lemma {:induction false} MovedExpr(e: Expr, ctx: map<LoopId, LoopId>, l: LoopId, r: Expr)
    requires Typed(e) && Scalar(e) && IndexOnly(r) && Typed(r)
    ensures Typed(Subst(CloneE(e, ctx), l, r)) && TypeOf(Subst(CloneE(e, ctx), l, r)) == TypeOf(e)
  {
    CloneKeepsTypes(e, ctx);
    CloneScalar(e, ctx);
    SubstKeepsTypes(CloneE(e, ctx), l, r);
  }

  lemma {:induction false} CloneScalar(e: Expr, ctx: map<LoopId, LoopId>)
    ensures Scalar(CloneE(e, ctx))
  {
    match e
    case Binary(_, a, b) => CloneScalar(a, ctx); CloneScalar(b, ctx);
    case Unary(_, v) => CloneScalar(v, ctx);
    case Load(_, subs, _) => CloneAllScalar(subs, ctx); assert CloneE(e, ctx).subs == CloneAll(subs, ctx);
    case Broadcast(x, _) => CloneScalar(x, ctx);
    case _ =>
  }

  lemma {:induction false} CloneAllScalar(es: seq<Expr>, ctx: map<LoopId, LoopId>)
    ensures ScalarAll(CloneAll(es, ctx))
  {
    forall i | 0 <= i < |es| ensures Scalar(CloneAll(es, ctx)[i]) { CloneScalar(es[i], ctx); }
  }

  /** The vector loop and its tail follow the type rules of verify(). */
  lemma {:induction false} VectorizeTyped(L: Stmt, vf: nat, next: LoopId, scope: set<LoopId>)
    requires L.Loop? && WfS(L, scope) && TypedS(L) && vf > 0 && CanVectorize(L, vf)
    ensures L.stride * vf > 0
    ensures TypedB(GroupedLoops(L, Vector(vf), next))
  {
    hide MapStores, WfB, CloneB, SubstB, MayVectorizeBody;
    assert L.stride * vf == vf;
    CutFacts(L.end, 1, vf);
    var k := Cut(L.end, vf);
    var G := Grouped(L, k, Vector(vf));
    MapStoresTyped(L.body, L.id, vf);
    TypedOne(G);
    if L.end % vf != 0 {
      var T := PeeledTail(L, k, next);
      var r := PeelIndex(k, next);
      assert IndexOnly(Const(k)) && IndexOnly(Idx(next)) && Typed(Const(k)) && Typed(Idx(next));
      WfScalar(L.body, scope + {L.id});
      MovedTyped(L.body, map[L.id := next], next + 1, next, L.id, r);
      TypedOne(T);
      assert [G, T] == [G] + [T];
      TypedAppend([G], [T]);
    }
  }
}
