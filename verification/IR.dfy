/** The loop-nest IR: expressions, statements, their types, and the syntactic
    questions the rewrites ask about them. */
module IR {

  datatype Option<+T> = None | Some(value: T)

  datatype ElemKind = Float32Ty | Int8Ty | IndexTy | PtrTy | StringTy

  datatype ExprType = ExprType(elem: ElemKind, width: nat) {
    predicate IsVector() { width != 1 }
    predicate IsIndexTy() { elem == IndexTy }
  }

  datatype BinOp = Mul | Add | Div | Sub | Max | Min | Pow

  datatype UnOp = Exp | Log | Sqrt | Abs

  /** Loops are identities: two loops are the same loop exactly when their ids agree. */
  type LoopId = nat

  /** A local variable; the verifier of the source demands that names be unique. */
  datatype LocalVar = LocalVar(name: string, ty: ExprType)

  datatype Expr =
    | Const(i: int)
    | ConstFP(f: real)
    | ConstStr(s: string)
    | Index(loop: LoopId, width: nat)
    | Binary(op: BinOp, lhs: Expr, rhs: Expr)
    | Unary(un: UnOp, val: Expr)
    | Load(arg: nat, subs: seq<Expr>, ty: ExprType)
    | LoadLocal(v: LocalVar)
    | Broadcast(scalar: Expr, vf: nat)

  datatype Stmt =
    | Loop(id: LoopId, end: nat, stride: nat, body: seq<Stmt>)
    | IfRange(val: Expr, start: int, stop: int, body: seq<Stmt>)
    | Store(arg: nat, subs: seq<Expr>, value: Expr, acc: bool)
    | StoreLocal(v: LocalVar, value: Expr, acc: bool)
    | Call(name: string, params: seq<Expr>)
  {
    predicate IsScope() { Loop? || IfRange? }
  }

  /** The scalar index expression of a loop. */
  function Idx(l: LoopId): Expr { Index(l, 1) }

  function TypeOf(e: Expr): ExprType
  {
    match e
    case Const(_) => ExprType(IndexTy, 1)
    case ConstFP(_) => ExprType(Float32Ty, 1)
    case ConstStr(_) => ExprType(IndexTy, 1)
    case Index(_, w) => ExprType(IndexTy, w)
    case Binary(_, l, _) => TypeOf(l)
    case Unary(_, v) => TypeOf(v)
    case Load(_, _, ty) => ty
    case LoadLocal(v) => v.ty
    case Broadcast(x, vf) => ExprType(TypeOf(x).elem, vf)
  }

  function Width(e: Expr): nat { TypeOf(e).width }

  // ---- Which loops are mentioned, which loops are bound --------------------

  /** Some index expression of loop l occurs in e (dependsOnLoop). */
  predicate Mentions(e: Expr, l: LoopId)
  {
    match e
    case Index(k, _) => k == l
    case Binary(_, a, b) => Mentions(a, l) || Mentions(b, l)
    case Unary(_, v) => Mentions(v, l)
    case Load(_, subs, _) => exists x | x in subs :: Mentions(x, l)
    case Broadcast(x, _) => Mentions(x, l)
    case _ => false
  }

  predicate MentionsAny(es: seq<Expr>, l: LoopId)
  {
    exists x | x in es :: Mentions(x, l)
  }

  predicate MentionsS(s: Stmt, l: LoopId)
  {
    match s
    case Loop(_, _, _, body) => MentionsB(body, l)
    case IfRange(v, _, _, body) => Mentions(v, l) || MentionsB(body, l)
    case Store(_, subs, v, _) => MentionsAny(subs, l) || Mentions(v, l)
    case StoreLocal(_, v, _) => Mentions(v, l)
    case Call(_, ps) => MentionsAny(ps, l)
  }

  predicate MentionsB(ss: seq<Stmt>, l: LoopId)
  {
    ss != [] && (MentionsS(ss[0], l) || MentionsB(ss[1..], l))
  }

  /** The loops declared inside a statement. */
  function Bound(s: Stmt): set<LoopId>
  {
    match s
    case Loop(k, _, _, body) => {k} + BoundB(body)
    case IfRange(_, _, _, body) => BoundB(body)
    case _ => {}
  }

  function BoundB(ss: seq<Stmt>): set<LoopId>
  {
    if ss == [] then {} else Bound(ss[0]) + BoundB(ss[1..])
  }

  /** Every loop of s was made before next. */
  ghost predicate Below(s: set<LoopId>, next: LoopId) { forall l | l in s :: l < next }

  /** Every loop of s was made from next on, and before end. */
  ghost predicate Between(s: set<LoopId>, next: LoopId, end: LoopId) { forall l | l in s :: next <= l < end }

  // ---- Well-formedness -------------------------------------------------------

  /** Every index expression is a scalar (cloning an index expression makes it one). */
  predicate Scalar(e: Expr)
  {
    match e
    case Index(_, w) => w == 1
    case Binary(_, a, b) => Scalar(a) && Scalar(b)
    case Unary(_, v) => Scalar(v)
    case Load(_, subs, _) => forall x | x in subs :: Scalar(x)
    case Broadcast(x, _) => Scalar(x)
    case _ => true
  }

  predicate ScalarAll(es: seq<Expr>) { forall x | x in es :: Scalar(x) }

  /** All index expressions of a block are scalar. */
  predicate ScalarS(s: Stmt)
  {
    match s
    case Loop(_, _, _, body) => ScalarB(body)
    case IfRange(v, _, _, body) => Scalar(v) && ScalarB(body)
    case Store(_, subs, v, _) => ScalarAll(subs) && Scalar(v)
    case StoreLocal(_, v, _) => Scalar(v)
    case Call(_, ps) => ScalarAll(ps)
  }

  predicate ScalarB(ss: seq<Stmt>)
  {
    ss == [] || (ScalarS(ss[0]) && ScalarB(ss[1..]))
  }

  /** Every index expression belongs to a loop of the scope. */
  predicate InScope(e: Expr, scope: set<LoopId>)
  {
    match e
    case Index(k, _) => k in scope
    case Binary(_, a, b) => InScope(a, scope) && InScope(b, scope)
    case Unary(_, v) => InScope(v, scope)
    case Load(_, subs, _) => forall x | x in subs :: InScope(x, scope)
    case Broadcast(x, _) => InScope(x, scope)
    case _ => true
  }

  predicate InScopeAll(es: seq<Expr>, scope: set<LoopId>) { forall x | x in es :: InScope(x, scope) }

  predicate WfE(e: Expr, scope: set<LoopId>) { Scalar(e) && InScope(e, scope) }

  predicate WfAll(es: seq<Expr>, scope: set<LoopId>) { ScalarAll(es) && InScopeAll(es, scope) }

  /** What verify() demands of a statement whose enclosing loops are scope: ranges and
      strides of loops, index expressions used inside their loop; and loops are unique. */
  predicate WfS(s: Stmt, scope: set<LoopId>)
  {
    match s
    case Loop(id, end, stride, body) =>
      end > 0 && 0 < stride < 1024 && end % stride == 0 && id !in scope && WfB(body, scope + {id})
    case IfRange(v, start, stop, body) => start <= stop && WfE(v, scope) && WfB(body, scope)
    case Store(_, subs, v, _) => WfAll(subs, scope) && WfE(v, scope)
    case StoreLocal(_, v, _) => WfE(v, scope)
    case Call(_, ps) => WfAll(ps, scope)
  }

  predicate WfB(ss: seq<Stmt>, scope: set<LoopId>)
  {
    ss == [] || (WfS(ss[0], scope) && WfB(ss[1..], scope) && Bound(ss[0]) !! BoundB(ss[1..]))
  }

  /** The same without the scalar index expressions, which verify() itself does not ask for. */
  predicate VerifiedS(s: Stmt, scope: set<LoopId>)
  {
    match s
    case Loop(id, end, stride, body) =>
      end > 0 && 0 < stride < 1024 && end % stride == 0 && id !in scope && VerifiedB(body, scope + {id})
    case IfRange(v, start, stop, body) => start <= stop && InScope(v, scope) && VerifiedB(body, scope)
    case Store(_, subs, v, _) => InScopeAll(subs, scope) && InScope(v, scope)
    case StoreLocal(_, v, _) => InScope(v, scope)
    case Call(_, ps) => InScopeAll(ps, scope)
  }

  predicate VerifiedB(ss: seq<Stmt>, scope: set<LoopId>)
  {
    ss == [] || (VerifiedS(ss[0], scope) && VerifiedB(ss[1..], scope) && Bound(ss[0]) !! BoundB(ss[1..]))
  }

  // ---- Replacing a loop index ----------------------------------------------

  /** Every index expression of loop l becomes r (replaceUseWith over collectIndices). */
  function Subst(e: Expr, l: LoopId, r: Expr): Expr
  {
    match e
    case Index(k, _) => if k == l then r else e
    case Binary(op, a, b) => Binary(op, Subst(a, l, r), Subst(b, l, r))
    case Unary(op, v) => Unary(op, Subst(v, l, r))
    case Load(arg, subs, ty) =>
      Load(arg, seq(|subs|, i requires 0 <= i < |subs| => Subst(subs[i], l, r)), ty)
    case Broadcast(x, vf) => Broadcast(Subst(x, l, r), vf)
    case _ => e
  }

  function SubstAll(es: seq<Expr>, l: LoopId, r: Expr): seq<Expr>
  {
    seq(|es|, i requires 0 <= i < |es| => Subst(es[i], l, r))
  }

  function SubstS(s: Stmt, l: LoopId, r: Expr): Stmt
  {
    match s
    case Loop(k, end, stride, body) => Loop(k, end, stride, SubstB(body, l, r))
    case IfRange(v, a, b, body) => IfRange(Subst(v, l, r), a, b, SubstB(body, l, r))
    case Store(arg, subs, v, acc) => Store(arg, SubstAll(subs, l, r), Subst(v, l, r), acc)
    case StoreLocal(x, v, acc) => StoreLocal(x, Subst(v, l, r), acc)
    case Call(n, ps) => Call(n, SubstAll(ps, l, r))
  }

  function SubstB(ss: seq<Stmt>, l: LoopId, r: Expr): seq<Stmt>
  {
    if ss == [] then [] else [SubstS(ss[0], l, r)] + SubstB(ss[1..], l, r)
  }
}
