/** Owning handles of tree nodes: a node has at most one handle, and both know each other. */
module Handles {
  import opened Trees

  /** A statement or expression; scopes hold their statements through handles. */
  class Node {
    /** Its address. */
    const id: nat
    var owner: Handle?
    var body: seq<Handle>

    constructor (address: nat)
      ensures id == address && owner == null && body == []
    {
      id, owner, body := address, null, [];
    }
  }

  class Handle {
    var ref: Node?
    var parent: Node

    constructor (p: Node)
      ensures ref == null && parent == p
    {
      ref, parent := null, p;
    }
  }

  /** Handles and owned nodes correspond: a handle's node names the handle as its owner, and a
      node's owner refers to the node. */
  ghost predicate Linked(H: set<Handle>, N: set<Node>)
    reads H`ref, N`owner
  {
    (forall h | h in H && h.ref != null :: h.ref in N && h.ref.owner == h) &&
    (forall n | n in N && n.owner != null :: n.owner in H && n.owner.ref == n)
  }

  /** No node is owned twice. */
  lemma {:induction false} OneOwner(H: set<Handle>, N: set<Node>, g: Handle, h: Handle)
    requires Linked(H, N) && g in H && h in H && g.ref != null && g.ref == h.ref
    ensures g == h
  {
    assert g.ref.owner == g && h.ref.owner == h;
  }

  /** setReference: h lets go of its node and takes n, from its previous handle if there is one. */
  method SetReference(h: Handle, n: Node?, ghost H: set<Handle>, ghost N: set<Node>)
    requires Linked(H, N) && h in H && (n != null ==> n in N)
    modifies H`ref, N`owner
    ensures Linked(H, N) && h.ref == n
    ensures forall g | g in H && g != h :: g.ref == if n != null && old(g.ref) == n then null else old(g.ref)
    ensures forall m | m in N :: m.owner == if m == n then h else if m == old(h.ref) then null else old(m.owner)
  {
    // The old node loses its owner.
    if h.ref != null {
      h.ref.owner := null;
    }
    // The new node leaves the handle that held it.
    h.ref := n;
    if n != null {
      if n.owner != null {
        n.owner.ref := null;
      }
      n.owner := h;
    }
    assert forall g | g in H && g != h && g.ref != null :: g.ref.owner == g by {
      forall g | g in H && g != h && g.ref != null ensures g.ref.owner == g {
        assert old(g.ref) == g.ref && old(g.ref.owner) == g;
      }
    }
  }

  /** take: the node is handed out and no handle owns it. */
  method Take(h: Handle, ghost H: set<Handle>, ghost N: set<Node>) returns (n: Node?)
    requires Linked(H, N) && h in H
    modifies H`ref, N`owner
    ensures Linked(H, N) && n == old(h.ref) && h.ref == null
    ensures forall g | g in H && g != h :: g.ref == old(g.ref)
    ensures forall m | m in N :: m.owner == if m == n then null else old(m.owner)
  {
    n := h.ref;
    SetReference(h, null, H, N);
  }

  /** Assigning from another handle: h owns what the other handle owned, in the other's place. */
  method Move(h: Handle, other: Handle, ghost H: set<Handle>, ghost N: set<Node>)
    requires Linked(H, N) && h in H && other in H
    modifies H`ref, N`owner, h`parent
    ensures Linked(H, N) && h.ref == old(other.ref) && h.parent == old(other.parent)
    ensures other != h ==> other.ref == null
    ensures forall g | g in H && g != h && g != other :: g.ref == old(g.ref)
    ensures forall m | m in N :: m.owner == if m == old(other.ref) then h else if m == old(h.ref) then null
      else old(m.owner)
  {
    forall g | g in H && g.ref != null && g.ref == other.ref ensures g == other { OneOwner(H, N, g, other); }
    h.parent := other.parent;
    SetReference(h, other.ref, H, N);
  }

  // ---- Sequences of operations ----------------------------------------------------------------

  datatype Op = SetOp(h: Handle, n: Node?) | TakeOp(h: Handle) | MoveOp(h: Handle, other: Handle)

  ghost predicate Allowed(op: Op, H: set<Handle>, N: set<Node>)
  {
    match op
    case SetOp(h, n) => h in H && (n != null ==> n in N)
    case TakeOp(h) => h in H
    case MoveOp(h, g) => h in H && g in H
  }

  /** Any sequence of set, take and move keeps the correspondence. */
  method Replay(ops: seq<Op>, ghost H: set<Handle>, ghost N: set<Node>)
    requires Linked(H, N) && forall op | op in ops :: Allowed(op, H, N)
    modifies H`ref, N`owner, H`parent
    ensures Linked(H, N)
    ensures forall g, h | g in H && h in H && g.ref != null && g.ref == h.ref :: g == h
  {
    for i := 0 to |ops|
      invariant Linked(H, N)
    {
      assert Allowed(ops[i], H, N);
      match ops[i] {
        case SetOp(h, n) => SetReference(h, n, H, N);
        case TakeOp(h) => var n := Take(h, H, N);
        case MoveOp(h, g) => Move(h, g, H, N);
      }
    }
    forall g, h | g in H && h in H && g.ref != null && g.ref == h.ref ensures g == h {
      OneOwner(H, N, g, h);
    }
  }

  // ---- Scopes -----------------------------------------------------------------------------------

  /** What a list of handles refers to. */
  function Refs(hs: seq<Handle>): (rs: seq<Node?>)
    reads hs
    ensures |rs| == |hs| && forall i | 0 <= i < |hs| :: rs[i] == hs[i].ref
  {
    seq(|hs|, i requires 0 <= i < |hs| reads hs => hs[i].ref)
  }

  /** The nodes among them, in order. */
  function Live(rs: seq<Node?>): seq<Node>
  {
    if rs == [] then [] else (if rs[0] != null then [rs[0]] else []) + Live(rs[1..])
  }

  /** The statements of a scope. */
  function Owned(hs: seq<Handle>): seq<Node>
    reads hs
  {
    Live(Refs(hs))
  }

  lemma {:induction false} LiveAppend(a: seq<Node?>, b: seq<Node?>)
    ensures Live(a + b) == Live(a) + Live(b)
  {
    if a == [] {
      assert a + b == b;
    } else {
      assert (a + b)[0] == a[0] && (a + b)[1..] == a[1..] + b;
      LiveAppend(a[1..], b);
    }
  }

  lemma {:induction false} LiveOne(n: Node?)
    ensures Live([n]) == if n != null then [n] else []
  {
    assert [n][1..] == [] && Live([]) == [];
  }

  lemma {:induction false} LiveFound(rs: seq<Node?>, s: Node)
    ensures s in Live(rs) <==> s in rs
  {
    if rs != [] { LiveFound(rs[1..], s); }
  }

  /** No handle is listed twice. */
  predicate NoTwice(hs: seq<Handle>) { forall i, j | 0 <= i < j < |hs| :: hs[i] != hs[j] }

  // ---- The tree of the heap ------------------------------------------------------------------------

  /** Nodes and handles at one moment. */
  datatype Shape = Shape(bodies: map<Node, seq<Handle>>, refs: map<Handle, Node?>, parents: map<Handle, Node>)

  function ShapeOf(H: set<Handle>, N: set<Node>): Shape
    reads H, N
  {
    Shape(map n | n in N :: n.body, map h | h in H :: h.ref, map h | h in H :: h.parent)
  }

  function RefsIn(hs: seq<Handle>, refs: map<Handle, Node?>): (rs: seq<Node?>)
    ensures |rs| == |hs|
  {
    seq(|hs|, i requires 0 <= i < |hs| => if hs[i] in refs then refs[hs[i]] else null)
  }

  /** The statements of a scope at that moment. */
  function Kept(s: Shape, n: Node): seq<Node>
    requires n in s.bodies
  {
    Live(RefsIn(s.bodies[n], s.refs))
  }

  function Ids(ns: seq<Node>): seq<nat> { seq(|ns|, i requires 0 <= i < |ns| => ns[i].id) }

  /** Addresses are unique. */
  ghost predicate Numbered(N: set<Node>) { forall m, n | m in N && n in N && m.id == n.id :: m == n }

  /** Every handle of a scope is listed once and knows its scope; nodes are owned once, and known. */
  ghost predicate Good(s: Shape)
  {
    Numbered(s.bodies.Keys) && s.parents.Keys == s.refs.Keys &&
    (forall n | n in s.bodies :: NoTwice(s.bodies[n])) &&
    (forall n, h | n in s.bodies && h in s.bodies[n] :: h in s.refs && s.parents[h] == n) &&
    (forall h | h in s.refs && s.refs[h] != null :: s.refs[h] in s.bodies) &&
    (forall g, h | g in s.refs && h in s.refs && s.refs[g] != null && s.refs[g] == s.refs[h] :: g == h)
  }

  function TreeOf(s: Shape): Kids
    requires Numbered(s.bodies.Keys)
  {
    map n | n in s.bodies :: n.id := Ids(Kept(s, n))
  }

  /** Linked, and every scope in order. */
  ghost predicate Valid(H: set<Handle>, N: set<Node>)
    reads H, N
  {
    Linked(H, N) && Good(ShapeOf(H, N))
  }

  /** Which nodes every node holds. */
  ghost function Tree(H: set<Handle>, N: set<Node>): Kids
    requires Valid(H, N)
    reads H, N
  {
    TreeOf(ShapeOf(H, N))
  }

  lemma {:induction false} TreeAt(s: Shape, n: Node)
    requires Numbered(s.bodies.Keys) && n in s.bodies
    ensures n.id in TreeOf(s) && KidsOf(TreeOf(s), n.id) == Ids(Kept(s, n))
  {
    assert TreeOf(s)[n.id] == Ids(Kept(s, n));
  }

  /** Trees over the same nodes are equal when all scopes hold the same nodes. */
  lemma {:induction false} SameTree(s: Shape, k: Kids)
    requires Numbered(s.bodies.Keys)
    requires forall x: nat :: x in k <==> exists n :: n in s.bodies && n.id == x
    requires forall n | n in s.bodies :: KidsOf(k, n.id) == Ids(Kept(s, n))
    ensures TreeOf(s) == k
  {
    var t := TreeOf(s);
    forall x | x in t ensures x in k && t[x] == k[x] {
      var n :| n in s.bodies && n.id == x;
      TreeAt(s, n);
    }
    forall x | x in k ensures x in t {
      var n :| n in s.bodies && n.id == x;
      TreeAt(s, n);
    }
  }

  lemma {:induction false} TreeKeys(s: Shape)
    requires Numbered(s.bodies.Keys)
    ensures forall x: nat :: x in TreeOf(s) <==> exists n :: n in s.bodies && n.id == x
  {
    forall n | n in s.bodies ensures n.id in TreeOf(s) { TreeAt(s, n); }
  }

  lemma {:induction false} IdsAppend(a: seq<Node>, b: seq<Node>)
    ensures Ids(a + b) == Ids(a) + Ids(b)
  {}

  // ---- A node is held once ---------------------------------------------------------------------------

  lemma {:induction false} LiveDistinct(rs: seq<Node?>)
    requires forall i, j | 0 <= i < j < |rs| && rs[i] != null :: rs[i] != rs[j]
    ensures forall i, j | 0 <= i < j < |Live(rs)| :: Live(rs)[i] != Live(rs)[j]
  {
    if rs != [] {
      LiveDistinct(rs[1..]);
      if rs[0] != null {
        LiveFound(rs[1..], rs[0]);
        assert Live(rs) == [rs[0]] + Live(rs[1..]);
        assert rs[0] !in rs[1..];
        assert forall j | 0 <= j < |Live(rs[1..])| :: Live(rs[1..])[j] != rs[0];
      }
    }
  }

  lemma {:induction false} KeptBy(s: Shape, n: Node, c: Node) returns (h: Handle)
    requires Good(s) && n in s.bodies && c in Kept(s, n)
    ensures h in s.bodies[n] && h in s.refs && s.refs[h] == c && s.parents[h] == n && c in s.bodies
  {
    var rs := RefsIn(s.bodies[n], s.refs);
    LiveFound(rs, c);
    var i :| 0 <= i < |rs| && rs[i] == c;
    h := s.bodies[n][i];
  }

  lemma {:induction false} KeptDistinct(s: Shape, n: Node)
    requires Good(s) && n in s.bodies
    ensures forall i, j | 0 <= i < j < |Kept(s, n)| :: Kept(s, n)[i] != Kept(s, n)[j]
  {
    var rs := RefsIn(s.bodies[n], s.refs);
    forall i, j | 0 <= i < j < |rs| && rs[i] != null ensures rs[i] != rs[j] {
      assert s.bodies[n][i] in s.bodies[n] && s.bodies[n][j] in s.bodies[n] && s.bodies[n][i] != s.bodies[n][j];
    }
    LiveDistinct(rs);
  }

  /** In a good heap no node is listed twice, in one scope or in two. */
  lemma {:induction false} HeldOnce(s: Shape)
    requires Good(s)
    ensures OnePlace(TreeOf(s))
  {
    var k := TreeOf(s);
    TreeKeys(s);
    forall x: nat, y: nat, i: nat, j: nat | i < |KidsOf(k, x)| && j < |KidsOf(k, y)| &&
      KidsOf(k, x)[i] == KidsOf(k, y)[j]
      ensures x == y && i == j
    {
      var m :| m in s.bodies && m.id == x;
      var n :| n in s.bodies && n.id == y;
      TreeAt(s, m);
      TreeAt(s, n);
      PlaceOnce(s, m, n, i, j);
    }
  }

  lemma {:induction false} PlaceOnce(s: Shape, m: Node, n: Node, i: nat, j: nat)
    requires Good(s) && m in s.bodies && n in s.bodies && i < |Kept(s, m)| && j < |Kept(s, n)|
    requires Ids(Kept(s, m))[i] == Ids(Kept(s, n))[j]
    ensures m == n && i == j
  {
    hide Kept;
    var g := KeptBy(s, m, Kept(s, m)[i]);
    var h := KeptBy(s, n, Kept(s, n)[j]);
    assert s.refs[g] == s.refs[h];
    assert m == n;
    KeptDistinct(s, m);
  }

  // ---- What the edits do to the tree ---------------------------------------------------------------

  /** Scopes whose handles and references stay keep their nodes. */
  lemma {:induction false} SameKept(s: Shape, s': Shape, n: Node)
    requires n in s.bodies && n in s'.bodies && s'.bodies[n] == s.bodies[n]
    requires forall h | h in s.bodies[n] :: h in s.refs && h in s'.refs && s'.refs[h] == s.refs[h]
    ensures Kept(s', n) == Kept(s, n)
  {
    assert RefsIn(s'.bodies[n], s'.refs) == RefsIn(s.bodies[n], s.refs);
  }

  lemma {:induction false} RefsInAppend(a: seq<Handle>, b: seq<Handle>, refs: map<Handle, Node?>)
    ensures RefsIn(a + b, refs) == RefsIn(a, refs) + RefsIn(b, refs)
  {}

  /** The references of `other` have moved, in order, to new handles at the end of `scope`. */
  ghost predicate TakenShape(s: Shape, s': Shape, scope: Node, other: Node, added: seq<Handle>)
  {
    scope in s.bodies && other in s.bodies && scope != other && |added| == |s.bodies[other]| && NoTwice(added) &&
    s.parents.Keys == s.refs.Keys && s'.parents.Keys == s'.refs.Keys &&
      (forall h | h in s.bodies[other] :: h in s.refs) &&
    s'.bodies == s.bodies[scope := s.bodies[scope] + added][other := []] &&
    s'.refs.Keys == s.refs.Keys + (set h | h in added) &&
    (forall h | h in s.refs :: h !in added && s'.parents[h] == s.parents[h] &&
      s'.refs[h] == if h in s.bodies[other] then null else s.refs[h]) &&
    (forall i | 0 <= i < |added| :: s'.parents[added[i]] == scope && s'.refs[added[i]] == s.refs[s.bodies[other][i]])
  }

  /** A moved reference is not also where it was, or elsewhere. */
  lemma {:induction false} TakenApart(s: Shape, s': Shape, scope: Node, other: Node, added: seq<Handle>, i: nat,
                                      h: Handle)
    requires Good(s) && TakenShape(s, s', scope, other, added) && i < |added| && h in s.refs && s'.refs[h] != null
    ensures s'.refs[h] != s'.refs[added[i]]
  {
    hide NoTwice;
    assert s.bodies[other][i] in s.bodies[other];
  }

  lemma {:induction false} TakenOnce(s: Shape, s': Shape, scope: Node, other: Node, added: seq<Handle>, g: Handle,
                                     h: Handle)
    requires Good(s) && TakenShape(s, s', scope, other, added)
    requires g in s'.refs && h in s'.refs && s'.refs[g] != null && s'.refs[g] == s'.refs[h]
    ensures g == h
  {
    hide Good, TakenShape, NoTwice;
    TakenKeys(s, s', scope, other, added);
    if g in added && h in added {
      var i :| 0 <= i < |added| && added[i] == g;
      var j :| 0 <= j < |added| && added[j] == h;
      TakenIndex(s, s', scope, other, added, i, j);
    } else if g in added {
      var i :| 0 <= i < |added| && added[i] == g;
      TakenApart(s, s', scope, other, added, i, h);
    } else if h in added {
      var j :| 0 <= j < |added| && added[j] == h;
      TakenApart(s, s', scope, other, added, j, g);
    } else {
      TakenOld(s, s', scope, other, added, g, h);
    }
  }

  lemma {:induction false} TakenKeys(s: Shape, s': Shape, scope: Node, other: Node, added: seq<Handle>)
    requires TakenShape(s, s', scope, other, added)
    ensures forall h | h in s'.refs :: h in s.refs || h in added
  {}

  lemma {:induction false} TakenIndex(s: Shape, s': Shape, scope: Node, other: Node, added: seq<Handle>, i: nat, j: nat)
    requires Good(s) && TakenShape(s, s', scope, other, added) && i < |added| && j < |added|
    requires added[i] in s'.refs && added[j] in s'.refs && s'.refs[added[i]] != null &&
      s'.refs[added[i]] == s'.refs[added[j]]
    ensures added[i] == added[j]
  {
    var old_ := s.bodies[other];
    assert old_[i] in old_ && old_[j] in old_;
    assert old_[i] == old_[j];
  }

  lemma {:induction false} TakenOld(s: Shape, s': Shape, scope: Node, other: Node, added: seq<Handle>, g: Handle,
                                    h: Handle)
    requires Good(s) && TakenShape(s, s', scope, other, added) && g in s.refs && h in s.refs && g in s'.refs &&
      h in s'.refs
    requires s'.refs[g] != null && s'.refs[g] == s'.refs[h]
    ensures g == h
  {
    hide NoTwice;
  }

  lemma {:induction false} TakenGood(s: Shape, s': Shape, scope: Node, other: Node, added: seq<Handle>)
    requires Good(s) && TakenShape(s, s', scope, other, added)
    ensures Good(s')
  {
    assert s'.bodies.Keys == s.bodies.Keys;
    forall h | h in s'.refs && s'.refs[h] != null ensures s'.refs[h] in s'.bodies {
      if h in added {
        var i :| 0 <= i < |added| && added[i] == h;
        assert s.bodies[other][i] in s.bodies[other];
      }
    }
    forall g, h | g in s'.refs && h in s'.refs && s'.refs[g] != null && s'.refs[g] == s'.refs[h] ensures g == h {
      TakenOnce(s, s', scope, other, added, g, h);
    }
    forall n | n in s'.bodies ensures NoTwice(s'.bodies[n]) {
      if n == scope { NoTwiceAppend(s.bodies[scope], added); }
    }
  }

  lemma {:induction false} NoTwiceAppend(a: seq<Handle>, b: seq<Handle>)
    requires NoTwice(a) && NoTwice(b) && forall h | h in a :: h !in b
    ensures NoTwice(a + b)
  {
    assert forall i | 0 <= i < |a| :: a[i] in a;
    assert forall i | 0 <= i < |b| :: b[i] in b;
  }

  lemma {:induction false} TakenKept(s: Shape, s': Shape, scope: Node, other: Node, added: seq<Handle>)
    requires Good(s) && TakenShape(s, s', scope, other, added)
    ensures Kept(s', scope) == Kept(s, scope) + Kept(s, other) && Kept(s', other) == []
    ensures forall n | n in s.bodies && n != scope && n != other :: Kept(s', n) == Kept(s, n)
  {
    hide NoTwice, Live;
    RefsInAppend(s.bodies[scope], added, s'.refs);
    assert RefsIn(s.bodies[scope], s'.refs) == RefsIn(s.bodies[scope], s.refs);
    assert RefsIn(added, s'.refs) == RefsIn(s.bodies[other], s.refs);
    LiveAppend(RefsIn(s.bodies[scope], s.refs), RefsIn(s.bodies[other], s.refs));
    assert RefsIn([], s'.refs) == [];
    LiveNone();
    forall n | n in s.bodies && n != scope && n != other ensures Kept(s', n) == Kept(s, n) { SameKept(s, s', n); }
  }

  lemma {:induction false} MovedTree(s: Shape, s': Shape, scope: Node, other: Node)
    requires Numbered(s.bodies.Keys) && s'.bodies.Keys == s.bodies.Keys
    requires scope in s.bodies && other in s.bodies && scope.id != other.id
    requires Kept(s', scope) == Kept(s, scope) + Kept(s, other) && Kept(s', other) == []
    requires forall n | n in s.bodies && n != scope && n != other :: Kept(s', n) == Kept(s, n)
    ensures TreeOf(s') == Moved(TreeOf(s), scope.id, other.id)
  {
    hide Kept, TreeOf;
    var k := TreeOf(s);
    TreeKeys(s);
    TreeAt(s, scope);
    TreeAt(s, other);
    IdsAppend(Kept(s, scope), Kept(s, other));
    var k' := Moved(k, scope.id, other.id);
    assert k'.Keys == k.Keys;
    forall n | n in s'.bodies ensures KidsOf(k', n.id) == Ids(Kept(s', n)) { TreeAt(s, n); }
    SameTree(s', k');
  }

  /** takeContent moves the statements in the tree. */
  lemma {:induction false} TakenTree(s: Shape, s': Shape, scope: Node, other: Node, added: seq<Handle>)
    requires Good(s) && TakenShape(s, s', scope, other, added)
    ensures Good(s') && TreeOf(s') == Moved(TreeOf(s), scope.id, other.id)
  {
    hide Kept, TreeOf, Moved;
    TakenGood(s, s', scope, other, added);
    TakenKept(s, s', scope, other, added);
    assert s'.bodies.Keys == s.bodies.Keys;
    MovedTree(s, s', scope, other);
  }

  /** The handle h of `scope` has let go, and the scope lists what is left. */
  ghost predicate RemovedShape(s: Shape, s': Shape, scope: Node, h: Handle, kept: seq<Handle>, k: nat)
  {
    scope in s.bodies && h in s.bodies[scope] && h in s.refs && s'.bodies == s.bodies[scope := kept] &&
    s'.refs == s.refs[h := null] && s'.parents == s.parents && NoTwice(kept) &&
      (forall g | g in kept :: g in s.bodies[scope]) &&
    k < |Kept(s, scope)| && Live(RefsIn(kept, s'.refs)) == Kept(s, scope)[..k] + Kept(s, scope)[k + 1..]
  }

  lemma {:induction false} RemovedGood(s: Shape, s': Shape, scope: Node, h: Handle, kept: seq<Handle>, k: nat)
    requires Good(s) && RemovedShape(s, s', scope, h, kept, k)
    ensures Good(s') && s'.bodies.Keys == s.bodies.Keys
    ensures forall n | n in s.bodies && n != scope :: Kept(s', n) == Kept(s, n)
  {
    hide Live;
    assert s'.bodies.Keys == s.bodies.Keys && s'.refs.Keys == s.refs.Keys;
    forall n | n in s.bodies && n != scope ensures Kept(s', n) == Kept(s, n) { SameKept(s, s', n); }
  }

  lemma {:induction false} ShorterTree(s: Shape, s': Shape, scope: Node, k: nat)
    requires Numbered(s.bodies.Keys) && s'.bodies.Keys == s.bodies.Keys && scope in s.bodies && k < |Kept(s, scope)|
    requires Kept(s', scope) == Kept(s, scope)[..k] + Kept(s, scope)[k + 1..]
    requires forall n | n in s.bodies && n != scope :: Kept(s', n) == Kept(s, n)
    ensures k < |KidsOf(TreeOf(s), scope.id)| && TreeOf(s') == Removed(TreeOf(s), scope.id, k)
  {
    hide Kept, TreeOf;
    TreeKeys(s);
    TreeAt(s, scope);
    var t' := Removed(TreeOf(s), scope.id, k);
    assert t'.Keys == TreeOf(s).Keys;
    assert Ids(Kept(s', scope)) == Ids(Kept(s, scope))[..k] + Ids(Kept(s, scope))[k + 1..];
    forall n | n in s'.bodies ensures KidsOf(t', n.id) == Ids(Kept(s', n)) { TreeAt(s, n); }
    SameTree(s', t');
  }

  /** removeStmt removes the statement from the tree. */
  lemma {:induction false} RemovedTree(s: Shape, s': Shape, scope: Node, h: Handle, kept: seq<Handle>, k: nat)
    requires Good(s) && RemovedShape(s, s', scope, h, kept, k)
    ensures Good(s')
    ensures k < |KidsOf(TreeOf(s), scope.id)| && TreeOf(s') == Removed(TreeOf(s), scope.id, k)
  {
    hide Good, TreeOf, Removed, NoTwice, Live;
    RemovedGood(s, s', scope, h, kept, k);
    GoodNumbers(s);
    ShorterTree(s, s', scope, k);
  }

  /** A new handle h at position pos of `scope` owns x, and no other handle does. */
  ghost predicate PutShape(s: Shape, s': Shape, scope: Node, pos: nat, x: Node, h: Handle)
  {
    scope in s.bodies && x in s.bodies && pos <= |s.bodies[scope]| && h !in s.refs && s.parents.Keys == s.refs.Keys &&
    s'.bodies == s.bodies[scope := s.bodies[scope][..pos] + [h] + s.bodies[scope][pos..]] &&
    s'.parents == s.parents[h := scope] && s'.refs.Keys == s.refs.Keys + {h} && s'.refs[h] == x &&
    (forall g | g in s.refs :: s'.refs[g] == if s.refs[g] == x then null else s.refs[g])
  }

  lemma {:induction false} PutGood(s: Shape, s': Shape, scope: Node, pos: nat, x: Node, h: Handle)
    requires Good(s) && PutShape(s, s', scope, pos, x, h)
    ensures Good(s')
  {
    hide NoTwice;
    assert s'.bodies.Keys == s.bodies.Keys;
    var b := s.bodies[scope];
    InsertedOnce(b, pos, h);
    forall n, g | n in s'.bodies && g in s'.bodies[n] ensures g in s'.refs && s'.parents[g] == n {
      if n == scope { assert g == h || g in b; }
    }
  }

  lemma {:induction false} InsertedOnce(b: seq<Handle>, pos: nat, h: Handle)
    requires NoTwice(b) && pos <= |b| && h !in b
    ensures NoTwice(b[..pos] + [h] + b[pos..])
  {
    var b' := b[..pos] + [h] + b[pos..];
    forall i, j | 0 <= i < j < |b'| ensures b'[i] != b'[j] {
      assert i < pos ==> b'[i] == b[i];
      assert i > pos ==> b'[i] == b[i - 1];
      assert j < pos ==> b'[j] == b[j];
      assert j > pos ==> b'[j] == b[j - 1];
    }
  }

  /** References to x become null. */
  function Nulled(rs: seq<Node?>, x: Node): seq<Node?>
  {
    seq(|rs|, i requires 0 <= i < |rs| => if rs[i] == x then null else rs[i])
  }

  lemma {:induction false} LiveNulled(rs: seq<Node?>, x: Node)
    ensures Live(Nulled(rs, x)) == Less(Live(rs), x)
  {
    if rs != [] {
      var tail := Live(rs[1..]);
      assert Nulled(rs, x)[1..] == Nulled(rs[1..], x);
      LiveNulled(rs[1..], x);
      if rs[0] != null {
        var n: Node := rs[0];
        LessOne(n, x);
        LessAppend([n], tail, x);
        assert Live(rs) == [n] + tail;
      } else {
        assert Live(rs) == [] + tail == tail;
      }
    }
  }

  lemma {:induction false} LessOne(n: Node, x: Node)
    ensures Less([n], x) == if n == x then [] else [n]
  {
    assert [n][1..] == [] && Less<Node>([], x) == [];
  }

  lemma {:induction false} LessIds(ns: seq<Node>, x: Node, N: set<Node>)
    requires Numbered(N) && x in N && forall n | n in ns :: n in N
    ensures Ids(Less(ns, x)) == Less(Ids(ns), x.id)
  {
    if ns != [] {
      LessIds(ns[1..], x, N);
      assert ns[0] in ns && Ids(ns)[1..] == Ids(ns[1..]);
      IdsAppend(if ns[0] == x then [] else [ns[0]], Less(ns[1..], x));
    }
  }

  lemma {:induction false} KeptKnown(s: Shape, n: Node)
    requires Good(s) && n in s.bodies
    ensures forall c | c in Kept(s, n) :: c in s.bodies
  {
    forall c | c in Kept(s, n) ensures c in s.bodies { var h := KeptBy(s, n, c); }
  }

  lemma {:induction false} InsertedTree(s: Shape, s': Shape, scope: Node, x: Node, a: seq<Node>, b: seq<Node>)
    requires Numbered(s.bodies.Keys) && s'.bodies.Keys == s.bodies.Keys && scope in s.bodies
    requires Kept(s', scope) == a + [x] + b && Less(Kept(s, scope), x) == a + b
    requires forall n | n in s.bodies && n != scope :: Kept(s', n) == Less(Kept(s, n), x)
    requires forall n | n in s.bodies :: Ids(Less(Kept(s, n), x)) == Less(Ids(Kept(s, n)), x.id)
    ensures var t := Dropped(TreeOf(s), x.id);
      |a| <= |KidsOf(t, scope.id)| && TreeOf(s') == Inserted(t, scope.id, |a|, x.id)
  {
    hide Kept, TreeOf, Less, Dropped;
    TreeKeys(s);
    var t := Dropped(TreeOf(s), x.id);
    DroppedKeys(TreeOf(s), x.id);
    forall n | n in s.bodies ensures KidsOf(t, n.id) == Ids(Less(Kept(s, n), x)) {
      TreeAt(s, n);
      DroppedKids(TreeOf(s), x.id, n.id, 0);
    }
    TreeAt(s, scope);
    IdsAppend(a + [x], b);
    IdsAppend(a, [x]);
    IdsAppend(a, b);
    var t' := Inserted(t, scope.id, |a|, x.id);
    assert t'.Keys == t.Keys;
    assert KidsOf(t', scope.id) == Ids(a) + [x.id] + Ids(b);
    SameTree(s', t');
  }

  /** insertBeforeStmt and insertAfterStmt put x into the scope, from wherever it was. */
  lemma {:induction false} PutTree(s: Shape, s': Shape, scope: Node, pos: nat, x: Node, h: Handle)
    requires Good(s) && PutShape(s, s', scope, pos, x, h)
    ensures Good(s')
    ensures var t := Dropped(TreeOf(s), x.id);
      var at := |Less(Live(RefsIn(s.bodies[scope][..pos], s.refs)), x)|;
      at <= |KidsOf(t, scope.id)| && TreeOf(s') == Inserted(t, scope.id, at, x.id)
  {
    hide Kept, TreeOf, Less, Live, Dropped, Inserted;
    PutGood(s, s', scope, pos, x, h);
    assert s'.bodies.Keys == s.bodies.Keys;
    PutKept(s, s', scope, pos, x, h);
    forall n | n in s.bodies && n != scope ensures Kept(s', n) == Less(Kept(s, n), x) {
      PutElsewhere(s, s', scope, pos, x, h, n);
    }
    forall n | n in s.bodies ensures Ids(Less(Kept(s, n), x)) == Less(Ids(Kept(s, n)), x.id) {
      KeptKnown(s, n);
      LessIds(Kept(s, n), x, s.bodies.Keys);
    }
    InsertedTree(s, s', scope, x, Less(Live(RefsIn(s.bodies[scope][..pos], s.refs)), x),
                 Less(Live(RefsIn(s.bodies[scope][pos..], s.refs)), x));
  }

  lemma {:induction false} GoodNumbers(s: Shape)
    requires Good(s)
    ensures Numbered(s.bodies.Keys)
  {}

  lemma {:induction false} PutKept(s: Shape, s': Shape, scope: Node, pos: nat, x: Node, h: Handle)
    requires Good(s) && PutShape(s, s', scope, pos, x, h)
    ensures var a, b := Less(Live(RefsIn(s.bodies[scope][..pos], s.refs)), x),
      Less(Live(RefsIn(s.bodies[scope][pos..], s.refs)), x);
      Kept(s', scope) == a + [x] + b && Less(Kept(s, scope), x) == a + b
  {
    hide Live, Less, NoTwice;
    var b0 := s.bodies[scope];
    var a, b := b0[..pos], b0[pos..];
    assert forall g | g in a || g in b :: g in b0;
    var ra, rb := RefsIn(a, s.refs), RefsIn(b, s.refs);
    assert RefsIn(a, s'.refs) == Nulled(ra, x);
    assert RefsIn(b, s'.refs) == Nulled(rb, x);
    LiveNulled(ra, x);
    LiveNulled(rb, x);
    RefsInAppend(a + [h], b, s'.refs);
    RefsInAppend(a, [h], s'.refs);
    assert RefsIn([h], s'.refs) == [x];
    LiveAround(Nulled(ra, x), x, Nulled(rb, x));
    assert b0 == a + b;
    RefsInAppend(a, b, s.refs);
    LiveAppend(ra, rb);
    LessAppend(Live(ra), Live(rb), x);
  }

  lemma {:induction false} PutElsewhere(s: Shape, s': Shape, scope: Node, pos: nat, x: Node, h: Handle, n: Node)
    requires Good(s) && PutShape(s, s', scope, pos, x, h) && n in s.bodies && n != scope
    ensures Kept(s', n) == Less(Kept(s, n), x)
  {
    hide Live, Less, NoTwice;
    var rs := RefsIn(s.bodies[n], s.refs);
    assert forall g | g in s.bodies[n] :: g in s.refs;
    assert RefsIn(s'.bodies[n], s'.refs) == Nulled(rs, x);
    LiveNulled(rs, x);
  }

  /** One statement moves to a new handle of the scope; every other handle keeps its node. */
  method MoveToNew(scope: Node, sh: Handle, ghost H: set<Handle>, ghost N: set<Node>)
    returns (h: Handle, ghost H': set<Handle>)
    requires Linked(H, N) && sh in H
    modifies H`ref, N`owner
    ensures fresh(h) && H' == H + {h} && Linked(H', N) && h.parent == scope
    ensures h.ref == old(sh.ref) && sh.ref == null
    ensures forall g | g in H && g != sh :: g.ref == old(g.ref)
  {
    // The handle lets its statement go first.
    var stmt := sh.ref;
    forall g | g in H && g.ref != null && g.ref == stmt ensures g == sh { OneOwner(H, N, g, sh); }
    SetReference(sh, null, H, N);
    h := new Handle(scope);
    H' := H + {h};
    SetReference(h, stmt, H', N);
  }

  lemma {:induction false} LaterOthers(hs: seq<Handle>, i: nat)
    requires NoTwice(hs) && i < |hs|
    ensures forall k | i < k < |hs| :: hs[k] != hs[i]
  {}

  /** clear: every handle of the scope lets go, and the list is empty. */
  method Clear(scope: Node, ghost H: set<Handle>, ghost N: set<Node>)
    requires scope in N && Linked(H, N) && forall h | h in scope.body :: h in H
    modifies H`ref, N`owner, scope`body
    ensures Linked(H, N) && scope.body == []
    ensures forall h | h in H :: h.ref == if h in old(scope.body) then null else old(h.ref)
  {
    hide Linked;
    var hs := scope.body;
    for i := 0 to |hs|
      invariant Linked(H, N) && scope.body == hs
      invariant forall h | h in H :: h.ref == if h in hs[..i] then null else old(h.ref)
    {
      SetReference(hs[i], null, H, N);
      assert hs[..i + 1] == hs[..i] + [hs[i]];
    }
    assert hs[..|hs|] == hs;
    scope.body := [];
  }

  /** One after the other, the statements of other move to new handles at the end of this scope. */
  method MoveAll(scope: Node, other: Node, ghost H: set<Handle>, ghost N: set<Node>)
    returns (added: seq<Handle>, ghost H': set<Handle>)
    requires scope in N && other in N && scope != other && Linked(H, N)
    requires (forall h | h in other.body :: h in H) && NoTwice(other.body)
    modifies H`ref, N`owner, scope`body
    ensures Linked(H', N) && H <= H' && fresh(H' - H) && scope.body == old(scope.body) + added
    ensures (forall h | h in added :: h in H' && h !in H) && forall h | h in H' :: h in H || h in added
    ensures Refs(added) == old(Refs(other.body)) && NoTwice(added) && forall h | h in added :: h.parent == scope
    ensures forall h | h in H :: h.ref == if h in other.body then null else old(h.ref)
  {
    hide Linked, NoTwice;
    H' := H;
    added := [];
    NoneTwice();
    var hs := other.body;
    ghost var rs := Refs(hs);
    for i := 0 to |hs|
      invariant H <= H' && fresh(H' - H) && Linked(H', N)
      invariant scope.body == old(scope.body) + added && other.body == hs && |added| == i
      invariant (forall h | h in added :: h in H' && h !in H) && forall h | h in H' :: h in H || h in added
      invariant NoTwice(added) && forall h | h in added :: h.parent == scope
      invariant forall h | h in H && h !in hs :: h.ref == old(h.ref)
      invariant forall k | i <= k < |hs| :: hs[k].ref == rs[k]
      invariant forall k | 0 <= k < i :: hs[k].ref == null && added[k].ref == rs[k]
    {
      assert hs[i] in hs;
      LaterOthers(hs, i);
      var h;
      h, H' := MoveToNew(scope, hs[i], H', N);
      scope.body := scope.body + [h];
      OneMore(added, h);
      added := added + [h];
    }
    assert Refs(added) == rs;
  }

  lemma {:induction false} NoneTwice()
    ensures NoTwice([])
  {}

  lemma {:induction false} OneMore(hs: seq<Handle>, h: Handle)
    requires NoTwice(hs) && h !in hs
    ensures NoTwice(hs + [h])
  {}

  /** The steps of takeContent, and every handle after them. */
  method MoveContent(scope: Node, other: Node, ghost H: set<Handle>, ghost N: set<Node>)
    returns (ghost added: seq<Handle>, ghost H': set<Handle>)
    requires scope in N && other in N && scope != other && Linked(H, N)
    requires (forall h | h in scope.body || h in other.body :: h in H) && NoTwice(other.body)
    modifies H`ref, N`owner, scope`body, other`body
    ensures Linked(H', N) && H' == H + (set h | h in added) && fresh(H' - H)
    ensures scope.body == old(scope.body) + added && other.body == []
    ensures (forall h | h in added :: h !in H && h.parent == scope) && NoTwice(added)
    ensures Refs(added) == old(Refs(other.body))
    ensures forall h | h in H :: h.ref == if h in old(other.body) then null else old(h.ref)
  {
    hide Linked, NoTwice;
    var more;
    more, H' := MoveAll(scope, other, H, N);
    added := more;
    ghost var rs := Refs(added);
    Clear(other, H', N);
    assert Refs(added) == rs;
  }

  /** The same, seen as a change of the whole heap. */
  method MoveShaped(scope: Node, other: Node, ghost H: set<Handle>, ghost N: set<Node>)
    returns (ghost added: seq<Handle>, ghost H': set<Handle>)
    requires scope in N && other in N && scope != other && Linked(H, N)
    requires (forall h | h in scope.body || h in other.body :: h in H) && NoTwice(other.body)
    modifies H`ref, N`owner, scope`body, other`body
    ensures Linked(H', N) && H' == H + (set h | h in added) && fresh(H' - H)
    ensures scope.body == old(scope.body) + added && other.body == [] && (forall h | h in added :: h !in H)
    ensures Refs(added) == old(Refs(other.body))
    ensures forall h | h in H :: h.ref == if h in old(other.body) then null else old(h.ref)
    ensures TakenShape(old(ShapeOf(H, N)), ShapeOf(H', N), scope, other, added)
  {
    hide Linked, NoTwice, TakenShape;
    ghost var s0 := ShapeOf(H, N);
    assert RefsIn(other.body, s0.refs) == Refs(other.body);
    added, H' := MoveContent(scope, other, H, N);
    assert forall h | h in H :: h.parent == s0.parents[h];
    TakenNow(s0, H, H', N, scope, other, added);
  }

  lemma {:induction false} TakenNow(s: Shape, H: set<Handle>, H': set<Handle>, N: set<Node>, scope: Node, other: Node,
                                    added: seq<Handle>)
    requires scope in N && other in N && scope != other && s.bodies.Keys == N && s.refs.Keys == H && s.parents.Keys == H
    requires H' == H + (set h | h in added) && NoTwice(added) && |added| == |s.bodies[other]|
    requires (forall h | h in added :: h !in H && h.parent == scope) && forall h | h in s.bodies[other] :: h in H
    requires forall n | n in N :: n.body == if n == scope then s.bodies[n] + added else if n == other then []
      else s.bodies[n]
    requires forall h | h in H :: h.parent == s.parents[h] && h.ref == if h in s.bodies[other] then null else s.refs[h]
    requires Refs(added) == RefsIn(s.bodies[other], s.refs)
    ensures TakenShape(s, ShapeOf(H', N), scope, other, added)
  {
    hide NoTwice;
    var s' := ShapeOf(H', N);
    assert s'.bodies == s.bodies[scope := s.bodies[scope] + added][other := []];
    forall i | 0 <= i < |added| ensures s'.parents[added[i]] == scope &&
      s'.refs[added[i]] == s.refs[s.bodies[other][i]] {
      assert added[i] in added && s.bodies[other][i] in s.bodies[other];
      assert Refs(added)[i] == RefsIn(s.bodies[other], s.refs)[i];
    }
  }

  /** And as a change of the two scopes. */
  method MoveOwned(scope: Node, other: Node, ghost H: set<Handle>, ghost N: set<Node>)
    returns (ghost added: seq<Handle>, ghost H': set<Handle>)
    requires scope in N && other in N && scope != other && Linked(H, N)
    requires (forall h | h in scope.body || h in other.body :: h in H)
    requires NoTwice(other.body) && forall h | h in scope.body :: h !in other.body
    modifies H`ref, N`owner, scope`body, other`body
    ensures Linked(H', N) && H <= H' && fresh(H' - H)
    ensures other.body == [] && forall h | h in scope.body :: h in H' && (h in old(scope.body) || h !in H)
    ensures Owned(scope.body) == old(Owned(scope.body)) + old(Owned(other.body))
    ensures forall h | h in H' :: h in H || h in scope.body
    ensures forall h | h in H :: h.ref == if h in old(other.body) then null else old(h.ref)
    ensures TakenShape(old(ShapeOf(H, N)), ShapeOf(H', N), scope, other, added)
  {
    hide Linked, Live, NoTwice, TakenShape, ShapeOf;
    ghost var start := scope.body;
    ghost var a := Refs(start);
    added, H' := MoveShaped(scope, other, H, N);
    assert Refs(start) == a;
    OwnedTogether(start, added);
  }

  lemma {:induction false} OwnedTogether(a: seq<Handle>, b: seq<Handle>)
    ensures Owned(a + b) == Owned(a) + Owned(b)
  {
    hide Live;
    assert Refs(a + b) == Refs(a) + Refs(b);
    LiveAppend(Refs(a), Refs(b));
  }

  /** takeContent: the statements of other move, in order, to the end of this scope; nothing is
      lost, nothing is owned twice, and no other handle is touched. */
  method TakeContent(scope: Node, other: Node, ghost H: set<Handle>, ghost N: set<Node>)
    returns (ghost H': set<Handle>)
    requires scope in N && other in N && scope != other && Linked(H, N)
    requires (forall h | h in scope.body || h in other.body :: h in H)
    requires NoTwice(other.body) && forall h | h in scope.body :: h !in other.body
    modifies H`ref, N`owner, scope`body, other`body
    ensures Linked(H', N) && H <= H' && fresh(H' - H)
    ensures other.body == [] && forall h | h in scope.body :: h in H' && (h in old(scope.body) || h !in H)
    ensures Owned(scope.body) == old(Owned(scope.body)) + old(Owned(other.body))
    ensures forall h | h in H' :: h in H || h in scope.body
    ensures forall h | h in H :: h.ref == if h in old(other.body) then null else old(h.ref)
    ensures old(Valid(H, N)) ==> Valid(H', N) && Tree(H', N) == Moved(old(Tree(H, N)), scope.id, other.id)
    ensures old(Valid(H, N)) && Acyclic(old(Tree(H, N))) ==>
      (Acyclic(Tree(H', N)) <==> !InsideTaken(old(Tree(H, N)), scope.id, other.id))
  {
    hide Linked, Live, NoTwice, Good, TreeOf, Moved, InsideTaken, Acyclic, TakenShape, ShapeOf, Numbered;
    ghost var s0 := ShapeOf(H, N);
    ghost var added;
    added, H' := MoveOwned(scope, other, H, N);
    if old(Valid(H, N)) { TakenTreeNow(s0, ShapeOf(H', N), scope, other, added); }
  }

  lemma {:induction false} TakenTreeNow(s: Shape, s': Shape, scope: Node, other: Node, added: seq<Handle>)
    requires Good(s) && TakenShape(s, s', scope, other, added)
    ensures Numbered(s.bodies.Keys) && Good(s') && Numbered(s'.bodies.Keys)
    ensures TreeOf(s') == Moved(TreeOf(s), scope.id, other.id)
    ensures Acyclic(TreeOf(s)) ==> (Acyclic(TreeOf(s')) <==> !InsideTaken(TreeOf(s), scope.id, other.id))
  {
    hide TreeOf, Moved, InsideTaken, Acyclic;
    GoodNumbers(s);
    TakenTree(s, s', scope, other, added);
    GoodNumbers(s');
    if Acyclic(TreeOf(s)) { TakeContentAcyclic(TreeOf(s), scope.id, other.id); }
  }

  lemma {:induction false} LiveStep(done: seq<Node?>, rs: seq<Node?>, i: nat)
    requires i < |rs|
    ensures Live(if rs[i] != null then done + [rs[i]] else done) + Live(rs[i + 1..]) == Live(done) + Live(rs[i..])
  {
    assert rs[i..][1..] == rs[i + 1..];
    LiveAppend(done, [rs[i]]);
    LiveOne(rs[i]);
  }

  /** The handles that own something. */
  method Compact(hs: seq<Handle>) returns (kept: seq<Handle>)
    requires NoTwice(hs)
    ensures Owned(kept) == Owned(hs) && NoTwice(kept) && forall h | h in kept :: h in hs && h.ref != null
  {
    hide Live;
    ghost var rs := Refs(hs);
    kept := [];
    LiveNone();
    for i := 0 to |hs|
      invariant Live(Refs(kept)) + Live(rs[i..]) == Live(rs)
      invariant NoTwice(kept) && forall h | h in kept :: h in hs[..i] && h.ref != null
    {
      LiveStep(Refs(kept), rs, i);
      if hs[i].ref != null {
        assert Refs(kept + [hs[i]]) == Refs(kept) + [hs[i].ref];
        kept := kept + [hs[i]];
      }
    }
    assert rs[|hs|..] == [];
  }

  lemma {:induction false} LiveNone()
    ensures Live([]) == []
  {}

  /** A list with one node in it, and with that node gone. */
  lemma {:induction false} LiveAround(a: seq<Node?>, n: Node?, b: seq<Node?>)
    ensures Live(a + [n] + b) == Live(a) + (if n != null then [n] else []) + Live(b)
  {
    LiveAppend(a + [n], b);
    LiveAppend(a, [n]);
    LiveOne(n);
  }

  /** The steps of removeStmt: the handle of s lets go of it, and empty handles are dropped. */
  method DropStmt(scope: Node, s: Node, ghost H: set<Handle>, ghost N: set<Node>)
    returns (ghost k: nat, ghost h: Handle)
    requires scope in N && s in N && Linked(H, N) && NoTwice(scope.body)
    requires (forall g | g in scope.body :: g in H) && s in Owned(scope.body)
    modifies H`ref, N`owner, scope`body
    ensures Linked(H, N) && s.owner == null && s !in Owned(scope.body)
    ensures k < |old(Owned(scope.body))| && old(Owned(scope.body))[k] == s
    ensures Owned(scope.body) == old(Owned(scope.body))[..k] + old(Owned(scope.body))[k + 1..]
    ensures NoTwice(scope.body) && (forall g | g in scope.body :: g in old(scope.body))
    ensures h in old(scope.body) && h in H && old(h.ref) == s && forall g | g in H :: g.ref == if g == h then null
      else old(g.ref)
  {
    hide Linked, Live;
    var hs := scope.body;
    ghost var rs := Refs(hs);
    LiveFound(rs, s);
    var i := 0;
    while i < |hs| && hs[i].ref != s
      invariant 0 <= i <= |hs|
      invariant forall k | 0 <= k < i :: rs[k] != s
    {
      i := i + 1;
    }
    var sh := hs[i];
    h := sh;
    assert h in hs;
    OnlyHandle(H, N, h, s);
    ghost var a, b := rs[..i], rs[i + 1..];
    assert rs == a + [s] + b;
    LiveAround(a, s, b);
    k := |Live(a)|;
    SetReference(sh, null, H, N);
    assert s !in Refs(hs);
    assert Refs(hs) == a + [null] + b by { OnlyThere(hs, rs, i, s); }
    LiveAround(a, null, b);
    LiveFound(Refs(hs), s);
    var kept := Compact(hs);
    scope.body := kept;
  }

  /** removeStmt: exactly s leaves the scope. */
  method RemoveStmt(scope: Node, s: Node, ghost H: set<Handle>, ghost N: set<Node>) returns (ghost k: nat)
    requires scope in N && s in N && Linked(H, N) && NoTwice(scope.body)
    requires (forall h | h in scope.body :: h in H) && s in Owned(scope.body)
    modifies H`ref, N`owner, scope`body
    ensures Linked(H, N) && s.owner == null && s !in Owned(scope.body)
    ensures k < |old(Owned(scope.body))| && old(Owned(scope.body))[k] == s
    ensures Owned(scope.body) == old(Owned(scope.body))[..k] + old(Owned(scope.body))[k + 1..]
    ensures forall h | h in H && old(h.ref) != s :: h.ref == old(h.ref)
    ensures old(Valid(H, N)) ==>
      Valid(H, N) && k < |KidsOf(old(Tree(H, N)), scope.id)| && Tree(H, N) == Removed(old(Tree(H, N)), scope.id, k)
    ensures old(Valid(H, N)) && Acyclic(old(Tree(H, N))) ==> Acyclic(Tree(H, N))
  {
    hide Linked, Live, NoTwice, Good, TreeOf, Acyclic;
    ghost var s0 := ShapeOf(H, N);
    ghost var rs := Refs(scope.body);
    assert RefsIn(scope.body, s0.refs) == rs;
    ghost var h;
    k, h := DropStmt(scope, s, H, N);
    ghost var s1 := ShapeOf(H, N);
    assert RefsIn(scope.body, s1.refs) == Refs(scope.body);
    if old(Valid(H, N)) {
      GoodNumbers(s0);
      RemovedTree(s0, s1, scope, h, scope.body, k);
      if Acyclic(TreeOf(s0)) { RemoveAcyclic(TreeOf(s0), scope.id, k); }
    }
  }

  lemma {:induction false} OnlyThere(hs: seq<Handle>, rs: seq<Node?>, i: nat, s: Node)
    requires NoTwice(hs) && |hs| == |rs| && i < |hs| && rs[i] == s && hs[i].ref == null
    requires forall k | 0 <= k < |hs| :: hs[k] == hs[i] || hs[k].ref == rs[k]
    requires forall k | 0 <= k < |hs| && k != i :: rs[k] != s
    ensures Refs(hs) == rs[..i] + [null] + rs[i + 1..]
  {
    forall k | 0 <= k < |hs| && k != i ensures hs[k].ref == rs[k] {
      if k < i { assert hs[k] != hs[i]; } else { assert hs[i] != hs[k]; }
    }
  }

  /** The steps of an insertion: a new handle at pos owns s; a handle that owned s before loses it. */
  method PutStmt(scope: Node, s: Node, pos: nat, ghost H: set<Handle>, ghost N: set<Node>)
    returns (h: Handle, ghost H': set<Handle>)
    requires scope in N && s in N && Linked(H, N) && pos <= |scope.body| && forall g | g in scope.body :: g in H
    modifies H`ref, N`owner, scope`body
    ensures fresh(h) && H' == H + {h} && Linked(H', N) && h.parent == scope && h.ref == s && s.owner == h
    ensures scope.body == old(scope.body)[..pos] + [h] + old(scope.body)[pos..]
    ensures forall g | g in H :: g.ref == if old(g.ref) == s then null else old(g.ref)
  {
    h := new Handle(scope);
    H' := H + {h};
    SetReference(h, s, H', N);
    scope.body := scope.body[..pos] + [h] + scope.body[pos..];
  }

  /** The same, seen as a change of the whole heap. */
  method PutShaped(scope: Node, s: Node, pos: nat, ghost H: set<Handle>, ghost N: set<Node>)
    returns (h: Handle, ghost H': set<Handle>)
    requires scope in N && s in N && Linked(H, N) && pos <= |scope.body| && forall g | g in scope.body :: g in H
    modifies H`ref, N`owner, scope`body
    ensures fresh(h) && H' == H + {h} && Linked(H', N) && h.parent == scope && h.ref == s && s.owner == h
    ensures scope.body == old(scope.body)[..pos] + [h] + old(scope.body)[pos..]
    ensures forall g | g in H :: g.ref == if old(g.ref) == s then null else old(g.ref)
    ensures PutShape(old(ShapeOf(H, N)), ShapeOf(H', N), scope, pos, s, h)
  {
    hide Linked;
    ghost var s0 := ShapeOf(H, N);
    h, H' := PutStmt(scope, s, pos, H, N);
    ghost var s1 := ShapeOf(H', N);
    assert s1.bodies == s0.bodies[scope := s0.bodies[scope][..pos] + [h] + s0.bodies[scope][pos..]];
    assert s1.parents == s0.parents[h := scope];
  }

  /** insertBeforeStmt and insertAfterStmt: s is owned at pos and nowhere else, wherever it was before. */
  method InsertAt(scope: Node, s: Node, pos: nat, ghost H: set<Handle>, ghost N: set<Node>)
    returns (ghost H': set<Handle>)
    requires scope in N && s in N && Linked(H, N) && pos <= |scope.body| && forall h | h in scope.body :: h in H
    modifies H`ref, N`owner, scope`body
    ensures Linked(H', N) && H <= H' && fresh(H' - H)
    ensures Owned(scope.body) ==
      Less(old(Owned(scope.body[..pos])), s) + [s] + Less(old(Owned(scope.body[pos..])), s)
    ensures s.owner != null && s.owner !in H && s.owner.parent == scope && s.owner.ref == s && H' == H + {s.owner}
    ensures scope.body == old(scope.body)[..pos] + [s.owner] + old(scope.body)[pos..]
    ensures forall h | h in H :: h.ref == if old(h.ref) == s then null else old(h.ref)
    ensures old(Valid(H, N)) ==>
      var at, t := |Less(old(Owned(scope.body[..pos])), s)|, Dropped(old(Tree(H, N)), s.id);
      Valid(H', N) && at <= |KidsOf(t, scope.id)| && Tree(H', N) == Inserted(t, scope.id, at, s.id)
    ensures old(Valid(H, N)) && Acyclic(old(Tree(H, N))) ==>
      (Acyclic(Tree(H', N)) <==> !SomeBelow(old(Tree(H, N)), s.id, scope.id))
  {
    hide Linked, Live, Less, NoTwice, Good, TreeOf, Dropped, Inserted, SomeBelow, Acyclic, PutShape;
    ghost var s0 := ShapeOf(H, N);
    ghost var a, b := scope.body[..pos], scope.body[pos..];
    ghost var ra, rb := Refs(a), Refs(b);
    assert RefsIn(a, s0.refs) == ra by { assert forall g | g in a :: g in scope.body; }
    var h;
    h, H' := PutShaped(scope, s, pos, H, N);
    assert Refs(a) == Nulled(ra, s) && Refs(b) == Nulled(rb, s) by {
      assert forall g | g in a || g in b :: g in old(scope.body);
    }
    assert Refs(scope.body) == Refs(a) + [h.ref] + Refs(b);
    LiveAround(Refs(a), s, Refs(b));
    LiveNulled(ra, s);
    LiveNulled(rb, s);
    if old(Valid(H, N)) {
      GoodNumbers(s0);
      PutTree(s0, ShapeOf(H', N), scope, pos, s, h);
      if Acyclic(TreeOf(s0)) { PutAcyclic(TreeOf(s0), scope.id, |Less(Live(ra), s)|, s.id); }
    }
  }

  /** Emptied scopes and changed references keep a heap good. */
  lemma {:induction false} ClearedGood(s: Shape, s': Shape, scope: Node)
    requires Good(s) && scope in s.bodies && s'.bodies == s.bodies[scope := []] && s'.parents == s.parents
    requires s'.refs.Keys == s.refs.Keys
    requires forall g | g in s.refs :: s'.refs[g] == if g in s.bodies[scope] then null else s.refs[g]
    ensures Good(s')
  {
    assert s'.bodies.Keys == s.bodies.Keys;
  }

  lemma {:induction false} SetGood(s: Shape, s': Shape, h: Handle, n: Node)
    requires Good(s) && h in s.refs && n in s.bodies
    requires s'.bodies == s.bodies && s'.parents == s.parents && s'.refs.Keys == s.refs.Keys
    requires forall g | g in s.refs :: s'.refs[g] == if g == h then n else if s.refs[g] == n then null else s.refs[g]
    ensures Good(s')
  {}

  /** Clear, with what it does to a valid heap. */
  method ClearValid(scope: Node, ghost H: set<Handle>, ghost N: set<Node>)
    requires scope in N && Linked(H, N) && forall h | h in scope.body :: h in H
    modifies H`ref, N`owner, scope`body
    ensures Linked(H, N) && scope.body == []
    ensures forall h | h in H :: h.ref == if h in old(scope.body) then null else old(h.ref)
    ensures old(Valid(H, N)) ==> Valid(H, N)
  {
    hide Linked, Good;
    ghost var s0 := ShapeOf(H, N);
    Clear(scope, H, N);
    ghost var s1 := ShapeOf(H, N);
    if old(Valid(H, N)) {
      assert s1.bodies == s0.bodies[scope := []] && s1.parents == s0.parents;
      ClearedGood(s0, s1, scope);
    }
  }

  /** SetReference, with what it does to a valid heap. */
  method SetValid(h: Handle, n: Node, ghost H: set<Handle>, ghost N: set<Node>)
    requires Linked(H, N) && h in H && n in N
    modifies H`ref, N`owner
    ensures Linked(H, N) && h.ref == n
    ensures forall g | g in H && g != h :: g.ref == if old(g.ref) == n then null else old(g.ref)
    ensures old(Valid(H, N)) ==> Valid(H, N)
  {
    hide Linked, Good;
    ghost var s0 := ShapeOf(H, N);
    SetReference(h, n, H, N);
    ghost var s1 := ShapeOf(H, N);
    if old(Valid(H, N)) {
      assert s1.bodies == s0.bodies && s1.parents == s0.parents;
      SetGood(s0, s1, h, n);
    }
  }

  /** parent lets go of L, and takes what L owned. */
  method TakeOver(L: Node, parent: Node, ghost H: set<Handle>, ghost N: set<Node>)
    returns (ghost H': set<Handle>)
    requires L in N && parent in N && L != parent && Linked(H, N) && |parent.body| == 1
    requires parent.body[0] in H && parent.body[0].ref == L && parent.body[0] !in L.body
    requires (forall h | h in L.body :: h in H) && NoTwice(L.body)
    modifies H`ref, N`owner, parent`body, L`body
    ensures Linked(H', N) && H <= H' && fresh(H' - H)
    ensures L.body == [] && Owned(parent.body) == old(Owned(L.body))
    ensures forall h | h in parent.body :: h in H' && h !in H
    ensures forall h | h in H && h !in old(L.body) && h !in old(parent.body) :: h.ref == old(h.ref)
    ensures L.owner == null
    ensures old(Valid(H, N)) ==> Valid(H', N)
  {
    hide Linked, Live, NoTwice, Valid, Tree, Acyclic;
    OnlyHandle(H, N, parent.body[0], L);
    ClearValid(parent, H, N);
    ghost var rs := Refs(L.body);
    assert rs == old(Refs(L.body));
    assert L !in rs;
    H' := TakeContent(parent, L, H, N);
    LiveNone();
    assert Owned(parent.body) == [] + Live(rs);
    LiveFound(rs, L);
    LiveFound(Refs(parent.body), L);
    LetGo(H', N, L);
  }

  /** The exchange in the tree: i is where parent was among the statements of g. */
  lemma {:induction false} HoistedTree(s: Shape, s': Shape, g: Node, i: nat, parent: Node, L: Node)
    requires Numbered(s.bodies.Keys) && s'.bodies.Keys == s.bodies.Keys && g in s.bodies && parent in s.bodies &&
      L in s.bodies
    requires g != parent && parent != L && g != L
    requires i < |Kept(s, g)| && Kept(s, g)[i] == parent && Kept(s', g) == Kept(s, g)[i := L]
    requires Kept(s', parent) == Kept(s, L) && Kept(s', L) == [parent]
    requires forall n | n in s.bodies && n != g && n != parent && n != L :: Kept(s', n) == Kept(s, n)
    ensures i < |KidsOf(TreeOf(s), g.id)| && TreeOf(s') == HoistedKids(TreeOf(s), g.id, i, parent.id, L.id)
  {
    hide Kept, TreeOf;
    TreeKeys(s);
    var k := TreeOf(s);
    TreeAt(s, g);
    TreeAt(s, parent);
    TreeAt(s, L);
    var k' := HoistedKids(k, g.id, i, parent.id, L.id);
    assert k'.Keys == k.Keys;
    forall n | n in s'.bodies ensures KidsOf(k', n.id) == Ids(Kept(s', n)) { TreeAt(s, n); }
    SameTree(s', k');
  }

  /** In a good heap the handles of a scope are known, listed once, and know it. */
  lemma {:induction false} BodyKnown(H: set<Handle>, N: set<Node>, n: Node)
    requires Good(ShapeOf(H, N)) && n in N
    ensures NoTwice(n.body) && forall h | h in n.body :: h in H && h.parent == n
  {
    var s := ShapeOf(H, N);
    assert s.bodies[n] == n.body;
    forall h | h in n.body ensures h in H && h.parent == n {
      assert h in s.refs && s.parents[h] == n;
    }
  }

  lemma {:induction false} KeptNow(H: set<Handle>, N: set<Node>, n: Node)
    requires n in N && forall h | h in n.body :: h in H
    ensures Kept(ShapeOf(H, N), n) == Owned(n.body)
  {
    assert RefsIn(n.body, ShapeOf(H, N).refs) == Refs(n.body);
  }

  /** One reference of a scope is exchanged. */
  lemma {:induction false} ExchangedAt(s: Shape, s': Shape, g: Node, j: nat, x: Node, y: Node) returns (i: nat)
    requires g in s.bodies && g in s'.bodies && s'.bodies[g] == s.bodies[g] && j < |s.bodies[g]|
    requires forall h | h in s.bodies[g] :: h in s.refs && h in s'.refs
    requires NoTwice(s.bodies[g]) && s.refs[s.bodies[g][j]] == x && s'.refs[s.bodies[g][j]] == y
    requires forall h | h in s.bodies[g] && h != s.bodies[g][j] :: s'.refs[h] == s.refs[h]
    ensures i < |Kept(s, g)| && Kept(s, g)[i] == x && Kept(s', g) == Kept(s, g)[i := y]
  {
    hide Live;
    var hs := s.bodies[g];
    var rs, rs' := RefsIn(hs, s.refs), RefsIn(hs, s'.refs);
    forall k | 0 <= k < |hs| ensures rs'[k] == if k == j then y else rs[k] {
      assert hs[k] in hs;
      if k != j { assert hs[k] != hs[j]; }
    }
    var a, b := rs[..j], rs[j + 1..];
    assert rs == a + [x] + b && rs' == a + [y] + b;
    LiveAround(a, x, b);
    LiveAround(a, y, b);
    i := |Live(a)|;
  }

  /** What hoist knows of the heap before and after. */
  ghost predicate HoistedShape(s: Shape, s': Shape, g: Node, parent: Node, L: Node, PH: Handle)
  {
    Good(s) && Good(s') && s'.bodies.Keys == s.bodies.Keys && g in s.bodies && parent in s.bodies && L in s.bodies &&
    parent != L && PH in s.bodies[g] && s.refs[PH] == parent && PH in s'.refs && s'.refs[PH] == L &&
    Kept(s, parent) == [L] && PH !in s.bodies[L] && PH !in s.bodies[parent] &&
    Kept(s', parent) == Kept(s, L) && Kept(s', L) == [parent] &&
    (forall n | n in s.bodies && n != parent && n != L :: s'.bodies[n] == s.bodies[n]) &&
    (forall h | h in s.refs && h !in s.bodies[L] && h !in s.bodies[parent] && h != PH :: h in s'.refs &&
      s'.refs[h] == s.refs[h])
  }

  /** So hoist exchanges the two scopes in the tree, keeps it acyclic, and keeps every statement. */
  lemma {:induction false} HoistedNow(s: Shape, s': Shape, g: Node, parent: Node, L: Node, PH: Handle) returns (i: nat)
    requires HoistedShape(s, s', g, parent, L, PH)
    ensures Numbered(s.bodies.Keys) && Numbered(s'.bodies.Keys)
    ensures ExchangedInTree(TreeOf(s), TreeOf(s'), g.id, i, parent.id, L.id)
  {
    hide Live, Kept, TreeOf, Acyclic, OnePlace, Placed;
    var j :| 0 <= j < |s.bodies[g]| && s.bodies[g][j] == PH;
    assert g != parent && g != L;
    forall n, h | n in s.bodies && n != parent && n != L && h in s.bodies[n] && h != PH
      ensures h in s.refs && h in s'.refs && s'.refs[h] == s.refs[h]
    {
      assert s.parents[h] == n;
    }
    i := ExchangedAt(s, s', g, j, parent, L);
    forall n | n in s.bodies && n != g && n != parent && n != L ensures Kept(s', n) == Kept(s, n) {
      assert s.parents[PH] == g;
      SameKept(s, s', n);
    }
    HoistedTree(s, s', g, i, parent, L);
    TreeAt(s, g);
    TreeAt(s, parent);
    HeldOnce(s);
    var k := TreeOf(s);
    if Acyclic(k) {
      HoistAcyclic(k, g.id, i, parent.id, L.id);
      HoistKeepsStatements(k, g.id, i, parent.id, L.id);
    }
  }

  /** One step of hoist: L, alone in parent, and parent change places. The scope above now owns
      L, L owns parent alone, and parent owns what L owned. */
  method HoistStep(L: Node, parent: Node, ghost H: set<Handle>, ghost N: set<Node>)
    returns (ghost H': set<Handle>)
    requires L in N && parent in N && L != parent && Linked(H, N) && parent.owner != null
    requires |parent.body| == 1 && parent.body[0] in H && parent.body[0].ref == L
    requires (forall h | h in L.body :: h in H) && NoTwice(L.body)
    requires parent.owner !in L.body && parent.body[0] !in L.body
    modifies H`ref, N`owner, parent`body, L`body
    ensures Linked(H', N) && H <= H' && fresh(H' - H)
    ensures old(parent.owner).ref == L && Owned(L.body) == [parent] && Owned(parent.body) == old(Owned(L.body))
    ensures forall h | h in H && h !in old(L.body) && h !in old(parent.body) &&
      h != old(parent.owner) :: h.ref == old(h.ref)
    ensures old(Valid(H, N)) ==> Valid(H', N)
    ensures L.body != [] && (forall h | h in L.body || h in parent.body :: h in H')
  {
    hide Linked, Live, NoTwice, Valid, Tree, Acyclic;
    var PH := parent.owner;
    OwnerRefers(H, N, parent);
    H' := TakeOver(L, parent, H, N);
    ghost var kids := Refs(parent.body);
    OnlyHandle(H', N, PH, parent);
    NotOwned(H', N, L);
    H' := InsertAt(L, parent, 0, H', N);
    assert Refs(parent.body) == kids;
    ghost var only := Refs(L.body);
    assert Live(only) == [parent] by { LiveNone(); }
    assert L.body[0] in H' && L.body[0] != PH && L.body[0].ref == parent;
    SetValid(PH, L, H', N);
    assert Refs(parent.body) == kids;
    assert Refs(L.body) == only;
  }

  /** The same, seen as a change of the whole heap. */
  method HoistShaped(L: Node, parent: Node, ghost H: set<Handle>, ghost N: set<Node>)
    returns (ghost H': set<Handle>)
    requires L in N && parent in N && L != parent && Valid(H, N) && parent.owner != null
    requires Owned(parent.body) == [L] && |parent.body| == 1
    requires parent.owner.parent in N && parent.owner in parent.owner.parent.body && parent.owner !in L.body
    modifies H`ref, N`owner, parent`body, L`body
    ensures H <= H' && fresh(H' - H) && Valid(H', N)
    ensures HoistedShape(old(ShapeOf(H, N)), ShapeOf(H', N), old(parent.owner.parent), parent, L, old(parent.owner))
  {
    hide Linked, Live, Good, HoistedShape;
    ghost var s0 := ShapeOf(H, N);
    var PH := parent.owner;
    ghost var g := PH.parent;
    HoistReady(L, parent, H, N);
    OwnerRefers(H, N, parent);
    H' := HoistStep(L, parent, H, N);
    HoistDone(s0, L, parent, g, PH, H, H', N);
  }

  /** hoist in the tree: the exchange of loop and scope keeps it acyclic, loses no statement and
      lists none twice. */
  method HoistOnce(L: Node, parent: Node, ghost H: set<Handle>, ghost N: set<Node>)
    returns (ghost H': set<Handle>, ghost i: nat)
    requires L in N && parent in N && L != parent && Valid(H, N) && parent.owner != null
    requires Owned(parent.body) == [L] && |parent.body| == 1
    requires parent.owner.parent in N && parent.owner in parent.owner.parent.body && parent.owner !in L.body
    modifies H`ref, N`owner, parent`body, L`body
    ensures H <= H' && fresh(H' - H) && Valid(H', N)
    ensures ExchangedInTree(old(Tree(H, N)), Tree(H', N), old(parent.owner.parent).id, i, parent.id, L.id)
  {
    hide Linked, Live, Good, HoistedShape, TreeOf, ExchangedInTree, Owned;
    ghost var s0 := ShapeOf(H, N);
    var PH := parent.owner;
    ghost var g := PH.parent;
    GoodNumbers(s0);
    H' := HoistShaped(L, parent, H, N);
    i := HoistedNow(s0, ShapeOf(H', N), g, parent, L, PH);
  }

  /** The loop l and the scope p around it, at position i of g, have changed places; an acyclic tree
      stays acyclic, with every node in the tree once as before. */
  ghost predicate ExchangedInTree(k: Kids, k': Kids, g: nat, i: nat, p: nat, l: nat)
  {
    i < |KidsOf(k, g)| && KidsOf(k, g)[i] == p && KidsOf(k, p) == [l] && k' == HoistedKids(k, g, i, p, l) &&
    (Acyclic(k) ==> Acyclic(k') && OnePlace(k') && forall c: nat :: Placed(k', c) <==> Placed(k, c))
  }

  /** What a valid heap gives hoist to start with. */
  lemma {:induction false} HoistReady(L: Node, parent: Node, H: set<Handle>, N: set<Node>)
    requires L in N && parent in N && L != parent && Valid(H, N) && Owned(parent.body) == [L] && |parent.body| == 1
    ensures parent.body[0] in H && parent.body[0].ref == L && parent.body[0] !in L.body
    ensures (forall h | h in L.body :: h in H) && NoTwice(L.body)
    ensures Kept(ShapeOf(H, N), parent) == [L] && Kept(ShapeOf(H, N), L) == Owned(L.body)
  {
    hide Good;
    var s := ShapeOf(H, N);
    var h := parent.body[0];
    BodyKnown(H, N, parent);
    BodyKnown(H, N, L);
    KeptNow(H, N, parent);
    KeptNow(H, N, L);
    assert Refs(parent.body) == [h.ref];
    LiveOne(h.ref);
    assert s.bodies[L] == L.body;
  }

  /** And what it has done. */
  lemma {:induction false} HoistDone(s: Shape, L: Node, parent: Node, g: Node, PH: Handle, H: set<Handle>,
                                     H': set<Handle>, N: set<Node>)
    requires Good(s) && s.bodies.Keys == N && s.refs.Keys == H && H <= H' && Valid(H', N)
    requires L in N && parent in N && L != parent && g in N && PH in s.bodies[g] && PH in H && s.refs[PH] == parent
    requires PH !in s.bodies[L] && |s.bodies[parent]| == 1 && s.bodies[parent][0] in H &&
      s.refs[s.bodies[parent][0]] == L
    requires Kept(s, parent) == [L] && Owned(parent.body) == Kept(s, L) && Owned(L.body) == [parent] && PH.ref == L
    requires forall n | n in N && n != L && n != parent :: n.body == s.bodies[n]
    requires forall h | h in H && h !in s.bodies[L] && h !in s.bodies[parent] && h != PH :: h.ref == s.refs[h]
    ensures HoistedShape(s, ShapeOf(H', N), g, parent, L, PH)
  {
    hide Live;
    var s' := ShapeOf(H', N);
    BodyKnown(H', N, parent);
    BodyKnown(H', N, L);
    KeptNow(H', N, parent);
    KeptNow(H', N, L);
  }

  lemma {:induction false} OwnerRefers(H: set<Handle>, N: set<Node>, n: Node)
    requires Linked(H, N) && n in N && n.owner != null
    ensures n.owner in H && n.owner.ref == n
  {}

  lemma {:induction false} NotOwned(H: set<Handle>, N: set<Node>, n: Node)
    requires Linked(H, N) && n in N && n.owner == null
    ensures forall h | h in H :: h.ref != n
  {}

  lemma {:induction false} OnlyHandle(H: set<Handle>, N: set<Node>, h: Handle, n: Node)
    requires Linked(H, N) && h in H && h.ref == n
    ensures forall g | g in H && g != h :: g.ref != n
  {}

  /** A node that no handle refers to has no owner. */
  lemma {:induction false} LetGo(H: set<Handle>, N: set<Node>, n: Node)
    requires Linked(H, N) && n in N && forall h | h in H :: h.ref != n
    ensures n.owner == null
  {}
}
