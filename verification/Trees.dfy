/** The tree of a program as a relation: which nodes a scope holds, in order. */
module Trees {

  /** A child relation, as a map from a node to its children. */
  type Kids = map<nat, seq<nat>>

  function KidsOf(k: Kids, n: nat): seq<nat> { if n in k then k[n] else [] }

  /** b is n itself or below it, by a path of d steps. */
  predicate Below(k: Kids, n: nat, b: nat, d: nat)
    decreases d
  {
    if d == 0 then n == b else exists c | c in KidsOf(k, n) :: Below(k, c, b, d - 1)
  }

  /** Every child has a smaller rank than its parent: there is no cycle. */
  ghost predicate Ranked(k: Kids, rank: nat -> nat)
  {
    forall n, c: nat | c in KidsOf(k, n) :: rank(c) < rank(n)
  }

  ghost predicate Acyclic(k: Kids) { exists rank: nat -> nat :: Ranked(k, rank) }

  lemma {:induction false} RankFalls(k: Kids, rank: nat -> nat, n: nat, b: nat, d: nat)
    requires Ranked(k, rank) && Below(k, n, b, d)
    ensures rank(b) + d <= rank(n)
    decreases d
  {
    if d > 0 {
      var c :| c in KidsOf(k, n) && Below(k, c, b, d - 1);
      RankFalls(k, rank, c, b, d - 1);
    }
  }

  /** The children of `from` move to the end of those of `to`. */
  function Moved(k: Kids, to: nat, from: nat): Kids
  {
    k[to := KidsOf(k, to) + KidsOf(k, from)][from := []]
  }

  /** The scope `to` lies inside a statement of `from`. */
  ghost predicate InsideTaken(k: Kids, to: nat, from: nat) { exists c :: c in KidsOf(k, from) && SomeBelow(k, c, to) }

  ghost predicate SomeBelow(k: Kids, n: nat, b: nat) { exists d: nat :: Below(k, n, b, d) }

  lemma {:induction false} BelowChild(k: Kids, n: nat, c: nat, b: nat)
    requires c in KidsOf(k, n) && SomeBelow(k, c, b)
    ensures SomeBelow(k, n, b)
  {
    var d: nat :| Below(k, c, b, d);
    assert Below(k, n, b, d + 1);
  }

  lemma {:induction false} BelowMoved(k: Kids, to: nat, from: nat, n: nat, b: nat, d: nat)
    requires to != from && Below(k, n, b, d) && !SomeBelow(k, n, from)
    ensures SomeBelow(Moved(k, to, from), n, b)
    decreases d
  {
    var k' := Moved(k, to, from);
    if d == 0 {
      assert Below(k', n, b, 0);
    } else {
      if n == from { assert Below(k, n, from, 0); }
      var c :| c in KidsOf(k, n) && Below(k, c, b, d - 1);
      if SomeBelow(k, c, from) { BelowChild(k, n, c, from); }
      BelowMoved(k, to, from, c, b, d - 1);
      assert c in KidsOf(k', n);
      BelowChild(k', n, c, b);
    }
  }

  /** A statement around the taking scope makes a cycle when it is taken. */
  lemma {:induction false} CycleMade(k: Kids, to: nat, from: nat, c: nat)
    requires Acyclic(k) && to != from && c in KidsOf(k, from) && SomeBelow(k, c, to)
    ensures !Acyclic(Moved(k, to, from))
  {
    hide Below;
    var rank: nat -> nat :| Ranked(k, rank);
    var d: nat :| Below(k, c, to, d);
    NotAbove(k, rank, from, c);
    BelowMoved(k, to, from, c, to, d);
    assert c in KidsOf(Moved(k, to, from), to);
    NoCycle(Moved(k, to, from), to, c);
  }

  /** Otherwise everything above the taking scope can be lifted over the moved statements. */
  lemma {:induction false} NoCycleMade(k: Kids, to: nat, from: nat)
    requires Acyclic(k) && to != from && !exists c :: c in KidsOf(k, from) && SomeBelow(k, c, to)
    ensures Acyclic(Moved(k, to, from))
  {
    hide Below, SomeBelow;
    var rank: nat -> nat :| Ranked(k, rank);
    var r: nat -> nat := (n: nat) => if SomeBelow(k, n, to) then rank(n) + rank(from) + 1 else rank(n);
    var k' := Moved(k, to, from);
    forall n, c: nat | c in KidsOf(k', n) ensures r(c) < r(n) {
      MovedRank(k, to, from, rank, n, c);
    }
    assert forall n, c: nat :: c in KidsOf(k', n) ==> r(c) < r(n);
    assert Ranked(k', r);
  }

  /** takeContent keeps the tree acyclic exactly when the taking scope is not inside one of the
      statements that it takes. */
  lemma {:induction false} TakeContentAcyclic(k: Kids, to: nat, from: nat)
    requires Acyclic(k) && to != from
    ensures Acyclic(Moved(k, to, from)) <==> !InsideTaken(k, to, from)
  {
    hide Acyclic, SomeBelow, Moved;
    if c :| c in KidsOf(k, from) && SomeBelow(k, c, to) {
      CycleMade(k, to, from, c);
    } else {
      NoCycleMade(k, to, from);
    }
  }

  lemma {:induction false} NotAbove(k: Kids, rank: nat -> nat, n: nat, c: nat)
    requires Ranked(k, rank) && c in KidsOf(k, n)
    ensures !SomeBelow(k, c, n)
  {
    forall d: nat ensures !Below(k, c, n, d) {
      if Below(k, c, n, d) { RankFalls(k, rank, c, n, d); }
    }
  }

  lemma {:induction false} NoCycle(k: Kids, n: nat, c: nat)
    requires c in KidsOf(k, n) && SomeBelow(k, c, n)
    ensures !Acyclic(k)
  {
    forall rank: nat -> nat ensures !Ranked(k, rank) {
      if Ranked(k, rank) { NotAbove(k, rank, n, c); }
    }
  }

  lemma {:induction false} MovedRank(k: Kids, to: nat, from: nat, rank: nat -> nat, n: nat, c: nat)
    requires Ranked(k, rank) && to != from && c in KidsOf(Moved(k, to, from), n)
    requires !exists x :: x in KidsOf(k, from) && SomeBelow(k, x, to)
    ensures (if SomeBelow(k, c, to) then rank(c) + rank(from) + 1 else rank(c)) <
            if SomeBelow(k, n, to) then rank(n) + rank(from) + 1 else rank(n)
  {
    if n == to {
      assert Below(k, to, to, 0);
      if c in KidsOf(k, to) {
        assert rank(c) < rank(to);
      } else {
        assert c in KidsOf(k, from) && rank(c) < rank(from);
      }
    } else {
      assert n != from && c in KidsOf(k, n) && rank(c) < rank(n);
      if SomeBelow(k, c, to) { BelowChild(k, n, c, to); }
    }
  }

  /** s becomes a child of `to`. */
  function Inserted(k: Kids, to: nat, pos: nat, s: nat): Kids
    requires pos <= |KidsOf(k, to)|
  {
    k[to := KidsOf(k, to)[..pos] + [s] + KidsOf(k, to)[pos..]]
  }

  lemma {:induction false} InsertedKids(k: Kids, to: nat, pos: nat, s: nat, n: nat, c: nat)
    requires pos <= |KidsOf(k, to)|
    ensures c in KidsOf(Inserted(k, to, pos, s), n) <==> c in KidsOf(k, n) || (n == to && c == s)
  {
    assert KidsOf(k, to) == KidsOf(k, to)[..pos] + KidsOf(k, to)[pos..];
  }

  lemma {:induction false} BelowInserted(k: Kids, to: nat, pos: nat, s: nat, n: nat, b: nat, d: nat)
    requires pos <= |KidsOf(k, to)| && Below(k, n, b, d)
    ensures Below(Inserted(k, to, pos, s), n, b, d)
    decreases d
  {
    if d > 0 {
      var c :| c in KidsOf(k, n) && Below(k, c, b, d - 1);
      BelowInserted(k, to, pos, s, c, b, d - 1);
      InsertedKids(k, to, pos, s, n, c);
    }
  }

  /** insertBeforeStmt and insertAfterStmt keep the tree acyclic exactly when the scope is not
      inside the inserted statement. */
  lemma {:induction false} InsertAcyclic(k: Kids, to: nat, pos: nat, s: nat)
    requires Acyclic(k) && pos <= |KidsOf(k, to)|
    ensures Acyclic(Inserted(k, to, pos, s)) <==> !SomeBelow(k, s, to)
  {
    hide Below;
    var k' := Inserted(k, to, pos, s);
    if SomeBelow(k, s, to) {
      var d: nat :| Below(k, s, to, d);
      BelowInserted(k, to, pos, s, s, to, d);
      InsertedKids(k, to, pos, s, to, s);
      NoCycle(k', to, s);
    } else {
      var rank: nat -> nat :| Ranked(k, rank);
      var r: nat -> nat := (n: nat) => if SomeBelow(k, n, to) then rank(n) + rank(s) + 1 else rank(n);
      forall n, c: nat | c in KidsOf(k', n) ensures r(c) < r(n) {
        InsertedKids(k, to, pos, s, n, c);
        InsertedRank(k, to, s, rank, n, c);
      }
      assert forall n, c: nat :: c in KidsOf(k', n) ==> r(c) < r(n);
      assert Ranked(k', r);
    }
  }

  lemma {:induction false} InsertedRank(k: Kids, to: nat, s: nat, rank: nat -> nat, n: nat, c: nat)
    requires Ranked(k, rank) && !SomeBelow(k, s, to) && (c in KidsOf(k, n) || (n == to && c == s))
    ensures (if SomeBelow(k, c, to) then rank(c) + rank(s) + 1 else rank(c)) <
            if SomeBelow(k, n, to) then rank(n) + rank(s) + 1 else rank(n)
  {
    assert Below(k, to, to, 0);
    if c in KidsOf(k, n) {
      assert rank(c) < rank(n);
      if SomeBelow(k, c, to) { BelowChild(k, n, c, to); }
    }
  }

  /** The child at position i of a scope is gone. */
  function Removed(k: Kids, scope: nat, i: nat): Kids
    requires i < |KidsOf(k, scope)|
  {
    k[scope := KidsOf(k, scope)[..i] + KidsOf(k, scope)[i + 1..]]
  }

  /** removeStmt keeps the tree acyclic. */
  lemma {:induction false} RemoveAcyclic(k: Kids, scope: nat, i: nat)
    requires Acyclic(k) && i < |KidsOf(k, scope)|
    ensures Acyclic(Removed(k, scope, i))
  {
    var rank: nat -> nat :| Ranked(k, rank);
    assert Ranked(Removed(k, scope, i), rank);
  }

  /** No node is listed twice, in one scope or in two. */
  ghost predicate OnePlace(k: Kids)
  {
    forall n: nat, m: nat, i: nat, j: nat ::
      i < |KidsOf(k, n)| && j < |KidsOf(k, m)| && KidsOf(k, n)[i] == KidsOf(k, m)[j] ==> n == m && i == j
  }

  lemma {:induction false} OnlyPlace(k: Kids, n: nat, i: nat, m: nat, j: nat)
    requires OnePlace(k) && i < |KidsOf(k, n)| && j < |KidsOf(k, m)| && KidsOf(k, n)[i] == KidsOf(k, m)[j]
    ensures n == m && i == j
  {}

  ghost predicate Placed(k: Kids, c: nat) { exists n: nat :: c in KidsOf(k, n) }

  /** hoist: l, alone in p, takes p's place at position i of g; p takes the content of l. */
  function HoistedKids(k: Kids, g: nat, i: nat, p: nat, l: nat): Kids
    requires i < |KidsOf(k, g)|
  {
    k[g := KidsOf(k, g)[i := l]][p := KidsOf(k, l)][l := [p]]
  }

  ghost predicate CanHoistKids(k: Kids, g: nat, i: nat, p: nat, l: nat)
  {
    Acyclic(k) && OnePlace(k) && i < |KidsOf(k, g)| && KidsOf(k, g)[i] == p && KidsOf(k, p) == [l]
  }

  /** The three scopes of a hoist are different. */
  lemma {:induction false} HoistApart(k: Kids, rank: nat -> nat, g: nat, i: nat, p: nat, l: nat)
    requires Ranked(k, rank) && i < |KidsOf(k, g)| && KidsOf(k, g)[i] == p && KidsOf(k, p) == [l]
    ensures rank(l) < rank(p) < rank(g) && g != p && p != l && g != l
  {
    assert p in KidsOf(k, g) && l in KidsOf(k, p);
  }

  /** hoist keeps the tree acyclic. */
  lemma {:induction false} HoistAcyclic(k: Kids, g: nat, i: nat, p: nat, l: nat)
    requires CanHoistKids(k, g, i, p, l)
    ensures Acyclic(HoistedKids(k, g, i, p, l))
  {
    var rank: nat -> nat :| Ranked(k, rank);
    HoistApart(k, rank, g, i, p, l);
    var k' := HoistedKids(k, g, i, p, l);
    var r: nat -> nat := (n: nat) => if n == p then rank(l) else if n == l then rank(p) else rank(n);
    forall n, c: nat | c in KidsOf(k', n) ensures r(c) < r(n) { HoistedRank(k, rank, g, i, p, l, n, c); }
    assert forall n, c: nat :: c in KidsOf(k', n) ==> r(c) < r(n);
    assert Ranked(k', r);
  }

  lemma {:induction false} HoistedRank(k: Kids, rank: nat -> nat, g: nat, i: nat, p: nat, l: nat, n: nat, c: nat)
    requires Ranked(k, rank) && OnePlace(k) && i < |KidsOf(k, g)| && KidsOf(k, g)[i] == p && KidsOf(k, p) == [l]
    requires c in KidsOf(HoistedKids(k, g, i, p, l), n)
    ensures (if c == p then rank(l) else if c == l then rank(p) else rank(c)) <
            (if n == p then rank(l) else if n == l then rank(p) else rank(n))
  {
    hide OnePlace;
    HoistApart(k, rank, g, i, p, l);
    if n == l {
    } else if n == p {
      assert c in KidsOf(k, l) && rank(c) < rank(l);
    } else if n == g {
      var j :| 0 <= j < |KidsOf(k, g)| && KidsOf(k, g)[i := l][j] == c;
      if j != i {
        assert c == KidsOf(k, g)[j] && c in KidsOf(k, g) && rank(c) < rank(g);
        if c == p { OnlyPlace(k, g, j, g, i); }
        if c == l { OnlyPlace(k, g, j, p, 0); }
      }
    } else {
      var j :| 0 <= j < |KidsOf(k, n)| && KidsOf(k, n)[j] == c;
      assert rank(c) < rank(n);
      if c == p { OnlyPlace(k, n, j, g, i); }
      if c == l { OnlyPlace(k, n, j, p, 0); }
    }
  }

  /** And it loses no statement and lists none twice. */
  lemma {:induction false} HoistKeepsStatements(k: Kids, g: nat, i: nat, p: nat, l: nat)
    requires CanHoistKids(k, g, i, p, l)
    ensures OnePlace(HoistedKids(k, g, i, p, l))
    ensures forall c: nat :: Placed(HoistedKids(k, g, i, p, l), c) <==> Placed(k, c)
  {
    var rank: nat -> nat :| Ranked(k, rank);
    HoistApart(k, rank, g, i, p, l);
    var k' := HoistedKids(k, g, i, p, l);
    forall n: nat, m: nat, a: nat, b: nat | a < |KidsOf(k', n)| && b < |KidsOf(k', m)| &&
      KidsOf(k', n)[a] == KidsOf(k', m)[b]
      ensures n == m && a == b
    {
      OldPlaces(k, g, i, p, l, n, a);
      OldPlaces(k, g, i, p, l, m, b);
    }
    forall c: nat ensures Placed(k', c) <==> Placed(k, c) { StillPlaced(k, g, i, p, l, c); }
  }

  /** Where the child at position a of n was before: p was in g, l in p, and the content of p in l. */
  function OldPlace(g: nat, i: nat, p: nat, l: nat, n: nat, a: nat): (nat, nat)
  {
    if n == l then (g, i) else if n == p then (l, a) else if n == g && a == i then (p, 0) else (n, a)
  }

  lemma {:induction false} OldPlaces(k: Kids, g: nat, i: nat, p: nat, l: nat, n: nat, a: nat)
    requires i < |KidsOf(k, g)| && KidsOf(k, g)[i] == p && KidsOf(k, p) == [l] && g != p && p != l && g != l
    requires a < |KidsOf(HoistedKids(k, g, i, p, l), n)|
    ensures var (m, b) := OldPlace(g, i, p, l, n, a);
      b < |KidsOf(k, m)| && KidsOf(k, m)[b] == KidsOf(HoistedKids(k, g, i, p, l), n)[a]
  {}

  lemma {:induction false} StillPlaced(k: Kids, g: nat, i: nat, p: nat, l: nat, c: nat)
    requires i < |KidsOf(k, g)| && KidsOf(k, g)[i] == p && KidsOf(k, p) == [l] && g != p && p != l && g != l
    ensures Placed(HoistedKids(k, g, i, p, l), c) <==> Placed(k, c)
  {
    var k' := HoistedKids(k, g, i, p, l);
    if Placed(k', c) {
      var n: nat :| c in KidsOf(k', n);
      var a :| 0 <= a < |KidsOf(k', n)| && KidsOf(k', n)[a] == c;
      OldPlaces(k, g, i, p, l, n, a);
    }
    if Placed(k, c) {
      var m: nat :| c in KidsOf(k, m);
      var b :| 0 <= b < |KidsOf(k, m)| && KidsOf(k, m)[b] == c;
      if m == p { assert KidsOf(k', g)[i] == c; }
      else if m == l { assert c in KidsOf(k', p); }
      else if m == g && b == i { assert c in KidsOf(k', l); }
      else { assert KidsOf(k', m)[b] == c; }
    }
  }

  // ---- A node that may be elsewhere ---------------------------------------------------------------

  /** xs without x. */
  function Less<T(==)>(xs: seq<T>, x: T): seq<T>
  {
    if xs == [] then [] else (if xs[0] == x then [] else [xs[0]]) + Less(xs[1..], x)
  }

  lemma {:induction false} LessIn<T>(xs: seq<T>, x: T)
    ensures forall y :: y in Less(xs, x) <==> y in xs && y != x
  {
    if xs != [] { LessIn(xs[1..], x); }
  }

  lemma {:induction false} LessAppend<T>(a: seq<T>, b: seq<T>, x: T)
    ensures Less(a + b, x) == Less(a, x) + Less(b, x)
  {
    if a == [] {
      assert a + b == b;
    } else {
      assert (a + b)[0] == a[0] && (a + b)[1..] == a[1..] + b;
      LessAppend(a[1..], b, x);
    }
  }

  /** s is taken out of the scope that holds it, if there is one. */
  function Dropped(k: Kids, s: nat): Kids { map n | n in k :: Less(k[n], s) }

  lemma {:induction false} DroppedKeys(k: Kids, s: nat)
    ensures Dropped(k, s).Keys == k.Keys
  {}

  lemma {:induction false} DroppedKids(k: Kids, s: nat, n: nat, c: nat)
    ensures KidsOf(Dropped(k, s), n) == Less(KidsOf(k, n), s)
    ensures c in KidsOf(Dropped(k, s), n) <==> c in KidsOf(k, n) && c != s
  {
    LessIn(KidsOf(k, n), s);
  }

  /** Below s, nothing changes when s is taken out. */
  lemma {:induction false} DroppedBelow(k: Kids, rank: nat -> nat, s: nat, n: nat, b: nat, d: nat)
    requires Ranked(k, rank) && rank(n) <= rank(s)
    ensures Below(Dropped(k, s), n, b, d) <==> Below(k, n, b, d)
    decreases d
  {
    if d > 0 {
      forall c: nat
        ensures c in KidsOf(Dropped(k, s), n) && Below(Dropped(k, s), c, b, d - 1) <==>
          c in KidsOf(k, n) && Below(k, c, b, d - 1)
      {
        DroppedKids(k, s, n, c);
        if c in KidsOf(k, n) { DroppedBelow(k, rank, s, c, b, d - 1); }
      }
    }
  }

  /** Putting s into a scope, wherever it was before, keeps the tree acyclic exactly when the scope
      is not inside s. */
  lemma {:induction false} PutAcyclic(k: Kids, to: nat, pos: nat, s: nat)
    requires Acyclic(k) && pos <= |KidsOf(Dropped(k, s), to)|
    ensures Acyclic(Inserted(Dropped(k, s), to, pos, s)) <==> !SomeBelow(k, s, to)
  {
    hide Below, Inserted, KidsOf;
    var rank: nat -> nat :| Ranked(k, rank);
    forall n, c: nat | c in KidsOf(Dropped(k, s), n) ensures rank(c) < rank(n) { DroppedKids(k, s, n, c); }
    assert forall n, c: nat :: c in KidsOf(Dropped(k, s), n) ==> rank(c) < rank(n);
    assert Ranked(Dropped(k, s), rank);
    forall d: nat ensures Below(Dropped(k, s), s, to, d) <==> Below(k, s, to, d) { DroppedBelow(k, rank, s, s, to, d); }
    InsertAcyclic(Dropped(k, s), to, pos, s);
  }
}
