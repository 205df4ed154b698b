/** Repeated state transformers. A family f gives, for every iteration number k, a
    transformer f(k, _); Iter runs f(0), f(1), ..., f(n-1) in that order. */
module Families {

  ghost function Iter<S>(f: (nat, S) -> S, n: nat, s: S): S
  {
    if n == 0 then s else f(n - 1, Iter(f, n - 1, s))
  }

  lemma {:induction false} IterCong<S(!new)>(f: (nat, S) -> S, g: (nat, S) -> S, n: nat, s: S)
    requires forall k: nat, x :: k < n ==> f(k, x) == g(k, x)
    ensures Iter(f, n, s) == Iter(g, n, s)
  {
    if n > 0 {
      IterCong(f, g, n - 1, s);
    }
  }

  /** Iterations m, m+1, ... of f, renumbered from zero. */
  ghost function Shift<S>(f: (nat, S) -> S, m: nat): (nat, S) -> S
  {
    (k: nat, s: S) => f(m + k, s)
  }

  lemma {:induction false} IterSplit<S>(f: (nat, S) -> S, m: nat, n: nat, s: S)
    ensures Iter(f, m + n, s) == Iter(Shift(f, m), n, Iter(f, m, s))
  {
    if n > 0 {
      IterSplit(f, m, n - 1, s);
      assert Iter(f, m + n, s) == f(m + n - 1, Iter(f, m + n - 1, s));
    }
  }

  /** One block of c consecutive iterations of f for every outer iteration. */
  ghost function Blocks<S>(f: (nat, S) -> S, c: nat): (nat, S) -> S
  {
    (t: nat, s: S) => Iter(Shift(f, t * c), c, s)
  }

  lemma {:induction false} IterBlocks<S>(f: (nat, S) -> S, c: nat, t: nat, s: S)
    ensures Iter(Blocks(f, c), t, s) == Iter(f, t * c, s)
  {
    if t > 0 {
      IterBlocks(f, c, t - 1, s);
      IterSplit(f, (t - 1) * c, c, s);
      assert (t - 1) * c + c == t * c;
    }
  }

  /** Iterations that do nothing can be dropped from the end. */
  lemma {:induction false} IterIdle<S(!new)>(f: (nat, S) -> S, n: nat, extra: nat, s: S)
    requires forall k: nat, x :: n <= k < n + extra ==> f(k, x) == x
    ensures Iter(f, n + extra, s) == Iter(f, n, s)
  {
    if extra > 0 {
      IterIdle(f, n, extra - 1, s);
    }
  }

  /** The family that runs f(k) and then g(k). */
  ghost function Then<S>(f: (nat, S) -> S, g: (nat, S) -> S): (nat, S) -> S
  {
    (k: nat, s: S) => g(k, f(k, s))
  }

  /** Every g(i) commutes with every later f(j). */
  ghost predicate LaterCommute<S(!new)>(f: (nat, S) -> S, g: (nat, S) -> S, n: nat)
  {
    forall i: nat, j: nat, s :: i < j < n ==> f(j, g(i, s)) == g(i, f(j, s))
  }

  lemma {:induction false} IterCommutesWith<S(!new)>(g: (nat, S) -> S, n: nat, a: S -> S, s: S)
    requires forall i: nat, x :: i < n ==> a(g(i, x)) == g(i, a(x))
    ensures a(Iter(g, n, s)) == Iter(g, n, a(s))
  {
    if n > 0 {
      IterCommutesWith(g, n - 1, a, s);
    }
  }

  /** Running f and g together equals running all of f and then all of g, when no
      reversed pair is affected. */
  lemma {:induction false} IterDistribute<S(!new)>(f: (nat, S) -> S, g: (nat, S) -> S, n: nat, s: S)
    requires LaterCommute(f, g, n)
    ensures Iter(Then(f, g), n, s) == Iter(g, n, Iter(f, n, s))
  {
    if n > 0 {
      IterDistribute(f, g, n - 1, s);
      var fs := Iter(f, n - 1, s);
      var last := (x: S) => f(n - 1, x);
      IterCommutesWith(g, n - 1, last, fs);
      assert f(n - 1, Iter(g, n - 1, fs)) == Iter(g, n - 1, f(n - 1, fs));
    }
  }

  /** A two-dimensional family: run all inner iterations j for a fixed outer i. */
  ghost function Row<S>(h: (nat, nat, S) -> S, m: nat): (nat, S) -> S
  {
    (i: nat, s: S) => Iter((j: nat, x: S) => h(i, j, x), m, s)
  }

  lemma {:induction false} RowIs<S(!new)>(h: (nat, nat, S) -> S, m: nat, i: nat, s: S, g: (nat, S) -> S)
    requires forall j: nat, x :: j < m ==> g(j, x) == h(i, j, x)
    ensures Row(h, m)(i, s) == Iter(g, m, s)
  {
    var inner := (j: nat, x: S) => h(i, j, x);
    IterCong(g, inner, m, s);
    assert Row(h, m)(i, s) == Iter(inner, m, s);
  }

  /** The same family with the two dimensions exchanged. */
  ghost function Transposed<S>(h: (nat, nat, S) -> S): (nat, nat, S) -> S
  {
    (j: nat, i: nat, s: S) => h(i, j, s)
  }

  /** Instances whose relative order an interchange reverses commute. */
  ghost predicate CrossCommute<S(!new)>(h: (nat, nat, S) -> S, n: nat, m: nat)
  {
    forall i: nat, i': nat, j: nat, j': nat, s ::
      i < i' < n && j' < j < m ==> h(i', j', h(i, j, s)) == h(i, j, h(i', j', s))
  }

  lemma {:induction false} IterInterchange<S(!new)>(h: (nat, nat, S) -> S, n: nat, m: nat, s: S)
    requires CrossCommute(h, n, m)
    ensures Iter(Row(h, m), n, s) == Iter(Row(Transposed(h), n), m, s)
  {
    if m == 0 {
      IterCong(Row(h, 0), (k: nat, x: S) => x, n, s);
      IterIdle((k: nat, x: S) => x, 0, n, s);
    } else {
      // Peel the last column: row(i) is the first m-1 columns, then column m-1... in row order.
      var f := Row(h, m - 1);
      var g := (i: nat, x: S) => h(i, m - 1, x);
      forall i: nat, j: nat, x | i < j < n
        ensures f(j, g(i, x)) == g(i, f(j, x))
      {
        var inner := (c: nat, y: S) => h(j, c, y);
        var a := (y: S) => h(i, m - 1, y);
        IterCommutesWith(inner, m - 1, a, x);
      }
      IterDistribute(f, g, n, s);
      forall k: nat, x | k < n
        ensures Row(h, m)(k, x) == Then(f, g)(k, x)
      {
        var inner := (c: nat, y: S) => h(k, c, y);
        assert Iter(inner, m, x) == inner(m - 1, Iter(inner, m - 1, x));
      }
      IterCong(Row(h, m), Then(f, g), n, s);
      IterInterchange(h, n, m - 1, s);
      var col := (i: nat, x: S) => Transposed(h)(m - 1, i, x);
      IterCong(g, col, n, Iter(f, n, s));
    }
  }
}
