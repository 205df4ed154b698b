/** Interning tables: every distinct element gets one number, once and for all. */
module Interning {

  /** The position of the first element that is the same as x, or the length. */
  function Find<T>(t: seq<T>, x: T, same: (T, T) -> bool): (n: nat)
    ensures n <= |t|
  {
    if t == [] then 0 else if same(t[0], x) then 0 else 1 + Find(t[1..], x, same)
  }

  /** The table after x was looked up. */
  function Interned<T>(t: seq<T>, x: T, same: (T, T) -> bool): seq<T>
  {
    if Find(t, x, same) < |t| then t else t + [x]
  }

  ghost predicate Equivalence<T(!new)>(same: (T, T) -> bool)
  {
    (forall x :: same(x, x)) && (forall x, y :: same(x, y) ==> same(y, x)) &&
    (forall x, y, z :: same(x, y) && same(y, z) ==> same(x, z))
  }

  /** No two entries are the same. */
  predicate Distinct<T>(t: seq<T>, same: (T, T) -> bool)
  {
    forall i, j | 0 <= i < j < |t| :: !same(t[i], t[j])
  }

  lemma {:induction false} FindIs<T>(t: seq<T>, x: T, same: (T, T) -> bool)
    ensures var n := Find(t, x, same);
      (n < |t| ==> same(t[n], x)) && forall i | 0 <= i < n :: !same(t[i], x)
  {
    if t != [] && !same(t[0], x) {
      FindIs(t[1..], x, same);
      var n := Find(t, x, same);
      forall i | 0 <= i < n ensures !same(t[i], x) {
        if i > 0 { assert t[i] == t[1..][i - 1]; }
      }
    }
  }

  lemma {:induction false} FindFirst<T>(t: seq<T>, x: T, same: (T, T) -> bool, n: nat)
    requires n <= |t| && (n < |t| ==> same(t[n], x)) && forall i | 0 <= i < n :: !same(t[i], x)
    ensures Find(t, x, same) == n
  {
    FindIs(t, x, same);
  }

  /** A number that was given stays: growing the table does not change it. */
  lemma {:induction false} FindStays<T>(t: seq<T>, more: seq<T>, x: T, same: (T, T) -> bool)
    requires Find(t, x, same) < |t|
    ensures Find(t + more, x, same) == Find(t, x, same)
  {
    var n := Find(t, x, same);
    FindIs(t, x, same);
    assert forall i | 0 <= i < |t| :: (t + more)[i] == t[i];
    FindFirst(t + more, x, same, n);
  }

  /** After a lookup x has a number, at which an entry that is the same as x is found. */
  lemma {:induction false} InternedIs<T(!new)>(t: seq<T>, x: T, same: (T, T) -> bool)
    requires Equivalence(same) && Distinct(t, same)
    ensures var t' := Interned(t, x, same);
      t <= t' && Find(t', x, same) < |t'| && same(t'[Find(t', x, same)], x) && Distinct(t', same) && |t'| <= |t| + 1
  {
    var t' := Interned(t, x, same);
    FindIs(t, x, same);
    if Find(t, x, same) == |t| {
      assert forall i | 0 <= i < |t| :: t'[i] == t[i];
      FindFirst(t', x, same, |t|);
    }
  }

  /** Looking up the entries of a table one by one builds the same table. */
  lemma {:induction false} Reinterned<T(!new)>(t: seq<T>, n: nat, same: (T, T) -> bool)
    requires Equivalence(same) && Distinct(t, same) && n < |t|
    ensures Interned(t[..n], t[n], same) == t[..n + 1]
  {
    FindIs(t[..n], t[n], same);
    assert forall k | 0 <= k < n :: t[..n][k] == t[k] && !same(t[k], t[n]);
    assert t[..n + 1] == t[..n] + [t[n]];
  }

  class IdTable<T(!new)> {
    var table: seq<T>
    var locked: bool
    const same: (T, T) -> bool

    constructor (eq: (T, T) -> bool)
      ensures table == [] && !locked && same == eq
    {
      table, locked, same := [], false, eq;
    }

    ghost predicate Valid()
      reads this
    {
      Equivalence(same) && Distinct(table, same)
    }

    method Lock()
      modifies this`locked
      ensures locked
    {
      locked := true;
    }

    /** The number of x; the table may grow by it unless it is locked. */
    method GetIdFor(x: T) returns (id: nat)
      requires Valid() && (locked ==> Find(table, x, same) < |table|)
      modifies this`table
      ensures Valid() && table == Interned(old(table), x, same)
      ensures id == Find(table, x, same) && id < |table| && same(table[id], x)
    {
      InternedIs(table, x, same);
      for i := 0 to |table|
        invariant forall k | 0 <= k < i :: !same(table[k], x)
      {
        if same(table[i], x) {
          FindFirst(table, x, same, i);
          return i;
        }
      }
      FindFirst(table, x, same, |table|);
      table := table + [x];
      id := |table| - 1;
    }

    method GetById(id: nat) returns (x: T)
      requires id < |table|
      ensures x == table[id]
    {
      x := table[id];
    }
  }
}
