/** Scopes whose statement list is edited in place, and the supply of new loops. */
module Scopes {
  import opened IR
  import opened Substitution
  import opened Context

  /** Where `new Loop` takes its identity from. */
  class IdSupply {
    var next: LoopId

    constructor (first: LoopId)
      ensures next == first
    {
      next := first;
    }

    /** Every loop of used was made before. */
    ghost predicate Newer(used: set<LoopId>)
      reads this
    {
      Below(used, next)
    }

    method Fresh() returns (id: LoopId)
      modifies this
      ensures id == old(next) && next == old(next) + 1
    {
      id := next;
      next := next + 1;
    }
  }

  /** A scope: an owned, ordered list of statements. */
  class Scope {
    var body: seq<Stmt>

    constructor (ss: seq<Stmt>)
      ensures body == ss
    {
      body := ss;
    }

    method AddStmt(s: Stmt)
      modifies this
      ensures body == old(body) + [s]
    {
      body := body + [s];
    }

    method Clear()
      modifies this
      ensures body == []
    {
      body := [];
    }

    /** Moves the statements of other to the end of this scope. */
    method TakeContent(other: Scope)
      requires other != this
      modifies this, other
      ensures body == old(body) + old(other.body) && other.body == []
    {
      var i := 0;
      while i < |other.body|
        invariant 0 <= i <= |other.body| && other.body == old(other.body)
        invariant body == old(body) + other.body[..i]
      {
        AddStmt(other.body[i]);
        i := i + 1;
      }
      assert other.body[..i] == old(other.body);
      other.Clear();
    }

    method RemoveStmt(pos: nat)
      requires pos < |body|
      modifies this
      ensures body == old(body)[..pos] + old(body)[pos + 1..]
    {
      body := body[..pos] + body[pos + 1..];
    }

    method ReplaceStmt(s: Stmt, pos: nat)
      requires pos < |body|
      modifies this
      ensures body == old(body)[pos := s]
    {
      body := body[pos := s];
    }

    method InsertBeforeStmt(s: Stmt, pos: nat)
      requires pos < |body|
      modifies this
      ensures body == old(body)[..pos] + [s] + old(body)[pos..]
    {
      body := body[..pos] + [s] + body[pos..];
    }

    /** Inserts statements one by one before the statement at pos. */
    method InsertAllBefore(ss: seq<Stmt>, pos: nat)
      requires pos < |body|
      modifies this
      ensures body == old(body)[..pos] + ss + old(body)[pos..]
    {
      var i := 0;
      while i < |ss|
        invariant 0 <= i <= |ss|
        invariant body == old(body)[..pos] + ss[..i] + old(body)[pos..]
      {
        InsertBeforeStmt(ss[i], pos + i);
        i := i + 1;
      }
      assert ss[..i] == ss;
    }

    method InsertAfterStmt(s: Stmt, pos: nat)
      requires pos < |body|
      modifies this
      ensures body == old(body)[..pos + 1] + [s] + old(body)[pos + 1..]
    {
      body := body[..pos + 1] + [s] + body[pos + 1..];
    }
  }

  /** ss with the statement at pos replaced by the statements r. */
  function Spliced(ss: seq<Stmt>, pos: nat, r: seq<Stmt>): seq<Stmt>
    requires pos < |ss|
  {
    ss[..pos] + r + ss[pos + 1..]
  }

  lemma {:induction false} SplicedTwo(ss: seq<Stmt>, pos: nat, a: Stmt, b: Stmt)
    requires pos < |ss|
    ensures ss[pos := a][..pos + 1] + [b] + ss[pos := a][pos + 1..] == Spliced(ss, pos, [a, b])
  {}

  lemma {:induction false} SplitAt(ss: seq<Stmt>, pos: nat, scope: set<LoopId>)
    requires pos < |ss| && WfB(ss, scope)
    ensures ss == ss[..pos] + [ss[pos]] + ss[pos + 1..]
    ensures WfS(ss[pos], scope) && WfB(ss[..pos], scope) && WfB(ss[pos + 1..], scope)
    ensures BoundB(ss) == BoundB(ss[..pos]) + Bound(ss[pos]) + BoundB(ss[pos + 1..])
    ensures Bound(ss[pos]) !! scope
    ensures BoundB(ss[..pos]) !! Bound(ss[pos]) && BoundB(ss[..pos]) !! BoundB(ss[pos + 1..])
    ensures Bound(ss[pos]) !! BoundB(ss[pos + 1..])
  {
    var a, b, c := ss[..pos], [ss[pos]], ss[pos + 1..];
    assert ss == a + b + c;
    WfAppend(a + b, c, scope);
    WfAppend(a, b, scope);
    BoundAppend(a + b, c);
    BoundAppend(a, b);
    Single(ss[pos]);
    WfBoundFresh(b, scope);
  }

  /** Replacing one statement keeps a scope well formed when the replacement is, and
      brings only its own loops or new ones. */
  lemma {:induction false} SplicedWf(ss: seq<Stmt>, pos: nat, r: seq<Stmt>, scope: set<LoopId>)
    requires pos < |ss| && WfB(ss, scope) && WfB(r, scope)
    requires forall l | l in BoundB(r) :: l in Bound(ss[pos]) || l !in BoundB(ss)
    ensures WfB(Spliced(ss, pos, r), scope)
    ensures BoundB(Spliced(ss, pos, r)) == BoundB(ss[..pos]) + BoundB(r) + BoundB(ss[pos + 1..])
  {
    SplitAt(ss, pos, scope);
    var a, c := ss[..pos], ss[pos + 1..];
    WfAppend(a + r, c, scope);
    WfAppend(a, r, scope);
    BoundAppend(a + r, c);
    BoundAppend(a, r);
  }

  lemma {:induction false} BoundSpliced(ss: seq<Stmt>, pos: nat, r: seq<Stmt>)
    requires pos < |ss|
    ensures BoundB(Spliced(ss, pos, r)) == BoundB(ss[..pos]) + BoundB(r) + BoundB(ss[pos + 1..])
  {
    BoundAppend(ss[..pos] + r, ss[pos + 1..]);
    BoundAppend(ss[..pos], r);
  }

  lemma {:induction false} SplicedSame(t: Table, ss: seq<Stmt>, pos: nat, r: seq<Stmt>)
    requires pos < |ss| && SameIn(t, [ss[pos]], r)
    ensures SameIn(t, ss, Spliced(ss, pos, r))
  {
    assert ss == ss[..pos] + [ss[pos]] + ss[pos + 1..];
    SameAround(t, ss[..pos], [ss[pos]], r, ss[pos + 1..]);
  }
}
