/** The dependence test between two accesses of two loops that are about to run together. */
module Dependence {
  import opened IR
  import opened Semantics
  import opened Substitution
  import opened Context
  import opened Ranges

  /** An access to a buffer, with the ranges of the loops around it. */
  datatype Access = Access(arg: nat, subs: seq<Expr>, t: Table)

  datatype Verdict = SomeDep | Equals | NoDep

  /** e is the index of l itself; recursively, e mentions it somewhere. */
  predicate IsRefOfLoop(e: Expr, l: LoopId, recursive: bool)
  {
    if e.Index? then e.loop == l else recursive && Mentions(e, l)
  }

  /** Both ranges are known and do not meet. */
  predicate DisjointRanges(e1: Expr, t1: Table, e2: Expr, t2: Table)
  {
    var r1, r2 := KnownRange(e1, t1, None), KnownRange(e2, t2, None);
    r1.Some? && r2.Some? && (r1.value.hi < r2.value.lo || r2.value.hi < r1.value.lo)
  }

  /** Dimension d makes the test give up. */
  predicate Conflicts(i1: LoopId, i2: LoopId, a1: Access, a2: Access, d: nat)
    requires d < |a1.subs| && d < |a2.subs|
  {
    var e1, e2 := a1.subs[d], a2.subs[d];
    !(IsRefOfLoop(e1, i1, false) && IsRefOfLoop(e2, i2, false)) &&
    !DisjointRanges(e1, a1.t, e2, a2.t) &&
    (IsRefOfLoop(e1, i1, true) || IsRefOfLoop(e2, i2, true))
  }

  function Depends(i1: LoopId, i2: LoopId, a1: Access, a2: Access): Verdict
    requires a1.arg == a2.arg ==> |a1.subs| == |a2.subs|
  {
    if a1.arg != a2.arg then NoDep
    else if exists d: nat :: d < |a1.subs| && Conflicts(i1, i2, a1, a2, d) then SomeDep
    else Equals
  }

  /** checkWeakSIVDependenceForIndex: one dimension after the other, stopping at the first
      that shows a dependence. */
  method CheckWeakSIV(i1: LoopId, i2: LoopId, a1: Access, a2: Access) returns (v: Verdict)
    requires a1.arg == a2.arg ==> |a1.subs| == |a2.subs|
    ensures v == Depends(i1, i2, a1, a2)
    ensures v == NoDep <==> a1.arg != a2.arg
    ensures v == Equals && GoodTable(a1.t) && GoodTable(a2.t) && AccessTrusted(a1) && AccessTrusted(a2) ==>
      forall d: nat | d < |a1.subs| :: AlignedInValue(i1, i2, a1, a2, d)
    ensures v != NoDep && GoodTable(a1.t) && GoodTable(a2.t) && AccessRising(a1) && AccessRising(a2) ==>
      (v == Equals <==> AllAligned(i1, i2, a1, a2))
  {
    if a1.arg == a2.arg && GoodTable(a1.t) && GoodTable(a2.t) {
      if AccessTrusted(a1) && AccessTrusted(a2) { EqualsMeans(i1, i2, a1, a2); }
      if AccessRising(a1) && AccessRising(a2) { EqualsIffAligned(i1, i2, a1, a2); }
    }
    if a1.arg != a2.arg { return NoDep; }
    var i := 0;
    while i < |a1.subs|
      invariant 0 <= i <= |a1.subs|
      invariant forall d: nat :: d < i ==> !Conflicts(i1, i2, a1, a2, d)
    {
      var isIndex1 := IsRefOfLoop(a1.subs[i], i1, false);
      var isIndex2 := IsRefOfLoop(a2.subs[i], i2, false);
      var separated := isIndex1 && isIndex2;
      if !separated {
        var range1 := KnownRange(a1.subs[i], a1.t, None);
        var range2 := KnownRange(a2.subs[i], a2.t, None);
        if range1.Some? && range2.Some? {
          separated := range1.value.hi < range2.value.lo || range2.value.hi < range1.value.lo;
        }
      }
      if !separated {
        var hasIndex1 := IsRefOfLoop(a1.subs[i], i1, true);
        var hasIndex2 := IsRefOfLoop(a2.subs[i], i2, true);
        if hasIndex1 || hasIndex2 {
          assert Conflicts(i1, i2, a1, a2, i);
          return SomeDep;
        }
      }
      i := i + 1;
    }
    return Equals;
  }

  // ---- What the test can be relied on for ------------------------------------------

  /** The range of e is computed without Max and without 32-bit overflow. */
  predicate Trusted(e: Expr, t: Table) { Scalar(e) && MaxFree(e) && Fits(e, t, None) }

  /** Dimension d keeps accesses of different iterations apart: it is the bare index of both
      loops, or its known ranges do not meet. */
  predicate Separates(i1: LoopId, i2: LoopId, a1: Access, a2: Access, d: nat)
    requires d < |a1.subs| && d < |a2.subs|
  {
    var e1, e2 := a1.subs[d], a2.subs[d];
    (e1 == Idx(i1) && e2 == Idx(i2)) ||
    (Trusted(e1, a1.t) && Trusted(e2, a2.t) && DisjointRanges(e1, a1.t, e2, a2.t))
  }

  predicate Separated(i1: LoopId, i2: LoopId, a1: Access, a2: Access)
  {
    exists d: nat :: d < |a1.subs| && d < |a2.subs| && Separates(i1, i2, a1, a2, d)
  }

  /** Separated accesses of different iterations never touch the same element, whatever the
      other loops and the memory are. */
  lemma {:induction false} SeparatedNeverMeet(i1: LoopId, i2: LoopId, a1: Access, a2: Access,
                                              e1: Env, e2: Env, s1: State, s2: State)
    requires Separated(i1, i2, a1, a2) && GoodTable(a1.t) && GoodTable(a2.t)
    requires ValidEnv(a1.t, e1) && ValidEnv(a2.t, e2) && e1.Get(i1) != e2.Get(i2)
    ensures EvalSubs(a1.subs, e1, s1) != EvalSubs(a2.subs, e2, s2)
  {
    var d: nat :| d < |a1.subs| && d < |a2.subs| && Separates(i1, i2, a1, a2, d);
    var x, y := a1.subs[d], a2.subs[d];
    var v, w := Eval(x, e1, s1, 0), Eval(y, e2, s2, 0);
    assert EvalSubs(a1.subs, e1, s1)[d] == AsInt(v) && EvalSubs(a2.subs, e2, s2)[d] == AsInt(w);
    if !(x == Idx(i1) && y == Idx(i2)) {
      KnownRangeSound(x, a1.t, None, e1, s1);
      KnownRangeSound(y, a2.t, None, e2, s2);
    }
  }

  /** The two subscripts of dimension d are the bare indices of the loops, or rise with their
      indices from intervals that are disjoint or start at the same value. */
  predicate Regular(i1: LoopId, i2: LoopId, a1: Access, a2: Access, d: nat)
    requires d < |a1.subs| && d < |a2.subs|
  {
    var e1, e2 := a1.subs[d], a2.subs[d];
    (e1 == Idx(i1) && e2 == Idx(i2)) ||
    (Rising(e1, a1.t) && Fits(e1, a1.t, None) && Rising(e2, a2.t) && Fits(e2, a2.t, None) &&
     (DisjointRanges(e1, a1.t, e2, a2.t) || SameStart(e1, a1.t, e2, a2.t)))
  }

  predicate SameStart(e1: Expr, t1: Table, e2: Expr, t2: Table)
  {
    var r1, r2 := KnownRange(e1, t1, None), KnownRange(e2, t2, None);
    r1.Some? && r2.Some? && r1.value.lo == r2.value.lo
  }

  /** For such subscripts the answer Equals means that different iterations keep apart exactly
      when some dimension separates them. */
  lemma {:induction false} EqualsExactly(i1: LoopId, i2: LoopId, a1: Access, a2: Access)
    requires a1.arg == a2.arg && |a1.subs| == |a2.subs| && GoodTable(a1.t) && GoodTable(a2.t)
    requires i1 in a1.t && i2 in a2.t && a1.t[i1] == a2.t[i2] && a1.t[i1].end > a1.t[i1].stride
    requires forall d: nat :: d < |a1.subs| ==> Regular(i1, i2, a1, a2, d)
    requires Depends(i1, i2, a1, a2) == Equals
    ensures Separated(i1, i2, a1, a2) <==>
      forall e1: Env, e2: Env, st: State
        | ValidEnv(a1.t, e1) && ValidEnv(a2.t, e2) && e1.Get(i1) != e2.Get(i2) ::
        EvalSubs(a1.subs, e1, st) != EvalSubs(a2.subs, e2, st)
  {
    if Separated(i1, i2, a1, a2) {
      forall e1: Env, e2: Env, st: State
        | ValidEnv(a1.t, e1) && ValidEnv(a2.t, e2) && e1.Get(i1) != e2.Get(i2)
        ensures EvalSubs(a1.subs, e1, st) != EvalSubs(a2.subs, e2, st)
      {
        SeparatedNeverMeet(i1, i2, a1, a2, e1, e2, st, st);
      }
    } else {
      // All indices are zero, except that the second loop is in a later iteration.
      var x := a2.t[i2];
      TripExact(x.end, x.stride);
      TripRange(1, x.end, x.stride);
      var e1, e2 := FirstEnv(a1.t), FirstEnv(a2.t).At(i2, 1 * x.stride);
      ValidAt(a2.t, FirstEnv(a2.t), i2, x.end, x.stride, 1);
      assert ValidEnv(a2.t, e2);
      var st := State(map[], []);
      forall d: nat | d < |a1.subs|
        ensures EvalSubs(a1.subs, e1, st)[d] == EvalSubs(a2.subs, e2, st)[d]
      {
        MeetAtStart(i1, i2, a1, a2, d, e1, e2, st);
      }
      assert EvalSubs(a1.subs, e1, st) == EvalSubs(a2.subs, e2, st);
      assert e1.Get(i1) != e2.Get(i2);
    }
  }

  /** A dimension that does not separate, and on which the test does not give up, uses neither
      index; its values agree where everything else is zero. */
  lemma {:induction false} MeetAtStart(i1: LoopId, i2: LoopId, a1: Access, a2: Access, d: nat, e1: Env, e2: Env,
                                       st: State)
    requires d < |a1.subs| && d < |a2.subs| && GoodTable(a1.t) && GoodTable(a2.t)
    requires Regular(i1, i2, a1, a2, d) && !Conflicts(i1, i2, a1, a2, d) && !Separates(i1, i2, a1, a2, d)
    requires ValidEnv(a1.t, e1) && ValidEnv(a2.t, e2)
    requires (forall l | l != i1 :: e1.Get(l) == 0) && (forall l | l != i2 :: e2.Get(l) == 0)
    ensures Eval(a1.subs[d], e1, st, 0) == Eval(a2.subs[d], e2, st, 0)
  {
    var x, y := a1.subs[d], a2.subs[d];
    RisingKnown(x, a1.t);
    RisingKnown(y, a2.t);
    assert SameStart(x, a1.t, y, a2.t);
    assert !Mentions(x, i1) && !Mentions(y, i2);
    RisingBottom(x, a1.t, e1, st);
    RisingBottom(y, a2.t, e2, st);
  }

  ghost function FirstEnv(t: Table): (env: Env)
    requires GoodTable(t)
    ensures ValidEnv(t, env) && forall l :: env.Get(l) == 0
  {
    Env(Machine((u: UnOp, n: Num) => n, (x: real, y: real) => x, (x: int) => x, (x: real) => x), map[])
  }

  // ---- What the answers mean ------------------------------------------------------------

  /** Where the loops have their index values, every value of x lies below every value of y. */
  ghost predicate AllBelow(x: Expr, t1: Table, y: Expr, t2: Table)
  {
    forall e1: Env, e2: Env, s1: State, s2: State | ValidEnv(t1, e1) && ValidEnv(t2, e2) ::
      AsInt(Eval(x, e1, s1, 0)) < AsInt(Eval(y, e2, s2, 0))
  }

  /** The value of e does not change with the index of l. */
  ghost predicate Unmoved(e: Expr, l: LoopId, t: Table)
  {
    forall env: Env, i: int, st: State | ValidEnv(t, env) && ValidEnv(t, env.At(l, i)) ::
      Eval(e, env.At(l, i), st, 0) == Eval(e, env, st, 0)
  }

  /** Dimension d is the bare index of both loops, or the values of the one subscript all lie below
      those of the other, so that they are never equal, or neither subscript uses its loop. */
  ghost predicate Aligned(i1: LoopId, i2: LoopId, a1: Access, a2: Access, d: nat)
    requires d < |a1.subs| && d < |a2.subs|
  {
    var x, y := a1.subs[d], a2.subs[d];
    (x.Index? && x.loop == i1 && y.Index? && y.loop == i2) ||
    AllBelow(x, a1.t, y, a2.t) || AllBelow(y, a2.t, x, a1.t) ||
    (!Mentions(x, i1) && !Mentions(y, i2))
  }

  ghost predicate AllAligned(i1: LoopId, i2: LoopId, a1: Access, a2: Access)
  {
    |a1.subs| == |a2.subs| && forall d: nat | d < |a1.subs| :: Aligned(i1, i2, a1, a2, d)
  }

  /** If e has a known range, that is right. */
  predicate Trustworthy(e: Expr, t: Table) { KnownRange(e, t, None).Some? ==> Trusted(e, t) }

  predicate AccessTrusted(a: Access) { forall e | e in a.subs :: Trustworthy(e, a.t) }

  predicate AccessRising(a: Access) { forall e | e in a.subs :: Rising(e, a.t) && Fits(e, a.t, None) }

  lemma {:induction false} RisingTrusted(a: Access)
    requires AccessRising(a)
    ensures AccessTrusted(a)
  {
    forall e | e in a.subs ensures Trustworthy(e, a.t) { RisingKnown(e, a.t); }
  }

  lemma {:induction false} DisjointBelow(x: Expr, t1: Table, y: Expr, t2: Table)
    requires Trusted(x, t1) && Trusted(y, t2) && GoodTable(t1) && GoodTable(t2) && DisjointRanges(x, t1, y, t2)
    ensures AllBelow(x, t1, y, t2) || AllBelow(y, t2, x, t1)
  {
    forall e1: Env, e2: Env, s1: State, s2: State | ValidEnv(t1, e1) && ValidEnv(t2, e2)
      ensures var r1, r2 := KnownRange(x, t1, None).value, KnownRange(y, t2, None).value;
        var v, w := AsInt(Eval(x, e1, s1, 0)), AsInt(Eval(y, e2, s2, 0));
        r1.lo <= v <= r1.hi && r2.lo <= w <= r2.hi
    {
      KnownRangeSound(x, t1, None, e1, s1);
      KnownRangeSound(y, t2, None, e2, s2);
    }
  }

  /** The answer Equals means that every dimension is aligned. */
  lemma {:induction false} EqualsAligned(i1: LoopId, i2: LoopId, a1: Access, a2: Access)
    requires a1.arg == a2.arg && |a1.subs| == |a2.subs| && GoodTable(a1.t) && GoodTable(a2.t)
    requires AccessTrusted(a1) && AccessTrusted(a2) && Depends(i1, i2, a1, a2) == Equals
    ensures AllAligned(i1, i2, a1, a2)
  {
    forall d: nat | d < |a1.subs| ensures Aligned(i1, i2, a1, a2, d) {
      var x, y := a1.subs[d], a2.subs[d];
      assert x in a1.subs && y in a2.subs && !Conflicts(i1, i2, a1, a2, d);
      if DisjointRanges(x, a1.t, y, a2.t) { DisjointBelow(x, a1.t, y, a2.t); }
    }
  }

  /** Where the ends of the intervals are reached, only disjoint intervals keep the values apart. */
  lemma {:induction false} BelowDisjoint(x: Expr, t1: Table, y: Expr, t2: Table)
    requires Rising(x, t1) && Fits(x, t1, None) && Rising(y, t2) && Fits(y, t2, None)
    requires GoodTable(t1) && GoodTable(t2) && AllBelow(x, t1, y, t2)
    ensures DisjointRanges(x, t1, y, t2)
  {
    var st := State(map[], []);
    RisingTop(x, t1, st);
    RisingBottom(y, t2, FirstEnv(t2), st);
    assert AsInt(Eval(x, LastEnv(t1), st, 0)) < AsInt(Eval(y, FirstEnv(t2), st, 0));
  }

  /** For subscripts that rise with their indices, wherever they start, the answer is Equals exactly
      when every dimension is aligned, and SomeDep otherwise. */
  lemma {:induction false} EqualsIffAligned(i1: LoopId, i2: LoopId, a1: Access, a2: Access)
    requires a1.arg == a2.arg && |a1.subs| == |a2.subs| && GoodTable(a1.t) && GoodTable(a2.t)
    requires AccessRising(a1) && AccessRising(a2)
    ensures Depends(i1, i2, a1, a2) == if AllAligned(i1, i2, a1, a2) then Equals else SomeDep
  {
    RisingTrusted(a1);
    RisingTrusted(a2);
    if Depends(i1, i2, a1, a2) == Equals {
      EqualsAligned(i1, i2, a1, a2);
    } else {
      var d: nat :| d < |a1.subs| && Conflicts(i1, i2, a1, a2, d);
      var x, y := a1.subs[d], a2.subs[d];
      assert x in a1.subs && y in a2.subs;
      if AllBelow(x, a1.t, y, a2.t) { BelowDisjoint(x, a1.t, y, a2.t); }
      if AllBelow(y, a2.t, x, a1.t) { BelowDisjoint(y, a2.t, x, a1.t); }
      assert !Aligned(i1, i2, a1, a2, d);
    }
  }

  /** What does not use a loop does not change with it. */
  lemma {:induction false} UnusedUnmoved(e: Expr, l: LoopId, t: Table)
    requires !Mentions(e, l)
    ensures Unmoved(e, l, t)
  {
    forall env: Env, i: int, st: State | ValidEnv(t, env) && ValidEnv(t, env.At(l, i))
      ensures Eval(e, env.At(l, i), st, 0) == Eval(e, env, st, 0)
    {
      EvalAgree(e, env.At(l, i), env, st, 0);
    }
  }

  /** Every use of l in e counts: it is not below a minimum, nor multiplied by what may be zero. */
  predicate Climbs(e: Expr, l: LoopId, t: Table)
  {
    match e
    case Binary(op, x, y) =>
      Climbs(x, l, t) && Climbs(y, l, t) && (op == BinOp.Min ==> !Mentions(e, l)) &&
      (op == Mul && Mentions(x, l) ==> AtLeastOne(y, t)) && (op == Mul && Mentions(y, l) ==> AtLeastOne(x, t))
    case _ => true
  }

  predicate AtLeastOne(e: Expr, t: Table)
  {
    var r := KnownRange(e, t, None);
    r.Some? && r.value.lo >= 1
  }

  lemma {:induction false} ClimbValue(e: Expr, l: LoopId, t: Table, env: Env, i: int, st: State)
    requires Rising(e, t) && Fits(e, t, None) && Climbs(e, l, t) && GoodTable(t)
    requires ValidEnv(t, env) && ValidEnv(t, env.At(l, i)) && env.Get(l) < i
    ensures var v, w := Eval(e, env, st, 0), Eval(e, env.At(l, i), st, 0);
      v.I? && w.I? && if Mentions(e, l) then v.i < w.i else v == w
  {
    RisingKnown(e, t);
    KnownRangeSound(e, t, None, env, st);
    KnownRangeSound(e, t, None, env.At(l, i), st);
    if !Mentions(e, l) {
      EvalAgree(e, env.At(l, i), env, st, 0);
    } else if e.Binary? {
      var x, y := e.lhs, e.rhs;
      ClimbValue(x, l, t, env, i, st);
      ClimbValue(y, l, t, env, i, st);
      RisingKnown(x, t);
      RisingKnown(y, t);
      KnownRangeSound(x, t, None, env, st);
      KnownRangeSound(y, t, None, env, st);
      if e.op == Mul {
        KnownRangeSound(x, t, None, env.At(l, i), st);
        KnownRangeSound(y, t, None, env.At(l, i), st);
        ProductClimbs(Eval(x, env, st, 0).i, Eval(x, env.At(l, i), st, 0).i,
                      Eval(y, env, st, 0).i, Eval(y, env.At(l, i), st, 0).i);
      }
    }
  }

  lemma {:induction false} ProductClimbs(x: int, x': int, y: int, y': int)
    requires 0 <= x <= x' && 0 <= y <= y'
    ensures x < x' && y >= 1 ==> x * y < x' * y'
    ensures y < y' && x >= 1 ==> x * y < x' * y'
  {
    MulNonneg(x' - x, y);
    MulNonneg(x', y' - y);
    assert (x' - x) * y == x' * y - x * y && x' * (y' - y) == x' * y' - x' * y;
    if x < x' && y >= 1 { MulNonneg(x' - x - 1, y); assert (x' - x - 1) * y == x' * y - x * y - y; }
    if y < y' && x >= 1 { MulNonneg(x', y' - y - 1); assert x' * (y' - y - 1) == x' * y' - x' * y - x'; }
  }

  /** And then, in a loop of two iterations or more, a subscript that does not change with l does not
      use it. */
  lemma {:induction false} UnmovedExactly(e: Expr, l: LoopId, t: Table)
    requires Rising(e, t) && Fits(e, t, None) && Climbs(e, l, t) && GoodTable(t)
    requires l in t && t[l].end > t[l].stride
    ensures Unmoved(e, l, t) <==> !Mentions(e, l)
  {
    if !Mentions(e, l) {
      UnusedUnmoved(e, l, t);
    } else {
      var x, env, st := t[l], FirstEnv(t), State(map[], []);
      TripExact(x.end, x.stride);
      TripRange(1, x.end, x.stride);
      ValidAt(t, env, l, x.end, x.stride, 1);
      assert t[l := Extent(x.end, x.stride)] == t;
      ClimbValue(e, l, t, env, 1 * x.stride, st);
      assert Eval(e, env.At(l, 1 * x.stride), st, 0) != Eval(e, env, st, 0);
    }
  }

  /** Equals says that in every dimension both subscripts are the bare indices, or the values of one
      all lie below those of the other, or neither value changes with its loop; and where every use of
      an index counts, that is exactly what it says. */
  lemma {:induction false} EqualsMeans(i1: LoopId, i2: LoopId, a1: Access, a2: Access)
    requires a1.arg == a2.arg && |a1.subs| == |a2.subs| && GoodTable(a1.t) && GoodTable(a2.t)
    requires AccessTrusted(a1) && AccessTrusted(a2)
    ensures Depends(i1, i2, a1, a2) == Equals ==>
      forall d: nat | d < |a1.subs| :: AlignedInValue(i1, i2, a1, a2, d)
    ensures EveryUseCounts(i1, a1) && EveryUseCounts(i2, a2) ==>
      (Depends(i1, i2, a1, a2) == Equals <==> forall d: nat | d < |a1.subs| :: AlignedInValue(i1, i2, a1, a2, d))
  {
    if Depends(i1, i2, a1, a2) == Equals {
      EqualsAligned(i1, i2, a1, a2);
      forall d: nat | d < |a1.subs| ensures AlignedInValue(i1, i2, a1, a2, d) {
        assert Aligned(i1, i2, a1, a2, d);
        var x, y := a1.subs[d], a2.subs[d];
        if !Mentions(x, i1) && !Mentions(y, i2) {
          UnusedUnmoved(x, i1, a1.t);
          UnusedUnmoved(y, i2, a2.t);
        }
      }
    }
    if EveryUseCounts(i1, a1) && EveryUseCounts(i2, a2) &&
       forall d: nat | d < |a1.subs| :: AlignedInValue(i1, i2, a1, a2, d) {
      EqualsIffAligned(i1, i2, a1, a2);
      forall d: nat | d < |a1.subs| ensures Aligned(i1, i2, a1, a2, d) {
        var x, y := a1.subs[d], a2.subs[d];
        assert x in a1.subs && y in a2.subs && AlignedInValue(i1, i2, a1, a2, d);
        UnmovedExactly(x, i1, a1.t);
        UnmovedExactly(y, i2, a2.t);
      }
    }
  }

  ghost predicate AlignedInValue(i1: LoopId, i2: LoopId, a1: Access, a2: Access, d: nat)
    requires d < |a1.subs| && d < |a2.subs|
  {
    var x, y := a1.subs[d], a2.subs[d];
    (x.Index? && x.loop == i1 && y.Index? && y.loop == i2) ||
    AllBelow(x, a1.t, y, a2.t) || AllBelow(y, a2.t, x, a1.t) ||
    (Unmoved(x, i1, a1.t) && Unmoved(y, i2, a2.t))
  }

  /** Rising subscripts in which every use of l counts, and a loop of two iterations or more. */
  predicate EveryUseCounts(l: LoopId, a: Access)
  {
    AccessRising(a) && l in a.t && a.t[l].end > a.t[l].stride && forall e | e in a.subs :: Climbs(e, l, a.t)
  }

  /** A[i] against A[j + c] in two loops over the same range. */
  function BareAt(arg: nat, i: LoopId, t: Table): Access { Access(arg, [Idx(i)], t) }

  function ShiftedBy(arg: nat, j: LoopId, c: int, t: Table): Access
  {
    Access(arg, [Binary(Add, Idx(j), Const(c))], t)
  }

  /** The answer is Equals exactly when c takes the second access past all of the first, or before it.
      For a c that is a multiple of the stride, that is exactly when the accesses never meet; for any
      other c they never meet. */
  lemma {:induction false} ShiftExactly(arg: nat, i: LoopId, j: LoopId, c: int, t1: Table, t2: Table)
    requires GoodTable(t1) && GoodTable(t2) && i in t1 && j in t2 && t1[i] == t2[j]
    requires Is32(c) && Is32(t1[i].end) && Is32(t1[i].end - t1[i].stride + c)
    ensures var a1, a2 := BareAt(arg, i, t1), ShiftedBy(arg, j, c, t2);
      var last := t1[i].end - t1[i].stride;
      Depends(i, j, a1, a2) == (if c > last || -c > last then Equals else SomeDep) &&
      ((forall e1: Env, e2: Env, st: State | ValidEnv(t1, e1) && ValidEnv(t2, e2) ::
        EvalSubs(a1.subs, e1, st) != EvalSubs(a2.subs, e2, st)) <==>
       Depends(i, j, a1, a2) == Equals || c % t1[i].stride != 0)
  {
    var a1, a2 := BareAt(arg, i, t1), ShiftedBy(arg, j, c, t2);
    var x, s := t1[i], t1[i].stride;
    var last := x.end - s;
    var r := Binary(Add, Idx(j), Const(c));
    Wrap32Id(last);
    Wrap32Id(c);
    Wrap32Id(last + c);
    assert KnownRange(Idx(i), t1, None) == Some(Interval(0, last));
    assert KnownRange(Idx(j), t2, None) == Some(Interval(0, last));
    assert KnownRange(Const(c), t2, None) == Some(Interval(c, c));
    assert KnownRange(r, t2, None) == Some(Interval(c, last + c));
    assert Mentions(Idx(j), j) && Mentions(r, j);
    assert DisjointRanges(Idx(i), t1, r, t2) <==> c > last || -c > last;
    assert Conflicts(i, j, a1, a2, 0) <==> !(c > last || -c > last);
    forall e1: Env, e2: Env, st: State | ValidEnv(t1, e1) && ValidEnv(t2, e2)
      ensures EvalSubs(a1.subs, e1, st) == [e1.Get(i)] && EvalSubs(a2.subs, e2, st) == [e2.Get(j) + c]
    {
      assert Eval(r.lhs, e2, st, 0) == I(e2.Get(j)) && Eval(r.rhs, e2, st, 0) == I(c);
    }
    if c > last || -c > last || c % s != 0 {
      forall e1: Env, e2: Env, st: State | ValidEnv(t1, e1) && ValidEnv(t2, e2)
        ensures EvalSubs(a1.subs, e1, st) != EvalSubs(a2.subs, e2, st)
      {
        LastIndex(e1.Get(i), x);
        LastIndex(e2.Get(j), x);
        if e1.Get(i) == e2.Get(j) + c { MultiplesApart(e1.Get(i), e2.Get(j), s); }
      }
    } else {
      var (v, w) := if c >= 0 then (c, 0) else (0, -c);
      NegMultiple(c, s);
      var e1, e2 := FirstEnv(t1).At(i, v), FirstEnv(t2).At(j, w);
      assert ValidEnv(t1, e1) && ValidEnv(t2, e2);
      var st := State(map[], []);
      assert e1.Get(i) == e2.Get(j) + c;
      assert EvalSubs(a1.subs, e1, st) == EvalSubs(a2.subs, e2, st);
    }
  }

  lemma {:induction false} MultiplesApart(a: int, b: int, s: int)
    requires s > 0 && a % s == 0 && b % s == 0
    ensures (a - b) % s == 0
  {
    var p, q := a / s, b / s;
    assert a == s * p && b == s * q;
    assert a - b == (p - q) * s;
    MulDiv(p - q, s);
  }

  lemma {:induction false} NegMultiple(c: int, s: int)
    requires s > 0 && c % s == 0
    ensures -c % s == 0 && 0 % s == 0
  {
    MultiplesApart(0, c, s);
  }
}
