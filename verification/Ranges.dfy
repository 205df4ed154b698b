/** computeKnownIntegerRange and getRangeRelation. */
module Ranges {
  import opened IR
  import opened Semantics
  import opened Context

  /** The value a 32-bit int holds after a computation in two's complement. */
  function Wrap32(x: int): int
  {
    var r := x % 0x1_0000_0000;
    if r >= 0x8000_0000 then r - 0x1_0000_0000 else r
  }

  predicate Is32(x: int) { -0x8000_0000 <= x < 0x8000_0000 }

  lemma {:induction false} Wrap32Id(x: int)
    requires Is32(x)
    ensures Wrap32(x) == x
  {
    if x < 0 { assert (x + 0x1_0000_0000) % 0x1_0000_0000 == x % 0x1_0000_0000; }
  }

  function Min(a: int, b: int): int { if b < a then b else a }
  function Max(a: int, b: int): int { if a < b then b else a }
  function Min4(a: int, b: int, c: int, d: int): int { Min(Min(a, b), Min(c, d)) }
  function Max4(a: int, b: int, c: int, d: int): int { Max(Max(a, b), Max(c, d)) }

  /** A closed interval. */
  datatype Interval = Interval(lo: int, hi: int)

  /** One of the operations whose interval is spanned by its four corner values. */
  function Corner(op: BinOp, x: int, y: int): int
  {
    match op
    case Mul => x * y
    case Add => x + y
    case Sub => x - y
    case _ => 0
  }

  function Corners(op: BinOp, a: Interval, b: Interval): Interval
  {
    var p, q := Wrap32(Corner(op, a.lo, b.lo)), Wrap32(Corner(op, a.lo, b.hi));
    var r, s := Wrap32(Corner(op, a.hi, b.lo)), Wrap32(Corner(op, a.hi, b.hi));
    Interval(Min4(p, q, r, s), Max4(p, q, r, s))
  }

  /** The known range of an index expression whose loops have the ranges of t; loops that
      are not live are frozen at zero. */
  function KnownRange(e: Expr, t: Table, live: Option<set<LoopId>>): Option<Interval>
  {
    match e
    case Const(i) => Some(Interval(Wrap32(i), Wrap32(i)))
    case Index(l, _) =>
      if live.Some? && l !in live.value then Some(Interval(0, 0))
      else if l !in t then None  // an index expression always has its loop
      else Some(Interval(0, Wrap32(t[l].end - t[l].stride)))
    case Binary(op, x, y) =>
      var a, b := KnownRange(x, t, live), KnownRange(y, t, live);
      if a.None? || b.None? then None
      else
        (match op
         case Mul => Some(Corners(Mul, a.value, b.value))
         case Add => Some(Corners(Add, a.value, b.value))
         case Sub => Some(Corners(Sub, a.value, b.value))
         case Div => None
         case Min => Some(Interval(Min(a.value.lo, b.value.lo), Min(a.value.hi, b.value.hi)))
         // The source takes the minimum here as well.
         case Max => Some(Interval(Min(a.value.lo, b.value.lo), Min(a.value.hi, b.value.hi)))
         case Pow => None)
    case _ => None
  }

  predicate MaxFree(e: Expr)
  {
    match e
    case Binary(op, x, y) => op != BinOp.Max && MaxFree(x) && MaxFree(y)
    case _ => true
  }

  /** No constant, loop bound or corner value leaves the 32-bit range. */
  predicate Fits(e: Expr, t: Table, live: Option<set<LoopId>>)
  {
    match e
    case Const(i) => Is32(i)
    case Index(l, _) => l in t ==> Is32(t[l].end)
    case Binary(op, x, y) =>
      var a, b := KnownRange(x, t, live), KnownRange(y, t, live);
      Fits(x, t, live) && Fits(y, t, live) &&
      (a.Some? && b.Some? && (op == Mul || op == Add || op == Sub) ==>
        Is32(Corner(op, a.value.lo, b.value.lo)) && Is32(Corner(op, a.value.lo, b.value.hi)) &&
        Is32(Corner(op, a.value.hi, b.value.lo)) && Is32(Corner(op, a.value.hi, b.value.hi)))
    case _ => true
  }

  /** Loops as verify() wants them. */
  ghost predicate GoodTable(t: Table)
  {
    forall l | l in t :: 0 < t[l].stride <= t[l].end && t[l].end % t[l].stride == 0
  }

  /** Live loops have one of their index values, frozen loops are at zero. */
  ghost predicate LiveEnv(t: Table, live: Option<set<LoopId>>, env: Env)
  {
    (forall l | l in t && (live.None? || l in live.value) :: InExtent(env.Get(l), t[l])) &&
    (live.Some? ==> forall l | l !in live.value :: env.Get(l) == 0)
  }

  /** The product of two intervals is spanned by its corners. */
  lemma {:induction false} MulCorners(x: int, y: int, a: Interval, b: Interval)
    requires a.lo <= x <= a.hi && b.lo <= y <= b.hi
    ensures Min4(a.lo * b.lo, a.lo * b.hi, a.hi * b.lo, a.hi * b.hi) <= x * y
    ensures x * y <= Max4(a.lo * b.lo, a.lo * b.hi, a.hi * b.lo, a.hi * b.hi)
  {
    MulBetween(x, b.lo, b.hi, y);
    MulBetween(b.lo, a.lo, a.hi, x);
    MulBetween(b.hi, a.lo, a.hi, x);
  }

  /** c * y lies between the values at the ends of the interval. */
  lemma {:induction false} MulBetween(c: int, lo: int, hi: int, y: int)
    requires lo <= y <= hi
    ensures Min(lo * c, hi * c) <= y * c <= Max(lo * c, hi * c)
    ensures c * y == y * c && c * lo == lo * c && c * hi == hi * c
  {
    if c >= 0 {
      MulNonneg(y - lo, c);
      MulNonneg(hi - y, c);
      assert (y - lo) * c == y * c - lo * c && (hi - y) * c == hi * c - y * c;
    } else {
      MulNonneg(y - lo, -c);
      MulNonneg(hi - y, -c);
      assert (y - lo) * -c == -(y * c) + lo * c && (hi - y) * -c == -(hi * c) + y * c;
    }
  }

  lemma {:induction false} LastIndex(i: int, x: Extent)
    requires InExtent(i, x) && x.stride <= x.end && x.end % x.stride == 0
    ensures i <= x.end - x.stride
  {
    var s, p, q := x.stride, i / x.stride, x.end / x.stride;
    TripExact(i, s);
    TripExact(x.end, s);
    MulGap(p, q, s);
    MulGap(q, p, s);
    assert i == p * s && x.end == q * s;
  }

  /** A known range is ordered and contains the value, for every index assignment. */
  lemma {:induction false} KnownRangeSound(e: Expr, t: Table, live: Option<set<LoopId>>, env: Env, st: State)
    requires Scalar(e) && MaxFree(e) && GoodTable(t)
    requires Fits(e, t, live) && LiveEnv(t, live, env)
    requires KnownRange(e, t, live).Some?
    ensures var r := KnownRange(e, t, live).value;
      var v := Eval(e, env, st, 0);
      r.lo <= r.hi && v.I? && r.lo <= v.i <= r.hi
  {
    match e
    case Const(i) => Wrap32Id(i);
    case Index(l, _) =>
      if !(live.Some? && l !in live.value) {
        Wrap32Id(t[l].end - t[l].stride);
        LastIndex(env.Get(l), t[l]);
      }
    case Binary(op, x, y) =>
      KnownRangeSound(x, t, live, env, st);
      KnownRangeSound(y, t, live, env, st);
      var a, b := KnownRange(x, t, live).value, KnownRange(y, t, live).value;
      var vx, vy := Eval(x, env, st, 0).i, Eval(y, env, st, 0).i;
      if op == Mul || op == Add || op == Sub {
        CornerFits(op, a, b);
        CornersLeast(op, a, b, Hull(op, a, b), env.m);
        assert Hull(op, a, b).lo <= IntOp(env.m, op, vx, vy) <= Hull(op, a, b).hi;
      }
  }

  /** e has a known range: constants, indices of known or frozen loops, and sums, differences, products,
      minima and maxima of such. */
  predicate HasRange(e: Expr, t: Table, live: Option<set<LoopId>>)
  {
    match e
    case Const(_) => true
    case Index(l, _) => l in t || (live.Some? && l !in live.value)
    case Binary(op, x, y) => op != Div && op != Pow && HasRange(x, t, live) && HasRange(y, t, live)
    case _ => false
  }

  lemma {:induction false} KnownExactly(e: Expr, t: Table, live: Option<set<LoopId>>)
    ensures KnownRange(e, t, live).Some? <==> HasRange(e, t, live)
  {
    if e.Binary? {
      KnownExactly(e.lhs, t, live);
      KnownExactly(e.rhs, t, live);
    }
  }

  /** k contains what the operation gives for all operands in a and b. */
  ghost predicate Spans(m: Machine, k: Interval, op: BinOp, a: Interval, b: Interval)
  {
    forall v: int, w: int | a.lo <= v <= a.hi && b.lo <= w <= b.hi :: k.lo <= IntOp(m, op, v, w) <= k.hi
  }

  /** From the intervals of the operands, the interval of a sum, difference, product or minimum is the
      least that can be told. */
  lemma {:induction false} RangeTightest(op: BinOp, x: Expr, y: Expr, t: Table, live: Option<set<LoopId>>, k: Interval,
                                         m: Machine)
    requires op == Mul || op == Add || op == Sub || op == BinOp.Min
    requires HasRange(x, t, live) && HasRange(y, t, live) && Fits(Binary(op, x, y), t, live)
    ensures KnownRange(x, t, live).Some? && KnownRange(y, t, live).Some? && KnownRange(Binary(op, x, y), t, live).Some?
    ensures var a, b := KnownRange(x, t, live).value, KnownRange(y, t, live).value;
      var r := KnownRange(Binary(op, x, y), t, live).value;
      a.lo <= a.hi && b.lo <= b.hi ==> Spans(m, r, op, a, b) && (Spans(m, k, op, a, b) ==> k.lo <= r.lo && r.hi <= k.hi)
  {
    KnownExactly(x, t, live);
    KnownExactly(y, t, live);
    var a, b := KnownRange(x, t, live).value, KnownRange(y, t, live).value;
    if a.lo <= a.hi && b.lo <= b.hi {
      if op == BinOp.Min { MinLeast(a, b, k, m); } else { CornerFits(op, a, b); CornersLeast(op, a, b, k, m); }
    }
  }

  lemma {:induction false} MinLeast(a: Interval, b: Interval, k: Interval, m: Machine)
    requires a.lo <= a.hi && b.lo <= b.hi
    ensures var r := Interval(Min(a.lo, b.lo), Min(a.hi, b.hi));
      Spans(m, r, BinOp.Min, a, b) && (Spans(m, k, BinOp.Min, a, b) ==> k.lo <= r.lo && r.hi <= k.hi)
  {
    if Spans(m, k, BinOp.Min, a, b) {
      assert k.lo <= IntOp(m, BinOp.Min, a.lo, b.lo) && IntOp(m, BinOp.Min, a.hi, b.hi) <= k.hi;
    }
  }

  /** The values at the four corners. */
  function Hull(op: BinOp, a: Interval, b: Interval): Interval
  {
    Interval(Min4(Corner(op, a.lo, b.lo), Corner(op, a.lo, b.hi), Corner(op, a.hi, b.lo), Corner(op, a.hi, b.hi)),
             Max4(Corner(op, a.lo, b.lo), Corner(op, a.lo, b.hi), Corner(op, a.hi, b.lo), Corner(op, a.hi, b.hi)))
  }

  lemma {:induction false} CornersLeast(op: BinOp, a: Interval, b: Interval, k: Interval, m: Machine)
    requires a.lo <= a.hi && b.lo <= b.hi && (op == Mul || op == Add || op == Sub)
    ensures var r := Hull(op, a, b);
      Spans(m, r, op, a, b) && (Spans(m, k, op, a, b) ==> k.lo <= r.lo && r.hi <= k.hi)
  {
    forall v: int, w: int | a.lo <= v <= a.hi && b.lo <= w <= b.hi
      ensures Hull(op, a, b).lo <= IntOp(m, op, v, w) <= Hull(op, a, b).hi
    {
      if op == Mul { MulCorners(v, w, a, b); }
    }
    if Spans(m, k, op, a, b) {
      AtCorner(m, k, op, a, b, a.lo, b.lo);
      AtCorner(m, k, op, a, b, a.lo, b.hi);
      AtCorner(m, k, op, a, b, a.hi, b.lo);
      AtCorner(m, k, op, a, b, a.hi, b.hi);
    }
  }

  lemma {:induction false} AtCorner(m: Machine, k: Interval, op: BinOp, a: Interval, b: Interval, v: int, w: int)
    requires Spans(m, k, op, a, b) && a.lo <= v <= a.hi && b.lo <= w <= b.hi && (op == Mul || op == Add || op == Sub)
    ensures k.lo <= Corner(op, v, w) <= k.hi
  {
    assert k.lo <= IntOp(m, op, v, w) <= k.hi;
  }

  lemma {:induction false} CornerFits(op: BinOp, a: Interval, b: Interval)
    requires Is32(Corner(op, a.lo, b.lo)) && Is32(Corner(op, a.lo, b.hi)) && Is32(Corner(op, a.hi, b.lo)) &&
      Is32(Corner(op, a.hi, b.hi))
    ensures Corners(op, a, b) == Hull(op, a, b)
  {
    Wrap32Id(Corner(op, a.lo, b.lo));
    Wrap32Id(Corner(op, a.lo, b.hi));
    Wrap32Id(Corner(op, a.hi, b.lo));
    Wrap32Id(Corner(op, a.hi, b.hi));
  }

  /** The interval contains the value of e. */
  ghost predicate Covers(r: Interval, e: Expr, env: Env, st: State)
  {
    var v := Eval(e, env, st, 0);
    v.I? && r.lo <= v.i <= r.hi
  }

  /** The interval of Max is wrong: max(0, 5) is 5, and its range is said to be [0, 0]. */
  lemma {:induction false} MaxRangeUnsound(t: Table, env: Env, st: State)
    requires GoodTable(t)
    ensures var x, y := Const(0), Const(5);
      KnownRange(Binary(BinOp.Max, x, y), t, None) == Some(Interval(0, 0)) &&
      Eval(Binary(BinOp.Max, x, y), env, st, 0) == I(5)
  {
    var x, y := Const(0), Const(5);
    assert KnownRange(x, t, None) == Some(Interval(0, 0)) && KnownRange(y, t, None) == Some(Interval(5, 5));
    assert Eval(x, env, st, 0) == I(0) && Eval(y, env, st, 0) == I(5);
  }

  ghost function LastEnv(t: Table): (env: Env)
    requires GoodTable(t)
    ensures ValidEnv(t, env) && forall l | l in t :: env.Get(l) == t[l].end - t[l].stride
  {
    var env := Env(Machine((u: UnOp, n: Num) => n, (x: real, y: real) => x, (x: int) => x, (x: real) => x),
                   map l | l in t :: t[l].end - t[l].stride);
    assert ValidEnv(t, env) by {
      forall l | l in t ensures InExtent(env.Get(l), t[l]) {
        var x := t[l];
        assert x.end == x.stride * (x.end / x.stride);
        assert env.Get(l) == (x.end / x.stride - 1) * x.stride;
        MulDiv(x.end / x.stride - 1, x.stride);
      }
    }
    env
  }

  /** Built from constants and indices so that the value is largest when every index is at its last
      value: sums, minima, and products of operands that are not negative. */
  predicate Rising(e: Expr, t: Table)
  {
    match e
    case Const(_) => true
    case Index(l, w) => w == 1 && l in t
    case Binary(op, x, y) =>
      (op == Add || op == BinOp.Min || op == Mul) && Rising(x, t) && Rising(y, t) &&
      (op == Mul ==>
        var a, b := KnownRange(x, t, None), KnownRange(y, t, None);
        a.Some? && b.Some? && a.value.lo >= 0 && b.value.lo >= 0)
    case _ => false
  }

  lemma {:induction false} RisingKnown(e: Expr, t: Table)
    requires Rising(e, t)
    ensures MaxFree(e) && Scalar(e) && KnownRange(e, t, None).Some?
  {
    if e.Binary? {
      RisingKnown(e.lhs, t);
      RisingKnown(e.rhs, t);
    }
  }

  lemma {:induction false} TopCorner(op: BinOp, a: Interval, b: Interval)
    requires a.lo <= a.hi && b.lo <= b.hi && (op == Add || (op == Mul && a.lo >= 0 && b.lo >= 0))
    requires Is32(Corner(op, a.lo, b.lo)) && Is32(Corner(op, a.lo, b.hi)) && Is32(Corner(op, a.hi, b.lo)) &&
      Is32(Corner(op, a.hi, b.hi))
    ensures Corners(op, a, b).hi == Corner(op, a.hi, b.hi)
  {
    Wrap32Id(Corner(op, a.lo, b.lo));
    Wrap32Id(Corner(op, a.lo, b.hi));
    Wrap32Id(Corner(op, a.hi, b.lo));
    Wrap32Id(Corner(op, a.hi, b.hi));
    if op == Mul { MulCorners(a.hi, b.hi, a, b); CornerOrder(a, b); }
  }

  lemma {:induction false} CornerOrder(a: Interval, b: Interval)
    requires 0 <= a.lo <= a.hi && 0 <= b.lo <= b.hi
    ensures a.lo * b.lo <= a.lo * b.hi <= a.hi * b.hi && a.lo * b.lo <= a.hi * b.lo <= a.hi * b.hi
  {
    MulNonneg(a.hi - a.lo, b.lo);
    MulNonneg(a.hi - a.lo, b.hi);
    MulNonneg(b.hi - b.lo, a.hi);
    MulNonneg(b.hi - b.lo, a.lo);
    assert (a.hi - a.lo) * b.lo == a.hi * b.lo - a.lo * b.lo;
    assert (a.hi - a.lo) * b.hi == a.hi * b.hi - a.lo * b.hi;
    assert (b.hi - b.lo) * a.hi == a.hi * b.hi - a.hi * b.lo;
    assert (b.hi - b.lo) * a.lo == a.lo * b.hi - a.lo * b.lo;
  }

  lemma {:induction false} BottomCorner(op: BinOp, a: Interval, b: Interval)
    requires a.lo <= a.hi && b.lo <= b.hi && (op == Add || (op == Mul && a.lo >= 0 && b.lo >= 0))
    requires Is32(Corner(op, a.lo, b.lo)) && Is32(Corner(op, a.lo, b.hi)) && Is32(Corner(op, a.hi, b.lo)) &&
      Is32(Corner(op, a.hi, b.hi))
    ensures Corners(op, a, b).lo == Corner(op, a.lo, b.lo)
  {
    Wrap32Id(Corner(op, a.lo, b.lo));
    Wrap32Id(Corner(op, a.lo, b.hi));
    Wrap32Id(Corner(op, a.hi, b.lo));
    Wrap32Id(Corner(op, a.hi, b.hi));
    if op == Mul { CornerOrder(a, b); }
  }

  /** The low end is reached when every index that is used is zero. */
  lemma {:induction false} RisingBottom(e: Expr, t: Table, env: Env, st: State)
    requires Rising(e, t) && Fits(e, t, None) && GoodTable(t) && ValidEnv(t, env)
    requires forall l | Mentions(e, l) :: env.Get(l) == 0
    ensures KnownRange(e, t, None).Some? && Eval(e, env, st, 0) == I(KnownRange(e, t, None).value.lo)
  {
    match e
    case Const(i) => Wrap32Id(i);
    case Index(l, _) =>
      assert Mentions(e, l);
      Wrap32Id(t[l].end - t[l].stride);
    case Binary(op, x, y) =>
      forall l | Mentions(x, l) || Mentions(y, l) ensures env.Get(l) == 0 { assert Mentions(e, l); }
      RisingBottom(x, t, env, st);
      RisingBottom(y, t, env, st);
      RisingKnown(x, t);
      RisingKnown(y, t);
      KnownRangeSound(x, t, None, env, st);
      KnownRangeSound(y, t, None, env, st);
      if op == Add || op == Mul { BottomCorner(op, KnownRange(x, t, None).value, KnownRange(y, t, None).value); }
  }

  /** With every loop at its last index, the upper end of the interval is reached. */
  lemma {:induction false} RisingTop(e: Expr, t: Table, st: State)
    requires Rising(e, t) && Fits(e, t, None) && GoodTable(t)
    ensures KnownRange(e, t, None).Some? && Eval(e, LastEnv(t), st, 0) == I(KnownRange(e, t, None).value.hi)
  {
    var env := LastEnv(t);
    match e
    case Const(i) => Wrap32Id(i);
    case Index(l, _) => Wrap32Id(t[l].end - t[l].stride);
    case Binary(op, x, y) =>
      RisingTop(x, t, st);
      RisingTop(y, t, st);
      RisingKnown(x, t);
      RisingKnown(y, t);
      KnownRangeSound(x, t, None, env, st);
      KnownRangeSound(y, t, None, env, st);
      if op != BinOp.Min { TopCorner(op, KnownRange(x, t, None).value, KnownRange(y, t, None).value); }
  }

  /** For the maximum of any operands with known ranges, equal upper ends make the interval right. */
  lemma {:induction false} MaxRangeCovers(x: Expr, y: Expr, t: Table, live: Option<set<LoopId>>, env: Env, st: State)
    requires Scalar(x) && Scalar(y) && MaxFree(x) && MaxFree(y) && GoodTable(t) && LiveEnv(t, live, env)
    requires Fits(x, t, live) && Fits(y, t, live) && KnownRange(x, t, live).Some? && KnownRange(y, t, live).Some?
    requires KnownRange(x, t, live).value.hi == KnownRange(y, t, live).value.hi
    ensures var e := Binary(BinOp.Max, x, y);
      KnownRange(e, t, live).Some? && Covers(KnownRange(e, t, live).value, e, env, st)
  {
    KnownRangeSound(x, t, live, env, st);
    KnownRangeSound(y, t, live, env, st);
  }

  /** For the maximum of two rising operands the returned interval is right exactly when both have
      the same upper end. */
  lemma {:induction false} MaxRangeExactly(x: Expr, y: Expr, t: Table)
    requires GoodTable(t) && Rising(x, t) && Rising(y, t) && Fits(x, t, None) && Fits(y, t, None)
    ensures KnownRange(x, t, None).Some? && KnownRange(y, t, None).Some?
    ensures var e := Binary(BinOp.Max, x, y);
      KnownRange(e, t, None).Some? &&
      (KnownRange(x, t, None).value.hi == KnownRange(y, t, None).value.hi <==>
       forall env: Env, st: State | ValidEnv(t, env) :: Covers(KnownRange(e, t, None).value, e, env, st))
  {
    var e := Binary(BinOp.Max, x, y);
    RisingKnown(x, t);
    RisingKnown(y, t);
    var r, a, b := KnownRange(e, t, None).value, KnownRange(x, t, None).value, KnownRange(y, t, None).value;
    if a.hi == b.hi {
      forall env: Env, st: State | ValidEnv(t, env)
        ensures Covers(r, e, env, st)
      {
        MaxRangeCovers(x, y, t, None, env, st);
      }
    } else {
      // Put every loop at its last index: the larger side escapes.
      var st := State(map[], []);
      RisingTop(x, t, st);
      RisingTop(y, t, st);
      assert Eval(e, LastEnv(t), st, 0) == I(Max(a.hi, b.hi));
      assert !Covers(r, e, LastEnv(t), st);
    }
  }

  // ---- Comparing an interval with an if range ----------------------------------------

  datatype Relation = Intersect | Disjoint | Subset

  /** The relation of a closed index interval and a half-open if range. */
  function RangeRelation(a: Interval, start: int, stop: int): Relation
  {
    if a.lo >= start && a.hi <= stop then Subset
    else if a.hi <= start || a.hi <= start then Disjoint
    else Intersect
  }

  /** The if runs its body at index i. */
  predicate InRange(i: int, start: int, stop: int) { start <= i < stop }

  /** The same with the bound itself let in. */
  predicate InClosed(i: int, start: int, stop: int) { start <= i <= stop }

  predicate UpToStart(i: int, start: int) { i <= start }

  /** When the answers are given: Subset when every index is in the range or at its bound, and else
      Disjoint when none lies above the start; indices that all lie above the bound Intersect. */
  lemma {:induction false} RelationExactly(a: Interval, start: int, stop: int)
    requires a.lo <= a.hi
    ensures RangeRelation(a, start, stop) ==
      if forall i: int :: a.lo <= i <= a.hi ==> InClosed(i, start, stop) then Subset
      else if forall i: int :: a.lo <= i <= a.hi ==> UpToStart(i, start) then Disjoint
      else Intersect
  {
    assert InClosed(a.lo, start, stop) <==> start <= a.lo <= stop;
    assert InClosed(a.hi, start, stop) <==> start <= a.hi <= stop;
    assert UpToStart(a.hi, start) <==> a.hi <= start;
  }

  /** The answer Subset is right for every index exactly when the interval ends strictly
      below the bound of the range. */
  lemma {:induction false} SubsetExactly(a: Interval, start: int, stop: int)
    requires a.lo <= a.hi && RangeRelation(a, start, stop) == Subset
    ensures (forall i: int :: a.lo <= i <= a.hi ==> InRange(i, start, stop)) <==> a.hi < stop
  {
    assert InRange(a.hi, start, stop) <==> a.hi < stop;
  }

  /** The answer Disjoint is right for every index exactly when the interval ends strictly
      below the start of the range, or the range is empty. */
  lemma {:induction false} DisjointExactly(a: Interval, start: int, stop: int)
    requires a.lo <= a.hi && RangeRelation(a, start, stop) == Disjoint
    ensures (forall i: int :: a.lo <= i <= a.hi ==> !InRange(i, start, stop)) <==> a.hi < start || start >= stop
  {
    assert InRange(a.hi, start, stop) <==> start <= a.hi < stop;
  }
}
