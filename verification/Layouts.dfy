/** Row-major buffers, and changeLayout. */
module Layouts {
  import opened IR
  import opened Families
  import opened Semantics
  import opened Context
  import opened Footprint
  import opened Relabel

  // ---- Row-major offsets ----------------------------------------------------------------------

  /** The number of elements of a buffer. */
  function Size(dims: seq<nat>): nat
  {
    if dims == [] then 1 else dims[0] * Size(dims[1..])
  }

  predicate InBounds(idx: seq<int>, dims: seq<nat>)
  {
    |idx| == |dims| && forall i | 0 <= i < |dims| :: 0 <= idx[i] < dims[i]
  }

  function Offset(idx: seq<int>, dims: seq<nat>): int
    requires |idx| == |dims|
  {
    if dims == [] then 0 else idx[0] * Size(dims[1..]) + Offset(idx[1..], dims[1..])
  }

  /** The subscripts of the k-th element. */
  function Unflatten(k: int, dims: seq<nat>): (idx: seq<int>)
    requires Size(dims) > 0
    ensures |idx| == |dims|
    decreases |dims|
  {
    if dims == [] then [] else
      SizeTail(dims);
      [k / Size(dims[1..])] + Unflatten(k % Size(dims[1..]), dims[1..])
  }

  lemma {:induction false} SizeTail(dims: seq<nat>)
    requires dims != [] && Size(dims) > 0
    ensures Size(dims[1..]) > 0 && dims[0] > 0
  {}

  lemma {:induction false} TailBounds(idx: seq<int>, dims: seq<nat>)
    requires InBounds(idx, dims) && dims != []
    ensures InBounds(idx[1..], dims[1..])
  {
    forall i | 0 <= i < |dims[1..]| ensures 0 <= idx[1..][i] < dims[1..][i] {
      assert idx[1..][i] == idx[i + 1] && dims[1..][i] == dims[i + 1];
    }
  }

  /** The offset of in-range subscripts lies inside the buffer. */
  lemma {:induction false} OffsetInside(idx: seq<int>, dims: seq<nat>)
    requires InBounds(idx, dims)
    ensures 0 <= Offset(idx, dims) < Size(dims)
  {
    if dims != [] {
      TailBounds(idx, dims);
      OffsetInside(idx[1..], dims[1..]);
      var s := Size(dims[1..]);
      MulGap(idx[0], dims[0], s);
      MulNonneg(idx[0], s);
    }
  }

  /** Offset and Unflatten undo each other: in-range subscripts and 0..size-1 correspond. */
  lemma {:induction false} UnflattenOffset(idx: seq<int>, dims: seq<nat>)
    requires InBounds(idx, dims)
    ensures Size(dims) > 0 && Unflatten(Offset(idx, dims), dims) == idx
  {
    OffsetInside(idx, dims);
    if dims != [] {
      TailBounds(idx, dims);
      UnflattenOffset(idx[1..], dims[1..]);
      OffsetInside(idx[1..], dims[1..]);
      DivUnique(Offset(idx, dims), Size(dims[1..]), idx[0], Offset(idx[1..], dims[1..]));
    }
  }

  lemma {:induction false} OffsetUnflatten(k: nat, dims: seq<nat>)
    requires k < Size(dims)
    ensures InBounds(Unflatten(k, dims), dims) && Offset(Unflatten(k, dims), dims) == k
    decreases |dims|
  {
    if dims != [] {
      SizeTail(dims);
      var s := Size(dims[1..]);
      var q, r := k / s, k % s;
      OffsetUnflatten(r, dims[1..]);
      QuotientBelow(k, s, dims[0]);
      ConsBounds(q, Unflatten(r, dims[1..]), dims);
    }
  }

  lemma {:induction false} QuotientBelow(k: nat, s: nat, d: nat)
    requires s > 0 && k < d * s
    ensures 0 <= k / s < d && 0 <= k % s < s && k == (k / s) * s + k % s
  {
    var q := k / s;
    assert k == s * q + k % s && s * q == q * s;
    MulGap(d, q, s);
    MulGap(q, 0, s);
  }

  lemma {:induction false} ConsBounds(q: int, rest: seq<int>, dims: seq<nat>)
    requires dims != [] && 0 <= q < dims[0] && InBounds(rest, dims[1..])
    ensures InBounds([q] + rest, dims) && Offset([q] + rest, dims) == q * Size(dims[1..]) + Offset(rest, dims[1..])
  {
    var idx := [q] + rest;
    assert idx[1..] == rest;
    forall i | 0 <= i < |dims| ensures 0 <= idx[i] < dims[i] {
      if i > 0 { assert idx[i] == rest[i - 1] && dims[i] == dims[1..][i - 1]; }
    }
  }

  /** Row-major: one step in dimension d goes past all elements of the dimensions after it. */
  lemma {:induction false} OffsetStep(idx: seq<int>, dims: seq<nat>, d: nat)
    requires |idx| == |dims| && d < |idx|
    ensures Offset(idx[d := idx[d] + 1], dims) == Offset(idx, dims) + Size(dims[d + 1..])
  {
    var next := idx[d := idx[d] + 1];
    if d == 0 {
      var s := Size(dims[1..]);
      assert next[1..] == idx[1..] && (idx[0] + 1) * s == idx[0] * s + s;
    } else {
      OffsetStep(idx[1..], dims[1..], d - 1);
      assert next[1..] == idx[1..][d - 1 := idx[1..][d - 1] + 1];
      assert dims[1..][d..] == dims[d + 1..];
    }
  }

  /** getIndexOffsetForBuffer: x * dims[1] * dims[2] + y * dims[2] + z. */
  method IndexOffset(idx: seq<int>, dims: seq<nat>) returns (offset: int)
    requires |idx| == |dims|
    ensures offset == Offset(idx, dims)
  {
    offset := 0;
    for i := 0 to |idx|
      invariant offset + Offset(idx[i..], dims[i..]) == Offset(idx, dims)
    {
      var v := idx[i];
      assert idx[i..][1..] == idx[i + 1..] && dims[i..][1..] == dims[i + 1..];
      for j := i + 1 to |idx|
        invariant v * Size(dims[j..]) == idx[i] * Size(dims[i + 1..])
      {
        assert dims[j..][1..] == dims[j + 1..];
        Regroup(v, dims[j], Size(dims[j + 1..]));
        v := v * dims[j];
      }
      assert dims[|idx|..] == [];
      offset := offset + v;
    }
  }

  lemma {:induction false} Regroup(a: int, b: int, c: int)
    ensures a * (b * c) == (a * b) * c
  {}

  // ---- Lowering to flat buffers -------------------------------------------------------------------

  /** The offset as an index expression. */
  function OffsetExpr(subs: seq<Expr>, dims: seq<nat>): Expr
    requires |subs| == |dims|
  {
    if dims == [] then Const(0)
    else Binary(Add, Binary(Mul, subs[0], Const(Size(dims[1..]))), OffsetExpr(subs[1..], dims[1..]))
  }

  lemma {:induction false} OffsetExprValue(subs: seq<Expr>, dims: seq<nat>, env: Env, st: State)
    requires |subs| == |dims|
    ensures Eval(OffsetExpr(subs, dims), env, st, 0) == I(Offset(EvalSubs(subs, env, st), dims))
  {
    if dims != [] {
      OffsetExprValue(subs[1..], dims[1..], env, st);
      var c := Const(Size(dims[1..]));
      var vals := EvalSubs(subs, env, st);
      assert vals[1..] == EvalSubs(subs[1..], env, st);
      assert Eval(c, env, st, 0) == I(Size(dims[1..]));
      assert vals[0] == AsInt(Eval(subs[0], env, st, 0));
      assert Eval(Binary(Mul, subs[0], c), env, st, 0) == I(vals[0] * Size(dims[1..]));
    }
  }

  /** What the target does with an access: one subscript, the offset. */
  function FlatAccess(dims: nat -> seq<nat>): Rewriting
  {
    (arg: nat, subs: seq<Expr>) => if |subs| == |dims(arg)| then [OffsetExpr(subs, dims(arg))] else subs
  }

  function Lowered(ss: seq<Stmt>, dims: nat -> seq<nat>): seq<Stmt> { RewriteB(ss, FlatAccess(dims)) }

  /** Flat row-major buffers; buffer `one` is accessed one element at a time. */
  function RowMajor(dims: nat -> seq<nat>, one: Option<nat>): Layout
  {
    Layout((arg: nat, idx: seq<int>) => if |idx| == |dims(arg)| then [Offset(idx, dims(arg))] else idx,
           (arg: nat, idx: seq<int>) => InBounds(idx, dims(arg)),
           (arg: nat) => dims(arg) != [] && one != Some(arg))
  }

  lemma {:induction false} OffsetBump(idx: seq<int>, dims: seq<nat>, k: nat)
    requires |idx| == |dims| && dims != []
    ensures Offset(Bump(idx, k), dims) == Offset(idx, dims) + k
  {
    var b := Bump(idx, k);
    if |dims| == 1 {
      assert dims[1..] == [] && idx[1..] == [] && b[1..] == [];
    } else {
      assert b[1..] == Bump(idx[1..], k);
      OffsetBump(idx[1..], dims[1..], k);
    }
  }

  lemma {:induction false} OffsetInjective(a: seq<int>, b: seq<int>, dims: seq<nat>)
    requires InBounds(a, dims) && InBounds(b, dims) && Offset(a, dims) == Offset(b, dims)
    ensures a == b
  {
    UnflattenOffset(a, dims);
    UnflattenOffset(b, dims);
  }

  lemma {:induction false} RowMajorSound(dims: nat -> seq<nat>, one: Option<nat>)
    ensures Sound(RowMajor(dims, one), FlatAccess(dims))
  {
    var y, R := RowMajor(dims, one), FlatAccess(dims);
    forall arg: nat, subs: seq<Expr>, env: Env, st: State ensures SubsPlaced(y, R, arg, subs, env, st) {
      if |subs| == |dims(arg)| {
        OffsetExprValue(subs, dims(arg), env, st);
        assert EvalSubs([OffsetExpr(subs, dims(arg))], env, st) == [Offset(EvalSubs(subs, env, st), dims(arg))];
      }
    }
    forall arg: nat, idx: seq<int>, k: nat ensures LanePlaced(y, arg, idx, k) {
      if Within(y, arg, idx, k) {
        if k > 0 {
          OffsetBump(idx, dims(arg), k);
        } else {
          assert Bump(idx, 0) == idx;
          assert Bump(y.place(arg, idx), 0) == y.place(arg, idx);
        }
      }
    }
    forall arg: nat, a: seq<int>, b: seq<int> ensures Distinct(y, arg, a, b) {
      if InBounds(a, dims(arg)) && InBounds(b, dims(arg)) && Offset(a, dims(arg)) == Offset(b, dims(arg)) {
        OffsetInjective(a, b, dims(arg));
      }
    }
  }

  /** Lowering every access to its row-major offset keeps what a program does, as long as its
      accesses are in range. */
  lemma {:induction false} LoweringPreserves(ss: seq<Stmt>, dims: nat -> seq<nat>, env: Env, st: State, flat: State)
    requires WithinB(RowMajor(dims, None), ss, env, st) && LaidOut(RowMajor(dims, None), st, flat)
    ensures LaidOut(RowMajor(dims, None), Exec(ss, env, st), Exec(Lowered(ss, dims), env, flat))
  {
    RowMajorSound(dims, None);
    ExecLaidOut(RowMajor(dims, None), FlatAccess(dims), ss, env, st, flat);
  }

  // ---- swizzle -----------------------------------------------------------------------------------

  predicate IsShuffle(shuffle: seq<nat>, n: nat)
  {
    |shuffle| == n && (forall i | 0 <= i < n :: shuffle[i] < n) &&
    forall i, j | 0 <= i < j < n :: shuffle[i] != shuffle[j]
  }

  function Swizzle<T>(xs: seq<T>, shuffle: seq<nat>): (r: seq<T>)
    requires IsShuffle(shuffle, |xs|)
    ensures |r| == |xs|
  {
    seq(|xs|, i requires 0 <= i < |xs| => xs[shuffle[i]])
  }

  /** swizzle, in place: the elements are moved out in the new order and then moved back. */
  method SwizzleInPlace<T>(elems: array<T>, shuffle: seq<nat>)
    requires IsShuffle(shuffle, elems.Length)
    modifies elems
    ensures elems[..] == Swizzle(old(elems[..]), shuffle)
  {
    var temp: seq<T> := [];
    for i := 0 to |shuffle|
      invariant elems[..] == old(elems[..])
      invariant |temp| == i && forall k | 0 <= k < i :: temp[k] == old(elems[shuffle[k]])
    {
      temp := temp + [elems[shuffle[i]]];
    }
    for i := 0 to |shuffle|
      invariant |temp| == |shuffle| && forall k | 0 <= k < |temp| :: temp[k] == old(elems[shuffle[k]])
      invariant forall k | 0 <= k < i :: elems[k] == temp[k]
    {
      elems[i] := temp[i];
    }
  }

  function Below(n: nat): set<nat>
  {
    if n == 0 then {} else Below(n - 1) + {n - 1}
  }

  lemma {:induction false} BelowSize(n: nat)
    ensures |Below(n)| == n && forall i: nat :: i in Below(n) <==> i < n
  {
    if n > 0 { BelowSize(n - 1); }
  }

  function Image(shuffle: seq<nat>, n: nat): set<nat>
    requires n <= |shuffle|
  {
    set i: nat | i < n :: shuffle[i]
  }

  lemma {:induction false} ImageSize(shuffle: seq<nat>, n: nat)
    requires n <= |shuffle| && forall i, j | 0 <= i < j < |shuffle| :: shuffle[i] != shuffle[j]
    ensures |Image(shuffle, n)| == n
  {
    if n > 0 {
      assert Image(shuffle, n) == Image(shuffle, n - 1) + {shuffle[n - 1]};
      ImageSize(shuffle, n - 1);
    } else {
      assert Image(shuffle, 0) == {};
    }
  }

  lemma {:induction false} SubsetSize(a: set<nat>, b: set<nat>)
    requires a <= b && |a| == |b|
    ensures a == b
  {
    assert b == a + (b - a);
    assert |b| == |a| + |b - a|;
    assert b - a == {};
  }

  /** A shuffle reaches every position. */
  lemma {:induction false} ShuffleReaches(shuffle: seq<nat>, n: nat, j: nat)
    requires IsShuffle(shuffle, n) && j < n
    ensures exists i :: 0 <= i < n && shuffle[i] == j
  {
    BelowSize(n);
    ImageSize(shuffle, n);
    SubsetSize(Image(shuffle, n), Below(n));
    assert j in Image(shuffle, n);
  }

  lemma {:induction false} SwizzleInjective<T>(a: seq<T>, b: seq<T>, shuffle: seq<nat>)
    requires IsShuffle(shuffle, |a|) && |a| == |b| && Swizzle(a, shuffle) == Swizzle(b, shuffle)
    ensures a == b
  {
    forall j | 0 <= j < |a| ensures a[j] == b[j] {
      ShuffleReaches(shuffle, |a|, j);
      var i :| 0 <= i < |a| && shuffle[i] == j;
      assert Swizzle(a, shuffle)[i] == a[j] && Swizzle(b, shuffle)[i] == b[j];
    }
  }

  lemma {:induction false} SwizzleBounds(idx: seq<int>, dims: seq<nat>, shuffle: seq<nat>)
    requires InBounds(idx, dims) && IsShuffle(shuffle, |dims|)
    ensures InBounds(Swizzle(idx, shuffle), Swizzle(dims, shuffle))
  {}

  // ---- changeLayout --------------------------------------------------------------------------------

  /** The subscripts of every access to the buffer are shuffled. */
  function ShuffleAccess(which: nat, shuffle: seq<nat>): Rewriting
  {
    (arg: nat, subs: seq<Expr>) => if arg == which && IsShuffle(shuffle, |subs|) then Swizzle(subs, shuffle) else subs
  }

  function ChangeLayout(ss: seq<Stmt>, which: nat, shuffle: seq<nat>): seq<Stmt>
  {
    RewriteB(ss, ShuffleAccess(which, shuffle))
  }

  /** The new type of the buffer. */
  function NewDims(dims: nat -> seq<nat>, which: nat, shuffle: seq<nat>): nat -> seq<nat>
    requires IsShuffle(shuffle, |dims(which)|)
  {
    (arg: nat) => if arg == which then Swizzle(dims(which), shuffle) else dims(arg)
  }

  /** Flat buffers in the new layout, in terms of the old subscripts. */
  function ShuffledRowMajor(dims: nat -> seq<nat>, which: nat, shuffle: seq<nat>): Layout
    requires IsShuffle(shuffle, |dims(which)|)
  {
    Layout((arg: nat, idx: seq<int>) =>
             if |idx| != |dims(arg)| then idx
             else if arg == which then [Offset(Swizzle(idx, shuffle), Swizzle(dims(which), shuffle))]
             else [Offset(idx, dims(arg))],
           (arg: nat, idx: seq<int>) => InBounds(idx, dims(arg)),
           (arg: nat) => dims(arg) != [] && arg != which)
  }

  /** Shuffling and then lowering an access, in one step. */
  function ShuffleThenFlat(dims: nat -> seq<nat>, which: nat, shuffle: seq<nat>): Rewriting
    requires IsShuffle(shuffle, |dims(which)|)
  {
    (arg: nat, subs: seq<Expr>) =>
      FlatAccess(NewDims(dims, which, shuffle))(arg, ShuffleAccess(which, shuffle)(arg, subs))
  }

  lemma {:induction false} SwizzleSubs(subs: seq<Expr>, shuffle: seq<nat>, env: Env, st: State)
    requires IsShuffle(shuffle, |subs|)
    ensures EvalSubs(Swizzle(subs, shuffle), env, st) == Swizzle(EvalSubs(subs, env, st), shuffle)
  {}

  lemma {:induction false} ShuffleThenFlatIs(dims: nat -> seq<nat>, which: nat, shuffle: seq<nat>, arg: nat,
                                             subs: seq<Expr>)
    requires IsShuffle(shuffle, |dims(which)|)
    ensures var x := ShuffleAccess(which, shuffle)(arg, subs);
      var d := NewDims(dims, which, shuffle)(arg);
      |x| == |subs| && |d| == |dims(arg)| &&
      ShuffleThenFlat(dims, which, shuffle)(arg, subs) == if |x| == |d| then [OffsetExpr(x, d)] else x
  {
    var x, nd := ShuffleAccess(which, shuffle)(arg, subs), NewDims(dims, which, shuffle);
    if arg == which && IsShuffle(shuffle, |subs|) {
      assert x == Swizzle(subs, shuffle);
    } else {
      assert x == subs;
    }
    assert |nd(arg)| == |dims(arg)|;
    assert FlatAccess(nd)(arg, x) == if |x| == |nd(arg)| then [OffsetExpr(x, nd(arg))] else x;
    assert ShuffleThenFlat(dims, which, shuffle)(arg, subs) == FlatAccess(nd)(arg, x);
  }

  lemma {:induction false} ShuffledSubs(dims: nat -> seq<nat>, which: nat, shuffle: seq<nat>, arg: nat, subs: seq<Expr>,
                                        env: Env, st: State)
    requires IsShuffle(shuffle, |dims(which)|)
    ensures SubsPlaced(ShuffledRowMajor(dims, which, shuffle), ShuffleThenFlat(dims, which, shuffle), arg, subs, env,
      st)
  {
    var R := ShuffleThenFlat(dims, which, shuffle);
    var nd := NewDims(dims, which, shuffle);
    if |subs| == |dims(arg)| {
      if arg == which {
        var x := Swizzle(subs, shuffle);
        assert nd(arg) == Swizzle(dims(arg), shuffle);
        assert ShuffleAccess(which, shuffle)(arg, subs) == x;
        ShuffleThenFlatIs(dims, which, shuffle, arg, subs);
        OffsetExprValue(x, nd(arg), env, st);
        SwizzleSubs(subs, shuffle, env, st);
        assert EvalSubs([OffsetExpr(x, nd(arg))], env, st) == [Offset(EvalSubs(x, env, st), nd(arg))];
      } else {
        assert nd(arg) == dims(arg);
        ShuffleThenFlatIs(dims, which, shuffle, arg, subs);
        OffsetExprValue(subs, nd(arg), env, st);
        assert EvalSubs([OffsetExpr(subs, nd(arg))], env, st) == [Offset(EvalSubs(subs, env, st), nd(arg))];
      }
    } else {
      assert !(arg == which && IsShuffle(shuffle, |subs|));
      assert ShuffleAccess(which, shuffle)(arg, subs) == subs;
      ShuffleThenFlatIs(dims, which, shuffle, arg, subs);
    }
  }

  lemma {:induction false} ShuffledSound(dims: nat -> seq<nat>, which: nat, shuffle: seq<nat>)
    requires IsShuffle(shuffle, |dims(which)|)
    ensures Sound(ShuffledRowMajor(dims, which, shuffle), ShuffleThenFlat(dims, which, shuffle))
  {
    var y, R := ShuffledRowMajor(dims, which, shuffle), ShuffleThenFlat(dims, which, shuffle);
    forall arg: nat, subs: seq<Expr>, env: Env, st: State ensures SubsPlaced(y, R, arg, subs, env, st) {
      ShuffledSubs(dims, which, shuffle, arg, subs, env, st);
    }
    forall arg: nat, idx: seq<int>, k: nat ensures LanePlaced(y, arg, idx, k) {
      if Within(y, arg, idx, k) {
        if k > 0 {
          OffsetBump(idx, dims(arg), k);
        } else {
          assert Bump(idx, 0) == idx;
          assert Bump(y.place(arg, idx), 0) == y.place(arg, idx);
        }
      }
    }
    forall arg: nat, a: seq<int>, b: seq<int> ensures Distinct(y, arg, a, b) {
      if y.dom(arg, a) && y.dom(arg, b) && y.place(arg, a) == y.place(arg, b) {
        if arg == which {
          SwizzleBounds(a, dims(arg), shuffle);
          SwizzleBounds(b, dims(arg), shuffle);
          OffsetInjective(Swizzle(a, shuffle), Swizzle(b, shuffle), Swizzle(dims(which), shuffle));
          SwizzleInjective(a, b, shuffle);
        } else {
          OffsetInjective(a, b, dims(arg));
        }
      }
    }
  }

  // ---- Lowering the changed program -----------------------------------------------------------------

  /** Rewriting the subscripts commutes with shuffling them. */
  lemma {:induction false} ShuffleNatural(which: nat, shuffle: seq<nat>, arg: nat, xs: seq<Expr>, R: Rewriting)
    ensures RewriteAll(ShuffleAccess(which, shuffle)(arg, xs), R) ==
      ShuffleAccess(which, shuffle)(arg, RewriteAll(xs, R))
  {
    if arg == which && IsShuffle(shuffle, |xs|) {
      var a, b := RewriteAll(Swizzle(xs, shuffle), R), Swizzle(RewriteAll(xs, R), shuffle);
      forall i | 0 <= i < |xs| ensures a[i] == b[i] {
        RewriteAt(Swizzle(xs, shuffle), R, i);
        RewriteAt(xs, R, shuffle[i]);
      }
      assert a == b;
    }
  }

  lemma {:induction false} ComposeAccess(dims: nat -> seq<nat>, which: nat, shuffle: seq<nat>, arg: nat, xs: seq<Expr>)
    requires IsShuffle(shuffle, |dims(which)|)
    ensures ShuffleThenFlat(dims, which, shuffle)(arg, xs) ==
            FlatAccess(NewDims(dims, which, shuffle))(arg, ShuffleAccess(which, shuffle)(arg, xs))
  {}

  lemma {:induction false} ComposeE(e: Expr, dims: nat -> seq<nat>, which: nat, shuffle: seq<nat>)
    requires IsShuffle(shuffle, |dims(which)|)
    ensures RewriteE(RewriteE(e, ShuffleAccess(which, shuffle)), FlatAccess(NewDims(dims, which, shuffle))) ==
            RewriteE(e, ShuffleThenFlat(dims, which, shuffle))
    decreases e
  {
    hide ShuffleAccess, FlatAccess, ShuffleThenFlat, NewDims, IsShuffle;
    match e
    case Binary(_, a, b) => ComposeE(a, dims, which, shuffle); ComposeE(b, dims, which, shuffle);
    case Unary(_, v) => ComposeE(v, dims, which, shuffle);
    case Load(arg, subs, _) =>
      ComposeAll(subs, dims, which, shuffle);
      ShuffleNatural(which, shuffle, arg, RewriteAll(subs, ShuffleAccess(which, shuffle)),
        FlatAccess(NewDims(dims, which, shuffle)));
      ComposeAccess(dims, which, shuffle, arg, RewriteAll(subs, ShuffleThenFlat(dims, which, shuffle)));
    case Broadcast(x, _) => ComposeE(x, dims, which, shuffle);
    case _ =>
  }

  lemma {:induction false} ComposeAll(es: seq<Expr>, dims: nat -> seq<nat>, which: nat, shuffle: seq<nat>)
    requires IsShuffle(shuffle, |dims(which)|)
    ensures RewriteAll(RewriteAll(es, ShuffleAccess(which, shuffle)), FlatAccess(NewDims(dims, which, shuffle))) ==
            RewriteAll(es, ShuffleThenFlat(dims, which, shuffle))
    decreases es
  {
    hide ShuffleAccess, FlatAccess, ShuffleThenFlat, NewDims, IsShuffle;
    if es != [] {
      ComposeE(es[0], dims, which, shuffle);
      ComposeAll(es[1..], dims, which, shuffle);
      assert RewriteAll(es, ShuffleAccess(which, shuffle))[1..] == RewriteAll(es[1..], ShuffleAccess(which, shuffle));
    }
  }

  lemma {:induction false} ComposeB(ss: seq<Stmt>, dims: nat -> seq<nat>, which: nat, shuffle: seq<nat>)
    requires IsShuffle(shuffle, |dims(which)|)
    ensures Lowered(ChangeLayout(ss, which, shuffle), NewDims(dims, which, shuffle)) ==
            RewriteB(ss, ShuffleThenFlat(dims, which, shuffle))
    decreases ss
  {
    hide ShuffleAccess, FlatAccess, ShuffleThenFlat, NewDims, IsShuffle;
    if ss != [] {
      var S, F := ShuffleAccess(which, shuffle), FlatAccess(NewDims(dims, which, shuffle));
      ComposeB(ss[1..], dims, which, shuffle);
      var x := RewriteS(RewriteS(ss[0], S), F);
      assert RewriteB(ss, S) == [RewriteS(ss[0], S)] + RewriteB(ss[1..], S);
      assert RewriteB(RewriteB(ss, S), F) == [x] + RewriteB(RewriteB(ss[1..], S), F);
      match ss[0] {
        case Loop(_, _, _, body) =>
          ComposeB(body, dims, which, shuffle);
          assert x.body == Lowered(ChangeLayout(body, which, shuffle), NewDims(dims, which, shuffle));
        case IfRange(v, _, _, body) => ComposeE(v, dims, which, shuffle); ComposeB(body, dims, which, shuffle);
        case Store(arg, subs, v, _) =>
          ComposeAll(subs, dims, which, shuffle);
          ShuffleNatural(which, shuffle, arg, RewriteAll(subs, S), F);
          ComposeAccess(dims, which, shuffle, arg, RewriteAll(subs, ShuffleThenFlat(dims, which, shuffle)));
          ComposeE(v, dims, which, shuffle);
        case StoreLocal(_, v, _) => ComposeE(v, dims, which, shuffle);
        case Call(_, ps) => ComposeAll(ps, dims, which, shuffle);
      }
    }
  }

  lemma {:induction false} ChangedRun(ss: seq<Stmt>, dims: nat -> seq<nat>, which: nat, shuffle: seq<nat>,
                                                 env: Env, st: State, before: State, after: State)
    requires IsShuffle(shuffle, |dims(which)|)
    requires WithinB(RowMajor(dims, Some(which)), ss, env, st)
    requires LaidOut(RowMajor(dims, Some(which)), st, before)
    requires LaidOut(ShuffledRowMajor(dims, which, shuffle), st, after)
    ensures var a := Exec(Lowered(ss, dims), env, before);
      var b := Exec(Lowered(ChangeLayout(ss, which, shuffle), NewDims(dims, which, shuffle)), env, after);
      a.calls == b.calls &&
      (forall idx: seq<int> | InBounds(idx, dims(which)) ::
        Look(b, Elem(which, [Offset(Swizzle(idx, shuffle), Swizzle(dims(which), shuffle))])) ==
        Look(a, Elem(which, [Offset(idx, dims(which))]))) &&
      (forall arg: nat, idx: seq<int> | arg != which && InBounds(idx, dims(arg)) ::
        Look(b, Elem(arg, [Offset(idx, dims(arg))])) == Look(a, Elem(arg, [Offset(idx, dims(arg))])))
  {
    var y, z := RowMajor(dims, Some(which)), ShuffledRowMajor(dims, which, shuffle);
    RowMajorSound(dims, Some(which));
    ShuffledSound(dims, which, shuffle);
    SameWithin(ss, dims, which, shuffle, env, st);
    ExecLaidOut(y, FlatAccess(dims), ss, env, st, before);
    ExecLaidOut(z, ShuffleThenFlat(dims, which, shuffle), ss, env, st, after);
    ComposeB(ss, dims, which, shuffle);
    var s, a := Exec(ss, env, st), Exec(Lowered(ss, dims), env, before);
    var b := Exec(RewriteB(ss, ShuffleThenFlat(dims, which, shuffle)), env, after);
    forall idx: seq<int> | InBounds(idx, dims(which))
      ensures Look(b, Elem(which, [Offset(Swizzle(idx, shuffle), Swizzle(dims(which), shuffle))])) ==
              Look(a, Elem(which, [Offset(idx, dims(which))]))
    {
      assert Look(b, Elem(which, z.place(which, idx))) == Look(s, Elem(which, idx));
      assert Look(a, Elem(which, y.place(which, idx))) == Look(s, Elem(which, idx));
    }
    forall arg: nat, idx: seq<int> | arg != which && InBounds(idx, dims(arg))
      ensures Look(b, Elem(arg, [Offset(idx, dims(arg))])) == Look(a, Elem(arg, [Offset(idx, dims(arg))]))
    {
      assert Look(b, Elem(arg, z.place(arg, idx))) == Look(s, Elem(arg, idx));
      assert Look(a, Elem(arg, y.place(arg, idx))) == Look(s, Elem(arg, idx));
    }
  }

  /** ys is xs with position shuffle[i] moved to position i. */
  predicate Picks<T(==)>(xs: seq<T>, ys: seq<T>, shuffle: seq<nat>)
  {
    |ys| == |xs| == |shuffle| && forall i | 0 <= i < |ys| :: shuffle[i] < |xs| && ys[i] == xs[shuffle[i]]
  }

  lemma {:induction false} PicksIsSwizzle<T>(xs: seq<T>, ys: seq<T>, shuffle: seq<nat>)
    requires IsShuffle(shuffle, |xs|)
    ensures Picks(xs, ys, shuffle) <==> ys == Swizzle(xs, shuffle)
  {}

  /** The changed program, run on the buffers in the new layout, leaves every element where the
      new layout puts what the original program leaves in the old one: dimension i of the new layout is
      dimension shuffle[i] of the old one, and the element with subscripts x in the old one has the
      subscripts y that are picked from x in the same way. */
  lemma {:induction false} ChangeLayoutPreserves(ss: seq<Stmt>, dims: nat -> seq<nat>, which: nat, shuffle: seq<nat>,
                                                 env: Env, st: State, before: State, after: State, newDims: seq<nat>)
    requires IsShuffle(shuffle, |dims(which)|) && Picks(dims(which), newDims, shuffle)
    requires WithinB(RowMajor(dims, Some(which)), ss, env, st)
    requires LaidOut(RowMajor(dims, Some(which)), st, before)
    requires LaidOut(ShuffledRowMajor(dims, which, shuffle), st, after)
    ensures NewDims(dims, which, shuffle)(which) == newDims
    ensures var a := Exec(Lowered(ss, dims), env, before);
      var b := Exec(Lowered(ChangeLayout(ss, which, shuffle), NewDims(dims, which, shuffle)), env, after);
      a.calls == b.calls &&
      (forall x: seq<int>, y: seq<int> | InBounds(x, dims(which)) && Picks(x, y, shuffle) ::
        Look(b, Elem(which, [Offset(y, newDims)])) == Look(a, Elem(which, [Offset(x, dims(which))]))) &&
      (forall arg: nat, idx: seq<int> | arg != which && InBounds(idx, dims(arg)) ::
        Look(b, Elem(arg, [Offset(idx, dims(arg))])) == Look(a, Elem(arg, [Offset(idx, dims(arg))])))
  {
    hide Exec, WithinB, LaidOut, Lowered, ChangeLayout, Offset;
    ChangedRun(ss, dims, which, shuffle, env, st, before, after);
    PicksIsSwizzle(dims(which), newDims, shuffle);
    forall x: seq<int>, y: seq<int> | InBounds(x, dims(which)) && Picks(x, y, shuffle)
      ensures y == Swizzle(x, shuffle)
    {
      PicksIsSwizzle(x, y, shuffle);
    }
  }

  /** Both layouts have the same elements, so a run is within the one when it is within the other. */
  lemma {:induction false} SameWithinE(e: Expr, dims: nat -> seq<nat>, which: nat, shuffle: seq<nat>, env: Env,
                                       st: State, lane: nat)
    requires IsShuffle(shuffle, |dims(which)|) && WithinE(RowMajor(dims, Some(which)), e, env, st, lane)
    ensures WithinE(ShuffledRowMajor(dims, which, shuffle), e, env, st, lane)
  {
    match e
    case Binary(_, a, b) =>
      SameWithinE(a, dims, which, shuffle, env, st, lane);
      SameWithinE(b, dims, which, shuffle, env, st, lane);
    case Unary(_, v) => SameWithinE(v, dims, which, shuffle, env, st, lane);
    case Load(_, subs, _) =>
      forall x | x in subs ensures WithinE(ShuffledRowMajor(dims, which, shuffle), x, env, st, 0) {
        SameWithinE(x, dims, which, shuffle, env, st, 0);
      }
    case Broadcast(x, _) => SameWithinE(x, dims, which, shuffle, env, st, 0);
    case _ =>
  }

  lemma {:induction false} SameWithinS(s: Stmt, dims: nat -> seq<nat>, which: nat, shuffle: seq<nat>, env: Env,
                                       st: State)
    requires IsShuffle(shuffle, |dims(which)|) && WithinS(RowMajor(dims, Some(which)), s, env, st)
    ensures WithinS(ShuffledRowMajor(dims, which, shuffle), s, env, st)
    decreases s, 0
  {
    var y, z := RowMajor(dims, Some(which)), ShuffledRowMajor(dims, which, shuffle);
    match s
    case Loop(id, end, stride, body) =>
      forall k: nat | k < Trip(end, stride)
        ensures WithinB(z, body, env.At(id, k * stride), Iter(Body(body, id, stride, env), k, st))
      {
        WithinIteration(y, s, env, st, k);
        SameWithin(body, dims, which, shuffle, env.At(id, k * stride), Iter(Body(body, id, stride, env), k, st));
      }
    case IfRange(v, start, stop, body) =>
      SameWithinE(v, dims, which, shuffle, env, st, 0);
      if start <= AsInt(Eval(v, env, st, 0)) < stop { SameWithin(body, dims, which, shuffle, env, st); }
    case Store(arg, subs, value, _) =>
      forall x | x in subs ensures WithinE(z, x, env, st, 0) { SameWithinE(x, dims, which, shuffle, env, st, 0); }
      forall k: nat | k < Width(value) ensures WithinE(z, value, env, st, k) &&
        Within(z, arg, EvalSubs(subs, env, st), k) {
        SameWithinE(value, dims, which, shuffle, env, st, k);
        assert Within(y, arg, EvalSubs(subs, env, st), k);
      }
    case StoreLocal(_, value, _) =>
      forall k: nat | k < Width(value) ensures WithinE(z, value, env, st, k) {
        SameWithinE(value, dims, which, shuffle, env, st, k);
      }
    case Call(_, ps) =>
      forall x | x in ps ensures WithinE(z, x, env, st, 0) { SameWithinE(x, dims, which, shuffle, env, st, 0); }
  }

  lemma {:induction false} SameWithin(ss: seq<Stmt>, dims: nat -> seq<nat>, which: nat, shuffle: seq<nat>, env: Env,
                                      st: State)
    requires IsShuffle(shuffle, |dims(which)|) && WithinB(RowMajor(dims, Some(which)), ss, env, st)
    ensures WithinB(ShuffledRowMajor(dims, which, shuffle), ss, env, st)
    decreases ss, 1
  {
    if ss != [] {
      SameWithinS(ss[0], dims, which, shuffle, env, st);
      SameWithin(ss[1..], dims, which, shuffle, env, ExecS(ss[0], env, st));
    }
  }
}
