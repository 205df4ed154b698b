/** peelLoop and unrollLoop. */
module Peeling {
  import opened IR
  import opened Families
  import opened Semantics
  import opened Substitution
  import opened Clone
  import opened Context
  import opened Scopes

  // ---- peelLoop -----------------------------------------------------------------

  function PeelIndex(k: nat, l: LoopId): Expr { Binary(Add, Const(k), Idx(l)) }

  /** The second loop: a clone over the remaining range, counting from k. */
  function PeeledTail(L: Stmt, k: nat, next: LoopId): Stmt
    requires L.Loop? && k <= L.end
  {
    var c := CloneB(L.body, map[L.id := next], next + 1);
    Loop(next, L.end - k, L.stride, SubstB(c.out, next, PeelIndex(k, next)))
  }

  function PeeledHead(L: Stmt, k: nat): Stmt
    requires L.Loop?
  {
    Loop(L.id, k, L.stride, L.body)
  }

  lemma {:induction false} PeelIndexValue(k: nat, l: LoopId, env: Env)
    ensures IndexOnly(PeelIndex(k, l)) && IndexValue(PeelIndex(k, l), env) == k + env.Get(l)
    ensures forall x :: Mentions(PeelIndex(k, l), x) <==> x == l
  {
    var a, b := Const(k), Idx(l);
    assert IndexOnly(a) && IndexOnly(b) && IndexValue(a, env) == k && IndexValue(b, env) == env.Get(l);
  }

  lemma {:induction false} PeelTailStep(L: Stmt, k: nat, next: LoopId, scope: set<LoopId>, env: Env, j: nat, x: State)
    requires L.Loop? && WfS(L, scope) && k <= L.end && k % L.stride == 0
    requires Below(scope, next) && Below(Bound(L), next)
    ensures
      Body(PeeledTail(L, k, next).body, next, L.stride, env)(j, x) ==
      Shift(Body(L.body, L.id, L.stride, env), k / L.stride)(j, x)
  {
    var s := L.stride;
    var c := CloneB(L.body, map[L.id := next], next + 1);
    var r := PeelIndex(k, next);
    var env1 := env.At(next, j * s);
    PeelIndexValue(k, next, env1);
    var v := k + j * s;
    TripExact(k, s);
    assert v == (k / s + j) * s;
    var ctx := map[L.id := next];
    assert L.id in Bound(L);
    CloneWf(L.body, ctx, next + 1, scope + {L.id}, scope + {next});
    WfScalar(c.out, scope + {next});
    ExecSubst(c.out, next, r, env1, x);
    CloneExec(L.body, ctx, next + 1, scope + {L.id}, scope + {next}, env.At(L.id, v), env1.At(next, v), x);
  }

  /** Peeling runs exactly the original iterations in the original order. */
  lemma {:induction false} PeelPreserves(L: Stmt, k: nat, next: LoopId, scope: set<LoopId>)
    requires L.Loop? && WfS(L, scope) && k <= L.end && k % L.stride == 0
    requires Below(scope, next) && Below(Bound(L), next)
    ensures SameIn(map[], [L], [PeeledHead(L, k), PeeledTail(L, k, next)])
  {
    var s := L.stride;
    var H, T := PeeledHead(L, k), PeeledTail(L, k, next);
    var m, n := k / s, (L.end - k) / s;
    TripExact(L.end, s);
    TripExact(k, s);
    assert L.end - k == (L.end / s - m) * s;
    MulDiv(L.end / s - m, s);
    TripExact(L.end - k, s);
    assert L.end / s == m + n;
    forall env: Env, st: State
      ensures Exec([L], env, st) == Exec([H, T], env, st)
    {
      var f := Body(L.body, L.id, s, env);
      ExecOne(L, env, st);
      ExecLoop(L.id, L.end, s, L.body, env, st);
      assert [H, T] == [H] + [T];
      ExecAppend([H], [T], env, st);
      ExecOne(H, env, st);
      ExecLoop(L.id, k, s, L.body, env, st);
      var mid := Iter(f, m, st);
      ExecOne(T, env, mid);
      ExecLoop(next, L.end - k, s, T.body, env, mid);
      forall j: nat, x: State
        ensures Body(T.body, next, s, env)(j, x) == Shift(f, m)(j, x)
      {
        PeelTailStep(L, k, next, scope, env, j, x);
      }
      IterCong(Body(T.body, next, s, env), Shift(f, m), n, mid);
      IterSplit(f, m, n, st);
    }
  }

  /** Both loops pass verify() exactly when the cut leaves the second one a range. */
  lemma {:induction false} PeelWf(L: Stmt, k: nat, next: LoopId, scope: set<LoopId>)
    requires L.Loop? && WfS(L, scope) && 0 < k <= L.end && k % L.stride == 0
    requires Below(scope, next) && Below(Bound(L), next)
    ensures WfB([PeeledHead(L, k), PeeledTail(L, k, next)], scope) <==> k < L.end
    ensures Bound(PeeledHead(L, k)) == Bound(L)
    ensures Between(Bound(PeeledTail(L, k, next)), next, CloneB(L.body, map[L.id := next], next + 1).next)
    ensures next < CloneB(L.body, map[L.id := next], next + 1).next
  {
    var s := L.stride;
    var ctx := map[L.id := next];
    var c := CloneB(L.body, ctx, next + 1);
    var H, T := PeeledHead(L, k), PeeledTail(L, k, next);
    assert L.id in Bound(L);
    CloneWf(L.body, ctx, next + 1, scope + {L.id}, scope + {next});
    CloneCtxB(L.body, ctx, next + 1);
    PeelIndexValue(k, next, Env(EmptyMachine(), map[]));
    SubstWf(c.out, next, PeelIndex(k, next), scope + {next}, scope + {next});
    TripExact(L.end, s);
    TripExact(k, s);
    assert L.end - k == (L.end / s - k / s) * s;
    MulDiv(L.end / s - k / s, s);
    Single(T);
    assert [H, T][1..] == [T];
  }

  lemma {:induction false} PeelSpliced(ss: seq<Stmt>, pos: nat, k: nat, next: LoopId, scope: set<LoopId>)
    requires pos < |ss| && ss[pos].Loop? && WfB(ss, scope) && Below(scope, next) && Below(BoundB(ss), next)
    requires WfS(ss[pos], scope) && 0 < k <= ss[pos].end && k % ss[pos].stride == 0
    ensures var L := ss[pos];
      var ss' := Spliced(ss, pos, [PeeledHead(L, k), PeeledTail(L, k, next)]);
      SameIn(map[], ss, ss') && (WfB(ss', scope) <==> k < L.end) &&
      CloneB(L.body, map[L.id := next], next + 1).next > next &&
      Below(BoundB(ss'), CloneB(L.body, map[L.id := next], next + 1).next)
  {
    var L := ss[pos];
    var r := [PeeledHead(L, k), PeeledTail(L, k, next)];
    SplitAt(ss, pos, scope);
    PeelPreserves(L, k, next, scope);
    SplicedSame(map[], ss, pos, r);
    PeelWf(L, k, next, scope);
    assert r == [r[0]] + [r[1]];
    BoundAppend([r[0]], [r[1]]);
    Single(r[0]);
    Single(r[1]);
    BoundSpliced(ss, pos, r);
    if k < L.end {
      SplicedWf(ss, pos, r, scope);
    } else {
      assert !WfS(r[1], scope);
      WfAppend(ss[..pos] + r, ss[pos + 1..], scope);
      WfAppend(ss[..pos], r, scope);
    }
  }

  lemma {:induction false} ModFromEnd(end: nat, k: int, s: nat)
    requires s > 0 && end % s == 0
    ensures (end + k) % s == k % s
  {
    var q, r := k / s, k % s;
    TripExact(end, s);
    assert k == s * q + r && s * q == q * s;
    assert (end / s + q) * s == (end / s) * s + q * s;
    DivUnique(end + k, s, end / s + q, r);
  }

  /** peelLoop(L, k) for the loop at parent.body[pos]. */
  method PeelLoop(parent: Scope, pos: nat, k: int, ids: IdSupply, ghost scope: set<LoopId>)
    returns (L2: Option<LoopId>)
    requires pos < |parent.body| && parent.body[pos].Loop?
    requires WfB(parent.body, scope) && ids.Newer(scope) && ids.Newer(BoundB(parent.body))
    modifies parent, ids
    ensures var L := old(parent.body[pos]);
      L.stride > 0 && (L2.None? <==> k > L.end || -k >= L.end || k % L.stride != 0)
    ensures L2.None? ==> parent.body == old(parent.body)
    // A positive k is what the first loop keeps, any other -k is what the second one gets.
    ensures L2.Some? ==>
      var L := old(parent.body[pos]);
      var kept: nat := if k >= 1 then k else L.end + k;
      L2.value == old(ids.next) && kept <= L.end &&
      parent.body == Spliced(old(parent.body), pos, [PeeledHead(L, kept), PeeledTail(L, kept, old(ids.next))]) &&
      (WfB(parent.body, scope) <==> k != 0 && k != L.end)
    ensures L2.Some? ==>
      pos + 1 < |parent.body| && parent.body[pos].Loop? && parent.body[pos + 1].Loop? &&
      parent.body[pos].end + parent.body[pos + 1].end == old(parent.body[pos].end) &&
      (if k >= 1 then parent.body[pos].end == k else parent.body[pos + 1].end == -k)
    ensures SameIn(map[], old(parent.body), parent.body)
    ensures ids.Newer(scope) && ids.Newer(BoundB(parent.body))
  {
    var L := parent.body[pos];
    SplitAt(parent.body, pos, scope);
    assert WfS(L, scope);
    var origLoopEndRange := L.end;
    var cut := k;
    if cut < 1 {
      if -cut < origLoopEndRange {
        cut := origLoopEndRange + cut;
      } else {
        return None;
      }
    }
    assert k < 1 ==> cut % L.stride == k % L.stride by { ModFromEnd(L.end, k, L.stride); }
    if origLoopEndRange < cut || cut % L.stride != 0 { return None; }
    ghost var before := parent.body;
    ghost var next := ids.next;
    // The original loop keeps the first iterations.
    parent.ReplaceStmt(Loop(L.id, cut, L.stride, L.body), pos);
    var l2 := ids.Fresh();
    var c := CloneB(L.body, map[L.id := l2], ids.next);
    ids.next := c.next;
    // The clone runs the rest, shifted by the cut.
    var tail := Loop(l2, origLoopEndRange - cut, L.stride, SubstB(c.out, l2, Binary(Add, Const(cut), Idx(l2))));
    parent.InsertAfterStmt(tail, pos);
    assert tail == PeeledTail(L, cut, next);
    SplicedTwo(before, pos, PeeledHead(L, cut), tail);
    assert parent.body[pos] == PeeledHead(L, cut) && parent.body[pos + 1] == tail;
    PeelSpliced(before, pos, cut, next, scope);
    L2 := Some(l2);
  }

  /** Peeling everything (k equal to the end, or zero) leaves an empty loop behind, which
      verify() rejects; every other accepted k is fine. */
  lemma {:induction false} PeelAllIsIllFormed(L: Stmt, next: LoopId, scope: set<LoopId>)
    requires L.Loop? && WfS(L, scope) && Below(scope, next) && Below(Bound(L), next)
    ensures !WfS(PeeledTail(L, L.end, next), scope)
    ensures forall k: int :: -k < L.end && k < L.end && k != 0 && k % L.stride == 0 ==>
      var kept: nat := if k >= 1 then k else L.end + k;
      WfB([PeeledHead(L, kept), PeeledTail(L, kept, next)], scope)
  {
    forall k: int | -k < L.end && k < L.end && k != 0 && k % L.stride == 0
      ensures var kept: nat := if k >= 1 then k else L.end + k;
        WfB([PeeledHead(L, kept), PeeledTail(L, kept, next)], scope)
    {
      ModFromEnd(L.end, k, L.stride);
      PeelWf(L, if k >= 1 then k else L.end + k, next, scope);
    }
  }

  // ---- unrollLoop -----------------------------------------------------------------

  datatype Copies = Copies(out: seq<Stmt>, next: LoopId)

  /** One copy of a loop body at index value v; every statement is cloned on its own. */
  function BodyCopy(ss: seq<Stmt>, id: LoopId, v: int, next: LoopId): Copies
  {
    if ss == [] then Copies([], next)
    else
      var c := CloneS(ss[0], map[], next);
      var rest := BodyCopy(ss[1..], id, v, c.next);
      Copies(SubstB(c.out, id, Const(v)) + rest.out, rest.next)
  }

  /** The copies of iterations 0, stride, ..., (n-1)*stride. */
  function Unrolled(body: seq<Stmt>, id: LoopId, stride: nat, n: nat, next: LoopId): Copies
  {
    if n == 0 then Copies([], next)
    else
      var a := Unrolled(body, id, stride, n - 1, next);
      var b := BodyCopy(body, id, (n - 1) * stride, a.next);
      Copies(a.out + b.out, b.next)
  }

  lemma {:induction false} BodyCopyWf(ss: seq<Stmt>, id: LoopId, v: int, next: LoopId, scope: set<LoopId>)
    requires WfB(ss, scope + {id}) && id !in scope && Below(scope, next) && id < next
    ensures var c := BodyCopy(ss, id, v, next);
      c.next >= next && WfB(c.out, scope) && Between(BoundB(c.out), next, c.next)
  {
    if ss != [] {
      var inner := scope + {id};
      var c := CloneS(ss[0], map[], next);
      CloneCtxS(ss[0], map[], next);
      CloneWfS(ss[0], map[], next, inner, inner);
      BodyCopyWf(ss[1..], id, v, c.next, scope);
      var rest := BodyCopy(ss[1..], id, v, c.next);
      Single(c.out[0]);
      assert c.out == [c.out[0]];
      SubstWf(c.out, id, Const(v), inner, scope);
      var first := SubstB(c.out, id, Const(v));
      WfAppend(first, rest.out, scope);
      BoundAppend(first, rest.out);
    }
  }

  lemma {:induction false} BodyCopyExec(ss: seq<Stmt>, id: LoopId, v: int, next: LoopId, scope: set<LoopId>,
                                        env: Env, st: State)
    requires WfB(ss, scope + {id}) && id !in scope && Below(scope, next) && id < next
    ensures Exec(BodyCopy(ss, id, v, next).out, env, st) == Exec(ss, env.At(id, v), st)
  {
    if ss != [] {
      var inner := scope + {id};
      var env' := env.At(id, v);
      var c := CloneS(ss[0], map[], next);
      CloneCtxS(ss[0], map[], next);
      CloneWfS(ss[0], map[], next, inner, inner);
      Single(c.out[0]);
      assert c.out == [c.out[0]];
      WfScalar(c.out, inner);
      var first := SubstB(c.out, id, Const(v));
      var rest := BodyCopy(ss[1..], id, v, c.next).out;
      ExecAppend(first, rest, env, st);
      ExecSubst(c.out, id, Const(v), env, st);
      CloneExecS(ss[0], map[], next, inner, inner, env', env', st);
      BodyCopyExec(ss[1..], id, v, c.next, scope, env, ExecS(ss[0], env', st));
    }
  }

  lemma {:induction false} UnrolledWf(body: seq<Stmt>, id: LoopId, stride: nat, n: nat, next: LoopId,
                                      scope: set<LoopId>)
    requires WfB(body, scope + {id}) && id !in scope && Below(scope, next) && id < next
    ensures var c := Unrolled(body, id, stride, n, next);
      c.next >= next && WfB(c.out, scope) && Between(BoundB(c.out), next, c.next)
  {
    if n > 0 {
      UnrolledWf(body, id, stride, n - 1, next, scope);
      var a := Unrolled(body, id, stride, n - 1, next);
      BodyCopyWf(body, id, (n - 1) * stride, a.next, scope);
      var b := BodyCopy(body, id, (n - 1) * stride, a.next);
      WfAppend(a.out, b.out, scope);
      BoundAppend(a.out, b.out);
    }
  }

  lemma {:induction false} UnrolledExec(body: seq<Stmt>, id: LoopId, stride: nat, n: nat, next: LoopId,
                                        scope: set<LoopId>, env: Env, st: State)
    requires WfB(body, scope + {id}) && id !in scope && Below(scope, next) && id < next
    ensures Exec(Unrolled(body, id, stride, n, next).out, env, st) == Iter(Body(body, id, stride, env), n, st)
  {
    hide WfB, BodyCopy;
    if n > 0 {
      UnrolledExec(body, id, stride, n - 1, next, scope, env, st);
      UnrolledWf(body, id, stride, n - 1, next, scope);
      var a := Unrolled(body, id, stride, n - 1, next);
      var b := BodyCopy(body, id, (n - 1) * stride, a.next);
      ExecAppend(a.out, b.out, env, st);
      BodyCopyExec(body, id, (n - 1) * stride, a.next, scope, env, Exec(a.out, env, st));
    }
  }

  lemma {:induction false} BodyCopyLength(ss: seq<Stmt>, id: LoopId, v: int, next: LoopId)
    ensures |BodyCopy(ss, id, v, next).out| == |ss|
  {
    if ss != [] {
      var c := CloneS(ss[0], map[], next);
      BodyCopyLength(ss[1..], id, v, c.next);
      assert c.out == [c.out[0]] && c.out[1..] == [];
      assert SubstB([], id, Const(v)) == [];
      assert |SubstB(c.out, id, Const(v))| == 1;
    }
  }

  /** The k-th run of |body| statements does what iteration k did, and there is nothing else. */
  lemma {:induction false} UnrolledPart(body: seq<Stmt>, id: LoopId, stride: nat, n: nat, next: LoopId,
                                        scope: set<LoopId>, k: nat, env: Env, st: State)
    requires WfB(body, scope + {id}) && id !in scope && Below(scope, next) && id < next && k < n
    ensures var out := Unrolled(body, id, stride, n, next).out;
      |out| == n * |body| && 0 <= k * |body| <= (k + 1) * |body| <= |out| &&
      Exec(out[k * |body|..(k + 1) * |body|], env, st) == Exec(body, env.At(id, k * stride), st)
  {
    hide WfB, BodyCopy, Exec, Unrolled;
    var m := |body|;
    var a := Unrolled(body, id, stride, n - 1, next);
    var b := BodyCopy(body, id, (n - 1) * stride, a.next);
    var out := Unrolled(body, id, stride, n, next).out;
    assert out == a.out + b.out by { UnrolledSnoc(body, id, stride, n, next); }
    UnrolledLength(body, id, stride, n, next);
    UnrolledLength(body, id, stride, n - 1, next);
    PartBounds(k, n, m);
    if k == n - 1 {
      UnrolledWf(body, id, stride, n - 1, next, scope);
      BodyCopyExec(body, id, k * stride, a.next, scope, env, st);
      assert out[k * m..(k + 1) * m] == b.out;
    } else {
      UnrolledPart(body, id, stride, n - 1, next, scope, k, env, st);
      PartBounds(k, n - 1, m);
      assert out[k * m..(k + 1) * m] == a.out[k * m..(k + 1) * m];
    }
  }

  lemma {:induction false} PartBounds(k: nat, n: nat, m: nat)
    requires k < n
    ensures 0 <= k * m <= k * m + m == (k + 1) * m <= n * m && n * m == (n - 1) * m + m
  {
    MulNonneg(k, m);
    MulNonneg(n - 1 - k, m);
    assert (n - 1 - k) * m == n * m - m - k * m;
  }

  lemma {:induction false} UnrolledSnoc(body: seq<Stmt>, id: LoopId, stride: nat, n: nat, next: LoopId)
    requires n > 0
    ensures var a := Unrolled(body, id, stride, n - 1, next);
      Unrolled(body, id, stride, n, next).out == a.out + BodyCopy(body, id, (n - 1) * stride, a.next).out
  {}

  lemma {:induction false} UnrolledLength(body: seq<Stmt>, id: LoopId, stride: nat, n: nat, next: LoopId)
    ensures |Unrolled(body, id, stride, n, next).out| == n * |body|
  {
    if n > 0 {
      UnrolledLength(body, id, stride, n - 1, next);
      BodyCopyLength(body, id, (n - 1) * stride, Unrolled(body, id, stride, n - 1, next).next);
      assert n * |body| == (n - 1) * |body| + |body|;
    }
  }

  /** Unrolling runs exactly the original iterations in the original order. */
  lemma {:induction false} UnrollPreserves(L: Stmt, next: LoopId, scope: set<LoopId>)
    requires L.Loop? && WfS(L, scope) && Below(scope, next) && Below(Bound(L), next)
    ensures SameIn(map[], [L], Unrolled(L.body, L.id, L.stride, Trip(L.end, L.stride), next).out)
  {
    assert L.id in Bound(L);
    forall env: Env, st: State
      ensures Exec([L], env, st) == Exec(Unrolled(L.body, L.id, L.stride, Trip(L.end, L.stride), next).out, env, st)
    {
      ExecOne(L, env, st);
      ExecLoop(L.id, L.end, L.stride, L.body, env, st);
      UnrolledExec(L.body, L.id, L.stride, Trip(L.end, L.stride), next, scope, env, st);
    }
  }

  lemma {:induction false} BodyCopySnoc(a: seq<Stmt>, s: Stmt, id: LoopId, v: int, next: LoopId)
    ensures var c := BodyCopy(a, id, v, next);
      BodyCopy(a + [s], id, v, next) ==
      Copies(c.out + SubstB(CloneS(s, map[], c.next).out, id, Const(v)), CloneS(s, map[], c.next).next)
  {
    if a == [] {
      assert a + [s] == [s] && [s][1..] == [];
      var c := CloneS(s, map[], next);
      assert BodyCopy([], id, v, c.next) == Copies([], c.next);
      assert BodyCopy([s], id, v, next).out == SubstB(c.out, id, Const(v)) + [];
    } else {
      assert (a + [s])[0] == a[0] && (a + [s])[1..] == a[1..] + [s];
      BodyCopySnoc(a[1..], s, id, v, CloneS(a[0], map[], next).next);
    }
  }

  /** The unrolled bodies, iteration by iteration and statement by statement. */
  method CollectUnrolledBodies(L: Stmt, ids: IdSupply) returns (unrolledBodies: seq<Stmt>)
    requires L.Loop? && L.stride > 0
    modifies ids
    ensures Copies(unrolledBodies, ids.next) == Unrolled(L.body, L.id, L.stride, Trip(L.end, L.stride), old(ids.next))
  {
    unrolledBodies := [];
    var iter := 0;
    ghost var k: nat := 0;
    TripRange(0, L.end, L.stride);
    while iter < L.end
      invariant iter == k * L.stride && (k == 0 || k - 1 < Trip(L.end, L.stride))
      invariant Copies(unrolledBodies, ids.next) == Unrolled(L.body, L.id, L.stride, k, old(ids.next))
      decreases L.end - iter
    {
      ghost var soFar := Copies(unrolledBodies, ids.next);
      var j := 0;
      while j < |L.body|
        invariant 0 <= j <= |L.body|
        invariant var c := BodyCopy(L.body[..j], L.id, iter, soFar.next);
          unrolledBodies == soFar.out + c.out && ids.next == c.next
      {
        var c := CloneS(L.body[j], map[], ids.next);
        BodyCopySnoc(L.body[..j], L.body[j], L.id, iter, soFar.next);
        assert L.body[..j + 1] == L.body[..j] + [L.body[j]];
        unrolledBodies := unrolledBodies + SubstB(c.out, L.id, Const(iter));
        ids.next := c.next;
        j := j + 1;
      }
      assert L.body[..j] == L.body;
      TripRange(k, L.end, L.stride);
      iter := iter + L.stride;
      k := k + 1;
    }
    TripRange(k, L.end, L.stride);
  }

  lemma {:induction false} UnrollSpliced(ss: seq<Stmt>, pos: nat, next: LoopId, scope: set<LoopId>)
    requires pos < |ss| && ss[pos].Loop? && WfB(ss, scope) && Below(scope, next) && Below(BoundB(ss), next)
    ensures var L := ss[pos];
      var c := Unrolled(L.body, L.id, L.stride, Trip(L.end, L.stride), next);
      var ss' := Spliced(ss, pos, c.out);
      SameIn(map[], ss, ss') && WfB(ss', scope) && c.next >= next && Below(BoundB(ss'), c.next)
  {
    var L := ss[pos];
    SplitAt(ss, pos, scope);
    assert L.id in Bound(L);
    UnrollPreserves(L, next, scope);
    var out := Unrolled(L.body, L.id, L.stride, Trip(L.end, L.stride), next).out;
    SplicedSame(map[], ss, pos, out);
    UnrolledWf(L.body, L.id, L.stride, Trip(L.end, L.stride), next, scope);
    SplicedWf(ss, pos, out, scope);
  }

  /** unrollLoop(L, maxTripCount) for the loop at parent.body[pos]. */
  method UnrollLoop(parent: Scope, pos: nat, maxTripCount: nat, ids: IdSupply, ghost scope: set<LoopId>)
    returns (changed: bool)
    requires pos < |parent.body| && parent.body[pos].Loop?
    requires WfB(parent.body, scope) && ids.Newer(scope) && ids.Newer(BoundB(parent.body))
    modifies parent, ids
    ensures changed <==> old(parent.body[pos].end) <= maxTripCount
    ensures !changed ==> parent.body == old(parent.body)
    ensures changed ==>
      var L := old(parent.body[pos]);
      parent.body == Spliced(old(parent.body), pos,
                             Unrolled(L.body, L.id, L.stride, Trip(L.end, L.stride), old(ids.next)).out) &&
      |parent.body| == |old(parent.body)| - 1 + Trip(L.end, L.stride) * |L.body|
    ensures SameIn(map[], old(parent.body), parent.body)
    ensures WfB(parent.body, scope) && ids.Newer(scope) && ids.Newer(BoundB(parent.body))
  {
    var L := parent.body[pos];
    if L.end > maxTripCount { return false; }
    SplitAt(parent.body, pos, scope);
    assert WfS(L, scope);
    UnrollSpliced(parent.body, pos, ids.next, scope);
    var unrolledBodies := CollectUnrolledBodies(L, ids);
    // Paste the copies before the loop, then remove it.
    parent.InsertAllBefore(unrolledBodies, pos);
    parent.RemoveStmt(pos + |unrolledBodies|);
    assert parent.body == Spliced(old(parent.body), pos, unrolledBodies);
    UnrolledLength(L.body, L.id, L.stride, Trip(L.end, L.stride), old(ids.next));
    changed := true;
  }
}
