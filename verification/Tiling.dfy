/** tile: one loop becomes a loop over tiles and a loop inside the tile. */
module Tiling {
  import opened IR
  import opened Families
  import opened Semantics
  import opened Substitution
  import opened Context
  import opened Scopes

  /** L becomes L.tile + L * blockSize. */
  function TileIndex(id: LoopId, blockSize: nat, tile: LoopId): Expr
  {
    Binary(Add, Idx(tile), Binary(Mul, Idx(id), Const(blockSize)))
  }

  function TileCount(end: nat, blockSize: nat): nat
    requires blockSize > 0
  {
    end / blockSize + if end % blockSize != 0 then 1 else 0
  }

  /** The tiled loop; the last tile is range checked when the tiles do not divide the range. */
  function Tiled(L: Stmt, blockSize: nat, tile: LoopId): Stmt
    requires L.Loop? && blockSize > 0
  {
    var inner := if L.end % blockSize != 0 then [IfRange(Idx(L.id), 0, L.end, L.body)] else L.body;
    Loop(L.id, TileCount(L.end, blockSize), 1,
         [Loop(tile, blockSize, L.stride, SubstB(inner, L.id, TileIndex(L.id, blockSize, tile)))])
  }

  /** The k-th iteration of the original loop if it exists, and nothing otherwise. */
  ghost function Guarded(f: (nat, State) -> State, n: nat): (nat, State) -> State
  {
    (k: nat, x: State) => if k < n then f(k, x) else x
  }

  lemma {:induction false} TileWidth(end: nat, bs: nat)
    requires bs > 0
    ensures TileCount(end, bs) * bs >= end
    ensures end % bs == 0 ==> TileCount(end, bs) * bs == end
  {
    var q := end / bs;
    assert end == bs * q + end % bs;
    assert (q + 1) * bs == bs * q + bs;
    assert q * bs == bs * q;
  }

  /** The tiles cover the range, and cover it exactly when they divide it. */
  lemma {:induction false} TileCover(end: nat, s: nat, c: nat)
    requires s > 0 && c > 0 && end % s == 0
    ensures c * s > 0 && end / s <= TileCount(end, c * s) * c
    ensures end % (c * s) == 0 ==> end / s == TileCount(end, c * s) * c
  {
    MulGap(0, c, s);
    var T := TileCount(end, c * s);
    TripExact(end, s);
    TileWidth(end, c * s);
    Regroup(T, c, s);
    MulGap(T * c, end / s, s);
    MulGap(end / s, T * c, s);
  }

  lemma {:induction false} Regroup(a: int, b: int, c: int)
    ensures a * (b * c) == (a * b) * c
  {}

  lemma {:induction false} TileIndexValue(id: LoopId, blockSize: nat, tile: LoopId, env: Env)
    ensures var r := TileIndex(id, blockSize, tile);
      IndexOnly(r) && IndexValue(r, env) == env.Get(tile) + env.Get(id) * blockSize &&
      forall l :: Mentions(r, l) <==> l == id || l == tile
  {
    var a, b := Idx(id), Const(blockSize);
    assert IndexOnly(a) && IndexOnly(b);
    assert IndexValue(a, env) == env.Get(id) && IndexValue(b, env) == blockSize;
    var p := Binary(Mul, a, b);
    assert IndexOnly(p) && IndexValue(p, env) == env.Get(id) * blockSize;
    assert forall l :: Mentions(p, l) <==> l == id;
  }

  /** One pass over the inside of a tile is one iteration of the original loop. */
  lemma {:induction false} TileStep(L: Stmt, c: nat, tile: LoopId, scope: set<LoopId>, env: Env, t: nat, j: nat,
                                    x: State)
    requires L.Loop? && WfS(L, scope) && c > 0 && j < c
    requires tile !in scope && tile !in Bound(L)
    ensures c * L.stride > 0
    ensures
      var inner := Tiled(L, c * L.stride, tile).body[0].body;
      var f := Body(L.body, L.id, L.stride, env);
      Exec(inner, env.At(L.id, t).At(tile, j * L.stride), x) ==
      (if L.end % (c * L.stride) != 0 then Guarded(f, Trip(L.end, L.stride))(t * c + j, x) else f(t * c + j, x))
  {
    var s := L.stride;
    MulGap(0, c, s);
    var r := TileIndex(L.id, c * s, tile);
    var env1 := env.At(L.id, t).At(tile, j * s);
    var k := t * c + j;
    TileIndexValue(L.id, c * s, tile, env1);
    assert IndexValue(r, env1) == k * s by {
      assert k * s == (t * c) * s + j * s;
      assert (t * c) * s == t * (c * s);
    }
    WfScalar(L.body, scope + {L.id});
    WfBoundFresh(L.body, scope + {L.id});
    var env2 := env1.At(L.id, k * s);
    assert Exec(L.body, env2, x) == Exec(L.body, env.At(L.id, k * s), x) by {
      if MentionsB(L.body, tile) { WfMentions(L.body, scope + {L.id}, tile); }
      ExecAgree(L.body, env2, env.At(L.id, k * s), x);
    }
    if L.end % (c * s) != 0 {
      var g := IfRange(Idx(L.id), 0, L.end, L.body);
      Single(g);
      ExecSubst([g], L.id, r, env1, x);
      ExecOne(g, env2, x);
      TripRange(k, L.end, s);
    } else {
      ExecSubst(L.body, L.id, r, env1, x);
    }
  }

  /** One loop over just enough tiles, around one loop over a block. */
  lemma {:induction false} TileShape(L: Stmt, blockSize: nat, tile: LoopId)
    requires L.Loop? && 0 < blockSize < L.end
    ensures var N := Tiled(L, blockSize, tile);
      N.id == L.id && N.stride == 1 && (N.end - 1) * blockSize < L.end <= N.end * blockSize &&
      |N.body| == 1 && N.body[0].Loop? && N.body[0].id == tile &&
      N.body[0].end == blockSize && N.body[0].stride == L.stride
  {
    var q, r := L.end / blockSize, L.end % blockSize;
    assert L.end == blockSize * q + r && blockSize * q == q * blockSize;
    assert (q + 1) * blockSize == q * blockSize + blockSize && (q - 1) * blockSize == q * blockSize - blockSize;
  }

  /** Tiling runs exactly the original iterations in the original order. */
  lemma {:induction false} TilePreserves(L: Stmt, blockSize: nat, tile: LoopId, scope: set<LoopId>)
    requires L.Loop? && WfS(L, scope) && blockSize > 0 && blockSize % L.stride == 0
    requires tile !in scope && tile !in Bound(L)
    ensures SameIn(map[], [L], [Tiled(L, blockSize, tile)])
  {
    var s := L.stride;
    var c := blockSize / s;
    assert blockSize == c * s by { TripExact(blockSize, s); }
    assert c > 0;
    var N := Tiled(L, blockSize, tile);
    var T := TileCount(L.end, blockSize);
    var n := Trip(L.end, s);
    TripExact(L.end, s);
    TileCover(L.end, s, c);
    TripMul(T, 1);
    TripMul(c, s);
    var tl := N.body[0];
    forall env: Env, st: State
      ensures Exec([L], env, st) == Exec([N], env, st)
    {
      var f := Body(L.body, L.id, s, env);
      var g := Guarded(f, n);
      var h := if L.end % blockSize != 0 then g else f;
      ExecOne(L, env, st);
      ExecOne(N, env, st);
      ExecLoop(L.id, L.end, s, L.body, env, st);
      ExecLoop(L.id, T, 1, N.body, env, st);
      forall t: nat, x: State
        ensures Body(N.body, L.id, 1, env)(t, x) == Blocks(h, c)(t, x)
      {
        var env1 := env.At(L.id, t);
        ExecOne(tl, env1, x);
        ExecLoop(tile, blockSize, s, tl.body, env1, x);
        forall j: nat, y: State | j < c
          ensures Body(tl.body, tile, s, env1)(j, y) == Shift(h, t * c)(j, y)
        {
          TileStep(L, c, tile, scope, env, t, j, y);
        }
        IterCong(Body(tl.body, tile, s, env1), Shift(h, t * c), c, x);
      }
      IterCong(Body(N.body, L.id, 1, env), Blocks(h, c), T, st);
      IterBlocks(h, c, T, st);
      if L.end % blockSize != 0 {
        IterIdle(g, n, T * c - n, st);
        IterCong(g, f, n, st);
      }
    }
  }

  /** The tiled loop passes verify() again. */
  lemma {:induction false} TileWf(L: Stmt, blockSize: nat, tile: LoopId, scope: set<LoopId>)
    requires L.Loop? && WfS(L, scope) && 0 < blockSize < L.end && blockSize % L.stride == 0
    requires tile !in scope && tile !in Bound(L)
    ensures WfS(Tiled(L, blockSize, tile), scope) && Bound(Tiled(L, blockSize, tile)) == Bound(L) + {tile}
  {
    var inner := if L.end % blockSize != 0 then [IfRange(Idx(L.id), 0, L.end, L.body)] else L.body;
    var r := TileIndex(L.id, blockSize, tile);
    var s1 := scope + {L.id};
    var s2 := s1 + {tile};
    if L.end % blockSize != 0 { Single(inner[0]); }
    assert BoundB(inner) == BoundB(L.body);
    WfBoundFresh(L.body, s1);
    assert WfB(inner, s1);
    SubstWf(inner, L.id, r, s1, s2);
    var N := Tiled(L, blockSize, tile);
    Single(N.body[0]);
    MulGap(L.end / blockSize, 1, blockSize);
    assert L.end == blockSize * (L.end / blockSize) + L.end % blockSize;
  }

  /** tile(L, blockSize) for the loop at parent.body[pos]. */
  method Tile(parent: Scope, pos: nat, blockSize: nat, ids: IdSupply, ghost scope: set<LoopId>)
    returns (NL: Option<LoopId>)
    requires pos < |parent.body| && parent.body[pos].Loop? && blockSize > 0
    requires WfB(parent.body, scope) && ids.Newer(scope) && ids.Newer(BoundB(parent.body))
    modifies parent, ids
    ensures NL.Some? <==>
      var L := old(parent.body[pos]);
      L.end > blockSize && L.stride > 0 && blockSize % L.stride == 0
    ensures NL.None? ==> parent.body == old(parent.body)
    ensures NL.Some? ==> parent.body == old(parent.body)[pos := Tiled(old(parent.body[pos]), blockSize, NL.value)]
    ensures NL.Some? ==>
      var L, N := old(parent.body[pos]), parent.body[pos];
      N.Loop? && N.id == L.id && N.stride == 1 && (N.end - 1) * blockSize < L.end <= N.end * blockSize &&
      |N.body| == 1 && N.body[0].Loop? && N.body[0].end == blockSize && N.body[0].stride == L.stride
    ensures SameIn(map[], old(parent.body), parent.body)
    ensures WfB(parent.body, scope) && ids.Newer(scope) && ids.Newer(BoundB(parent.body))
  {
    hide WfB, Bound, SubstB;
    var L := parent.body[pos];
    if L.end <= blockSize { return None; }
    SplitAt(parent.body, pos, scope);
    assert L.stride > 0;
    if blockSize % L.stride != 0 { return None; }
    var needRangeCheck := L.end % blockSize != 0;
    var origLoopRange := L.end;
    ghost var old_ := L;
    var tile := ids.Fresh();
    var stride := L.stride;
    var content := L.body;
    // Update the trip count, then move the content behind the new loop.
    L := Loop(L.id, L.end / blockSize + (if needRangeCheck then 1 else 0), 1, []);
    if needRangeCheck {
      content := [IfRange(Idx(L.id), 0, origLoopRange, content)];
    }
    var newLoop := Loop(tile, blockSize, stride, SubstB(content, L.id, TileIndex(L.id, blockSize, tile)));
    L := Loop(L.id, L.end, L.stride, [newLoop]);
    assert L == Tiled(old_, blockSize, tile);
    TilePreserves(old_, blockSize, tile, scope);
    TileWf(old_, blockSize, tile, scope);
    TileShape(old_, blockSize, tile);
    Single(L);
    SplicedWf(parent.body, pos, [L], scope);
    SplicedSame(map[], parent.body, pos, [L]);
    assert Spliced(parent.body, pos, [L]) == parent.body[pos := L];
    parent.ReplaceStmt(L, pos);
    NL := Some(tile);
  }
}
