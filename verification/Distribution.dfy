/** splitScopes and distributeAllLoops: a loop over several packets of statements becomes
    one loop per packet. */
module Distribution {
  import opened IR
  import opened Families
  import opened Semantics
  import opened Substitution
  import opened Clone
  import opened Context
  import opened Scopes

  // ---- Packets --------------------------------------------------------------------

  /** The statements of a body in packets: every scope alone, neighbouring other
      statements together. */
  function Packets(ss: seq<Stmt>): (p: seq<seq<Stmt>>)
    ensures ss != [] <==> p != []
    decreases |ss|
  {
    if ss == [] then []
    else
      var n := |ss|;
      var p := Packets(ss[..n - 1]);
      if ss[n - 1].IsScope() || n == 1 || ss[n - 2].IsScope() then p + [[ss[n - 1]]]
      else p[|p| - 1 := p[|p| - 1] + [ss[n - 1]]]
  }

  function Flatten(p: seq<seq<Stmt>>): seq<Stmt>
  {
    if p == [] then [] else p[0] + Flatten(p[1..])
  }

  lemma {:induction false} FlattenAppend(a: seq<seq<Stmt>>, b: seq<seq<Stmt>>)
    ensures Flatten(a + b) == Flatten(a) + Flatten(b)
  {
    if a == [] {
      assert a + b == b;
    } else {
      assert (a + b)[0] == a[0] && (a + b)[1..] == a[1..] + b;
      FlattenAppend(a[1..], b);
    }
  }

  lemma {:induction false} FlattenSnoc(p: seq<seq<Stmt>>, x: seq<Stmt>)
    ensures Flatten(p + [x]) == Flatten(p) + x
  {
    FlattenAppend(p, [x]);
    assert Flatten([x]) == x + Flatten([x][1..]);
  }

  /** A packet is one scope, or a run of statements that are not scopes. */
  predicate GoodPacket(p: seq<Stmt>)
  {
    p != [] && ((|p| == 1 && p[0].IsScope()) || forall s | s in p :: !s.IsScope())
  }

  /** A statement that is no scope joins the last packet. */
  lemma {:induction false} PacketGrows(p: seq<seq<Stmt>>, s: Stmt)
    requires p != [] && (forall q | q in p :: GoodPacket(q)) && !s.IsScope()
    requires p[|p| - 1] != [] && !p[|p| - 1][0].IsScope()
    ensures var k := |p| - 1;
      var p' := p[..k] + [p[k] + [s]];
      Flatten(p') == Flatten(p) + [s] && (forall q | q in p' :: GoodPacket(q)) && !p'[k][0].IsScope()
  {
    var k := |p| - 1;
    assert p == p[..k] + [p[k]];
    FlattenSnoc(p[..k], p[k]);
    FlattenSnoc(p[..k], p[k] + [s]);
    assert p[k] in p;
    var p' := p[..k] + [p[k] + [s]];
    forall q | q in p' ensures GoodPacket(q) {
      if q != p[k] + [s] { assert q in p[..k]; assert q in p; }
    }
  }

  /** The packets keep every statement in order, and are packets. */
  lemma {:induction false} PacketsPartition(ss: seq<Stmt>)
    ensures Flatten(Packets(ss)) == ss
    ensures forall p | p in Packets(ss) :: GoodPacket(p)
    ensures ss != [] && !ss[|ss| - 1].IsScope() ==> !Packets(ss)[|Packets(ss)| - 1][0].IsScope()
    decreases |ss|
  {
    if ss != [] {
      var n := |ss|;
      var init := ss[..n - 1];
      PacketsPartition(init);
      var p := Packets(init);
      if ss[n - 1].IsScope() || n == 1 || ss[n - 2].IsScope() {
        FlattenSnoc(p, [ss[n - 1]]);
      } else {
        var k := |p| - 1;
        PacketGrows(p, ss[n - 1]);
        assert Packets(ss) == p[..k] + [p[k] + [ss[n - 1]]];
        assert init + [ss[n - 1]] == ss;
      }
    }
  }

  /** How many statements of ss open a new packet. */
  function Starts(ss: seq<Stmt>, afterScope: bool): nat
  {
    if ss == [] then 0
    else (if ss[0].IsScope() || afterScope then 1 else 0) + Starts(ss[1..], ss[0].IsScope())
  }

  lemma {:induction false} StartsAppend(a: seq<Stmt>, b: seq<Stmt>, afterScope: bool)
    ensures Starts(a + b, afterScope) ==
      Starts(a, afterScope) + Starts(b, if a == [] then afterScope else a[|a| - 1].IsScope())
  {
    if a == [] {
      assert a + b == b;
    } else {
      assert (a + b)[0] == a[0] && (a + b)[1..] == a[1..] + b;
      StartsAppend(a[1..], b, a[0].IsScope());
    }
  }

  lemma {:induction false} PacketCount(ss: seq<Stmt>)
    ensures |Packets(ss)| == Starts(ss, true)
    decreases |ss|
  {
    if ss != [] {
      var n := |ss|;
      PacketCount(ss[..n - 1]);
      assert ss == ss[..n - 1] + [ss[n - 1]];
      StartsAppend(ss[..n - 1], [ss[n - 1]], true);
      assert [ss[n - 1]][1..] == [];
    }
  }

  lemma {:induction false} StartsAllScopes(ss: seq<Stmt>, afterScope: bool)
    requires forall s | s in ss :: s.IsScope()
    ensures Starts(ss, afterScope) == |ss|
  {
    if ss != [] {
      StartsAllScopes(ss[1..], true);
    }
  }

  // ---- The split loops --------------------------------------------------------------

  datatype Loops = Loops(out: seq<Stmt>, next: LoopId)

  /** The loop for one packet: a new loop over a clone of the packet. */
  function PacketLoop(L: Stmt, packet: seq<Stmt>, next: LoopId): Loops
    requires L.Loop?
  {
    var c := CloneB(packet, map[], next + 1);
    Loops([Loop(next, L.end, L.stride, SubstB(c.out, L.id, Idx(next)))], c.next)
  }

  function PacketLoops(L: Stmt, packets: seq<seq<Stmt>>, next: LoopId): Loops
    requires L.Loop?
    decreases |packets|
  {
    if packets == [] then Loops([], next)
    else
      var n := |packets| - 1;
      var a := PacketLoops(L, packets[..n], next);
      var b := PacketLoop(L, packets[n], a.next);
      Loops(a.out + b.out, b.next)
  }

  /** Where the loops of t have their index values, an earlier packet at a later iteration
      commutes with a later packet at an earlier iteration. */
  ghost predicate PacketsCommute(t: Table, L: Stmt, packets: seq<seq<Stmt>>)
    requires L.Loop?
  {
    forall env: Env, a: nat, b: nat, i: nat, j: nat, st: State ::
      ValidEnv(t, env) && a < b < |packets| && i < j < Trip(L.end, L.stride) ==>
        Exec(packets[a], env.At(L.id, j * L.stride), Exec(packets[b], env.At(L.id, i * L.stride), st)) ==
        Exec(packets[b], env.At(L.id, i * L.stride), Exec(packets[a], env.At(L.id, j * L.stride), st))
  }

  /** Run the packets as loops of L, one after the other. */
  ghost function RunPackets(L: Stmt, packets: seq<seq<Stmt>>, env: Env, st: State): State
    requires L.Loop?
    decreases |packets|
  {
    if packets == [] then st
    else RunPackets(L, packets[1..], env,
                    Iter(Body(packets[0], L.id, L.stride, env), Trip(L.end, L.stride), st))
  }

  /** One packet at an earlier iteration passes a block of packets at a later one. */
  lemma {:induction false} PacketPasses(p: seq<Stmt>, rest: seq<seq<Stmt>>, e1: Env, e2: Env, st: State)
    requires forall b: nat, x: State :: b < |rest| ==>
      Exec(p, e2, Exec(rest[b], e1, x)) == Exec(rest[b], e1, Exec(p, e2, x))
    ensures Exec(p, e2, Exec(Flatten(rest), e1, st)) == Exec(Flatten(rest), e1, Exec(p, e2, st))
    decreases |rest|
  {
    if rest != [] {
      var r0, tail := rest[0], rest[1..];
      ExecAppend(r0, Flatten(tail), e1, st);
      ExecAppend(r0, Flatten(tail), e1, Exec(p, e2, st));
      forall b: nat, x: State | b < |tail|
        ensures Exec(p, e2, Exec(tail[b], e1, x)) == Exec(tail[b], e1, Exec(p, e2, x))
      {
        assert tail[b] == rest[b + 1];
      }
      PacketPasses(p, tail, e1, e2, Exec(r0, e1, st));
      assert Exec(p, e2, Exec(rest[0], e1, st)) == Exec(rest[0], e1, Exec(p, e2, st));
    }
  }

  /** Loop distribution: running all packets in every iteration equals running each packet
      for all iterations. */
  lemma {:induction false} DistributePackets(t: Table, L: Stmt, packets: seq<seq<Stmt>>, env: Env, st: State)
    requires L.Loop? && PacketsCommute(t, L, packets) && ValidEnv(t, env)
    ensures Iter(Body(Flatten(packets), L.id, L.stride, env), Trip(L.end, L.stride), st) ==
            RunPackets(L, packets, env, st)
    decreases |packets|
  {
    var n, s := Trip(L.end, L.stride), L.stride;
    if packets == [] {
      var f := Body([], L.id, s, env);
      IterIdle(f, 0, n, st);
    } else {
      var rest := packets[1..];
      var f, g := Body(packets[0], L.id, s, env), Body(Flatten(rest), L.id, s, env);
      forall i: nat, j: nat, x: State | i < j < n
        ensures f(j, g(i, x)) == g(i, f(j, x))
      {
        var e1, e2 := env.At(L.id, i * s), env.At(L.id, j * s);
        forall b: nat, y: State | b < |rest|
          ensures Exec(packets[0], e2, Exec(rest[b], e1, y)) == Exec(rest[b], e1, Exec(packets[0], e2, y))
        {
          assert rest[b] == packets[b + 1];
        }
        PacketPasses(packets[0], rest, e1, e2, x);
      }
      IterDistribute(f, g, n, st);
      forall k: nat, x: State | k < n
        ensures Body(Flatten(packets), L.id, s, env)(k, x) == Then(f, g)(k, x)
      {
        ExecAppend(packets[0], Flatten(rest), env.At(L.id, k * s), x);
      }
      IterCong(Body(Flatten(packets), L.id, s, env), Then(f, g), n, st);
      assert PacketsCommute(t, L, rest) by {
        forall env: Env, a: nat, b: nat, i: nat, j: nat, x: State
          | ValidEnv(t, env) && a < b < |rest| && i < j < n
          ensures
            Exec(rest[a], env.At(L.id, j * s), Exec(rest[b], env.At(L.id, i * s), x)) ==
            Exec(rest[b], env.At(L.id, i * s), Exec(rest[a], env.At(L.id, j * s), x))
        {
          assert rest[a] == packets[a + 1] && rest[b] == packets[b + 1];
        }
      }
      DistributePackets(t, L, rest, env, Iter(f, n, st));
    }
  }

  /** The loop made for a packet does what L would do over that packet alone. */
  lemma {:induction false} PacketLoopExec(L: Stmt, packet: seq<Stmt>, next: LoopId, scope: set<LoopId>, env: Env,
                                          st: State)
    requires L.Loop? && L.id !in scope && WfB(packet, scope + {L.id})
    requires Below(scope, next) && L.id < next && Below(BoundB(packet), next)
    ensures Exec(PacketLoop(L, packet, next).out, env, st) ==
            Iter(Body(packet, L.id, L.stride, env), Trip(L.end, L.stride), st)
  {
    var inner := scope + {L.id};
    var c := CloneB(packet, map[], next + 1);
    var NL := PacketLoop(L, packet, next).out[0];
    CloneWf(packet, map[], next + 1, inner, inner);
    WfScalar(c.out, inner);
    ExecOne(NL, env, st);
    ExecLoop(next, L.end, L.stride, NL.body, env, st);
    forall k: nat, x: State
      ensures Body(NL.body, next, L.stride, env)(k, x) == Body(packet, L.id, L.stride, env)(k, x)
    {
      var v := k * L.stride;
      var e1 := env.At(next, v);
      var e2 := e1.At(L.id, v);
      ExecSubst(c.out, L.id, Idx(next), e1, x);
      CloneExec(packet, map[], next + 1, inner, inner, e2, e2, x);
      if MentionsB(packet, next) { WfMentions(packet, inner, next); }
      AtAt(env, next, v, L.id, v);
      ExecUnmentioned(packet, env.At(L.id, v), next, v, x);
    }
    IterCong(Body(NL.body, next, L.stride, env), Body(packet, L.id, L.stride, env), Trip(L.end, L.stride), st);
  }

  lemma {:induction false} PacketLoopWf(L: Stmt, packet: seq<Stmt>, next: LoopId, scope: set<LoopId>)
    requires L.Loop? && L.id !in scope && WfB(packet, scope + {L.id})
    requires Below(scope, next) && L.id < next && Below(BoundB(packet), next)
    requires L.end > 0 && 0 < L.stride < 1024 && L.end % L.stride == 0
    ensures var a := PacketLoop(L, packet, next);
      a.next > next && WfB(a.out, scope) && Between(BoundB(a.out), next, a.next)
  {
    var inner := scope + {L.id};
    var c := CloneB(packet, map[], next + 1);
    CloneWf(packet, map[], next + 1, inner, inner);
    CloneCtxB(packet, map[], next + 1);
    SubstWf(c.out, L.id, Idx(next), inner, scope + {next});
    Single(PacketLoop(L, packet, next).out[0]);
  }

  lemma {:induction false} PacketLoopsWf(L: Stmt, packets: seq<seq<Stmt>>, next: LoopId, scope: set<LoopId>)
    requires L.Loop? && L.id !in scope && Below(scope, next) && L.id < next
    requires forall p | p in packets :: WfB(p, scope + {L.id}) && Below(BoundB(p), next)
    requires L.end > 0 && 0 < L.stride < 1024 && L.end % L.stride == 0
    ensures var a := PacketLoops(L, packets, next);
      a.next >= next && WfB(a.out, scope) && Between(BoundB(a.out), next, a.next) && |a.out| == |packets| &&
      forall s | s in a.out :: s.Loop?
    decreases |packets|
  {
    if packets != [] {
      var n := |packets| - 1;
      var init := packets[..n];
      PacketLoopsWf(L, init, next, scope);
      var a := PacketLoops(L, init, next);
      assert packets[n] in packets;
      PacketLoopWf(L, packets[n], a.next, scope);
      var b := PacketLoop(L, packets[n], a.next);
      WfAppend(a.out, b.out, scope);
      BoundAppend(a.out, b.out);
    }
  }

  lemma {:induction false} RunPacketsSnoc(L: Stmt, packets: seq<seq<Stmt>>, p: seq<Stmt>, env: Env, st: State)
    requires L.Loop?
    ensures RunPackets(L, packets + [p], env, st) ==
            Iter(Body(p, L.id, L.stride, env), Trip(L.end, L.stride), RunPackets(L, packets, env, st))
    decreases |packets|
  {
    if packets == [] {
      assert packets + [p] == [p];
      assert [p][1..] == [];
    } else {
      assert (packets + [p])[0] == packets[0] && (packets + [p])[1..] == packets[1..] + [p];
      RunPacketsSnoc(L, packets[1..], p, env, Iter(Body(packets[0], L.id, L.stride, env), Trip(L.end, L.stride), st));
    }
  }

  lemma {:induction false} PacketLoopsExec(L: Stmt, packets: seq<seq<Stmt>>, next: LoopId, scope: set<LoopId>,
                                           env: Env, st: State)
    requires L.Loop? && L.id !in scope && Below(scope, next) && L.id < next
    requires forall p | p in packets :: WfB(p, scope + {L.id}) && Below(BoundB(p), next)
    requires L.end > 0 && 0 < L.stride < 1024 && L.end % L.stride == 0
    ensures Exec(PacketLoops(L, packets, next).out, env, st) == RunPackets(L, packets, env, st)
    decreases |packets|
  {
    if packets != [] {
      var n := |packets| - 1;
      var init := packets[..n];
      PacketLoopsExec(L, init, next, scope, env, st);
      PacketLoopsWf(L, init, next, scope);
      var a := PacketLoops(L, init, next);
      var b := PacketLoop(L, packets[n], a.next);
      assert packets[n] in packets;
      ExecAppend(a.out, b.out, env, st);
      PacketLoopExec(L, packets[n], a.next, scope, env, Exec(a.out, env, st));
      assert packets == init + [packets[n]];
      RunPacketsSnoc(L, init, packets[n], env, st);
    }
  }

  lemma {:induction false} FlattenWf(packets: seq<seq<Stmt>>, scope: set<LoopId>, next: LoopId)
    requires WfB(Flatten(packets), scope) && Below(BoundB(Flatten(packets)), next)
    ensures forall p | p in packets :: WfB(p, scope) && Below(BoundB(p), next)
    decreases |packets|
  {
    if packets != [] {
      WfAppend(packets[0], Flatten(packets[1..]), scope);
      BoundAppend(packets[0], Flatten(packets[1..]));
      FlattenWf(packets[1..], scope, next);
      forall p | p in packets ensures WfB(p, scope) && Below(BoundB(p), next) {
        if p != packets[0] { assert p in packets[1..]; }
      }
    }
  }

  /** splitScopes preserves meaning when reversed packet instances commute. */
  lemma {:induction false} SplitPreserves(t: Table, L: Stmt, next: LoopId, scope: set<LoopId>)
    requires L.Loop? && WfS(L, scope) && Below(scope, next) && Below(Bound(L), next)
    requires PacketsCommute(t, L, Packets(L.body))
    ensures SameIn(t, [L], PacketLoops(L, Packets(L.body), next).out)
  {
    var packets := Packets(L.body);
    PacketsPartition(L.body);
    assert L.id in Bound(L);
    FlattenWf(packets, scope + {L.id}, next);
    forall env: Env, st: State | ValidEnv(t, env)
      ensures Exec([L], env, st) == Exec(PacketLoops(L, packets, next).out, env, st)
    {
      ExecOne(L, env, st);
      ExecLoop(L.id, L.end, L.stride, L.body, env, st);
      DistributePackets(t, L, packets, env, st);
      PacketLoopsExec(L, packets, next, scope, env, st);
    }
  }

  lemma {:induction false} SplitWf(L: Stmt, next: LoopId, scope: set<LoopId>)
    requires L.Loop? && WfS(L, scope) && Below(scope, next) && Below(Bound(L), next)
    ensures var a := PacketLoops(L, Packets(L.body), next);
      a.next >= next && WfB(a.out, scope) && Between(BoundB(a.out), next, a.next) &&
      |a.out| == |Packets(L.body)| && forall s | s in a.out :: s.Loop?
  {
    PacketsPartition(L.body);
    assert L.id in Bound(L);
    FlattenWf(Packets(L.body), scope + {L.id}, next);
    PacketLoopsWf(L, Packets(L.body), next, scope);
  }

  // ---- splitScopes in place --------------------------------------------------------

  method CollectPackets(body: seq<Stmt>) returns (packets: seq<seq<Stmt>>)
    ensures packets == Packets(body)
  {
    packets := [];
    var lastIterWasScope := true;
    var i := 0;
    while i < |body|
      invariant 0 <= i <= |body|
      invariant packets == Packets(body[..i])
      invariant lastIterWasScope <==> i == 0 || body[i - 1].IsScope()
    {
      var S := body[i];
      assert body[..i + 1][..i] == body[..i];
      if S.IsScope() {
        packets := packets + [[S]];
        lastIterWasScope := true;
      } else if lastIterWasScope {
        lastIterWasScope := false;
        packets := packets + [[S]];
      } else {
        packets := packets[|packets| - 1 := packets[|packets| - 1] + [S]];
      }
      i := i + 1;
    }
    assert body[..i] == body;
  }

  lemma {:induction false} SplitSpliced(ss: seq<Stmt>, pos: nat, next: LoopId, scope: set<LoopId>)
    requires pos < |ss| && ss[pos].Loop? && WfB(ss, scope) && Below(scope, next) && Below(BoundB(ss), next)
    ensures var L := ss[pos];
      var a := PacketLoops(L, Packets(L.body), next);
      var ss' := Spliced(ss, pos, a.out);
      WfB(ss', scope) && a.next >= next && Below(BoundB(ss'), a.next) &&
      forall t :: PacketsCommute(t, L, Packets(L.body)) ==> SameIn(t, ss, ss')
  {
    var L := ss[pos];
    var a := PacketLoops(L, Packets(L.body), next);
    SplitAt(ss, pos, scope);
    SplitWf(L, next, scope);
    SplicedWf(ss, pos, a.out, scope);
    forall t | PacketsCommute(t, L, Packets(L.body)) ensures SameIn(t, ss, Spliced(ss, pos, a.out)) {
      SplitPreserves(t, L, next, scope);
      SplicedSame(t, ss, pos, a.out);
    }
  }

  /** Inserts one new loop per packet before the loop L at parent.body[pos]. */
  method InsertPacketLoops(parent: Scope, pos: nat, L: Stmt, packets: seq<seq<Stmt>>, ids: IdSupply)
    requires L.Loop? && pos < |parent.body|
    modifies parent, ids
    ensures var a := PacketLoops(L, packets, old(ids.next));
      ids.next == a.next && |a.out| == |packets| &&
      parent.body == old(parent.body)[..pos] + a.out + old(parent.body)[pos..]
  {
    ghost var before := parent.body;
    ghost var first := ids.next;
    ghost var out: seq<Stmt> := [];
    var i := 0;
    while i < |packets|
      invariant 0 <= i <= |packets|
      invariant PacketLoops(L, packets[..i], first) == Loops(out, ids.next)
      invariant |out| == i && pos + i < |parent.body|
      invariant parent.body == before[..pos] + out + before[pos..]
    {
      assert packets[..i + 1][..i] == packets[..i];
      // A new loop over a clone of the packet.
      var nl := ids.Fresh();
      var c := CloneB(packets[i], map[], ids.next);
      ids.next := c.next;
      // The packet loops line up in front of the loop they replace.
      var NL := Loop(nl, L.end, L.stride, SubstB(c.out, L.id, Idx(nl)));
      parent.InsertBeforeStmt(NL, pos + i);
      out := out + [NL];
      i := i + 1;
    }
    assert packets[..i] == packets;
  }

  /** splitScopes(L) for the loop at parent.body[pos]. */
  method SplitScopes(parent: Scope, pos: nat, ids: IdSupply, ghost scope: set<LoopId>) returns (changed: bool)
    requires pos < |parent.body| && parent.body[pos].Loop?
    requires WfB(parent.body, scope) && ids.Newer(scope) && ids.Newer(BoundB(parent.body))
    modifies parent, ids
    ensures var L := old(parent.body[pos]);
      (changed <==> |Packets(L.body)| >= 2) &&
      (!changed ==> parent.body == old(parent.body) && ids.next == old(ids.next)) &&
      (changed ==>
        var a := PacketLoops(L, Packets(L.body), old(ids.next));
        parent.body == Spliced(old(parent.body), pos, a.out) && ids.next == a.next &&
        forall t :: PacketsCommute(t, L, Packets(L.body)) ==> SameIn(t, old(parent.body), parent.body))
    ensures WfB(parent.body, scope) && ids.Newer(scope) && ids.Newer(BoundB(parent.body))
  {
    var L := parent.body[pos];
    var packets := CollectPackets(L.body);
    if |packets| < 2 { return false; }
    SplitSpliced(parent.body, pos, ids.next, scope);
    InsertPacketLoops(parent, pos, L, packets, ids);
    parent.RemoveStmt(pos + |packets|);
    assert parent.body == Spliced(old(parent.body), pos, PacketLoops(L, packets, old(ids.next)).out);
    changed := true;
  }
}
