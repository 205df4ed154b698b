/** distributeAllLoops: split the first loop that can be split, and start again. */
module DistributeAll {
  import opened IR
  import opened Substitution
  import opened Clone
  import opened Context
  import opened Scopes
  import opened Distribution

  /** Some loop has more than one packet. */
  predicate HasSplit(ss: seq<Stmt>)
  {
    ss != [] && (
      (match ss[0]
       case Loop(_, _, _, body) => |Packets(body)| >= 2 || HasSplit(body)
       case IfRange(_, _, _, body) => HasSplit(body)
       case _ => false)
      || HasSplit(ss[1..]))
  }

  /** Split the first such loop, outer loops first. */
  function SplitFirst(ss: seq<Stmt>, next: LoopId): Loops
    requires HasSplit(ss)
  {
    match ss[0]
    case Loop(id, end, stride, body) =>
      if |Packets(body)| >= 2 then
        var a := PacketLoops(ss[0], Packets(body), next);
        Loops(a.out + ss[1..], a.next)
      else if HasSplit(body) then
        var a := SplitFirst(body, next);
        Loops([Loop(id, end, stride, a.out)] + ss[1..], a.next)
      else
        var a := SplitFirst(ss[1..], next);
        Loops([ss[0]] + a.out, a.next)
    case IfRange(v, start, stop, body) =>
      if HasSplit(body) then
        var a := SplitFirst(body, next);
        Loops([IfRange(v, start, stop, a.out)] + ss[1..], a.next)
      else
        var a := SplitFirst(ss[1..], next);
        Loops([ss[0]] + a.out, a.next)
    case _ =>
      var a := SplitFirst(ss[1..], next);
      Loops([ss[0]] + a.out, a.next)
  }

  // ---- Termination --------------------------------------------------------------------

  function Less1(n: nat): nat { if n == 0 then 0 else n - 1 }

  /** The sum over loops of depth * (packets - 1); the loops of ss have the given depth. */
  function Weight(ss: seq<Stmt>, depth: nat): nat
    decreases ss
  {
    if ss == [] then 0 else WeightS(ss[0], depth) + Weight(ss[1..], depth)
  }

  function WeightS(s: Stmt, depth: nat): nat
    decreases s
  {
    match s
    case Loop(_, _, _, body) => depth * Less1(Starts(body, true)) + Weight(body, depth + 1)
    case IfRange(_, _, _, body) => Weight(body, depth)
    case _ => 0
  }

  lemma {:induction false} WeightAppend(a: seq<Stmt>, b: seq<Stmt>, depth: nat)
    ensures Weight(a + b, depth) == Weight(a, depth) + Weight(b, depth)
  {
    if a == [] {
      assert a + b == b;
    } else {
      assert (a + b)[0] == a[0] && (a + b)[1..] == a[1..] + b;
      WeightAppend(a[1..], b, depth);
    }
  }

  /** Cloning and substitution keep the nesting structure. */
  lemma {:induction false} CloneWeight(ss: seq<Stmt>, ctx: map<LoopId, LoopId>, next: LoopId, depth: nat,
                                       afterScope: bool)
    ensures var out := CloneB(ss, ctx, next).out;
      Weight(out, depth) == Weight(ss, depth) && Starts(out, afterScope) == Starts(ss, afterScope)
    decreases ss
  {
    if ss != [] {
      var a := CloneS(ss[0], ctx, next);
      CloneCtxS(ss[0], ctx, next);
      var b := CloneB(ss[1..], a.ctx, a.next);
      assert a.out + b.out == [a.out[0]] + b.out;
      CloneWeight(ss[1..], a.ctx, a.next, depth, ss[0].IsScope());
      match ss[0] {
        case Loop(id, _, _, body) => CloneWeight(body, ctx[id := next], next + 1, depth + 1, true);
        case IfRange(_, _, _, body) => CloneWeight(body, ctx, next, depth, true);
        case _ =>
      }
    }
  }

  lemma {:induction false} SubstWeight(ss: seq<Stmt>, l: LoopId, r: Expr, depth: nat, afterScope: bool)
    ensures Weight(SubstB(ss, l, r), depth) == Weight(ss, depth)
    ensures Starts(SubstB(ss, l, r), afterScope) == Starts(ss, afterScope)
    decreases ss
  {
    if ss != [] {
      SubstWeight(ss[1..], l, r, depth, ss[0].IsScope());
      assert SubstB(ss, l, r)[1..] == SubstB(ss[1..], l, r);
      match ss[0] {
        case Loop(_, _, _, body) => SubstWeight(body, l, r, depth + 1, true);
        case IfRange(_, _, _, body) => SubstWeight(body, l, r, depth, true);
        case _ =>
      }
    }
  }

  lemma {:induction false} GoodPacketStarts(p: seq<Stmt>)
    requires GoodPacket(p)
    ensures Starts(p, true) == 1
  {
    if |p| == 1 {
      assert p[1..] == [];
    } else {
      StartsNoScope(p[1..]);
    }
  }

  lemma {:induction false} StartsNoScope(p: seq<Stmt>)
    requires forall s | s in p :: !s.IsScope()
    ensures Starts(p, false) == 0
  {
    if p != [] {
      StartsNoScope(p[1..]);
    }
  }

  /** The packet loops weigh what the packets weigh one level down. */
  lemma {:induction false} PacketLoopsWeight(L: Stmt, packets: seq<seq<Stmt>>, next: LoopId, depth: nat)
    requires L.Loop? && forall p | p in packets :: GoodPacket(p)
    ensures var out := PacketLoops(L, packets, next).out;
      Weight(out, depth) == Weight(Flatten(packets), depth + 1) &&
      |out| == |packets| && forall s | s in out :: s.Loop?
    decreases |packets|
  {
    if packets != [] {
      var n := |packets| - 1;
      var init := packets[..n];
      PacketLoopsWeight(L, init, next, depth);
      var a := PacketLoops(L, init, next);
      var b := PacketLoop(L, packets[n], a.next);
      WeightAppend(a.out, b.out, depth);
      assert packets == init + [packets[n]];
      FlattenSnoc(init, packets[n]);
      WeightAppend(Flatten(init), packets[n], depth + 1);
      var c := CloneB(packets[n], map[], a.next + 1);
      assert packets[n] in packets;
      CloneWeight(packets[n], map[], a.next + 1, depth + 1, true);
      SubstWeight(c.out, L.id, Idx(a.next), depth + 1, true);
      GoodPacketStarts(packets[n]);
      assert b.out[1..] == [];
      assert Weight(b.out, depth) == Weight(packets[n], depth + 1);
    }
  }

  /** ss weighs at least depth * more over out, and strictly more than out. */
  predicate Lowers(before: nat, after: nat, depth: nat, more: int)
  {
    more >= 0 && after + depth * more <= before && (more == 0 ==> after < before)
  }

  lemma {:induction false} LoopPays(depth: nat, starts: nat, more: int, before: nat, after: nat)
    requires starts >= 1 && depth >= 1 && Lowers(before, after, depth + 1, more)
    ensures depth * Less1(starts + more) + after < depth * Less1(starts) + before
  {
    assert depth * (starts + more - 1) == depth * (starts - 1) + depth * more;
    assert (depth + 1) * more == depth * more + more;
  }

  lemma {:induction false} IfPays(depth: nat, more: int, before: nat, after: nat)
    requires depth >= 1 && Lowers(before, after, depth, more)
    ensures after < before
  {
    MulGap(0, more, depth);
    assert more * depth == depth * more;
  }

  lemma {:induction false} StartsPositive(ss: seq<Stmt>)
    requires ss != []
    ensures Starts(ss, true) >= 1
  {}

  lemma {:induction false} SplitHeadWeight(L: Stmt, rest: seq<Stmt>, next: LoopId, depth: nat, afterScope: bool)
    requires L.Loop? && |Packets(L.body)| >= 2
    ensures var out := PacketLoops(L, Packets(L.body), next).out + rest;
      Lowers(Weight([L] + rest, depth), Weight(out, depth), depth,
        Starts(out, afterScope) - Starts([L] + rest, afterScope))
  {
    hide Packets, PacketLoops;
    var packets := Packets(L.body);
    PacketsPartition(L.body);
    PacketCount(L.body);
    var a := PacketLoops(L, packets, next);
    PacketLoopsWeight(L, packets, next, depth);
    WeightAppend(a.out, rest, depth);
    StartsAppend(a.out, rest, afterScope);
    StartsAllScopes(a.out, afterScope);
    assert a.out[|a.out| - 1] in a.out;
    assert ([L] + rest)[1..] == rest;
    var n := |packets|;
    assert depth * (n - 1) >= 0 by { MulNonneg(depth, n - 1); }
    assert WeightS(L, depth) == depth * (n - 1) + Weight(L.body, depth + 1);
  }

  lemma {:induction false} HeadLowers(s: Stmt, s': Stmt, rest: seq<Stmt>, depth: nat, afterScope: bool)
    requires s.IsScope() == s'.IsScope() && WeightS(s', depth) < WeightS(s, depth)
    ensures Lowers(Weight([s] + rest, depth), Weight([s'] + rest, depth), depth,
                   Starts([s'] + rest, afterScope) - Starts([s] + rest, afterScope))
  {
    assert ([s] + rest)[1..] == rest && ([s'] + rest)[1..] == rest;
    assert depth * 0 == 0;
  }

  lemma {:induction false} TailLowers(s: Stmt, rest: seq<Stmt>, rest': seq<Stmt>, depth: nat, afterScope: bool)
    requires Lowers(Weight(rest, depth), Weight(rest', depth), depth,
      Starts(rest', s.IsScope()) - Starts(rest, s.IsScope()))
    ensures Lowers(Weight([s] + rest, depth), Weight([s] + rest', depth), depth,
                   Starts([s] + rest', afterScope) - Starts([s] + rest, afterScope))
  {
    assert ([s] + rest)[1..] == rest && ([s] + rest')[1..] == rest';
  }

  /** Splitting strictly lowers the weight, even after the enclosing loop has paid for its
      new packets. */
  lemma {:induction false} SplitFirstWeight(ss: seq<Stmt>, next: LoopId, depth: nat, afterScope: bool)
    requires HasSplit(ss) && depth >= 1
    ensures var out := SplitFirst(ss, next).out;
      Lowers(Weight(ss, depth), Weight(out, depth), depth, Starts(out, afterScope) - Starts(ss, afterScope))
    decreases ss
  {
    hide Weight, Starts, Packets;
    var rest := ss[1..];
    var s0 := ss[0];
    assert ss == [s0] + rest;
    if (s0.Loop? && |Packets(s0.body)| >= 2) {
      SplitHeadWeight(s0, rest, next, depth, afterScope);
    } else if s0.IsScope() && HasSplit(s0.body) {
      if s0.Loop? {
        LoopBodyWeight(s0, next, depth);
        HeadLowers(s0, Loop(s0.id, s0.end, s0.stride, SplitFirst(s0.body, next).out), rest, depth, afterScope);
      } else {
        var b := SplitFirst(s0.body, next).out;
        SplitFirstWeight(s0.body, next, depth, true);
        IfPays(depth, Starts(b, true) - Starts(s0.body, true), Weight(s0.body, depth), Weight(b, depth));
        HeadLowers(s0, IfRange(s0.val, s0.start, s0.stop, b), rest, depth, afterScope);
      }
    } else {
      SplitFirstWeight(rest, next, depth, s0.IsScope());
      TailLowers(s0, rest, SplitFirst(rest, next).out, depth, afterScope);
    }
  }

  lemma {:induction false} LoopBodyWeight(L: Stmt, next: LoopId, depth: nat)
    requires L.Loop? && HasSplit(L.body) && depth >= 1
    ensures WeightS(Loop(L.id, L.end, L.stride, SplitFirst(L.body, next).out), depth) < WeightS(L, depth)
    decreases L
  {
    var b := SplitFirst(L.body, next).out;
    SplitFirstWeight(L.body, next, depth + 1, true);
    StartsPositive(L.body);
    LoopPays(depth, Starts(L.body, true), Starts(b, true) - Starts(L.body, true), Weight(L.body, depth + 1),
      Weight(b, depth + 1));
  }

  /** Every restart strictly lowers the sum over loops of depth * (packets - 1). */
  lemma {:induction false} RestartLowersWeight(ss: seq<Stmt>, next: LoopId)
    requires HasSplit(ss)
    ensures Weight(SplitFirst(ss, next).out, 1) < Weight(ss, 1)
  {
    SplitFirstWeight(ss, next, 1, true);
  }

  // ---- The final shape -----------------------------------------------------------------

  /** Every loop body is one scope, or statements that are not scopes. */
  predicate Distributed(ss: seq<Stmt>)
  {
    ss == [] || (
      (match ss[0]
       case Loop(_, _, _, body) =>
         ((|body| == 1 && body[0].IsScope()) || forall s | s in body :: !s.IsScope()) && Distributed(body)
       case IfRange(_, _, _, body) => Distributed(body)
       case _ => true)
      && Distributed(ss[1..]))
  }

  lemma {:induction false} OnePacket(body: seq<Stmt>)
    ensures |Packets(body)| < 2 <==>
            (|body| == 1 && body[0].IsScope()) || forall s | s in body :: !s.IsScope()
  {
    PacketsPartition(body);
    var p := Packets(body);
    if |p| == 1 {
      assert p[1..] == [];
      assert Flatten(p) == p[0] + Flatten(p[1..]);
      assert p[0] in p && GoodPacket(p[0]) && body == p[0];
    }
    if |body| == 1 && body[0].IsScope() {
      assert body[..0] == [];
    } else if forall s | s in body :: !s.IsScope() {
      PacketCount(body);
      if body != [] { StartsNoScope(body[1..]); }
    }
  }

  /** Nothing is left to split exactly when the program is distributed. */
  lemma {:induction false} DistributedIff(ss: seq<Stmt>)
    ensures Distributed(ss) <==> !HasSplit(ss)
    decreases ss
  {
    if ss != [] {
      DistributedIff(ss[1..]);
      match ss[0] {
        case Loop(_, _, _, body) => OnePacket(body); DistributedIff(body);
        case IfRange(_, _, _, body) => DistributedIff(body);
        case _ =>
      }
    }
  }

  // ---- Meaning ---------------------------------------------------------------------------

  /** Reversed packet instances of the loop that SplitFirst splits commute. */
  ghost predicate FirstLegal(t: Table, ss: seq<Stmt>)
    requires HasSplit(ss)
    decreases ss
  {
    match ss[0]
    case Loop(id, end, stride, body) =>
      if |Packets(body)| >= 2 then PacketsCommute(t, ss[0], Packets(body))
      else if HasSplit(body) then FirstLegal(t[id := Extent(end, stride)], body)
      else FirstLegal(t, ss[1..])
    case IfRange(_, _, _, body) => if HasSplit(body) then FirstLegal(t, body) else FirstLegal(t, ss[1..])
    case _ => FirstLegal(t, ss[1..])
  }

  /** Replacing the first statement of a block by one with its loops and new ones. */
  lemma {:induction false} HeadWf(s: Stmt, s': Stmt, rest: seq<Stmt>, next: LoopId, scope: set<LoopId>)
    requires WfB([s] + rest, scope) && WfS(s', scope) && Below(BoundB([s] + rest), next)
    requires forall l | l in Bound(s') :: l in Bound(s) || l >= next
    ensures WfB([s'] + rest, scope) && BoundB([s'] + rest) == Bound(s') + BoundB(rest)
  {
    assert ([s] + rest)[1..] == rest && ([s'] + rest)[1..] == rest;
  }

  lemma {:induction false} TailWf(s: Stmt, rest: seq<Stmt>, rest': seq<Stmt>, next: LoopId, scope: set<LoopId>)
    requires WfB([s] + rest, scope) && WfB(rest', scope) && Below(BoundB([s] + rest), next)
    requires forall l | l in BoundB(rest') :: l in BoundB(rest) || l >= next
    ensures WfB([s] + rest', scope) && BoundB([s] + rest') == Bound(s) + BoundB(rest')
  {
    assert ([s] + rest)[1..] == rest && ([s] + rest')[1..] == rest';
  }

  lemma {:induction false} SplitFirstWf(ss: seq<Stmt>, next: LoopId, scope: set<LoopId>)
    requires HasSplit(ss) && WfB(ss, scope) && Below(scope, next) && Below(BoundB(ss), next)
    ensures var a := SplitFirst(ss, next);
      a.next >= next && WfB(a.out, scope) && Below(BoundB(a.out), a.next) &&
      forall l | l in BoundB(a.out) :: l in BoundB(ss) || l >= next
    decreases ss
  {
    var rest := ss[1..];
    assert ss == [ss[0]] + rest;
    match ss[0]
    case Loop(id, end, stride, body) =>
      if |Packets(body)| >= 2 {
        SplitWf(ss[0], next, scope);
        var a := PacketLoops(ss[0], Packets(body), next);
        WfAppend(a.out, rest, scope);
        BoundAppend(a.out, rest);
      } else if HasSplit(body) {
        assert id in Bound(ss[0]);
        SplitFirstWf(body, next, scope + {id});
        HeadWf(ss[0], Loop(id, end, stride, SplitFirst(body, next).out), rest, next, scope);
      } else {
        SplitFirstWf(rest, next, scope);
        TailWf(ss[0], rest, SplitFirst(rest, next).out, next, scope);
      }
    case IfRange(v, start, stop, body) =>
      if HasSplit(body) {
        SplitFirstWf(body, next, scope);
        HeadWf(ss[0], IfRange(v, start, stop, SplitFirst(body, next).out), rest, next, scope);
      } else {
        SplitFirstWf(rest, next, scope);
        TailWf(ss[0], rest, SplitFirst(rest, next).out, next, scope);
      }
    case _ =>
      SplitFirstWf(rest, next, scope);
      TailWf(ss[0], rest, SplitFirst(rest, next).out, next, scope);
  }

  lemma {:induction false} SameBefore(t: Table, s: Stmt, a: seq<Stmt>, b: seq<Stmt>)
    requires SameIn(t, a, b)
    ensures SameIn(t, [s] + a, [s] + b)
  {
    SameAround(t, [s], a, b, []);
    assert [s] + a + [] == [s] + a && [s] + b + [] == [s] + b;
  }

  lemma {:induction false} SameAfter(t: Table, a: seq<Stmt>, b: seq<Stmt>, rest: seq<Stmt>)
    requires SameIn(t, a, b)
    ensures SameIn(t, a + rest, b + rest)
  {
    SameAround(t, [], a, b, rest);
    assert [] + a + rest == a + rest && [] + b + rest == b + rest;
  }

  lemma {:induction false} SplitFirstPreserves(t: Table, ss: seq<Stmt>, next: LoopId, scope: set<LoopId>)
    requires HasSplit(ss) && WfB(ss, scope) && Below(scope, next) && Below(BoundB(ss), next)
    requires FirstLegal(t, ss)
    ensures SameIn(t, ss, SplitFirst(ss, next).out)
    decreases ss
  {
    var rest := ss[1..];
    assert ss == [ss[0]] + rest;
    match ss[0]
    case Loop(id, end, stride, body) =>
      if |Packets(body)| >= 2 {
        SplitPreserves(t, ss[0], next, scope);
        SameAfter(t, [ss[0]], PacketLoops(ss[0], Packets(body), next).out, rest);
      } else if HasSplit(body) {
        assert id in Bound(ss[0]);
        var b := SplitFirst(body, next).out;
        SplitFirstPreserves(t[id := Extent(end, stride)], body, next, scope + {id});
        SameInLoop(t, id, end, stride, body, b);
        SameAfter(t, [ss[0]], [Loop(id, end, stride, b)], rest);
      } else {
        SplitFirstPreserves(t, rest, next, scope);
        SameBefore(t, ss[0], rest, SplitFirst(rest, next).out);
      }
    case IfRange(v, start, stop, body) =>
      if HasSplit(body) {
        var b := SplitFirst(body, next).out;
        SplitFirstPreserves(t, body, next, scope);
        SameInIf(t, v, start, stop, body, b);
        SameAfter(t, [ss[0]], [IfRange(v, start, stop, b)], rest);
      } else {
        SplitFirstPreserves(t, rest, next, scope);
        SameBefore(t, ss[0], rest, SplitFirst(rest, next).out);
      }
    case _ =>
      SplitFirstPreserves(t, rest, next, scope);
      SameBefore(t, ss[0], rest, SplitFirst(rest, next).out);
  }

  // ---- The whole run ------------------------------------------------------------------------

  /** The program when no loop can be split any more. */
  ghost function Run(ss: seq<Stmt>, next: LoopId): Loops
    decreases Weight(ss, 1)
  {
    if !HasSplit(ss) then Loops(ss, next)
    else
      var a := SplitFirst(ss, next);
      RestartLowersWeight(ss, next);
      Run(a.out, a.next)
  }

  /** Every split of the run is legal where it happens. */
  ghost predicate RunLegal(ss: seq<Stmt>, next: LoopId)
    decreases Weight(ss, 1)
  {
    HasSplit(ss) ==>
      FirstLegal(map[], ss) &&
      var a := SplitFirst(ss, next);
      RestartLowersWeight(ss, next);
      RunLegal(a.out, a.next)
  }

  /** A run ends with a well-formed, distributed program, and preserves meaning when every
      split of it is legal. */
  lemma {:induction false} RunCorrect(ss: seq<Stmt>, next: LoopId, scope: set<LoopId>)
    requires WfB(ss, scope) && Below(scope, next) && Below(BoundB(ss), next)
    ensures var a := Run(ss, next);
      a.next >= next && WfB(a.out, scope) && Below(BoundB(a.out), a.next) && Distributed(a.out)
    ensures RunLegal(ss, next) ==> SameIn(map[], ss, Run(ss, next).out)
    decreases Weight(ss, 1)
  {
    DistributedIff(ss);
    if HasSplit(ss) {
      var a := SplitFirst(ss, next);
      RestartLowersWeight(ss, next);
      SplitFirstWf(ss, next, scope);
      RunCorrect(a.out, a.next, scope);
      if RunLegal(ss, next) {
        SplitFirstPreserves(map[], ss, next, scope);
      }
    }
  }

  lemma {:induction false} SplitFirstSkips(a: seq<Stmt>, b: seq<Stmt>, next: LoopId)
    requires !HasSplit(a)
    ensures HasSplit(a + b) == HasSplit(b)
    ensures HasSplit(b) ==> SplitFirst(a + b, next) == Loops(a + SplitFirst(b, next).out, SplitFirst(b, next).next)
  {
    if a == [] {
      assert a + b == b;
    } else {
      assert (a + b)[0] == a[0] && (a + b)[1..] == a[1..] + b;
      SplitFirstSkips(a[1..], b, next);
      if HasSplit(b) {
        assert [a[0]] + (a[1..] + SplitFirst(b, next).out) == a + SplitFirst(b, next).out;
      }
    }
  }

  /** Tries the loop or if at s.body[i]: the loop itself first, then the loops inside. */
  method SplitFirstAt(s: Scope, i: nat, ids: IdSupply, ghost scope: set<LoopId>) returns (changed: bool)
    requires i < |s.body| && WfB(s.body, scope) && ids.Newer(scope) && ids.Newer(BoundB(s.body))
    modifies s, ids
    ensures changed <==> HasSplit([old(s.body[i])])
    ensures changed ==>
      var a := SplitFirst([old(s.body[i])], old(ids.next));
      s.body == Spliced(old(s.body), i, a.out) && ids.next == a.next
    ensures !changed ==> s.body == old(s.body) && ids.next == old(ids.next)
    decreases s.body[i], 0
  {
    var S := s.body[i];
    assert [S][1..] == [];
    SplitAt(s.body, i, scope);
    changed := false;
    if S.Loop? {
      changed := SplitScopes(s, i, ids, scope);
      if changed {
        assert PacketLoops(S, Packets(S.body), old(ids.next)).out + [] ==
          PacketLoops(S, Packets(S.body), old(ids.next)).out;
        return;
      }
      assert S.id in Bound(S);
      var inner := new Scope(S.body);
      changed := SplitFirstLoop(inner, ids, scope + {S.id});
      if changed {
        ReplacedIsSpliced(s.body, i, Loop(S.id, S.end, S.stride, inner.body));
        s.ReplaceStmt(Loop(S.id, S.end, S.stride, inner.body), i);
      }
    } else if S.IfRange? {
      var inner := new Scope(S.body);
      changed := SplitFirstLoop(inner, ids, scope);
      if changed {
        ReplacedIsSpliced(s.body, i, IfRange(S.val, S.start, S.stop, inner.body));
        s.ReplaceStmt(IfRange(S.val, S.start, S.stop, inner.body), i);
      }
    }
  }

  lemma {:induction false} ReplacedIsSpliced(ss: seq<Stmt>, i: nat, s: Stmt)
    requires i < |ss|
    ensures ss[i := s] == Spliced(ss, i, [s]) == Spliced(ss, i, [s] + [])
  {
    assert [s] + [] == [s];
  }

  lemma {:induction false} SplitFirstHead(s: Stmt, rest: seq<Stmt>, next: LoopId)
    requires HasSplit([s])
    ensures HasSplit([s] + rest)
    ensures SplitFirst([s] + rest, next) == Loops(SplitFirst([s], next).out + rest, SplitFirst([s], next).next)
  {
    assert [s][1..] == [] && ([s] + rest)[1..] == rest;
    var o := SplitFirst([s], next).out;
    match s
    case Loop(id, end, stride, body) =>
      if |Packets(body)| >= 2 {
        var p := PacketLoops(s, Packets(body), next).out;
        assert p + [] == p;
      } else {
        var p := [Loop(id, end, stride, SplitFirst(body, next).out)];
        assert p + [] == p;
      }
    case IfRange(v, start, stop, body) =>
      var p := [IfRange(v, start, stop, SplitFirst(body, next).out)];
      assert p + [] == p;
  }

  /** The first statement that can be split decides. */
  lemma {:induction false} SplitFirstFound(ss: seq<Stmt>, i: nat, next: LoopId)
    requires i < |ss| && !HasSplit(ss[..i])
    ensures !HasSplit([ss[i]]) ==> !HasSplit(ss[..i + 1])
    ensures HasSplit([ss[i]]) ==>
      HasSplit(ss) && SplitFirst(ss, next) == Loops(Spliced(ss, i, SplitFirst([ss[i]], next).out),
        SplitFirst([ss[i]], next).next)
  {
    hide SplitFirst;
    assert ss[..i + 1] == ss[..i] + [ss[i]];
    SplitFirstSkips(ss[..i], [ss[i]], next);
    if HasSplit([ss[i]]) {
      assert ss == ss[..i] + ([ss[i]] + ss[i + 1..]);
      SplitFirstHead(ss[i], ss[i + 1..], next);
      SplitFirstSkips(ss[..i], [ss[i]] + ss[i + 1..], next);
      assert ss[..i] + (SplitFirst([ss[i]], next).out + ss[i + 1..]) == Spliced(ss, i, SplitFirst([ss[i]], next).out);
    }
  }

  /** Tries the loops of s in order, outer loops first, and splits the first it can. */
  method SplitFirstLoop(s: Scope, ids: IdSupply, ghost scope: set<LoopId>) returns (changed: bool)
    requires WfB(s.body, scope) && ids.Newer(scope) && ids.Newer(BoundB(s.body))
    modifies s, ids
    ensures changed <==> HasSplit(old(s.body))
    ensures changed ==> Loops(s.body, ids.next) == SplitFirst(old(s.body), old(ids.next))
    ensures !changed ==> s.body == old(s.body) && ids.next == old(ids.next)
    decreases s.body, 1
  {
    hide WfB, Packets, SplitFirst, Spliced;
    ghost var ss := s.body;
    ghost var next := ids.next;
    var i := 0;
    while i < |s.body|
      invariant 0 <= i <= |s.body| && s.body == ss && ids.next == next
      invariant !HasSplit(ss[..i])
    {
      SplitFirstFound(ss, i, next);
      changed := SplitFirstAt(s, i, ids, scope);
      if changed { return; }
      i := i + 1;
    }
    assert ss[..i] == ss;
    changed := false;
  }

  /** distributeAllLoops on the program whose statements are s. */
  method DistributeAllLoops(s: Scope, ids: IdSupply) returns (changed: bool)
    requires WfB(s.body, {}) && ids.Newer(BoundB(s.body))
    modifies s, ids
    ensures changed <==> HasSplit(old(s.body))
    ensures Loops(s.body, ids.next) == Run(old(s.body), old(ids.next))
    ensures Distributed(s.body) && WfB(s.body, {}) && ids.Newer(BoundB(s.body))
    ensures RunLegal(old(s.body), old(ids.next)) ==> SameIn(map[], old(s.body), s.body)
  {
    RunCorrect(s.body, ids.next, {});
    changed := false;
    ghost var ss := s.body;
    ghost var next := ids.next;
    var restart := true;
    while restart
      invariant WfB(s.body, {}) && ids.Newer(BoundB(s.body))
      invariant Run(s.body, ids.next) == Run(ss, next)
      invariant changed <==> (HasSplit(ss) && !(restart && s.body == ss && ids.next == next))
      invariant !restart ==> !HasSplit(s.body)
      invariant s.body == ss || changed
      decreases Weight(s.body, 1), restart
    {
      ghost var now := s.body;
      ghost var nowNext := ids.next;
      restart := SplitFirstLoop(s, ids, {});
      if restart {
        RestartLowersWeight(now, nowNext);
        SplitFirstWf(now, nowNext, {});
        changed := true;
      }
    }
  }
}
