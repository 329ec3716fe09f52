/** Consecutive blocks lead a node to the same state in whatever order they arrive. */
module ArrivalOrder {
  import opened Data
  import opened Blocks
  import opened ChainSpec
  import opened ChainInvariant
  import opened NodeSpec

  /** The chain with these blocks added in turn. */
  function Adding(s: ChainState, bs: seq<Block>): ChainState {
    if bs == [] then s else AddBlock(Adding(s, bs[..|bs| - 1]), bs[|bs| - 1])
  }

  /** The blocks follow the tip, and each is judged Good over the chain of those before it. */
  ghost predicate InOrder(env: Checks, s: ChainState, bs: seq<Block>, clock: nat -> int) {
    forall i | 0 <= i < |bs| :: InOrderAt(env, s, bs, clock, i)
  }

  ghost predicate InOrderAt(env: Checks, s: ChainState, bs: seq<Block>, clock: nat -> int, i: nat)
    requires i < |bs|
  {
    && bs[i].index == Height(s) + 1 + i
    && Check(env, Adding(s, bs[..i]), bs[i], clock(bs[i].index)) == Some(Good)
  }

  /** Different places, all of them below a bound. */
  ghost predicate Ordering(order: seq<nat>, bound: nat) {
    && (forall k | 0 <= k < |order| :: order[k] < bound)
    && (forall a, b | 0 <= a < b < |order| :: order[a] != order[b])
  }

  /** The node after receiving the blocks of the given places in turn, each with a clock of its own. */
  ghost function Arrive(env: Checks, n: NodeState, bs: seq<Block>, order: seq<nat>, clocks: seq<nat -> int>)
    : Option<NodeState>
    requires |clocks| == |order| && Ordering(order, |bs|)
    decreases |order|
  {
    if order == [] then Some(n)
    else
      var last := |order| - 1;
      match Arrive(env, n, bs, order[..last], clocks[..last])
      case None => None
      case Some(m) =>
        match Handle(env, m, bs[order[last]], clocks[last])
        case None => None
        case Some(r) => Some(r.0)
  }

  lemma AddingOne(s: ChainState, bs: seq<Block>, j: nat)
    requires j < |bs|
    ensures Adding(s, bs[..j + 1]) == AddBlock(Adding(s, bs[..j]), bs[j])
  {
    assert bs[..j + 1][..j] == bs[..j];
  }

  lemma {:induction false} AddingRises(env: Checks, s: ChainState, bs: seq<Block>, clock: nat -> int, j: nat)
    requires Sound(s) && InOrder(env, s, bs, clock) && j <= |bs|
    ensures Sound(Adding(s, bs[..j])) && Height(Adding(s, bs[..j])) == Height(s) + j
  {
    hide Sound, Check, AddBlock;
    if j > 0 {
      AddingRises(env, s, bs, clock, j - 1);
      AddingOne(s, bs, j - 1);
      assert InOrderAt(env, s, bs, clock, j - 1);
      GoodAdds(env, Adding(s, bs[..j - 1]), bs[j - 1], clock(bs[j - 1].index));
    }
  }

  /** What would be Good later is Future as long as the tip is too low for it. */
  lemma EarlyIsFuture(env: Checks, s: ChainState, t: ChainState, b: Block, now: int)
    requires Check(env, t, b, now) == Some(Good)
    requires s.last.Some? && b.index > Height(s) + 1
    ensures Check(env, s, b, now) == Some(Future)
  {
    hide NeededDifficulty, HashDifficulty, GoodTransaction, GoodSignBlock;
  }

  // ---------------------------------------------------------------------------
  // Part of the blocks received
  // ---------------------------------------------------------------------------

  /** The places received, from j on, wait under their blocks' indexes, and nothing else does. */
  ghost predicate Waits(h: nat, bs: seq<Block>, got: set<nat>, j: nat, future: map<nat, Block>) {
    forall k ::
      && (k in future <==> h + 1 + j <= k <= h + |bs| && k - h - 1 in got)
      && (k in future ==> h < k <= h + |bs| && future[k] == bs[k - h - 1])
  }

  /** The first j places are received, and the next one is not. */
  ghost predicate Reached(bs: seq<Block>, got: set<nat>, j: nat) {
    j <= |bs| && j !in got && (forall i | 0 <= i < j :: i in got) && forall i | i in got :: i < |bs|
  }

  /** The node with the places received: the blocks before the first gap on its chain, the others waiting. */
  ghost predicate At(n: NodeState, bs: seq<Block>, got: set<nat>, j: nat, m: NodeState) {
    && Reached(bs, got, j)
    && m.chain == Adding(n.chain, bs[..j]) && m.maxHeight == n.maxHeight
    && Waits(Height(n.chain), bs, got, j, m.future)
  }

  /** Draining goes on to the next gap. */
  lemma {:induction false} DrainRuns(
      env: Checks, s: ChainState, bs: seq<Block>, got: set<nat>, j: nat, future: map<nat, Block>, clock: nat -> int)
      returns (top: nat)
    requires InOrder(env, s, bs, clock) && j <= |bs|
    requires (forall i | 0 <= i < j :: i in got) && (forall i | i in got :: i < |bs|)
    requires Waits(Height(s), bs, got, j, future)
    ensures j <= top && Reached(bs, got, top)
    ensures var d := Drain(env, Adding(s, bs[..j]), future, Height(s) + 1 + j, clock);
      d.Some? && d.value.0 == Adding(s, bs[..top]) && Waits(Height(s), bs, got, top, d.value.1)
    decreases |bs| - j
  {
    hide Check, AddBlock, Adding, Drain, Waits, InOrder;
    var next := Height(s) + 1 + j;
    WaitsNext(Height(s), bs, got, j, future);
    DrainOne(env, Adding(s, bs[..j]), future, next, clock);
    if next in future {
      InOrderHere(env, s, bs, clock, j);
      AddingOne(s, bs, j);
      WaitsOneLess(Height(s), bs, got, j, future);
      top := DrainRuns(env, s, bs, got, j + 1, future - {next}, clock);
    } else {
      top := j;
    }
  }

  lemma WaitsNext(h: nat, bs: seq<Block>, got: set<nat>, j: nat, future: map<nat, Block>)
    requires Waits(h, bs, got, j, future) && (forall i | i in got :: i < |bs|)
    ensures h + 1 + j in future <==> j in got
    ensures j in got ==> j < |bs| && future[h + 1 + j] == bs[j]
  {
  }

  /** One turn of the loop that drains. */
  lemma DrainOne(env: Checks, s: ChainState, future: map<nat, Block>, next: nat, clock: nat -> int)
    ensures next !in future ==> Drain(env, s, future, next, clock) == Some((s, future))
    ensures next in future && Check(env, s, future[next], clock(next)) == Some(Good) ==>
      Drain(env, s, future, next, clock) ==
        Drain(env, AddBlock(s, future[next]), future - {next}, next + 1, clock)
  {
    hide Check, AddBlock;
    if next in future {
      Shrinks(future, next);
    }
  }

  lemma WaitsOneLess(h: nat, bs: seq<Block>, got: set<nat>, j: nat, future: map<nat, Block>)
    requires Waits(h, bs, got, j, future)
    ensures Waits(h, bs, got, j + 1, future - {h + 1 + j})
  {
  }

  lemma WaitsPast(h: nat, bs: seq<Block>, got: set<nat>, j: nat, future: map<nat, Block>)
    requires Waits(h, bs, got, j, future) && j !in got
    ensures Waits(h, bs, got + {j}, j + 1, future)
  {
    forall k
      ensures (k in future <==> h + 1 + (j + 1) <= k <= h + |bs| && k - h - 1 in got + {j})
      ensures k in future ==> h < k <= h + |bs| && future[k] == bs[k - h - 1]
    {
    }
  }

  lemma WaitsMore(h: nat, bs: seq<Block>, got: set<nat>, j: nat, future: map<nat, Block>, i: nat)
    requires Waits(h, bs, got, j, future) && j <= i < |bs|
    ensures Waits(h, bs, got + {i}, j, future[h + 1 + i := bs[i]])
  {
  }

  lemma NoneWaits(h: nat, bs: seq<Block>, got: set<nat>, j: nat, future: map<nat, Block>)
    requires Waits(h, bs, got, j, future) && j !in got && j + 1 >= |bs|
    ensures future == map[]
  {
    assert forall k :: k !in future;
  }

  /** The height the node has heard of is not above its own and two or more below that of the last block: on
      reaching it a node forgets the blocks that wait. */
  predicate KeepsWaiting(n: NodeState, bs: seq<Block>) {
    n.maxHeight <= Height(n.chain) || n.maxHeight + 1 >= Height(n.chain) + |bs|
  }

  /** The next block of the row arrives. */
  lemma NextArrives(
      env: Checks, n: NodeState, bs: seq<Block>, got: set<nat>, j: nat, m: NodeState, clock: nat -> int)
      returns (top: nat)
    requires Sound(n.chain) && KeepsWaiting(n, bs) && InOrder(env, n.chain, bs, clock)
    requires At(n, bs, got, j, m) && j < |bs|
    ensures Handle(env, m, bs[j], clock).Some? && At(n, bs, got + {j}, top, Handle(env, m, bs[j], clock).value.0)
  {
    hide Check, AddBlock, Adding, Sound, Drain, InOrder, Waits;
    var h := Height(n.chain);
    InOrderHere(env, n.chain, bs, clock, j);
    AddingOne(n.chain, bs, j);
    WaitsPast(h, bs, got, j, m.future);
    top := DrainRuns(env, n.chain, bs, got + {j}, j + 1, m.future, clock);
    AddingRises(env, n.chain, bs, clock, top);
    var d := Drain(env, Adding(n.chain, bs[..j + 1]), m.future, h + 1 + (j + 1), clock).value;
    if h + top == n.maxHeight {
      NoneWaits(h, bs, got + {j}, top, d.1);
    }
  }

  lemma InOrderHere(env: Checks, s: ChainState, bs: seq<Block>, clock: nat -> int, j: nat)
    requires InOrder(env, s, bs, clock) && j < |bs|
    ensures bs[j].index == Height(s) + 1 + j
    ensures Check(env, Adding(s, bs[..j]), bs[j], clock(bs[j].index)) == Some(Good)
  {
    hide Check;
    assert InOrderAt(env, s, bs, clock, j);
  }

  /** A block beyond the gap arrives, and waits. */
  lemma LaterArrives(
      env: Checks, n: NodeState, bs: seq<Block>, got: set<nat>, j: nat, m: NodeState, i: nat, clock: nat -> int)
    requires Sound(n.chain) && n.chain.last.Some? && InOrder(env, n.chain, bs, clock)
    requires At(n, bs, got, j, m) && j < i < |bs|
    ensures Handle(env, m, bs[i], clock).Some? && At(n, bs, got + {i}, j, Handle(env, m, bs[i], clock).value.0)
  {
    hide Check, AddBlock, Adding, Sound, Drain, InOrder, Waits;
    InOrderHere(env, n.chain, bs, clock, i);
    AddingRises(env, n.chain, bs, clock, j);
    AddingHasTip(n.chain, bs[..j]);
    EarlyIsFuture(env, m.chain, Adding(n.chain, bs[..i]), bs[i], clock(bs[i].index));
    WaitsMore(Height(n.chain), bs, got, j, m.future, i);
  }

  lemma {:induction false} AddingHasTip(s: ChainState, bs: seq<Block>)
    requires s.last.Some?
    ensures Adding(s, bs).last.Some?
  {
    if bs != [] {
      AddingHasTip(s, bs[..|bs| - 1]);
    }
  }

  ghost function Places(order: seq<nat>): set<nat> {
    set i | i in order
  }

  lemma {:induction false} PartArrives(
      env: Checks, n: NodeState, bs: seq<Block>, order: seq<nat>, clocks: seq<nat -> int>) returns (j: nat)
    requires NodeOk(n) && n.chain.last.Some? && n.future == map[] && KeepsWaiting(n, bs)
    requires |clocks| == |order| && (forall c | c in clocks :: InOrder(env, n.chain, bs, c)) && Ordering(order, |bs|)
    ensures Arrive(env, n, bs, order, clocks).Some?
    ensures At(n, bs, Places(order), j, Arrive(env, n, bs, order, clocks).value)
    decreases |order|
  {
    hide Sound, InOrder, Handle, At;
    if order == [] {
      j := 0;
      NothingArrived(n, bs);
    } else {
      var last := |order| - 1;
      var before := order[..last];
      j := PartArrives(env, n, bs, before, clocks[..last]);
      var i, m, clock := order[last], Arrive(env, n, bs, before, clocks[..last]).value, clocks[last];
      assert Places(order) == Places(before) + {i};
      assert i in order && i !in Places(before) && clock in clocks;
      GapIsNext(n, bs, Places(before), j, m, i);
      if i == j {
        j := NextArrives(env, n, bs, Places(before), j, m, clock);
      } else {
        LaterArrives(env, n, bs, Places(before), j, m, i, clock);
      }
    }
  }

  lemma GapIsNext(n: NodeState, bs: seq<Block>, got: set<nat>, j: nat, m: NodeState, i: nat)
    requires At(n, bs, got, j, m) && i !in got
    ensures j <= i
  {
  }

  lemma NothingArrived(n: NodeState, bs: seq<Block>)
    requires n.future == map[]
    ensures At(n, bs, {}, 0, n) && Places([]) == {}
  {
    assert bs[..0] == [];
  }

  /** Consecutive blocks, each of which would be judged Good in its turn, arrive in any order: the node ends
      with all of them on its chain in their order, nothing waiting, and whatever it had heard of unchanged.
      They are the blocks that would be added if they arrived in turn. */
  lemma AnyOrder(env: Checks, n: NodeState, bs: seq<Block>, order: seq<nat>, clocks: seq<nat -> int>)
    requires NodeOk(n) && n.chain.last.Some? && n.future == map[] && KeepsWaiting(n, bs)
    requires |clocks| == |order| == |bs| && (forall c | c in clocks :: InOrder(env, n.chain, bs, c))
    requires Ordering(order, |bs|)
    ensures Arrive(env, n, bs, order, clocks) == Some(NodeState(Adding(n.chain, bs), map[], n.maxHeight))
  {
    hide Arrive, Adding, Sound, InOrder;
    var j := PartArrives(env, n, bs, order, clocks);
    Complete(order, |bs|);
    assert bs[..|bs|] == bs;
    NoneWaits(Height(n.chain), bs, Places(order), j, Arrive(env, n, bs, order, clocks).value.future);
  }

  ghost function Upto(n: nat): (r: set<nat>)
    ensures |r| == n && forall i: nat :: i in r <==> i < n
  {
    if n == 0 then {} else Upto(n - 1) + {n - 1}
  }

  /** So many different places below a bound are all the places below it. */
  lemma Complete(order: seq<nat>, n: nat)
    requires |order| == n && Ordering(order, n)
    ensures Places(order) == Upto(n)
  {
    PlacesCount(order);
    SubsetSize(Places(order), Upto(n));
  }

  lemma {:induction false} PlacesCount(order: seq<nat>)
    requires forall a, b | 0 <= a < b < |order| :: order[a] != order[b]
    ensures |Places(order)| == |order|
  {
    if order == [] {
      assert Places(order) == {};
    } else {
      var last := |order| - 1;
      PlacesCount(order[..last]);
      assert Places(order) == Places(order[..last]) + {order[last]};
      assert order[last] !in order[..last];
    }
  }

  lemma SubsetSize(a: set<nat>, b: set<nat>)
    requires a <= b && |a| == |b|
    ensures a == b
  {
    assert b == a + (b - a);
    assert |b - a| == 0;
  }

  // ---------------------------------------------------------------------------
  // The exact condition
  // ---------------------------------------------------------------------------

  /** The last place first, and then the others from the first one on. */
  function LastFirst(m: nat, len: nat): (order: seq<nat>)
    requires 1 <= len <= m
    ensures |order| == len
    ensures forall k | 0 <= k < len :: order[k] == if k == 0 then m - 1 else k - 1
  {
    seq(len, k requires 0 <= k < len => if k == 0 then m - 1 else k - 1)
  }

  function Same(clock: nat -> int, len: nat): (clocks: seq<nat -> int>)
    ensures |clocks| == len && forall c | c in clocks :: c == clock
  {
    seq(len, _ => clock)
  }

  /** In that order the last block waits until the height the node has heard of is reached, and is gone then. */
  lemma {:induction false} LastIsForgotten(env: Checks, n: NodeState, bs: seq<Block>, clock: nat -> int, i: nat)
    requires NodeOk(n) && n.chain.last.Some? && n.future == map[] && !KeepsWaiting(n, bs)
    requires InOrder(env, n.chain, bs, clock) && i < |bs|
    ensures Ordering(LastFirst(|bs|, 1 + i), |bs|)
    ensures var h, m := Height(n.chain), |bs|;
      Arrive(env, n, bs, LastFirst(m, 1 + i), Same(clock, 1 + i)) ==
        Some(NodeState(Adding(n.chain, bs[..i]), if h + i < n.maxHeight then map[h + m := bs[m - 1]] else map[],
                       n.maxHeight))
    decreases i
  {
    hide Sound, InOrder, Handle, Adding;
    var m := |bs|;
    var order, clocks := LastFirst(m, 1 + i), Same(clock, 1 + i);
    if i == 0 {
      assert order[..0] == [] && order[0] == m - 1;
      assert bs[..0] == [];
      AddingNothing(n.chain);
      LastWaits(env, n, bs, clock);
    } else {
      assert order[..i] == LastFirst(m, i) && clocks[..i] == Same(clock, i);
      LastIsForgotten(env, n, bs, clock, i - 1);
      var before := Arrive(env, n, bs, LastFirst(m, i), Same(clock, i)).value;
      NextAlone(env, n, bs, clock, before, i - 1);
      assert order[i] == i - 1;
    }
  }

  lemma AddingNothing(s: ChainState)
    ensures Adding(s, []) == s
  {
  }

  lemma LastWaits(env: Checks, n: NodeState, bs: seq<Block>, clock: nat -> int)
    requires NodeOk(n) && n.chain.last.Some? && n.future == map[] && |bs| > 1 && InOrder(env, n.chain, bs, clock)
    ensures var m := |bs|;
      Handle(env, n, bs[m - 1], clock) == Some((n.(future := map[Height(n.chain) + m := bs[m - 1]]), Idle))
  {
    hide Check, InOrder, Sound, Adding;
    var m := |bs|;
    InOrderHere(env, n.chain, bs, clock, m - 1);
    EarlyIsFuture(env, n.chain, Adding(n.chain, bs[..m - 1]), bs[m - 1], clock(bs[m - 1].index));
  }

  lemma NextAlone(env: Checks, n: NodeState, bs: seq<Block>, clock: nat -> int, m: NodeState, i: nat)
    requires NodeOk(n) && !KeepsWaiting(n, bs) && InOrder(env, n.chain, bs, clock) && i + 1 < |bs|
    requires var h := Height(n.chain);
      m == NodeState(Adding(n.chain, bs[..i]), if h + i < n.maxHeight then map[h + |bs| := bs[|bs| - 1]] else map[],
                     n.maxHeight)
    ensures var h := Height(n.chain);
      Handle(env, m, bs[i], clock) ==
        Some((NodeState(Adding(n.chain, bs[..i + 1]),
                        if h + i + 1 < n.maxHeight then map[h + |bs| := bs[|bs| - 1]] else map[], n.maxHeight), Idle))
  {
    hide Check, InOrder, Sound, Adding, AddBlock;
    var h := Height(n.chain);
    InOrderHere(env, n.chain, bs, clock, i);
    AddingOne(n.chain, bs, i);
    AddingRises(env, n.chain, bs, clock, i + 1);
    assert h + i + 2 !in m.future;
  }

  /** So consecutive blocks lead to the same state in every order of arrival exactly when the height the node has
      heard of does not lie between its own and that of the last block but one. */
  lemma AnyOrderExactly(env: Checks, n: NodeState, bs: seq<Block>, clock: nat -> int)
    requires NodeOk(n) && n.chain.last.Some? && n.future == map[] && InOrder(env, n.chain, bs, clock)
    ensures KeepsWaiting(n, bs) <==>
      forall order | |order| == |bs| && Ordering(order, |bs|) ::
        Arrive(env, n, bs, order, Same(clock, |bs|)) == Some(NodeState(Adding(n.chain, bs), map[], n.maxHeight))
  {
    hide Sound, InOrder, Arrive, Adding;
    if KeepsWaiting(n, bs) {
      forall order | |order| == |bs| && Ordering(order, |bs|)
        ensures Arrive(env, n, bs, order, Same(clock, |bs|)) == Some(NodeState(Adding(n.chain, bs), map[], n.maxHeight))
      {
        AnyOrder(env, n, bs, order, Same(clock, |bs|));
      }
    } else {
      var m := |bs|;
      LastIsForgotten(env, n, bs, clock, m - 1);
      AddingRises(env, n.chain, bs, clock, m - 1);
      AddingRises(env, n.chain, bs, clock, m);
      assert bs[..m] == bs;
      var order := LastFirst(m, m);
      assert |order| == |bs| && Ordering(order, |bs|);
    }
  }
}
