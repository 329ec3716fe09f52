/** What a received block changes, verdict by verdict, and what becomes of the blocks that come too
    early: consecutive blocks lead to the same chain in whatever order they arrive. */
module EarlyBlocks {
  import opened Data
  import opened Blocks
  import opened ChainSpec
  import opened ChainInvariant
  import opened NodeSpec

  // ---------------------------------------------------------------------------
  // Verdict by verdict
  // ---------------------------------------------------------------------------

  /** A block that comes too early waits under its index; nothing else changes. */
  lemma FutureWaits(env: Checks, n: NodeState, b: Block, clock: nat -> int)
    requires Check(env, n.chain, b, clock(b.index)) == Some(Future)
    ensures Handle(env, n, b, clock).Some?
    ensures var (n', reply) := Handle(env, n, b, clock).value;
      && reply == Idle && n'.chain == n.chain && n'.maxHeight == n.maxHeight
      && b.index in n'.future && n'.future[b.index] == b
      && (forall k | k != b.index ::
            (k in n'.future <==> k in n.future) && (k in n.future ==> n'.future[k] == n.future[k]))
  {
    hide Check;
  }

  /** A known block changes nothing; an orphan changes nothing and has its parent asked for; a bad block
      bans its sender, and ends the synchronisation if it was to be the next block. */
  lemma Refusals(env: Checks, n: NodeState, b: Block, clock: nat -> int)
    ensures Check(env, n.chain, b, clock(b.index)) == Some(Twin) ==> Handle(env, n, b, clock) == Some((n, Idle))
    ensures Check(env, n.chain, b, clock(b.index)) == Some(Rewind) ==>
      b.index >= 1 && Handle(env, n, b, clock) == Some((n, GetBlock(b.index - 1)))
    ensures Check(env, n.chain, b, clock(b.index)) == Some(Bad) ==>
      && Handle(env, n, b, clock).Some?
      && var (n', reply) := Handle(env, n, b, clock).value;
      && reply == Banned && n'.chain == n.chain && n'.future == n.future
      && n'.maxHeight == if b.index == Height(n.chain) + 1 then Height(n.chain) else n.maxHeight
  {
    hide Check, Handle;
    if Check(env, n.chain, b, clock(b.index)) == Some(Bad) {
      BadBans(env, n, b, clock);
    }
    if Check(env, n.chain, b, clock(b.index)) == Some(Twin) {
      TwinChangesNothing(env, n, b, clock);
    }
    if Check(env, n.chain, b, clock(b.index)) == Some(Rewind) {
      RewindAsks(env, n, b, clock);
    }
  }

  lemma TwinChangesNothing(env: Checks, n: NodeState, b: Block, clock: nat -> int)
    requires Check(env, n.chain, b, clock(b.index)) == Some(Twin)
    ensures Handle(env, n, b, clock) == Some((n, Idle))
  {
    hide Check;
  }

  lemma RewindAsks(env: Checks, n: NodeState, b: Block, clock: nat -> int)
    requires Check(env, n.chain, b, clock(b.index)) == Some(Rewind)
    ensures b.index >= 1 && Handle(env, n, b, clock) == Some((n, GetBlock(b.index - 1)))
  {
    hide Check;
    RewindHasParent(env, n.chain, b, clock(b.index));
  }

  lemma BadBans(env: Checks, n: NodeState, b: Block, clock: nat -> int)
    requires Check(env, n.chain, b, clock(b.index)) == Some(Bad)
    ensures Handle(env, n, b, clock).Some?
    ensures var (n', reply) := Handle(env, n, b, clock).value;
      && reply == Banned && n'.chain == n.chain && n'.future == n.future
      && n'.maxHeight == if b.index == Height(n.chain) + 1 then Height(n.chain) else n.maxHeight
  {
    hide Check;
  }

  lemma RewindHasParent(env: Checks, s: ChainState, b: Block, now: int)
    requires Check(env, s, b, now) == Some(Rewind)
    ensures b.index >= 1
  {
    hide NeededDifficulty, HashDifficulty, GoodTransaction, GoodSignBlock;
  }

  /** A block that contests a stored one replaces it, and all above it, if it is better or the node is far
      behind the height it has heard of and the contested block is its tip. Otherwise nothing changes and
      the stored block is sent back. */
  lemma ForkSettles(env: Checks, n: NodeState, b: Block, clock: nat -> int)
    requires NodeOk(n) && Check(env, n.chain, b, clock(b.index)) == Some(Fork)
    ensures b.index in n.chain.blocks && Handle(env, n, b, clock).Some?
    ensures var (n', reply) := Handle(env, n, b, clock).value; var ours := n.chain.blocks[b.index];
      if IsBetterThan(b, ours) || (b.index == Height(n.chain) && b.index + 4 <= n.maxHeight) then
        && reply == Idle && n'.future == n.future && n'.maxHeight == n.maxHeight
        && n'.chain.last == Some(b)
        && (forall i :: i in n'.chain.blocks <==> i == b.index || (i in n.chain.blocks && i < b.index))
        && (forall i | i in n'.chain.blocks :: n'.chain.blocks[i] == if i == b.index then b else n.chain.blocks[i])
      else n' == n && reply == OurBlock(ours)
  {
    hide Check, IsBetterThan, ReplaceBlock, Sound, Truncate;
    ForkFindsOurBlock(env, n, b, clock);
    ReplacedBlocks(n.chain, b);
  }

  lemma ReplacedBlocks(s: ChainState, b: Block)
    ensures var t := ReplaceBlock(s, b);
      && t.last == Some(b)
      && (forall i :: i in t.blocks <==> i == b.index || (i in s.blocks && i < b.index))
      && (forall i | i in t.blocks :: t.blocks[i] == if i == b.index then b else s.blocks[i])
  {
    ReplaceBlocks(s, b);
    hide ReplaceBlock;
  }

  // ---------------------------------------------------------------------------
  // Draining
  // ---------------------------------------------------------------------------

  /** From `next` up to just below `top` the waiting blocks are among these and wait no longer; at the top
      nothing waits; all others still wait, and no new one does. */
  ghost predicate Taken(future: map<nat, Block>, next: nat, top: nat, blocks: map<nat, Block>, left: map<nat, Block>) {
    && next <= top && top !in left
    && (forall k | next <= k < top :: k in future && k in blocks && blocks[k] == future[k] && k !in left)
    && (forall k | k in future && (k < next || k > top) :: k in left)
    && (forall k | k in left :: k in future && left[k] == future[k])
  }

  /** Waiting blocks are taken into the chain up to its new height, and the one after that was not Good. */
  ghost predicate Drained(
      env: Checks, future: map<nat, Block>, next: nat, clock: nat -> int, t: ChainState, left: map<nat, Block>)
  {
    var top := Height(t) + 1;
    && Taken(future, next, top, t.blocks, left)
    && (top in future ==> Check(env, t, future[top], clock(top)) != Some(Good))
  }

  lemma {:induction false} DrainTakes(env: Checks, s: ChainState, future: map<nat, Block>, next: nat, clock: nat -> int)
    requires NodeOk(NodeState(s, future, 0)) && next == Height(s) + 1
    requires Drain(env, s, future, next, clock).Some?
    ensures var d := Drain(env, s, future, next, clock).value; Drained(env, future, next, clock, d.0, d.1)
    ensures Agree(s.blocks, Drain(env, s, future, next, clock).value.0.blocks, next)
    decreases |future|
  {
    hide Check, Sound, AddBlock, Drained;
    if next in future {
      var b := future[next];
      Shrinks(future, next);
      if Check(env, s, b, clock(next)) == Some(Good) {
        GoodAdds(env, s, b, clock(next));
        AddedBlock(s, b);
        var d := Drain(env, AddBlock(s, b), future - {next}, next + 1, clock).value;
        DrainTakes(env, AddBlock(s, b), future - {next}, next + 1, clock);
        DrainedMore(env, future, next, clock, AddBlock(s, b).blocks, d.0, d.1);
      } else {
        DrainedNone(env, s, future, next, clock);
      }
    } else {
      DrainedNone(env, s, future, next, clock);
    }
  }

  lemma AddedBlock(s: ChainState, b: Block)
    requires b.index !in s.blocks
    ensures b.index in AddBlock(s, b).blocks && AddBlock(s, b).blocks[b.index] == b
  {
  }

  lemma DrainedNone(env: Checks, s: ChainState, future: map<nat, Block>, next: nat, clock: nat -> int)
    requires next == Height(s) + 1
    requires next in future ==> Check(env, s, future[next], clock(next)) != Some(Good)
    ensures Drained(env, future, next, clock, s, future - {next})
    ensures next !in future ==> future - {next} == future
  {
    hide Check;
  }

  lemma DrainedMore(
      env: Checks, future: map<nat, Block>, next: nat, clock: nat -> int,
      blocks: map<nat, Block>, t: ChainState, left: map<nat, Block>)
    requires next in future && next in blocks && blocks[next] == future[next] && Agree(blocks, t.blocks, next + 1)
    requires Drained(env, future - {next}, next + 1, clock, t, left)
    ensures Drained(env, future, next, clock, t, left)
  {
    hide Check;
    TakenMore(future, next, Height(t) + 1, t.blocks, left);
    hide Taken;
  }

  lemma TakenMore(future: map<nat, Block>, next: nat, top: nat, blocks: map<nat, Block>, left: map<nat, Block>)
    requires next in future && next in blocks && blocks[next] == future[next]
    requires Taken(future - {next}, next + 1, top, blocks, left)
    ensures Taken(future, next, top, blocks, left)
  {
    assert forall k | k in future && k != next :: k in future - {next};
    forall k | next <= k < top
      ensures k in future && k in blocks && blocks[k] == future[k] && k !in left
    {
      if k > next {
        assert k in future - {next};
      }
    }
  }

  /** What a received block does to a block that waits: it goes on waiting, or is replaced by the received
      block, or is added to the chain, or is dropped because it was the next one and not Good, or because
      the node has reached the height it had heard of. Nothing else comes to wait. */
  lemma WaitingBlocks(env: Checks, n: NodeState, b: Block, clock: nat -> int, k: nat)
    requires NodeOk(n) && Handle(env, n, b, clock).Some?
    requires b.index >= 1 || Check(env, n.chain, b, clock(b.index)) != Some(Good)
    ensures var (n', verdict) := (Handle(env, n, b, clock).value.0, Check(env, n.chain, b, clock(b.index)));
      && (k in n.future ==>
          || (k in n'.future && n'.future[k] == n.future[k])
          || (verdict == Some(Future) && k == b.index && k in n'.future && n'.future[k] == b)
          || (verdict == Some(Good) && b.index < k && k in n'.chain.blocks && n'.chain.blocks[k] == n.future[k])
          || (verdict == Some(Good) && k == Height(n'.chain) + 1
              && Check(env, n'.chain, n.future[k], clock(k)) != Some(Good))
          || (verdict == Some(Good) && Height(n'.chain) == n.maxHeight && n'.future == map[]))
      && (k in n'.future ==>
          || (k in n.future && n'.future[k] == n.future[k])
          || (verdict == Some(Future) && k == b.index && n'.future[k] == b))
  {
    hide Check, Sound, AddBlock, Drain, ReplaceBlock, IsBetterThan, Drained;
    if Check(env, n.chain, b, clock(b.index)) == Some(Good) {
      GoodAdds(env, n.chain, b, clock(b.index));
      var s := AddBlock(n.chain, b);
      DrainTakes(env, s, n.future, b.index + 1, clock);
      var d := Drain(env, s, n.future, b.index + 1, clock).value;
      DrainedOne(env, n.future, b.index + 1, clock, d.0, d.1, k);
    }
  }

  lemma DrainedOne(
      env: Checks, future: map<nat, Block>, next: nat, clock: nat -> int,
      t: ChainState, left: map<nat, Block>, k: nat)
    requires Drained(env, future, next, clock, t, left)
    ensures k in left ==> k in future && left[k] == future[k]
    ensures k in future ==>
      || (k in left && left[k] == future[k])
      || (k >= next && k in t.blocks && t.blocks[k] == future[k])
      || (k == Height(t) + 1 && Check(env, t, future[k], clock(k)) != Some(Good))
  {
    hide Check;
  }

  /** A Good block is on the chain afterwards, with all that was there; the height it has heard of stays. */
  lemma GoodStays(env: Checks, n: NodeState, b: Block, clock: nat -> int)
    requires NodeOk(n) && Check(env, n.chain, b, clock(b.index)) == Some(Good) && b.index >= 1
    requires Handle(env, n, b, clock).Some?
    ensures var (n', reply) := Handle(env, n, b, clock).value;
      && reply == Idle && n'.maxHeight == n.maxHeight
      && Height(n'.chain) >= b.index == Height(n.chain) + 1
      && b.index in n'.chain.blocks && n'.chain.blocks[b.index] == b
      && (forall i | i in n.chain.blocks :: i in n'.chain.blocks && n'.chain.blocks[i] == n.chain.blocks[i])
      && (forall i | i in n'.chain.blocks && i > b.index :: i in n.future && n'.chain.blocks[i] == n.future[i])
      && Height(n'.chain) + 1 !in n'.future
  {
    hide Check, Sound, AddBlock, Drain, Handle, Drained;
    GoodAdds(env, n.chain, b, clock(b.index));
    AddedBlock(n.chain, b);
    var s := AddBlock(n.chain, b);
    GoodDrains(env, n, b, clock);
    DrainTakes(env, s, n.future, b.index + 1, clock);
    DrainKeeps(env, s, n.future, b.index + 1, clock);
    var d := Drain(env, s, n.future, b.index + 1, clock).value;
    UpTo(n.chain);
    UpTo(d.0);
    DrainedTop(env, n.future, b.index + 1, clock, d.0, d.1);
  }

  /** A Good block is added and the waiting ones are drained; none waits any more at the announced height. */
  lemma GoodDrains(env: Checks, n: NodeState, b: Block, clock: nat -> int)
    requires Check(env, n.chain, b, clock(b.index)) == Some(Good) && Handle(env, n, b, clock).Some?
    ensures Drain(env, AddBlock(n.chain, b), n.future, b.index + 1, clock).Some?
    ensures var d := Drain(env, AddBlock(n.chain, b), n.future, b.index + 1, clock).value;
      Handle(env, n, b, clock).value ==
        (NodeState(d.0, if Height(d.0) == n.maxHeight then map[] else d.1, n.maxHeight), Idle)
  {
    hide Check, AddBlock, Drain;
  }

  lemma UpTo(s: ChainState)
    requires Sound(s)
    ensures forall i :: i in s.blocks <==> 1 <= i <= Height(s)
  {
    hide Projected, FullCached;
  }

  lemma DrainedTop(
      env: Checks, future: map<nat, Block>, next: nat, clock: nat -> int, t: ChainState, left: map<nat, Block>)
    requires Drained(env, future, next, clock, t, left)
    ensures Height(t) + 1 !in left
    ensures forall k | next <= k <= Height(t) :: k in future && k in t.blocks && t.blocks[k] == future[k]
  {
    hide Check;
  }
}
