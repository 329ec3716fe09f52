/** Timestamps along the chain, and how a replaced block can make them fall. */
module Timestamps {
  import opened Data
  import opened Blocks
  import opened ChainSpec
  import opened ChainInvariant
  import opened NodeSpec

  /** No stored block is earlier than one below it. */
  ghost predicate Rises(s: ChainState) {
    forall i, j | i in s.blocks && j in s.blocks && i <= j :: s.blocks[i].timestamp <= s.blocks[j].timestamp
  }

  /** Appending keeps timestamps rising exactly when the block is not earlier than the tip. */
  lemma AddRises(s: ChainState, b: Block)
    requires Linked(s) && Rises(s) && b.index == Height(s) + 1
    ensures Rises(AddBlock(s, b)) <==> s.last.None? || s.last.value.timestamp <= b.timestamp
  {
    var t := AddBlock(s, b);
    assert b.index !in s.blocks && t.blocks == s.blocks[b.index := b];
    if s.last.Some? && Rises(t) {
      assert t.blocks[Height(s)].timestamp <= t.blocks[b.index].timestamp;
    }
  }

  /** Replacing keeps them rising exactly when the block is the first, or not earlier than the one
      below it. The program never compares the two. */
  lemma ReplaceRises(s: ChainState, b: Block)
    requires Sound(s) && Fits(s, b) && Rises(s)
    ensures Rises(ReplaceBlock(s, b)) <==> b.index == 1 || s.blocks[b.index - 1].timestamp <= b.timestamp
  {
    ReplaceBlocks(s, b);
    hide ReplaceBlock, Projected, FullCached;
    var t := ReplaceBlock(s, b);
    if b.index > 1 && Rises(t) {
      assert t.blocks[b.index - 1].timestamp <= t.blocks[b.index].timestamp;
    }
  }

  /** Whether a block is judged a Fork does not depend on the timestamp of the tip, the only one its own
      could be compared with. */
  lemma ForkIgnoresTimestamps(env: Checks, s: ChainState, b: Block, now: int, last: Block, time: int)
    requires s.last == Some(last)
    ensures Check(env, s, b, now) == Some(Fork) <==>
      CheckBlock(env, s, b, Some(last.(timestamp := time)), s.lastFull, now) == Some(Fork)
  {
    hide NeededDifficulty, HashDifficulty, GoodTransaction, GoodSignBlock;
  }

  lemma GoodRises(env: Checks, s: ChainState, b: Block, now: int)
    requires Sound(s) && Rises(s) && Check(env, s, b, now) == Some(Good) && b.index >= 1
    ensures Rises(AddBlock(s, b))
  {
    hide NeededDifficulty, HashDifficulty, GoodTransaction, GoodSignBlock, Projected, FullCached, AddBlock, Fits, Rises;
    GoodOrForkFits(env, s, b, now);
    AddRises(s, b);
  }

  lemma {:induction false} DrainRises(env: Checks, s: ChainState, future: map<nat, Block>, next: nat, clock: nat -> int)
    requires NodeOk(NodeState(s, future, 0)) && next == Height(s) + 1 && Rises(s)
    requires Drain(env, s, future, next, clock).Some?
    ensures Rises(Drain(env, s, future, next, clock).value.0)
    decreases |future|
  {
    hide Check, Sound, AddBlock, Rises;
    if next in future {
      var b := future[next];
      Shrinks(future, next);
      if Check(env, s, b, clock(next)) == Some(Good) {
        GoodAdds(env, s, b, clock(next));
        GoodRises(env, s, b, clock(next));
        DrainRises(env, AddBlock(s, b), future - {next}, next + 1, clock);
      }
    }
  }

  /** The block wins over the one it contests. */
  predicate Wins(n: NodeState, b: Block) {
    b.index in n.chain.blocks && (IsBetterThan(b, n.chain.blocks[b.index]) || Lagged(n, b))
  }

  /** A received block of index 1 or more keeps timestamps rising exactly unless it is a Fork that wins
      and is earlier than the block below it. */
  lemma HandleRisesExactly(env: Checks, n: NodeState, b: Block, clock: nat -> int)
    requires NodeOk(n) && Rises(n.chain) && b.index >= 1 && Handle(env, n, b, clock).Some?
    ensures Rises(Handle(env, n, b, clock).value.0.chain) <==>
      !(Check(env, n.chain, b, clock(b.index)) == Some(Fork) && Wins(n, b)
        && b.index > 1 && b.index - 1 in n.chain.blocks && b.timestamp < n.chain.blocks[b.index - 1].timestamp)
  {
    hide Check, Sound, AddBlock, Drain, ReplaceBlock, IsBetterThan, Rises;
    var now := clock(b.index);
    if Check(env, n.chain, b, now) == Some(Good) {
      GoodAdds(env, n.chain, b, now);
      GoodRises(env, n.chain, b, now);
      DrainRises(env, AddBlock(n.chain, b), n.future, b.index + 1, clock);
    } else if Check(env, n.chain, b, now) == Some(Fork) {
      ForkPlace(env, n.chain, b, now);
      ReplaceRises(n.chain, b);
    }
  }

  lemma ForkPlace(env: Checks, s: ChainState, b: Block, now: int)
    requires Sound(s) && Check(env, s, b, now) == Some(Fork)
    ensures Fits(s, b) && b.index in s.blocks && (b.index > 1 ==> b.index - 1 in s.blocks)
  {
    GoodOrForkFits(env, s, b, now);
  }
}
