/** A node as a state machine: its chain, the blocks that came too early, and the height it has
    heard of. Steps are received blocks, mined blocks and peers' announcements. */
module NodeSpec {
  import opened Data
  import opened Blocks
  import opened ChainSpec
  import opened ChainInvariant

  datatype NodeState = NodeState(chain: ChainState, future: map<nat, Block>, maxHeight: nat)

  /** The answer sent back to the peer. */
  datatype Reply = Idle | Banned | GetBlock(index: nat) | OurBlock(block: Block)

  /** Adding the blocks held back for the indexes that follow, as long as each is judged Good. The
      clock is consulted anew for each; None when a judgement never ends. */
  ghost function Drain(env: Checks, s: ChainState, future: map<nat, Block>, next: nat, clock: nat -> int)
    : Option<(ChainState, map<nat, Block>)>
    decreases |future|
  {
    if next !in future then Some((s, future))
    else
      var b, rest := future[next], future - {next};
      Shrinks(future, next);
      match Check(env, s, b, clock(next))
      case None => None
      case Some(Good) => Drain(env, AddBlock(s, b), rest, next + 1, clock)
      case Some(_) => Some((s, rest))
  }

  lemma Shrinks(m: map<nat, Block>, k: nat)
    requires k in m
    ensures |m - {k}| < |m|
  {
    assert (m - {k}).Keys == m.Keys - {k};
    assert |(m - {k}).Keys| < |m.Keys|;
  }

  /** Whether the node is far enough behind to take a contested tip from others. */
  predicate Lagged(n: NodeState, b: Block) {
    b.index == Height(n.chain) && b.index + LIMITED_CONFIDENCE_DEPTH <= n.maxHeight
  }

  /** handle_block */
  ghost function Handle(env: Checks, n: NodeState, b: Block, clock: nat -> int): Option<(NodeState, Reply)>
  {
    match Check(env, n.chain, b, clock(b.index))
    case None => None
    case Some(Good) =>
      (match Drain(env, AddBlock(n.chain, b), n.future, b.index + 1, clock)
       case None => None
       case Some(d) =>
         Some((NodeState(d.0, if Height(d.0) == n.maxHeight then map[] else d.1, n.maxHeight), Idle)))
    case Some(Twin) => Some((n, Idle))
    case Some(Future) => Some((n.(future := n.future[b.index := b]), Idle))
    case Some(Bad) =>
      Some((if Height(n.chain) + 1 == b.index then n.(maxHeight := Height(n.chain)) else n, Banned))
    case Some(Rewind) => Some((n, GetBlock(b.index - 1)))
    case Some(Fork) =>
      if b.index !in n.chain.blocks then None // get_block(..).unwrap() would panic
      else
        var ours := n.chain.blocks[b.index];
        if IsBetterThan(b, ours) || Lagged(n, b) then Some((n.(chain := ReplaceBlock(n.chain, b)), Idle))
        else Some((n, OurBlock(ours)))
  }

  /** The node's invariant: a sound chain, and early blocks filed under their own index. */
  ghost predicate NodeOk(n: NodeState) {
    Sound(n.chain) && forall k | k in n.future :: n.future[k].index == k
  }

  /** Draining keeps the chain sound, only ever adds on top, and stops where nothing is held back or
      the first block held back is not Good. */
  lemma {:induction false} DrainKeeps(env: Checks, s: ChainState, future: map<nat, Block>, next: nat, clock: nat -> int)
    requires NodeOk(NodeState(s, future, 0)) && next == Height(s) + 1
    requires Drain(env, s, future, next, clock).Some?
    ensures var d := Drain(env, s, future, next, clock).value;
      && NodeOk(NodeState(d.0, d.1, 0))
      && Height(s) <= Height(d.0) && Agree(s.blocks, d.0.blocks, next)
      && Height(d.0) + |d.1| <= Height(s) + |future|
      && (forall k | k in d.1 :: k in future && d.1[k] == future[k])
    decreases |future|
  {
    hide Check, Sound, AddBlock;
    if next in future {
      var b := future[next];
      Shrinks(future, next);
      if Check(env, s, b, clock(next)) == Some(Good) {
        GoodAdds(env, s, b, clock(next));
        DrainKeeps(env, AddBlock(s, b), future - {next}, next + 1, clock);
      }
    }
  }

  /** A Good block of index 1 or more keeps the chain sound and raises it by one. */
  lemma GoodAdds(env: Checks, s: ChainState, b: Block, now: int)
    requires Sound(s) && Check(env, s, b, now) == Some(Good) && b.index >= 1
    ensures Sound(AddBlock(s, b)) && b.index == Height(s) + 1 == Height(AddBlock(s, b))
    ensures Agree(s.blocks, AddBlock(s, b).blocks, b.index) && b.index !in s.blocks
  {
    hide Check, Projected, FullCached;
    GoodOrForkFits(env, s, b, now);
    AddKeepsSound(s, b);
  }

  /** The tip has index 0 above a chain that is still there. */
  ghost predicate Stranded(s: ChainState) {
    s.last.Some? && s.last.value.index == 0 && 0 in s.blocks && 1 in s.blocks
  }

  lemma IndexZeroStrands(env: Checks, s: ChainState, b: Block, now: int)
    requires Sound(s) && Check(env, s, b, now) == Some(Good) && b.index == 0
    ensures Stranded(AddBlock(s, b)) && 0 !in s.blocks
  {
    hide NeededDifficulty, HashDifficulty, GoodTransaction, GoodSignBlock, Projected, FullCached;
    assert s.last.Some?;
    assert 1 in s.blocks && 0 !in s.blocks;
  }

  /** Over a stranded chain nothing can be added any more: what is judged Good is there already. */
  lemma StrandedStays(env: Checks, s: ChainState, b: Block, now: int)
    requires Stranded(s) && Check(env, s, b, now) == Some(Good)
    ensures AddBlock(s, b) == s
  {
    hide NeededDifficulty, HashDifficulty, GoodTransaction, GoodSignBlock;
  }

  lemma {:induction false} StrandedDrains(
      env: Checks, s: ChainState, future: map<nat, Block>, next: nat, clock: nat -> int)
    requires Stranded(s) && Drain(env, s, future, next, clock).Some?
    ensures Drain(env, s, future, next, clock).value.0 == s
    decreases |future|
  {
    hide Check, AddBlock, Stranded;
    if next in future {
      Shrinks(future, next);
      if Check(env, s, future[next], clock(next)) == Some(Good) {
        StrandedStays(env, s, future[next], clock(next));
        StrandedDrains(env, s, future - {next}, next + 1, clock);
      }
    }
  }

  /** A received block leaves the node in order exactly unless it has index 0 and is judged Good. */
  lemma HandleKeepsExactly(env: Checks, n: NodeState, b: Block, clock: nat -> int)
    requires NodeOk(n) && Handle(env, n, b, clock).Some?
    ensures NodeOk(Handle(env, n, b, clock).value.0) <==>
      !(b.index == 0 && Check(env, n.chain, b, clock(b.index)) == Some(Good))
  {
    hide Check, Sound, AddBlock, Stranded, Drain, ReplaceBlock, IsBetterThan;
    if b.index == 0 && Check(env, n.chain, b, clock(b.index)) == Some(Good) {
      IndexZeroStrands(env, n.chain, b, clock(b.index));
      StrandedDrains(env, AddBlock(n.chain, b), n.future, b.index + 1, clock);
      StrandedIsUnsound(AddBlock(n.chain, b));
    } else {
      HandleKeeps(env, n, b, clock);
    }
  }

  lemma StrandedIsUnsound(s: ChainState)
    requires Stranded(s)
    ensures !Sound(s)
  {
  }

  /** Every received block leaves the node in order, whatever its judgement, except one of index 0
      that is judged Good. */
  lemma HandleKeeps(env: Checks, n: NodeState, b: Block, clock: nat -> int)
    requires NodeOk(n) && (b.index >= 1 || Check(env, n.chain, b, clock(b.index)) != Some(Good))
    requires Handle(env, n, b, clock).Some?
    ensures NodeOk(Handle(env, n, b, clock).value.0)
  {
    hide Check, Sound, Drain, ReplaceBlock, IsBetterThan;
    var now := clock(b.index);
    if Check(env, n.chain, b, now) == Some(Good) {
      GoodAdds(env, n.chain, b, now);
      DrainKeeps(env, AddBlock(n.chain, b), n.future, b.index + 1, clock);
    } else if Check(env, n.chain, b, now) == Some(Fork) {
      ForkReplaces(env, n.chain, b, now);
    }
  }

  /** After a Fork the cached full block is still the chain's last exactly when nothing was replaced, or
      the new block is full, or the cached one lies below it. */
  lemma ForkFreshness(env: Checks, n: NodeState, b: Block, clock: nat -> int)
    requires Sound(n.chain) && FullFresh(n.chain) && Check(env, n.chain, b, clock(b.index)) == Some(Fork)
    requires Handle(env, n, b, clock).Some?
    ensures b.index in n.chain.blocks
    ensures FullFresh(Handle(env, n, b, clock).value.0.chain) <==>
      || !(IsBetterThan(b, n.chain.blocks[b.index]) || Lagged(n, b))
      || b.transaction.Some? || n.chain.lastFull.None? || n.chain.lastFull.value.index < b.index
  {
    GoodOrForkFits(env, n.chain, b, clock(b.index));
    ReplaceFreshness(n.chain, b);
    hide Check, Sound, FullFresh, ReplaceBlock, IsBetterThan;
  }

  lemma ForkReplaces(env: Checks, s: ChainState, b: Block, now: int)
    requires Sound(s) && Check(env, s, b, now) == Some(Fork)
    ensures Sound(ReplaceBlock(s, b))
  {
    GoodOrForkFits(env, s, b, now);
    hide Check;
    ReplaceKeepsSound(s, b);
  }

  /** The Fork branch always finds the block it contests: handling a block fails to end only when
      a judgement does. */
  lemma ForkFindsOurBlock(env: Checks, n: NodeState, b: Block, clock: nat -> int)
    requires NodeOk(n) && Check(env, n.chain, b, clock(b.index)) == Some(Fork)
    ensures b.index in n.chain.blocks && Handle(env, n, b, clock).Some?
  {
    GoodOrForkFits(env, n.chain, b, clock(b.index));
  }

  // ---------------------------------------------------------------------------
  // Contests for the tip
  // ---------------------------------------------------------------------------

  /** The node after a number of received blocks, each judged a Fork of the tip, while it is not
      lagging; None if a block is anything else. */
  ghost function Contested(env: Checks, n: NodeState, arrivals: seq<Block>, clock: nat -> int): Option<NodeState>
    decreases |arrivals|
  {
    if arrivals == [] then Some(n)
    else
      var b := arrivals[0];
      if b.index != Height(n.chain) || Lagged(n, b) || Check(env, n.chain, b, clock(b.index)) != Some(Fork) then None
      else match Handle(env, n, b, clock)
        case None => None
        case Some(r) => Contested(env, r.0, arrivals[1..], clock)
  }

  /** The tip that is left is the winner of the contest: a best block, and with contestants of one
      kind and no ties the same block in every order of arrival (see Contest). */
  lemma {:induction false} TipWinsContest(env: Checks, n: NodeState, arrivals: seq<Block>, clock: nat -> int)
    requires Sound(n.chain) && n.chain.last.Some? && Contested(env, n, arrivals, clock).Some?
    ensures Contested(env, n, arrivals, clock).value.chain.last == Some(Contest(n.chain.last.value, arrivals))
    decreases |arrivals|
  {
    hide Check, Handle, Sound, IsBetterThan;
    if arrivals != [] {
      var b := arrivals[0];
      ContestStep(env, n, b, clock);
      TipWinsContest(env, Handle(env, n, b, clock).value.0, arrivals[1..], clock);
    }
  }

  lemma ContestStep(env: Checks, n: NodeState, b: Block, clock: nat -> int)
    requires Sound(n.chain) && n.chain.last.Some? && b.index == Height(n.chain) && !Lagged(n, b)
    requires Check(env, n.chain, b, clock(b.index)) == Some(Fork) && Handle(env, n, b, clock).Some?
    ensures var (n', tip) := (Handle(env, n, b, clock).value.0, n.chain.last.value);
      Sound(n'.chain) && n'.chain.last == Some(if IsBetterThan(b, tip) then b else tip)
  {
    ForkReplaces(env, n.chain, b, clock(b.index));
    ReplaceBlocks(n.chain, b);
    hide Check, IsBetterThan, Projected, FullCached, ReplaceBlock;
  }
}
