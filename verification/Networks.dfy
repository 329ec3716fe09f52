/** Handling a received block: the node's chain and its held-back blocks, updated in place. */
module Networks {
  import opened Data
  import opened Blocks
  import opened ChainSpec
  import opened ChainInvariant
  import opened NodeSpec
  import opened Chains

  class Network {
    const chain: Chain
    var futureBlocks: map<nat, Block>
    var seenBlocks: set<Bytes>

    constructor (chain: Chain)
      requires chain.Valid()
      ensures this.chain == chain && Valid()
      ensures View() == NodeState(chain.State(), map[], chain.maxHeight)
    {
      this.chain := chain;
      futureBlocks, seenBlocks := map[], {};
    }

    function View(): NodeState
      reads this, chain
    {
      NodeState(chain.State(), futureBlocks, chain.maxHeight)
    }

    ghost predicate Valid()
      reads this, chain
    {
      chain.Valid() && NodeOk(View())
    }

    /** handle_block. The clock is consulted anew for every block judged. */
    method HandleBlock(b: Block, clock: nat -> int) returns (reply: Reply)
      requires Valid() && Handle(chain.env, View(), b, clock).Some?
      modifies this, chain
      ensures b.index >= 1 || Check(chain.env, old(View()).chain, b, clock(b.index)) != Some(Good) ==> Valid()
      ensures Handle(chain.env, old(View()), b, clock) == Some((View(), reply))
      ensures seenBlocks == old(seenBlocks) + {b.hash}
    {
      hide Sound, Check, Drain, ChainSpec.AddBlock, ChainSpec.ReplaceBlock, IsBetterThan, Memo, NodeOk, Fits, Stranded;
      ghost var n := View();
      HandleKeepsExactly(chain.env, n, b, clock);
      HandleJudges(chain.env, n, b, clock);
      KeyedByIndex(n);
      seenBlocks := seenBlocks + {b.hash};
      var maxHeight := chain.maxHeight;
      var q := chain.CheckNewBlock(b, clock(b.index));
      match q
      case Good =>
        GoodIsKnown(chain.env, n.chain, b, clock(b.index));
        if b.index == 0 {
          IndexZeroStrands(chain.env, n.chain, b, clock(b.index));
        } else {
          GoodFits(chain.env, n.chain, b, clock(b.index));
        }
        chain.AddBlock(b);
        DrainFuture(b.index + 1, clock);
        if chain.GetHeight() == maxHeight {
          futureBlocks := map[];
        }
        reply := Idle;
      case Twin =>
        reply := Idle;
      case Future =>
        futureBlocks := futureBlocks[b.index := b];
        reply := Idle;
      case Bad =>
        if chain.GetHeight() + 1 == b.index {
          chain.maxHeight := chain.GetHeight();
        }
        reply := Banned;
      case Rewind =>
        reply := GetBlock(b.index - 1);
      case Fork =>
        ForkFits(chain.env, n.chain, b, clock(b.index));
        var lagged := b.index == chain.GetHeight() && b.index + LIMITED_CONFIDENCE_DEPTH <= maxHeight;
        var ours := chain.blocks[b.index];
        if IsBetterThan(b, ours) || lagged {
          chain.ReplaceBlock(b);
          reply := Idle;
        } else {
          reply := OurBlock(ours);
        }
    }

    /** The loop over the held-back blocks that follow. */
    method DrainFuture(first: nat, clock: nat -> int)
      requires chain.Valid() || Stranded(chain.State())
      requires first >= 1 && forall k | k in futureBlocks :: futureBlocks[k].index == k
      requires Drain(chain.env, chain.State(), futureBlocks, first, clock).Some?
      modifies this`futureBlocks, chain
      ensures old(chain.Valid()) ==> chain.Valid()
      ensures chain.maxHeight == old(chain.maxHeight)
      ensures Drain(chain.env, old(chain.State()), old(futureBlocks), first, clock) ==
        Some((chain.State(), futureBlocks))
    {
      hide Sound, Check, ChainSpec.AddBlock, Memo, Fits, Drain, Stranded;
      var next := first;
      ghost var whole := Drain(chain.env, chain.State(), futureBlocks, first, clock);
      DrainStep(chain.env, chain.State(), futureBlocks, next, clock);
      while next in futureBlocks
        invariant if old(chain.Valid()) then chain.Valid() else Stranded(chain.State())
        invariant chain.maxHeight == old(chain.maxHeight)
        invariant next >= 1 && forall k | k in futureBlocks :: futureBlocks[k].index == k
        invariant whole == Drain(chain.env, chain.State(), futureBlocks, next, clock)
        decreases |futureBlocks|
      {
        DrainStep(chain.env, chain.State(), futureBlocks, next, clock);
        Shrinks(futureBlocks, next);
        var b := futureBlocks[next];
        futureBlocks := futureBlocks - {next};
        ghost var s := chain.State();
        var q := chain.CheckNewBlock(b, clock(next));
        if q != Good {
          return;
        }
        GoodIsKnown(chain.env, s, b, clock(next));
        if old(chain.Valid()) {
          GoodFits(chain.env, s, b, clock(next));
        } else {
          StrandedStays(chain.env, s, b, clock(next));
        }
        chain.AddBlock(b);
        next := next + 1;
      }
      DrainStep(chain.env, chain.State(), futureBlocks, next, clock);
    }
  }

  lemma DrainStep(env: Checks, s: ChainState, future: map<nat, Block>, next: nat, clock: nat -> int)
    ensures Drain(env, s, future, next, clock) ==
      if next !in future then Some((s, future))
      else match Check(env, s, future[next], clock(next))
        case None => None
        case Some(q) =>
          if q == Good then Drain(env, ChainSpec.AddBlock(s, future[next]), future - {next}, next + 1, clock)
          else Some((s, future - {next}))
  {
    hide Check, ChainSpec.AddBlock;
  }

  lemma HandleJudges(env: Checks, n: NodeState, b: Block, clock: nat -> int)
    requires Handle(env, n, b, clock).Some?
    ensures Check(env, n.chain, b, clock(b.index)).Some?
    ensures Check(env, n.chain, b, clock(b.index)) == Some(Rewind) ==> b.index >= 1
  {
    hide Drain;
  }

  lemma GoodFits(env: Checks, s: ChainState, b: Block, now: int)
    requires Sound(s) && Check(env, s, b, now) == Some(Good) && b.index >= 1
    ensures Fits(s, b) && b.index == Height(s) + 1
  {
    GoodOrForkFits(env, s, b, now);
  }

  lemma GoodIsKnown(env: Checks, s: ChainState, b: Block, now: int)
    requires Check(env, s, b, now) == Some(Good)
    ensures KnownClass(b)
  {
    ScreenedClass(env, s, b, s.last, now);
  }

  lemma KeyedByIndex(n: NodeState)
    requires NodeOk(n)
    ensures forall k | k in n.future :: n.future[k].index == k
  {
  }

  lemma ForkFits(env: Checks, s: ChainState, b: Block, now: int)
    requires Sound(s) && Check(env, s, b, now) == Some(Fork)
    ensures Fits(s, b) && b.index in s.blocks
  {
    GoodOrForkFits(env, s, b, now);
  }
}
