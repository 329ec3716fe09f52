/** Runs of a node: received blocks, mined blocks, peers' announcements and restarts, in any order. */
module NodeRuns {
  import opened Data
  import opened Blocks
  import opened ChainSpec
  import opened ChainInvariant
  import opened NodeSpec
  import opened StartupCheck

  datatype Event =
    | Received(block: Block, clock: nat -> int)
    | Mined(block: Block, now: int)
    | Heard(height: nat)
    | Restarted(count: nat, clock: nat -> int)

  const START := NodeState(EMPTY_CHAIN, map[], 0)

  /** One event. A mined block is judged like any other and added only if Good. A restart keeps the
      tables only: it opens them anew and checks the last blocks. None if a judgement never ends, or
      the check panics. */
  ghost function Step(env: Checks, n: NodeState, e: Event): Option<NodeState>
  {
    match e
    case Heard(h) => Some(n.(maxHeight := h))
    case Mined(b, now) =>
      (match Check(env, n.chain, b, now)
       case None => None
       case Some(Good) => Some(n.(chain := AddBlock(n.chain, b)))
       case Some(_) => Some(n))
    case Received(b, clock) =>
      (match Handle(env, n, b, clock)
       case None => None
       case Some(r) => Some(r.0))
    case Restarted(count, clock) =>
      (match CheckChain(env, Opened(n.chain.blocks, n.chain.domains), count, clock)
       case Passed(t) => Some(NodeState(t, map[], 0))
       case _ => None)
  }

  /** The event brings no block of index 0. */
  predicate NotZero(e: Event) {
    (e.Received? || e.Mined? ==> e.block.index >= 1)
  }

  /** The blocks a node holds, in its chain and waiting. */
  function Held(n: NodeState): nat {
    Height(n.chain) + |n.future|
  }

  /** The event puts a block of index 0 into the chain: it brings one that is judged Good. */
  ghost predicate AddsZero(env: Checks, n: NodeState, e: Event) {
    match e
    case Received(b, clock) => b.index == 0 && Check(env, n.chain, b, clock(0)) == Some(Good)
    case Mined(b, now) => b.index == 0 && Check(env, n.chain, b, now) == Some(Good)
    case _ => false
  }

  /** Every other event keeps the node in order, and brings it at most one block more. */
  lemma StepKeeps(env: Checks, n: NodeState, e: Event)
    requires NodeOk(n) && !AddsZero(env, n, e) && Held(n) < MAX_INDEX && Step(env, n, e).Some?
    ensures NodeOk(Step(env, n, e).value) && Held(Step(env, n, e).value) <= Held(n) + 1
  {
    hide Check, Handle, Sound, AddBlock, CheckChain, Opened;
    match e
    case Heard(_) =>
    case Mined(b, now) =>
      if Check(env, n.chain, b, now) == Some(Good) {
        GoodAdds(env, n.chain, b, now);
      }
    case Received(b, clock) =>
      HandleKeeps(env, n, b, clock);
      HandleHolds(env, n, b, clock);
    case Restarted(count, clock) =>
      RestartKeeps(env, n.chain, count, clock);
  }

  lemma RestartKeeps(env: Checks, s: ChainState, count: nat, clock: nat -> int)
    requires Sound(s) && Height(s) < MAX_INDEX
    requires CheckChain(env, Opened(s.blocks, s.domains), count, clock).Passed?
    ensures var t := CheckChain(env, Opened(s.blocks, s.domains), count, clock).chain;
      Sound(t) && Height(t) <= Height(s)
  {
    hide Sound, CheckChain, Opened, CutOf;
    OpenedIsFresh(s);
    CheckKeepsSound(env, Opened(s.blocks, s.domains), count, clock);
  }

  lemma HandleHolds(env: Checks, n: NodeState, b: Block, clock: nat -> int)
    requires NodeOk(n) && (b.index >= 1 || Check(env, n.chain, b, clock(b.index)) != Some(Good))
    requires Handle(env, n, b, clock).Some?
    ensures Held(Handle(env, n, b, clock).value.0) <= Held(n) + 1
  {
    hide Check, Sound, AddBlock, Drain, ReplaceBlock, IsBetterThan;
    var now := clock(b.index);
    if Check(env, n.chain, b, now) == Some(Good) {
      GoodAdds(env, n.chain, b, now);
      DrainKeeps(env, AddBlock(n.chain, b), n.future, b.index + 1, clock);
    } else if Check(env, n.chain, b, now) == Some(Fork) {
      ForkHeight(env, n.chain, b, now);
    } else if b.index !in n.future {
      OneMore(n.future, b.index, b);
    } else {
      assert n.future[b.index := b].Keys == n.future.Keys;
      SameSize(n.future, b.index, b);
    }
  }

  lemma ForkHeight(env: Checks, s: ChainState, b: Block, now: int)
    requires Sound(s) && Check(env, s, b, now) == Some(Fork)
    ensures Height(ReplaceBlock(s, b)) <= Height(s)
  {
    GoodOrForkFits(env, s, b, now);
    ReplaceBlocks(s, b);
  }

  lemma OneMore(m: map<nat, Block>, k: nat, b: Block)
    requires k !in m
    ensures |m[k := b]| == |m| + 1
  {
    assert m[k := b].Keys == m.Keys + {k};
    assert |m[k := b].Keys| == |m.Keys| + 1;
  }

  lemma SameSize(m: map<nat, Block>, k: nat, b: Block)
    requires k in m
    ensures |m[k := b]| == |m|
  {
    assert m[k := b].Keys == m.Keys;
    assert |m[k := b].Keys| == |m.Keys|;
  }

  /** The node a run of events leads to from the empty chain; None if one of its steps does not end. */
  ghost function Run(env: Checks, events: seq<Event>): Option<NodeState>
    decreases |events|
  {
    if events == [] then Some(START)
    else match Run(env, events[..|events| - 1])
      case None => None
      case Some(n) => Step(env, n, events[|events| - 1])
  }

  // ---------------------------------------------------------------------------
  // A block of index 0 never goes away
  // ---------------------------------------------------------------------------

  /** The tables hold a block of index 0, and every block under its own index. */
  ghost predicate Zeroed(s: ChainState) {
    0 in s.blocks && Filed(s.blocks)
  }

  ghost predicate Filed(blocks: map<nat, Block>) {
    forall i | i in blocks :: blocks[i].index == i
  }

  lemma ZeroedIsUnsound(s: ChainState)
    requires Zeroed(s)
    ensures !Sound(s)
  {
  }

  lemma AddKeepsZeroed(s: ChainState, b: Block)
    requires Zeroed(s) || (Filed(s.blocks) && b.index == 0)
    ensures Zeroed(AddBlock(s, b))
  {
  }

  lemma ReplaceKeepsZeroed(s: ChainState, b: Block)
    requires Zeroed(s)
    ensures Zeroed(ReplaceBlock(s, b))
  {
    ReplaceBlocks(s, b);
    hide ReplaceBlock;
  }

  lemma {:induction false} DrainKeepsZeroed(
      env: Checks, s: ChainState, future: map<nat, Block>, next: nat, clock: nat -> int)
    requires Zeroed(s) && Drain(env, s, future, next, clock).Some?
    ensures Zeroed(Drain(env, s, future, next, clock).value.0)
    decreases |future|
  {
    hide Check, Zeroed, AddBlock;
    if next in future {
      Shrinks(future, next);
      if Check(env, s, future[next], clock(next)) == Some(Good) {
        AddKeepsZeroed(s, future[next]);
        DrainKeepsZeroed(env, AddBlock(s, future[next]), future - {next}, next + 1, clock);
      }
    }
  }

  lemma {:induction false} CheckKeepsZeroed(
      env: Checks, s: ChainState, id: nat, last: Option<Block>, f: Option<Block>, clock: nat -> int)
    requires Zeroed(s) && id >= 1 && CheckFrom(env, s, id, last, f, clock).Passed?
    ensures Zeroed(CheckFrom(env, s, id, last, f, clock).chain)
    decreases Height(s) + 1 - id
  {
    hide CheckBlock;
    if id <= Height(s) {
      var b := s.blocks[id];
      if b.index == 1 {
        CheckKeepsZeroed(env, s, id + 1, Some(b), f, clock);
      } else if !env.wrongHash(b.hash) && CheckBlock(env, s, b, last, f, clock(id)) == Some(Good) {
        if b.transaction.Some? {
          CheckKeepsZeroed(env, s.(lastFull := Some(b)), id + 1, Some(b), Some(b), clock);
        } else {
          CheckKeepsZeroed(env, s, id + 1, Some(b), f, clock);
        }
      }
    }
  }

  /** Nothing a node does takes the block of index 0 out again. */
  lemma StepKeepsZeroed(env: Checks, n: NodeState, e: Event)
    requires Zeroed(n.chain) && Step(env, n, e).Some?
    ensures Zeroed(Step(env, n, e).value.chain)
  {
    hide Check, Zeroed, AddBlock, ReplaceBlock, Drain, IsBetterThan, CheckFrom, TopBlock, LastFull;
    match e
    case Heard(_) =>
    case Mined(b, _) => AddKeepsZeroed(n.chain, b);
    case Received(b, clock) =>
      if Check(env, n.chain, b, clock(b.index)) == Some(Good) {
        AddKeepsZeroed(n.chain, b);
        DrainKeepsZeroed(env, AddBlock(n.chain, b), n.future, b.index + 1, clock);
      } else {
        ReplaceKeepsZeroed(n.chain, b);
      }
    case Restarted(count, clock) =>
      var s := Opened(n.chain.blocks, n.chain.domains);
      ZeroedTables(n.chain, s);
      var start := StartOf(Height(s), count);
      CheckKeepsZeroed(env, s, start, BlockBefore(s, start), FullBefore(s, BlockBefore(s, start)), clock);
      ZeroedTables(CheckFrom(env, s, start, BlockBefore(s, start), FullBefore(s, BlockBefore(s, start)), clock).chain,
        Step(env, n, e).value.chain);
  }

  lemma ZeroedTables(s: ChainState, t: ChainState)
    requires Zeroed(s) && t.blocks == s.blocks
    ensures Zeroed(t)
  {
  }

  lemma ZeroStays(env: Checks, n: NodeState, e: Event)
    requires NodeOk(n) && AddsZero(env, n, e) && Step(env, n, e).Some?
    ensures Zeroed(Step(env, n, e).value.chain)
  {
    hide Check, Zeroed, AddBlock, Drain;
    SoundIsFiled(n.chain);
    AddKeepsZeroed(n.chain, e.block);
    if e.Received? {
      DrainKeepsZeroed(env, AddBlock(n.chain, e.block), n.future, 1, e.clock);
    }
  }

  lemma SoundIsFiled(s: ChainState)
    requires Sound(s)
    ensures Filed(s.blocks)
  {
  }

  // ---------------------------------------------------------------------------
  // Whole runs
  // ---------------------------------------------------------------------------

  /** Some event of the run put a block of index 0 into the chain. */
  ghost predicate HasZero(env: Checks, events: seq<Event>)
    decreases |events|
  {
    events != [] &&
      var before := events[..|events| - 1];
      HasZero(env, before) || (Run(env, before).Some? && AddsZero(env, Run(env, before).value, events[|events| - 1]))
  }

  /** In the final state of every run, whatever is received, announced and mined, with restarts anywhere,
      and however the opaque checks turn out, the node is in order exactly when no event put a block of
      index 0 into the chain. In order means: ids are exactly 1..height, every block names its
      predecessor's hash, the tip is the top block, the domains table mirrors the domain blocks, no
      class is unknown, and early blocks are filed under their index. */
  lemma {:induction false} RunKeepsExactly(env: Checks, events: seq<Event>)
    requires |events| < MAX_INDEX && Run(env, events).Some?
    ensures NodeOk(Run(env, events).value) <==> !HasZero(env, events)
    ensures HasZero(env, events) ==> Zeroed(Run(env, events).value.chain)
    ensures !HasZero(env, events) ==> Held(Run(env, events).value) <= |events|
    decreases |events|
  {
    hide Step, Sound, AddsZero, Held, Zeroed;
    if events == [] {
      EmptyIsSound();
      NothingHeld();
    } else {
      var before, e := events[..|events| - 1], events[|events| - 1];
      RunKeepsExactly(env, before);
      var n := Run(env, before).value;
      if HasZero(env, before) {
        StepKeepsZeroed(env, n, e);
      } else if AddsZero(env, n, e) {
        ZeroStays(env, n, e);
      } else {
        StepKeeps(env, n, e);
      }
      if HasZero(env, events) {
        ZeroedIsUnsound(Run(env, events).value.chain);
      }
    }
  }

  /** So every run in which no received or mined block has index 0 leaves the node in order. */
  lemma RunKeeps(env: Checks, events: seq<Event>)
    requires (forall e | e in events :: NotZero(e)) && |events| < MAX_INDEX
    requires Run(env, events).Some?
    ensures NodeOk(Run(env, events).value) && Held(Run(env, events).value) <= |events|
  {
    hide Run, Sound, Held;
    NoneHasZero(env, events);
    RunKeepsExactly(env, events);
  }

  lemma {:induction false} NoneHasZero(env: Checks, events: seq<Event>)
    requires forall e | e in events :: NotZero(e)
    ensures !HasZero(env, events)
    decreases |events|
  {
    hide Run, Check;
    if events != [] {
      var before := events[..|events| - 1];
      assert forall e | e in before :: e in events;
      assert NotZero(events[|events| - 1]);
      NoneHasZero(env, before);
    }
  }

  lemma NothingHeld()
    ensures Held(START) == 0
  {
  }
}
