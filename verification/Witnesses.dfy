/** Concrete inputs on which the program does what one would not expect. The opaque checks are as
    lenient as can be, hashes are all zeros and so as difficult as can be, and time stands still. */
module Witnesses {
  import opened Data
  import opened Blocks
  import opened ChainSpec
  import opened ChainInvariant
  import opened NodeSpec
  import opened GoodRuns
  import opened StartupCheck
  import opened NodeRuns
  import opened Recheck
  import opened Timestamps

  const LENIENT := Checks(b => true, b => true, k => true, h => false, t => true, t => true, [])

  function Zeros(n: nat): (h: Bytes)
    ensures |h| == n + 8 && forall i | 0 <= i < |h| :: h[i] == 0
  {
    seq(n + 8, _ => 0)
  }

  lemma {:induction false} ZerosAreNothing(b: Bytes)
    requires forall i | 0 <= i < |b| :: b[i] == 0
    ensures BigEndian(b) == 0
  {
    if b != [] {
      ZerosAreNothing(b[..|b| - 1]);
    }
  }

  lemma {:induction false} NothingLeads(bits: nat)
    ensures LeadingZeros(0, bits) == bits && TrailingZeros(0, bits) == bits
  {
    if bits > 0 {
      NothingLeads(bits - 1);
    }
  }

  lemma ZerosAreHard(n: nat)
    ensures HashDifficulty(Zeros(n)) == 128 && Rank(Zeros(n)) == 192 * 0x1_0000
  {
    hide LeadingZeros, TrailingZeros, BigEndian;
    var h := Zeros(n);
    ZerosAreNothing(h[..8]);
    ZerosAreNothing(h[|h| - 8..]);
    NothingLeads(64);
  }

  function Sealed(index: u64, nonce: u64, hash: nat, prev: Bytes, key: byte, t: Option<Transaction>): Block {
    Block(index, 0, 1, 28, 0, nonce, Zeros(hash), prev, [key], [], t)
  }

  function Claim(): Option<Transaction> {
    Some(Transaction(ClassDomain, [7], [], [], [], []))
  }

  function Genesis(): Block {
    Sealed(1, 0, 1, [], 1, Some(Transaction(ClassOrigin, [], [], [], [], [])))
  }

  /** A full block that claims an identity. */
  function Claimed(): Block {
    Sealed(2, 1, 2, Zeros(1), 2, Claim())
  }

  /** A signing block in its place, better by its nonce. */
  function Rival(): Block {
    Sealed(2, 0, 3, Zeros(1), 3, None)
  }

  /** The same, dated before the block it stands on. */
  function EarlyRival(): Block {
    Rival().(timestamp := -5)
  }

  /** A full block on top of it that claims the same identity with another key. */
  function Taker(): Block {
    Sealed(3, 0, 4, Zeros(2), 4, Claim())
  }

  /** A signing block of index 0. */
  function Zeroth(): Block {
    Sealed(0, 0, 5, [], 5, None)
  }

  /** A full block of index 0. */
  function SecondZeroth(): Block {
    Sealed(0, 0, 6, [], 6, Some(Transaction(ClassOrigin, [], [], [], [], [])))
  }

  function One(): ChainState {
    ChainState(map[1 := Genesis()], map[], Some(Genesis()), Some(Genesis()))
  }

  function Two(): ChainState {
    ChainState(map[1 := Genesis(), 2 := Claimed()], map[2 := Row(Claimed())], Some(Claimed()), Some(Claimed()))
  }

  // ---------------------------------------------------------------------------
  // The judgements
  // ---------------------------------------------------------------------------

  lemma GenesisIsGood()
    ensures Check(LENIENT, EMPTY_CHAIN, Genesis(), 0) == Some(Good)
    ensures AddBlock(EMPTY_CHAIN, Genesis()) == One()
  {
    hide HashDifficulty, Zeros;
    ZerosAreHard(1);
  }

  lemma ClaimedIsGood()
    ensures Check(LENIENT, One(), Claimed(), 0) == Some(Good)
    ensures AddBlock(One(), Claimed()) == Two()
  {
    hide HashDifficulty, Zeros, CachedLastFull;
    ZerosAreHard(2);
    NoOtherFull(One(), 2, [2]);
    NoRows(2, [7]);
  }

  lemma {:induction false} NoRows(below: nat, identity: Bytes)
    ensures LastRow(map[], below, identity).None?
  {
    if below > 0 {
      NoRows(below - 1, identity);
    }
  }

  lemma NoOtherFull(s: ChainState, before: nat, key: Bytes)
    requires forall i | i in s.blocks :: s.blocks[i].pubKey != key
    requires s.lastFull.Some? ==> s.lastFull.value.pubKey != key
    ensures CachedLastFull(s, before, Some(key)).None?
  {
    LastFullMeans(s.blocks, before, Some(key));
  }

  lemma RivalIsFork()
    ensures Check(LENIENT, Two(), Rival(), 0) == Some(Fork) && IsBetterThan(Rival(), Claimed())
  {
    hide HashDifficulty, Rank, Zeros;
    ZerosAreHard(3);
    ZerosAreHard(2);
    assert |Zeros(3)| != |Zeros(2)|;
  }

  lemma TakerIsGood()
    ensures Check(LENIENT, Two(), Taker(), 0) == Some(Good)
  {
    hide HashDifficulty, Zeros, CachedLastFull, LastRow;
    ZerosAreHard(4);
    NoOtherFull(Two(), 3, [4]);
    RowTwo();
  }

  /** The claim stands in the row of block 2, which the availability check of block 3 does not look at. */
  lemma RowTwo()
    ensures LastRow(Two().domains, 3, [7]) == Some(2) && LastRow(Two().domains, 2, [7]).None?
  {
    assert LastRow(Two().domains, 0, [7]).None?;
    assert LastRow(Two().domains, 1, [7]).None?;
  }

  lemma ZerothIsGood()
    ensures Check(LENIENT, One(), Zeroth(), 0) == Some(Good)
  {
    hide HashDifficulty, Zeros;
    ZerosAreHard(5);
  }

  // ---------------------------------------------------------------------------
  // The runs
  // ---------------------------------------------------------------------------

  const STILL: nat -> int := i => 0

  /** A clock that has gone back by more than the minute the program allows. */
  const BACK: nat -> int := i => -1000

  /** A block received at a node nothing waits at, and judged Good. */
  lemma Appends(s: ChainState, b: Block)
    requires Check(LENIENT, s, b, 0) == Some(Good)
    ensures Step(LENIENT, NodeState(s, map[], 0), Received(b, STILL)) ==
      Some(NodeState(AddBlock(s, b), map[], 0))
  {
    hide Check, AddBlock;
  }

  lemma {:induction false} RunMore(env: Checks, events: seq<Event>, e: Event)
    ensures Run(env, events + [e]) == match Run(env, events) case None => None case Some(n) => Step(env, n, e)
  {
    hide Step;
    assert (events + [e])[..|events|] == events;
  }

  lemma FirstBlock()
    ensures Run(LENIENT, [Received(Genesis(), STILL)]) == Some(NodeState(One(), map[], 0))
  {
    hide Check, AddBlock, Step;
    GenesisIsGood();
    Appends(EMPTY_CHAIN, Genesis());
    RunMore(LENIENT, [], Received(Genesis(), STILL));
    assert [] + [Received(Genesis(), STILL)] == [Received(Genesis(), STILL)];
  }

  lemma TwoBlocks()
    ensures Run(LENIENT, [Received(Genesis(), STILL), Received(Claimed(), STILL)]) == Some(NodeState(Two(), map[], 0))
  {
    hide Check, AddBlock, Step, Run;
    FirstBlock();
    ClaimedIsGood();
    Appends(One(), Claimed());
    var e, f := Received(Genesis(), STILL), Received(Claimed(), STILL);
    RunMore(LENIENT, [e], f);
    assert [e] + [f] == [e, f];
  }

  /** A run that ends with a stale cache: a full block, and the signing block that wins over it. */
  lemma StaleAfterFork()
    ensures var r := Run(LENIENT, [Received(Genesis(), STILL), Received(Claimed(), STILL), Received(Rival(), STILL)]);
      && r.Some? && NodeOk(r.value)
      && r.value.chain.lastFull == Some(Claimed()) && r.value.chain.last == Some(Rival())
      && !FullFresh(r.value.chain)
  {
    hide Check, AddBlock, Step, Run, Sound, FullFresh, ReplaceBlock;
    TwoBlocks();
    RivalIsFork();
    TwoIsSound();
    var e, f, g := Received(Genesis(), STILL), Received(Claimed(), STILL), Received(Rival(), STILL);
    RunMore(LENIENT, [e, f], g);
    assert [e, f] + [g] == [e, f, g];
    TipReplaced(Rival());
    ForkReplaces(LENIENT, Two(), Rival(), 0);
    ForkFreshness(LENIENT, NodeState(Two(), map[], 0), Rival(), STILL);
    ReplaceBlocks(Two(), Rival());
  }

  /** A better block in the place of the tip, at a node nothing waits at. */
  lemma TipReplaced(b: Block)
    requires b.index == 2 && Check(LENIENT, Two(), b, 0) == Some(Fork) && IsBetterThan(b, Claimed())
    ensures Handle(LENIENT, NodeState(Two(), map[], 0), b, STILL) ==
      Some((NodeState(ReplaceBlock(Two(), b), map[], 0), Idle))
    ensures Step(LENIENT, NodeState(Two(), map[], 0), Received(b, STILL)) ==
      Some(NodeState(ReplaceBlock(Two(), b), map[], 0))
  {
    hide Check, IsBetterThan, ReplaceBlock;
  }

  lemma TwoIsSound()
    ensures Sound(Two()) && FullFresh(Two())
  {
    hide Zeros;
  }

  /** A run that ends with a stale cache because the clock had gone back before a restart: the check
      deletes the full block and then asks the cache for the last one. */
  lemma StaleAfterRestart()
    ensures var r := Run(LENIENT, [Received(Genesis(), STILL), Received(Claimed(), STILL), Restarted(1, BACK)]);
      && r.Some? && NodeOk(r.value)
      && r.value.chain.lastFull == Some(Claimed()) && r.value.chain.blocks == map[1 := Genesis()]
      && !FullFresh(r.value.chain)
  {
    hide Check, AddBlock, Run, Sound, FullFresh, CheckChain, Opened, LastFull;
    TwoBlocks();
    TwoIsSound();
    var e, f, g := Received(Genesis(), STILL), Received(Claimed(), STILL), Restarted(1, BACK);
    RunMore(LENIENT, [e, f], g);
    assert [e, f] + [g] == [e, f, g];
    OpenedIsFresh(Two());
    FreshIsTwo();
    CheckCutsTwo();
  }

  lemma FreshIsTwo()
    ensures Two().(lastFull := LastFull(Two().blocks, Height(Two()) + 1, None)) == Two()
  {
  }

  lemma CheckCutsTwo()
    requires Sound(Two()) && FullFresh(Two())
    ensures var a := CheckChain(LENIENT, Two(), 1, BACK);
      && a.Passed? && Sound(a.chain) && a.chain.lastFull == Some(Claimed())
      && a.chain.blocks == map[1 := Genesis()] && !FullFresh(a.chain)
  {
    hide CheckChain, Sound, FullFresh, Noted, FirstFailing, Below, LastFull, StoredVerdict;
    ClaimedFails();
    Audited(LENIENT, Two(), 1, BACK);
    NotedNothing(Two(), 2, 2);
    CheckKeepsSound(LENIENT, Two(), 1, BACK);
    CheckFreshness(LENIENT, Two(), 1, BACK);
    BelowKeeps();
  }

  lemma BelowKeeps()
    ensures Below(Two(), 2).blocks == map[1 := Genesis()]
  {
    assert Truncate(Two().blocks, 2) == map[1 := Genesis()];
  }

  lemma ClaimedFails()
    ensures StoredVerdict(LENIENT, Two(), 2, 2, BACK) == Some(Bad) && FirstFailing(LENIENT, Two(), 2, 2, BACK) == 2
  {
    hide Noted, KnownFull, NeededDifficulty, HashDifficulty;
  }

  /** A run of Good blocks in which an identity passes, with no time gone by, to a key its owner never
      named: the block right above the claim is not held against it. */
  lemma AdjacentTakeover()
    ensures GoodRun(LENIENT, [Genesis(), Claimed(), Taker()], [0, 0, 0])
    ensures Precedes([Genesis(), Claimed(), Taker()], 1, 2)
    ensures Row(Claimed()).signing != Taker().pubKey && Claimed().timestamp + DOMAIN_LIFETIME + DOMAIN_RENEW_TIME >= 0
  {
    hide Check, AddBlock;
    GenesisIsGood();
    ClaimedIsGood();
    TakerIsGood();
    var bs := [Genesis(), Claimed(), Taker()];
    assert bs[..0] == [] && bs[..1] == [Genesis()] && bs[..2] == [Genesis(), Claimed()];
    assert [Genesis()][..0] == [] && [Genesis(), Claimed()][..1] == [Genesis()];
    assert Built(bs[..0]) == EMPTY_CHAIN;
    assert Built(bs[..1]) == One();
    assert Built(bs[..2]) == Two();
  }

  /** A run that a block of index 0 breaks: the tip has height 0 above a chain of one block. */
  lemma BrokenByZero()
    ensures var r := Run(LENIENT, [Received(Genesis(), STILL), Received(Zeroth(), STILL)]);
      && r.Some? && !NodeOk(r.value)
      && Height(r.value.chain) == 0 && r.value.chain.blocks == map[0 := Zeroth(), 1 := Genesis()]
  {
    hide Check, AddBlock, Step, Run, Sound;
    FirstBlock();
    ZerothIsGood();
    OneIsSound();
    Appends(One(), Zeroth());
    var e, f := Received(Genesis(), STILL), Received(Zeroth(), STILL);
    RunMore(LENIENT, [e], f);
    assert [e] + [f] == [e, f];
    GoodKeepsSoundExactly(LENIENT, One(), Zeroth(), 0);
    IndexZeroBreaks(One(), Zeroth());
    AddedBlocks(One(), Zeroth());
    assert One().blocks[0 := Zeroth()] == map[0 := Zeroth(), 1 := Genesis()];
  }

  lemma OneIsSound()
    ensures Sound(One())
  {
    hide Zeros;
  }

  /** A chain of one block, accepted with no origin configured, and a check that panics on it. */
  lemma PanicsWithoutOrigin()
    ensures GoodRun(LENIENT, [Genesis()], [0]) && CheckChain(LENIENT, Built([Genesis()]), 1, STILL) == Panicked
  {
    hide Check, AddBlock, CheckChain, Built, Zeros;
    GenesisIsGood();
    NothingBuilt();
    assert [Genesis()][..0] == [];
    GoodRunPasses(LENIENT, [Genesis()], [0], 1, STILL);
  }

  lemma NothingBuilt()
    ensures Built([]) == EMPTY_CHAIN
  {
  }

  /** A run after which timestamps fall: a signing block dated before the block it stands on wins. */
  lemma FallingTimestamps()
    ensures var r := Run(LENIENT,
        [Received(Genesis(), STILL), Received(Claimed(), STILL), Received(EarlyRival(), STILL)]);
      && r.Some? && NodeOk(r.value) && r.value.chain.last == Some(EarlyRival())
      && 1 in r.value.chain.blocks && EarlyRival().timestamp < r.value.chain.blocks[1].timestamp
      && !Rises(r.value.chain)
  {
    hide Check, AddBlock, Step, Run, Sound, ReplaceBlock, Rises;
    TwoBlocks();
    EarlyRivalIsFork();
    TwoIsSound();
    TwoRises();
    var e, f, g := Received(Genesis(), STILL), Received(Claimed(), STILL), Received(EarlyRival(), STILL);
    RunMore(LENIENT, [e, f], g);
    assert [e, f] + [g] == [e, f, g];
    TipReplaced(EarlyRival());
    ForkReplaces(LENIENT, Two(), EarlyRival(), 0);
    ReplaceBlocks(Two(), EarlyRival());
    HandleRisesExactly(LENIENT, NodeState(Two(), map[], 0), EarlyRival(), STILL);
  }

  lemma TwoRises()
    ensures Rises(Two())
  {
    hide Zeros;
  }

  lemma EarlyRivalIsFork()
    ensures Check(LENIENT, Two(), EarlyRival(), 0) == Some(Fork) && IsBetterThan(EarlyRival(), Claimed())
  {
    hide HashDifficulty, Rank, Zeros;
    ZerosAreHard(3);
    ZerosAreHard(2);
    assert |Zeros(3)| != |Zeros(2)|;
  }

  function Stray(): ChainState {
    ChainState(map[0 := Zeroth(), 1 := Genesis()], map[], Some(Zeroth()), Some(Genesis()))
  }

  lemma ZerothStrands()
    ensures AddBlock(One(), Zeroth()) == Stray()
  {
    hide Zeros;
  }

  lemma SecondIsFork()
    ensures Check(LENIENT, Stray(), SecondZeroth(), 0) == Some(Fork) && IsBetterThan(SecondZeroth(), Zeroth())
  {
    hide HashDifficulty, Rank, Zeros;
    ZerosAreHard(6);
    assert |Zeros(6)| != |Zeros(5)|;
  }

  lemma SecondReplaces()
    requires Check(LENIENT, Stray(), SecondZeroth(), 0) == Some(Fork) && IsBetterThan(SecondZeroth(), Zeroth())
    ensures Step(LENIENT, NodeState(Stray(), map[], 0), Received(SecondZeroth(), STILL)) ==
      Some(NodeState(ReplaceBlock(Stray(), SecondZeroth()), map[], 0))
    ensures ReplaceBlock(Stray(), SecondZeroth()).blocks == map[0 := SecondZeroth()]
  {
    hide Check, IsBetterThan, Zeros;
    assert Truncate(Stray().blocks, 0) == map[];
  }

  /** A run in which a second block of index 0, contesting the first, deletes the whole chain. */
  lemma DeletedByZeros()
    ensures var r := Run(LENIENT,
        [Received(Genesis(), STILL), Received(Zeroth(), STILL), Received(SecondZeroth(), STILL)]);
      r.Some? && r.value.chain.blocks == map[0 := SecondZeroth()]
  {
    hide Check, AddBlock, Step, Run, ReplaceBlock;
    FirstBlock();
    ZerothIsGood();
    Appends(One(), Zeroth());
    ZerothStrands();
    SecondIsFork();
    SecondReplaces();
    var e, f, g := Received(Genesis(), STILL), Received(Zeroth(), STILL), Received(SecondZeroth(), STILL);
    RunMore(LENIENT, [e], f);
    assert [e] + [f] == [e, f];
    RunMore(LENIENT, [e, f], g);
    assert [e, f] + [g] == [e, f, g];
  }
}
