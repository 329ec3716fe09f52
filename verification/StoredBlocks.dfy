/** What is true of every block and row a node has stored, whatever it has received. */
module StoredBlocks {
  import opened Data
  import opened Blocks
  import opened ChainSpec
  import opened ChainInvariant
  import opened NodeSpec
  import opened StartupCheck
  import opened NodeRuns
  import opened Verdicts

  /** The tests a block has passed that do not depend on the rest of the chain. */
  predicate Vetted(env: Checks, b: Block) {
    && b.version <= 1 && !env.wrongHash(b.hash) && env.goodHash(b) && env.goodSignature(b)
    && b.difficulty <= HashDifficulty(b.hash)
    && match b.transaction
       case None => b.difficulty >= if b.index == 1 then 28 else 16
       case Some(t) =>
         && env.strongKey(b.pubKey) && env.allowedRecords(t)
         && (match t.class_
             case ClassOrigin => b.difficulty >= 28
             case ClassDomain => env.parsesData(t.data)
             case ClassOther(_) => false)
  }

  /** What Good and Fork say of a block by itself. */
  lemma JudgedVetted(env: Checks, s: ChainState, b: Block, now: int)
    requires Check(env, s, b, now) in {Some(Good), Some(Fork)}
    ensures Vetted(env, b)
  {
    hide Check, NeededDifficulty, HashDifficulty, MayCarry, MayMine;
    CheckIs(env, s, b, now);
    VerdictsExactly(env, s, b, s.last, s.lastFull, now);
    hide CheckBlock;
    NeededFixed(env, s, b);
    HashAtMost(b);
  }

  lemma CheckIs(env: Checks, s: ChainState, b: Block, now: int)
    ensures Check(env, s, b, now) == CheckBlock(env, s, b, s.last, s.lastFull, now)
  {
  }

  lemma HashAtMost(b: Block)
    ensures HashDifficulty(b.hash) < 0xFFFF_FFFF
  {
  }

  /** Every stored block has passed those tests, and every waiting one the first three of them. */
  ghost predicate AllVetted(env: Checks, n: NodeState) {
    && (forall i | i in n.chain.blocks :: Vetted(env, n.chain.blocks[i]))
    && (forall k | k in n.future :: n.future[k].version <= 1 && !env.wrongHash(n.future[k].hash))
  }

  ghost predicate BlocksVetted(env: Checks, blocks: map<nat, Block>) {
    forall i | i in blocks :: Vetted(env, blocks[i])
  }

  lemma AddKeepsVetted(env: Checks, s: ChainState, b: Block)
    requires BlocksVetted(env, s.blocks) && Vetted(env, b)
    ensures BlocksVetted(env, AddBlock(s, b).blocks)
  {
    hide Vetted;
  }

  lemma {:induction false} DrainKeepsVetted(
      env: Checks, s: ChainState, future: map<nat, Block>, next: nat, clock: nat -> int)
    requires BlocksVetted(env, s.blocks) && Drain(env, s, future, next, clock).Some?
    ensures var d := Drain(env, s, future, next, clock).value;
      BlocksVetted(env, d.0.blocks) && forall k | k in d.1 :: k in future && d.1[k] == future[k]
    decreases |future|
  {
    hide Check, AddBlock, BlocksVetted;
    if next in future {
      Shrinks(future, next);
      if Check(env, s, future[next], clock(next)) == Some(Good) {
        JudgedVetted(env, s, future[next], clock(next));
        AddKeepsVetted(env, s, future[next]);
        DrainKeepsVetted(env, AddBlock(s, future[next]), future - {next}, next + 1, clock);
      }
    }
  }

  lemma ReplaceKeepsVetted(env: Checks, s: ChainState, b: Block)
    requires BlocksVetted(env, s.blocks) && Vetted(env, b)
    ensures BlocksVetted(env, ReplaceBlock(s, b).blocks)
  {
    hide Vetted;
    ReplaceBlocks(s, b);
    hide ReplaceBlock;
  }

  lemma FutureIsSane(env: Checks, s: ChainState, b: Block, now: int)
    requires Check(env, s, b, now) == Some(Future)
    ensures b.version <= 1 && !env.wrongHash(b.hash)
  {
    hide Check, Worked, Detached, Entitled;
    CheckIs(env, s, b, now);
    VerdictsExactly(env, s, b, s.last, s.lastFull, now);
    hide CheckBlock;
  }

  lemma HandleKeepsVetted(env: Checks, n: NodeState, b: Block, clock: nat -> int)
    requires AllVetted(env, n) && Handle(env, n, b, clock).Some?
    ensures AllVetted(env, Handle(env, n, b, clock).value.0)
  {
    hide Check, AddBlock, Drain, ReplaceBlock, IsBetterThan, Vetted;
    assert BlocksVetted(env, n.chain.blocks);
    var v := Check(env, n.chain, b, clock(b.index));
    if v == Some(Good) {
      JudgedVetted(env, n.chain, b, clock(b.index));
      AddKeepsVetted(env, n.chain, b);
      DrainKeepsVetted(env, AddBlock(n.chain, b), n.future, b.index + 1, clock);
    } else if v == Some(Fork) {
      JudgedVetted(env, n.chain, b, clock(b.index));
      ReplaceKeepsVetted(env, n.chain, b);
    } else if v == Some(Future) {
      FutureIsSane(env, n.chain, b, clock(b.index));
    }
  }

  /** Nothing comes into the tables by the check at start-up. */
  lemma {:induction false} CheckOnlyCuts(
      env: Checks, s: ChainState, id: nat, last: Option<Block>, f: Option<Block>, clock: nat -> int)
    requires CheckFrom(env, s, id, last, f, clock).Passed?
    ensures var t := CheckFrom(env, s, id, last, f, clock).chain;
      forall i | i in t.blocks :: i in s.blocks && t.blocks[i] == s.blocks[i]
    decreases Height(s) + 1 - id
  {
    hide CheckBlock;
    if id <= Height(s) {
      var b := s.blocks[id];
      if b.index == 1 {
        CheckOnlyCuts(env, s, id + 1, Some(b), f, clock);
      } else if !env.wrongHash(b.hash) && CheckBlock(env, s, b, last, f, clock(id)) == Some(Good) {
        if b.transaction.Some? {
          CheckOnlyCuts(env, s.(lastFull := Some(b)), id + 1, Some(b), Some(b), clock);
        } else {
          CheckOnlyCuts(env, s, id + 1, Some(b), f, clock);
        }
      }
    }
  }

  lemma RestartOnlyCuts(env: Checks, s: ChainState, count: nat, clock: nat -> int)
    requires CheckChain(env, Opened(s.blocks, s.domains), count, clock).Passed?
    ensures var t := CheckChain(env, Opened(s.blocks, s.domains), count, clock).chain;
      forall i | i in t.blocks :: i in s.blocks && t.blocks[i] == s.blocks[i]
  {
    hide CheckFrom, TopBlock, LastFull, FullBefore, BlockBefore, StartOf;
    var o := Opened(s.blocks, s.domains);
    var start := StartOf(Height(o), count);
    CheckOnlyCuts(env, o, start, BlockBefore(o, start), FullBefore(o, BlockBefore(o, start)), clock);
  }

  lemma RestartKeepsVetted(env: Checks, s: ChainState, count: nat, clock: nat -> int)
    requires BlocksVetted(env, s.blocks) && CheckChain(env, Opened(s.blocks, s.domains), count, clock).Passed?
    ensures BlocksVetted(env, CheckChain(env, Opened(s.blocks, s.domains), count, clock).chain.blocks)
  {
    hide Vetted, CheckChain, Opened;
    RestartOnlyCuts(env, s, count, clock);
  }

  lemma StepKeepsVetted(env: Checks, n: NodeState, e: Event)
    requires AllVetted(env, n) && Step(env, n, e).Some?
    ensures AllVetted(env, Step(env, n, e).value)
  {
    hide Check, Handle, AddBlock, CheckChain, Opened, Vetted;
    assert BlocksVetted(env, n.chain.blocks);
    match e
    case Heard(_) =>
    case Mined(b, now) =>
      if Check(env, n.chain, b, now) == Some(Good) {
        JudgedVetted(env, n.chain, b, now);
        AddKeepsVetted(env, n.chain, b);
      }
    case Received(b, clock) =>
      HandleKeepsVetted(env, n, b, clock);
    case Restarted(count, clock) =>
      RestartKeepsVetted(env, n.chain, count, clock);
  }

  /** In the final state of every run, whatever is received, mined and announced, with restarts anywhere: every
      stored block has a hash and a signature that check, no version above 1, no blacklisted hash, and the zero bits
      it announces; every full block has a strong key and allowed records, and a domain's data parse. */
  lemma {:induction false} RunIsVetted(env: Checks, events: seq<Event>)
    requires Run(env, events).Some?
    ensures AllVetted(env, Run(env, events).value)
    decreases |events|
  {
    hide Step, AllVetted;
    if events == [] {
      NothingStored(env);
    } else {
      RunIsVetted(env, events[..|events| - 1]);
      StepKeepsVetted(env, Run(env, events[..|events| - 1]).value, events[|events| - 1]);
    }
  }

  lemma NothingStored(env: Checks)
    ensures AllVetted(env, START)
  {
  }

  // ---------------------------------------------------------------------------
  // Rows
  // ---------------------------------------------------------------------------

  /** The row of a domain block, field by field. Its signing key is the transaction's, or the block's own if
      the transaction leaves it empty. */
  predicate RowStands(b: Block, row: DomainRow) {
    match b.transaction
    case None => false
    case Some(t) =>
      && t.class_ == ClassDomain
      && row.timestamp == b.timestamp && row.identity == t.identity && row.confirmation == t.confirmation
      && row.data == t.data && row.encryption == t.encryption
      && (t.signing != [] ==> row.signing == t.signing)
      && (t.signing == [] ==> row.signing == b.pubKey)
  }

  lemma RowOf(b: Block)
    requires b.IsDomain()
    ensures forall row :: RowStands(b, row) <==> row == Row(b)
  {
  }

  /** In every run without blocks of index 0 the rows are those of the stored domain blocks, and of no others. */
  lemma RunKeepsRows(env: Checks, events: seq<Event>)
    requires |events| < MAX_INDEX && Run(env, events).Some? && !HasZero(env, events)
    ensures var s := Run(env, events).value.chain;
      && (forall i :: i in s.domains <==>
            i in s.blocks && s.blocks[i].transaction.Some? && s.blocks[i].transaction.value.class_ == ClassDomain)
      && (forall i | i in s.domains :: RowStands(s.blocks[i], s.domains[i]))
  {
    hide Run, HasZero, Linked, FullCached, Row, RowStands;
    RunKeepsExactly(env, events);
    var s := Run(env, events).value.chain;
    forall i | i in s.domains
      ensures RowStands(s.blocks[i], s.domains[i])
    {
      RowOf(s.blocks[i]);
    }
  }

  /** Adding over an id that is taken changes nothing. Otherwise the block is the tip, and the cached full block
      if it is full; a domain block has its row, and all other blocks and rows stay. */
  lemma AddsExactly(s: ChainState, b: Block)
    ensures var t := AddBlock(s, b);
      if b.index in s.blocks then t == s
      else
        && t.last == Some(b) && t.lastFull == (if b.transaction.Some? then Some(b) else s.lastFull)
        && b.index in t.blocks && t.blocks[b.index] == b
        && (b.IsDomain() ==> b.index in t.domains && RowStands(b, t.domains[b.index]))
        && (forall i | i != b.index ::
              (i in t.blocks <==> i in s.blocks) && (i in s.blocks ==> t.blocks[i] == s.blocks[i]))
        && (forall i | i != b.index || !b.IsDomain() ::
              (i in t.domains <==> i in s.domains) && (i in s.domains ==> t.domains[i] == s.domains[i]))
  {
    if b.IsDomain() {
      RowOf(b);
    }
    hide Row, RowStands;
  }

  /** Replacing takes the index and all above it out of both tables before it adds. */
  lemma ReplacesExactly(s: ChainState, b: Block)
    ensures var t := ReplaceBlock(s, b);
      && t.last == Some(b) && t.lastFull == (if b.transaction.Some? then Some(b) else s.lastFull)
      && b.index in t.blocks && t.blocks[b.index] == b
      && (forall i | i < b.index ::
            (i in t.blocks <==> i in s.blocks) && (i in s.blocks ==> t.blocks[i] == s.blocks[i]))
      && (forall i | i < b.index ::
            (i in t.domains <==> i in s.domains) && (i in s.domains ==> t.domains[i] == s.domains[i]))
      && (forall i | i > b.index :: i !in t.blocks && i !in t.domains)
      && (b.index in t.domains <==> b.IsDomain())
      && (b.IsDomain() ==> RowStands(b, t.domains[b.index]))
  {
    var cut := s.(blocks := Truncate(s.blocks, b.index), domains := Truncate(s.domains, b.index));
    assert b.index !in cut.blocks && b.index !in cut.domains;
    AddsExactly(cut, b);
    assert ReplaceBlock(s, b) == AddBlock(cut, b);
    hide AddBlock, RowStands;
  }

  // ---------------------------------------------------------------------------
  // Events
  // ---------------------------------------------------------------------------

  /** A mined block judged Good becomes the tip, and any other changes nothing; an announced height is noted; after
      a restart nothing waits, no height has been heard of, and the chain is part of what it was. */
  lemma OtherEvents(env: Checks, n: NodeState, e: Event)
    requires NodeOk(n) && Step(env, n, e).Some?
    ensures var n' := Step(env, n, e).value;
      match e
      case Received(_, _) => true
      case Heard(h) => n' == NodeState(n.chain, n.future, h)
      case Mined(b, now) =>
        && n'.future == n.future && n'.maxHeight == n.maxHeight
        && (Check(env, n.chain, b, now) != Some(Good) ==> n'.chain == n.chain)
        && (Check(env, n.chain, b, now) == Some(Good) && b.index >= 1 ==>
              n'.chain.last == Some(b) && Height(n'.chain) == Height(n.chain) + 1)
      case Restarted(count, clock) =>
        && n'.future == map[] && n'.maxHeight == 0
        && (forall i | i in n'.chain.blocks :: i in n.chain.blocks && n'.chain.blocks[i] == n.chain.blocks[i])
  {
    hide Check, Handle, CheckChain, Opened, NodeOk;
    match e
    case Received(_, _) =>
    case Heard(_) =>
    case Mined(b, now) =>
      if Check(env, n.chain, b, now) == Some(Good) && b.index >= 1 {
        GoodAdds(env, n.chain, b, now) by {
          SoundChain(n);
        }
        AddsExactly(n.chain, b);
      }
      hide AddBlock;
    case Restarted(count, clock) =>
      RestartOnlyCuts(env, n.chain, count, clock);
  }

  lemma SoundChain(n: NodeState)
    requires NodeOk(n)
    ensures Sound(n.chain)
  {
  }
}
