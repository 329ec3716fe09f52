/** Who may carry an identity on: a rule that forks and restarts keep too. */
module Ownership {
  import opened Data
  import opened Blocks
  import opened ChainSpec
  import opened ChainInvariant
  import opened NodeSpec
  import opened GoodRuns
  import opened StartupCheck
  import opened NodeRuns

  /** Every stored full block may carry its identity, by the rows the program looks at for it and at a
      time no earlier than any of its judgements. */
  ghost predicate Rightful(s: ChainState, time: int) {
    forall i | i in s.blocks && s.blocks[i].transaction.Some? :: RightfulAt(s, i, time)
  }

  ghost predicate RightfulAt(s: ChainState, i: nat, time: int)
    requires i in s.blocks && s.blocks[i].transaction.Some?
  {
    var b := s.blocks[i];
    IdAvailable(s.domains, IdBefore(i), time, b.transaction.value.identity, b.pubKey)
  }

  /** Availability only looks at rows below its bound, and time only adds to it. */
  lemma StillAvailable(
      a: map<nat, DomainRow>, b: map<nat, DomainRow>, below: nat, now: int, time: int, identity: Bytes, key: Bytes)
    requires forall i | i < below :: (i in a <==> i in b) && (i in a ==> a[i] == b[i])
    requires now <= time && IdAvailable(a, below, now, identity, key)
    ensures IdAvailable(b, below, time, identity, key)
  {
    LastRowLocal(a, b, below, identity);
    hide LastRow;
  }

  /** A block put on top of the rows below it. */
  lemma RightfulOnTop(s: ChainState, t: ChainState, b: Block, now: int, time: int)
    requires Rightful(s, time) && now <= time && b.index >= 1
    requires t.blocks == Truncate(s.blocks, b.index)[b.index := b]
    requires forall i | i < b.index ::
      (i in s.domains <==> i in t.domains) && (i in s.domains ==> s.domains[i] == t.domains[i])
    requires b.transaction.Some? ==>
      IdAvailable(s.domains, IdBefore(b.index), now, b.transaction.value.identity, b.pubKey)
    ensures Rightful(t, time)
  {
    hide IdAvailable;
    forall i | i in t.blocks && t.blocks[i].transaction.Some?
      ensures RightfulAt(t, i, time)
    {
      var x := t.blocks[i];
      var below := IdBefore(i);
      if i == b.index {
        StillAvailable(s.domains, t.domains, below, now, time, x.transaction.value.identity, x.pubKey);
      } else {
        assert i in s.blocks && s.blocks[i] == x && RightfulAt(s, i, time);
        StillAvailable(s.domains, t.domains, below, time, time, x.transaction.value.identity, x.pubKey);
      }
    }
  }

  /** What a Good or a Fork verdict says about the identity. */
  lemma JudgedAvailable(env: Checks, s: ChainState, b: Block, now: int)
    requires Check(env, s, b, now) == Some(Good) || Check(env, s, b, now) == Some(Fork)
    ensures b.transaction.Some? ==>
      IdAvailable(s.domains, IdBefore(b.index), now, b.transaction.value.identity, b.pubKey)
  {
    hide NeededDifficulty, HashDifficulty, IdAvailable, CanMine, GoodSignBlock;
  }

  lemma GoodIsRightful(env: Checks, s: ChainState, b: Block, now: int, time: int)
    requires Sound(s) && Rightful(s, time) && now <= time
    requires Check(env, s, b, now) == Some(Good) && b.index >= 1
    ensures Rightful(AddBlock(s, b), time)
  {
    hide Check, Rightful, IdAvailable;
    JudgedAvailable(env, s, b, now);
    GoodAdds(env, s, b, now);
    WholeBelow(s, b.index);
    RightfulOnTop(s, AddBlock(s, b), b, now, time);
  }

  lemma WholeBelow(s: ChainState, cut: nat)
    requires Linked(s) && cut == Height(s) + 1
    ensures Truncate(s.blocks, cut) == s.blocks
  {
  }

  lemma ForkIsRightful(env: Checks, s: ChainState, b: Block, now: int, time: int)
    requires Sound(s) && Rightful(s, time) && now <= time && Check(env, s, b, now) == Some(Fork)
    ensures Rightful(ReplaceBlock(s, b), time)
  {
    hide Check, Rightful, IdAvailable, Linked, Projected, FullCached;
    JudgedAvailable(env, s, b, now);
    ForkHasIndex(env, s, b, now);
    ReplaceBlocks(s, b);
    RowsBelow(s, b);
    RightfulOnTop(s, ReplaceBlock(s, b), b, now, time);
  }

  lemma ForkHasIndex(env: Checks, s: ChainState, b: Block, now: int)
    requires Sound(s) && Check(env, s, b, now) == Some(Fork)
    ensures b.index >= 1
  {
    GoodOrForkFits(env, s, b, now);
  }

  lemma RowsBelow(s: ChainState, b: Block)
    ensures var t := ReplaceBlock(s, b);
      forall i | i < b.index ::
        (i in s.domains <==> i in t.domains) && (i in s.domains ==> s.domains[i] == t.domains[i])
  {
    assert b.index !in Truncate(s.blocks, b.index);
  }

  /** A chain cut anywhere keeps its rights. */
  lemma CutIsRightful(s: ChainState, t: ChainState, cut: nat, time: int)
    requires Rightful(s, time) && t.blocks == Truncate(s.blocks, cut) && t.domains == Truncate(s.domains, cut)
    ensures Rightful(t, time)
  {
    hide IdAvailable;
    forall i | i in t.blocks && t.blocks[i].transaction.Some?
      ensures RightfulAt(t, i, time)
    {
      var x := t.blocks[i];
      assert RightfulAt(s, i, time);
      StillAvailable(s.domains, t.domains, IdBefore(i), time, time, x.transaction.value.identity, x.pubKey);
    }
  }

  lemma {:induction false} DrainIsRightful(
      env: Checks, s: ChainState, future: map<nat, Block>, next: nat, clock: nat -> int, time: int)
    requires NodeOk(NodeState(s, future, 0)) && next == Height(s) + 1 && Rightful(s, time)
    requires (forall i :: clock(i) <= time) && Drain(env, s, future, next, clock).Some?
    ensures Rightful(Drain(env, s, future, next, clock).value.0, time)
    decreases |future|
  {
    hide Check, Sound, AddBlock, Rightful;
    if next in future {
      var b := future[next];
      Shrinks(future, next);
      if Check(env, s, b, clock(next)) == Some(Good) {
        GoodAdds(env, s, b, clock(next));
        GoodIsRightful(env, s, b, clock(next), time);
        DrainIsRightful(env, AddBlock(s, b), future - {next}, next + 1, clock, time);
      }
    }
  }

  lemma HandleIsRightful(env: Checks, n: NodeState, b: Block, clock: nat -> int, time: int)
    requires NodeOk(n) && Rightful(n.chain, time) && b.index >= 1
    requires (forall i :: clock(i) <= time) && Handle(env, n, b, clock).Some?
    ensures Rightful(Handle(env, n, b, clock).value.0.chain, time)
  {
    hide Check, Sound, AddBlock, Drain, ReplaceBlock, IsBetterThan, Rightful;
    var now := clock(b.index);
    if Check(env, n.chain, b, now) == Some(Good) {
      GoodAdds(env, n.chain, b, now);
      GoodIsRightful(env, n.chain, b, now, time);
      DrainIsRightful(env, AddBlock(n.chain, b), n.future, b.index + 1, clock, time);
    } else if Check(env, n.chain, b, now) == Some(Fork) {
      ForkIsRightful(env, n.chain, b, now, time);
    }
  }

  lemma RestartIsRightful(env: Checks, s: ChainState, count: nat, clock: nat -> int, time: int)
    requires Sound(s) && Height(s) < MAX_INDEX && Rightful(s, time)
    requires CheckChain(env, Opened(s.blocks, s.domains), count, clock).Passed?
    ensures Rightful(CheckChain(env, Opened(s.blocks, s.domains), count, clock).chain, time)
  {
    hide Sound, CheckChain, Opened, CutOf, Rightful, Noted, LastFull;
    OpenedIsFresh(s);
    var o := Opened(s.blocks, s.domains);
    Audited(env, o, count, clock);
    CutIsRightful(s, CheckChain(env, o, count, clock).chain, CutOf(env, o, count, clock), time);
  }

  /** The clocks of an event's judgements. A restart only takes blocks away. */
  ghost predicate NoLater(e: Event, time: int) {
    match e
    case Received(_, clock) => forall i :: clock(i) <= time
    case Mined(_, now) => now <= time
    case Heard(_) => true
    case Restarted(_, _) => true
  }

  lemma StepIsRightful(env: Checks, n: NodeState, e: Event, time: int)
    requires NodeOk(n) && NotZero(e) && Held(n) < MAX_INDEX && Step(env, n, e).Some?
    requires Rightful(n.chain, time) && NoLater(e, time)
    ensures Rightful(Step(env, n, e).value.chain, time)
  {
    hide Check, Handle, Sound, AddBlock, CheckChain, Opened, Rightful;
    match e
    case Heard(_) =>
    case Mined(b, now) =>
      if Check(env, n.chain, b, now) == Some(Good) {
        GoodIsRightful(env, n.chain, b, now, time);
      }
    case Received(b, clock) =>
      HandleIsRightful(env, n, b, clock, time);
    case Restarted(count, clock) =>
      RestartIsRightful(env, n.chain, count, clock, time);
  }

  /** In every run, forks and restarts included, whose clocks stay at or below a time, and without
      blocks of index 0. */
  lemma {:induction false} RunIsRightful(env: Checks, events: seq<Event>, time: int)
    requires (forall e | e in events :: NotZero(e) && NoLater(e, time)) && |events| < MAX_INDEX
    requires Run(env, events).Some?
    ensures Rightful(Run(env, events).value.chain, time)
    decreases |events|
  {
    hide Step, NodeOk, NotZero, NoLater, Held, Rightful;
    if events == [] {
      NothingIsRightful(time);
    } else {
      var before := events[..|events| - 1];
      assert forall e | e in before :: e in events;
      RunIsRightful(env, before, time);
      RunKeeps(env, before);
      StepIsRightful(env, Run(env, before).value, events[|events| - 1], time);
    }
  }

  lemma NothingIsRightful(time: int)
    ensures Rightful(EMPTY_CHAIN, time)
  {
  }

  /** In such a state, of two stored blocks of an identity more than one apart, with none of it between
      the first and the block just below the second, the second is by the signing key of the first's
      row, or the time is past the first's timestamp plus lifetime and renewal period. */
  lemma OwnershipSurvives(env: Checks, events: seq<Event>, time: int, i: nat, k: nat)
    requires (forall e | e in events :: NotZero(e) && NoLater(e, time)) && |events| < MAX_INDEX
    requires Run(env, events).Some?
    requires var s := Run(env, events).value.chain;
      && i in s.domains && k in s.blocks && i + 1 < k && s.blocks[k].transaction.Some?
      && s.domains[i].identity == s.blocks[k].transaction.value.identity
      && forall j | j in s.domains && i < j < k - 1 :: s.domains[j].identity != s.domains[i].identity
    ensures var s := Run(env, events).value.chain;
      s.domains[i].signing == s.blocks[k].pubKey || s.domains[i].timestamp + DOMAIN_LIFETIME + DOMAIN_RENEW_TIME < time
  {
    hide Run, NotZero, NoLater, LastRow;
    RunIsRightful(env, events, time);
    var s := Run(env, events).value.chain;
    assert RightfulAt(s, k, time);
    LastRowMeans(s.domains, k - 1, s.domains[i].identity);
  }
}
