/** A chain grown by Good appends passes the check at start-up, then and at any later time. */
module Recheck {
  import opened Data
  import opened Blocks
  import opened ChainSpec
  import opened ChainInvariant
  import opened Signers
  import opened GoodRuns
  import opened StartupCheck

  /** Chain `s` continues chain `p`: the same blocks and rows up to p's height. */
  ghost predicate Continues(p: ChainState, s: ChainState) {
    && Height(p) <= Height(s) && Agree(p.blocks, s.blocks, Height(p) + 1)
    && forall i | i <= Height(p) ::
         (i in p.domains <==> i in s.domains) && (i in p.domains ==> p.domains[i] == s.domains[i])
  }

  /** Whatever full block is cached over `s`, below an id it can only answer as the plain scan. */
  ghost predicate CacheHolds(s: ChainState, id: nat) {
    && (s.lastFull.Some? ==> s.lastFull.value.transaction.Some?)
    && (s.lastFull.Some? && s.lastFull.value.index < id ==> s.lastFull == LastFull(s.blocks, id, None))
  }

  /** The rows a new block may follow are no later than it. */
  ghost predicate RowsBefore(s: ChainState, b: Block) {
    forall i | i in s.domains && i < b.index :: s.domains[i].timestamp <= b.timestamp
  }

  // ---------------------------------------------------------------------------
  // Each part of the judgement, made again over a longer chain at a later time
  // ---------------------------------------------------------------------------

  lemma SameRow(p: ChainState, s: ChainState, below: nat, identity: Bytes)
    requires Continues(p, s) && below <= Height(p) + 1
    ensures LastRow(p.domains, below, identity) == LastRow(s.domains, below, identity)
    ensures var r := LastRow(p.domains, below, identity);
      r.Some? ==> r.value in s.domains && p.domains[r.value] == s.domains[r.value]
  {
    LastRowLocal(p.domains, s.domains, below, identity);
  }

  /** Growth of the chain only ever raises the discount, except that it stays none if it was. */
  lemma DiscountGrows(p: ChainState, s: ChainState, b: Block, identity: Bytes)
    requires Continues(p, s) && b.index == Height(p) + 1 && RowsBefore(s, b)
    ensures Discount(p, identity, b.index, b.timestamp) <= Discount(s, identity, b.index, b.timestamp) <= 8
  {
    hide LastRow;
    SameRow(p, s, b.index, identity);
  }

  lemma NeededLater(env: Checks, p: ChainState, s: ChainState, b: Block)
    requires Continues(p, s) && b.index == Height(p) + 1 && RowsBefore(s, b)
    ensures NeededDifficulty(env, s, b) <= NeededDifficulty(env, p, b)
  {
    if b.transaction.Some? {
      DiscountGrows(p, s, b, b.transaction.value.identity);
    }
    hide Discount;
  }

  lemma AvailableLater(p: ChainState, s: ChainState, height: nat, now: int, later: int, identity: Bytes, key: Bytes)
    requires Continues(p, s) && height <= Height(p) && now <= later
    requires IdAvailable(p.domains, height, now, identity, key)
    ensures IdAvailable(s.domains, height, later, identity, key)
  {
    hide LastRow;
    SameRow(p, s, height, identity);
  }

  /** Below the id both caches answer as the scan, and the scans agree. */
  lemma SameLastFull(p: ChainState, s: ChainState, id: nat, key: Option<Bytes>)
    requires Linked(p) && FullFresh(p) && Linked(s) && Continues(p, s) && id == Height(p) + 1 && CacheHolds(s, id)
    ensures CachedLastFull(s, id, key) == CachedLastFull(p, id, key)
  {
    hide LastFull, Linked;
    CacheEqualsScan(p, id, key);
    LastFullLocal(p.blocks, s.blocks, id, key);
    LastFullLocal(p.blocks, s.blocks, id, None);
    LastFullIndexed(s, id, None);
    if s.lastFull.Some? && s.lastFull.value.index < id && FullFor(s.lastFull.value, key) {
      LastFullSkips(s.blocks, s.lastFull.value.index + 1, id, key);
      LastFullFound(s.blocks, s.lastFull.value.index, key);
    }
  }

  lemma MinableLater(p: ChainState, s: ChainState, b: Block, identity: Bytes)
    requires Linked(p) && FullFresh(p) && Linked(s) && Continues(p, s)
    requires b.index == Height(p) + 1 && CacheHolds(s, b.index)
    requires CanMine(p, identity, b.index, b.timestamp, b.pubKey)
    ensures CanMine(s, identity, b.index, b.timestamp, b.pubKey)
  {
    hide CachedLastFull, LastRow, Linked, FullFresh, Continues, CacheHolds;
    SameLastFull(p, s, b.index, Some(b.pubKey));
    SameRow(p, s, b.index, identity);
  }

  lemma TransactionLater(env: Checks, p: ChainState, s: ChainState, b: Block, now: int, later: int)
    requires Linked(p) && FullFresh(p) && Linked(s) && Continues(p, s)
    requires b.index == Height(p) + 1 && CacheHolds(s, b.index)
    requires now <= later && GoodTransaction(env, p, b, now)
    ensures GoodTransaction(env, s, b, later)
  {
    hide IdAvailable, CanMine, Linked, FullFresh, Continues, CacheHolds;
    if b.transaction.Some? {
      AvailableLater(p, s, IdBefore(b.index), now, later, b.transaction.value.identity, b.pubKey);
      MinableLater(p, s, b, b.transaction.value.identity);
    }
  }

  lemma SignedLater(p: ChainState, s: ChainState, b: Block, f: Option<Block>)
    requires Linked(p) && Linked(s) && Continues(p, s) && b.index == Height(p) + 1
    requires f.None? || (f == p.lastFull && f.value.index <= Height(p))
    requires GoodSignBlock(p, b, p.lastFull) == Some(true)
    ensures GoodSignBlock(s, b, f) == Some(true)
  {
    hide SignersOf, Linked;
    if f.Some? && f.value.index >= BLOCK_SIGNERS_START {
      SignersLocal(p.blocks, s.blocks, f.value, f.value);
    }
  }

  /** What a Good verdict over `p` says, in the parts just treated. */
  ghost predicate Parts(env: Checks, p: ChainState, b: Block, now: int) {
    && b.version <= CHAIN_VERSION && !env.wrongHash(b.hash) && b.timestamp <= now + 60
    && NeededDifficulty(env, p, b) <= b.difficulty <= HashDifficulty(b.hash) && env.goodHash(b) && env.goodSignature(b)
    && b.index == Height(p) + 1 && GoodTransaction(env, p, b, now)
    && p.last.Some? && p.last.value.timestamp <= b.timestamp && b.prevBlockHash == p.last.value.hash
    && (b.index > BLOCK_SIGNERS_START ==> GoodSignBlock(p, b, p.lastFull) == Some(true))
  }

  lemma GoodParts(env: Checks, p: ChainState, b: Block, now: int)
    requires Linked(p) && p.last.Some? && Check(env, p, b, now) == Some(Good) && b.index >= 1
    ensures Parts(env, p, b, now)
  {
    GoodOrForkFits(env, p, b, now);
    hide NeededDifficulty, HashDifficulty, GoodTransaction, GoodSignBlock;
  }

  lemma AgainGood(env: Checks, p: ChainState, s: ChainState, b: Block, f: Option<Block>, now: int)
    requires Linked(p) && Linked(s) && Continues(p, s)
    requires b.index == Height(p) + 1 && p.last.Some?
    requires p.last.value.timestamp <= b.timestamp && b.prevBlockHash == p.last.value.hash
    requires b.version <= CHAIN_VERSION && !env.wrongHash(b.hash) && b.timestamp <= now + 60
    requires NeededDifficulty(env, s, b) <= b.difficulty <= HashDifficulty(b.hash)
    requires env.goodHash(b) && env.goodSignature(b)
    requires GoodTransaction(env, s, b, now)
    requires b.index > BLOCK_SIGNERS_START ==> GoodSignBlock(s, b, f) == Some(true)
    ensures CheckBlock(env, s, b, p.last, f, now) == Some(Good)
  {
    hide NeededDifficulty, HashDifficulty, GoodTransaction, GoodSignBlock;
    assert s.blocks[b.index - 1] == p.last.value;
  }

  /** A block judged Good as the next of `p` is judged Good in any sound continuation of `p`, at any
      later time, if the full block the judgement starts from is p's own or unknown. */
  lemma GoodLater(env: Checks, p: ChainState, s: ChainState, b: Block, f: Option<Block>, now: int, later: int)
    requires Linked(p) && FullFresh(p) && p.last.Some? && Linked(s) && Continues(p, s) && now <= later
    requires Check(env, p, b, now) == Some(Good) && b.index >= 1
    requires CacheHolds(s, b.index) && RowsBefore(s, b)
    requires f.None? || (f == p.lastFull && f.value.index <= Height(p))
    ensures CheckBlock(env, s, b, p.last, f, later) == Some(Good)
  {
    hide Check, CheckBlock, NeededDifficulty, HashDifficulty, GoodTransaction, GoodSignBlock, Linked, FullFresh,
      Continues, CacheHolds, RowsBefore;
    GoodParts(env, p, b, now);
    NeededLater(env, p, s, b);
    TransactionLater(env, p, s, b, now, later);
    if b.index > BLOCK_SIGNERS_START {
      SignedLater(p, s, b, f);
    }
    AgainGood(env, p, s, b, f, later);
  }

  // ---------------------------------------------------------------------------
  // The whole chain
  // ---------------------------------------------------------------------------

  /** The loop has come to `id` over the chain of a run; only the cached full block may differ, and
      then it is the last one below `id`. */
  ghost predicate Midway(bs: seq<Block>, s: ChainState, t: ChainState, id: nat, f: Option<Block>) {
    && Holds(s, bs) && t == s.(lastFull := t.lastFull) && 1 <= id <= |bs| + 1
    && (t.lastFull == s.lastFull || (id > 1 && t.lastFull == LastFull(s.blocks, id, None)))
    && (f.None? || f == LastFull(s.blocks, id, None))
  }

  lemma MidwayCache(bs: seq<Block>, s: ChainState, t: ChainState, id: nat, f: Option<Block>)
    requires Midway(bs, s, t, id, f) && id <= |bs|
    ensures Linked(t) && CacheHolds(t, id)
  {
    hide LastFull, Linked, Projected, FullCached;
    SwapFull(s, t.lastFull);
    LastFullIndexed(s, |bs| + 1, None);
    LastFullIndexed(s, id, None);
    LastFullAbove(s, id);
  }

  /** What the block at `id` does to the loop. */
  lemma MidwayStep(bs: seq<Block>, s: ChainState, t: ChainState, id: nat, f: Option<Block>)
    requires Midway(bs, s, t, id, f) && id <= |bs|
    ensures var b := bs[id - 1];
      if b.transaction.Some? && id > 1 then Midway(bs, s, t.(lastFull := Some(b)), id + 1, Some(b))
      else Midway(bs, s, t, id + 1, if b.transaction.Some? then None else f)
    ensures id in s.blocks && s.blocks[id] == bs[id - 1] && bs[id - 1].index == id
  {
    hide Sound, FullFresh;
  }

  lemma RunRowsBefore(env: Checks, bs: seq<Block>, clocks: seq<int>, t: ChainState, k: nat)
    requires GoodRun(env, bs, clocks) && k < |bs| && bs[k].index == k + 1 && t.domains == Built(bs).domains
    ensures RowsBefore(t, bs[k])
  {
    hide GoodRun, Built, Holds;
    BuiltIs(env, bs, clocks);
    RowsOf(Built(bs), bs);
    forall i | i in t.domains && i < k + 1
      ensures t.domains[i].timestamp <= bs[k].timestamp
    {
      TimestampsRise(env, bs, clocks, i - 1, k);
    }
  }

  lemma HeldBelow(p: ChainState, s: ChainState, bs: seq<Block>, k: nat)
    requires k <= |bs| && Holds(p, bs[..k]) && Holds(s, bs)
    ensures Agree(p.blocks, s.blocks, k + 1)
  {
    hide Holds;
    SameBelow(p, s, bs, k, k);
    if k >= 1 {
      HeldBlock(p, bs[..k], k - 1);
      HeldBlock(s, bs, k - 1);
      assert bs[..k][k - 1] == bs[k - 1];
    } else {
      NoBlockZero(p, bs[..k]);
      NoBlockZero(s, bs);
    }
  }

  lemma NoBlockZero(s: ChainState, bs: seq<Block>)
    requires Holds(s, bs)
    ensures 0 !in s.blocks
  {
  }

  lemma RowsBelow(p: ChainState, s: ChainState, bs: seq<Block>, k: nat)
    requires k <= |bs| && Holds(p, bs[..k]) && Holds(s, bs)
    ensures forall i | i <= k ::
      (i in p.domains <==> i in s.domains) && (i in p.domains ==> p.domains[i] == s.domains[i])
  {
    hide Holds;
    RowsOf(p, bs[..k]);
    RowsOf(s, bs);
    forall i | i <= k
      ensures (i in p.domains <==> i in s.domains) && (i in p.domains ==> p.domains[i] == s.domains[i])
    {
      if i >= 1 {
        assert bs[..k][i - 1] == bs[i - 1];
      }
    }
  }

  lemma RunContinues(p: ChainState, s: ChainState, t: ChainState, bs: seq<Block>, k: nat)
    requires k <= |bs| && Holds(p, bs[..k]) && Holds(s, bs) && t == s.(lastFull := t.lastFull)
    ensures Continues(p, t)
  {
    hide Sound, FullFresh, Lists, Agree;
    HeldBelow(p, s, bs, k);
    RowsBelow(p, s, bs, k);
  }

  /** A block of the run, checked anew where it stands. */
  lemma PassesAgain(
      env: Checks, bs: seq<Block>, clocks: seq<int>, t: ChainState, k: nat, f: Option<Block>, later: int)
    requires GoodRun(env, bs, clocks) && 1 <= k < |bs| && clocks[k] <= later
    requires Midway(bs, Built(bs), t, k + 1, f)
    ensures CheckBlock(env, t, bs[k], Some(bs[k - 1]), f, later) == Some(Good)
  {
    hide GoodRun, CheckBlock, Check, Built, Sound, LastFull, Lists, Continues, CacheHolds, RowsBefore;
    var p := Built(bs[..k]);
    GoodSays(env, bs, clocks, k);
    RunVerdict(env, bs, clocks, k);
    MidwayCache(bs, Built(bs), t, k + 1, f);
    RunContinues(p, Built(bs), t, bs, k);
    RunRowsBefore(env, bs, clocks, t, k);
    TipOf(p, bs[..k]);
    HeldBelow(p, Built(bs), bs, k);
    LastFullLocal(p.blocks, Built(bs).blocks, k + 1, None);
    SoundIsLinked(p);
    LastFullBelow(p, k + 1);
    GoodLater(env, p, t, bs[k], f, clocks[k], later);
  }

  lemma SoundIsLinked(s: ChainState)
    requires Sound(s)
    ensures Linked(s)
  {
  }

  lemma {:induction false} PassesFrom(
      env: Checks, bs: seq<Block>, clocks: seq<int>, t: ChainState, id: nat, f: Option<Block>, clock: nat -> int)
    requires GoodRun(env, bs, clocks) && Midway(bs, Built(bs), t, id, f)
    requires forall i | 1 <= i <= |bs| :: clocks[i - 1] <= clock(i)
    requires id > 1 || bs == [] || bs[0].hash == env.origin
    requires id == 1 ==> f.None?
    ensures CheckFrom(env, t, id, if id > 1 then Some(bs[id - 2]) else None, f, clock) == Passed(Built(bs))
    decreases |bs| + 1 - id
  {
    hide GoodRun, CheckBlock, Built, Sound, FullFresh, LastFull, Lists;
    var s := Built(bs);
    assert Height(t) == |bs|;
    if id > |bs| {
      LoopEnds(bs, s, t, f);
    } else {
      var b := bs[id - 1];
      MidwayStep(bs, s, t, id, f);
      if id == 1 {
        MidwayForget(bs, s, t, 2, if b.transaction.Some? then None else f);
        PassesFrom(env, bs, clocks, t, 2, None, clock);
      } else {
        PassesAgain(env, bs, clocks, t, id - 1, f, clock(id));
        PassesWrongHash(env, t, b, Some(bs[id - 2]), f, clock(id));
        if b.transaction.Some? {
          PassesFrom(env, bs, clocks, t.(lastFull := Some(b)), id + 1, Some(b), clock);
        } else {
          PassesFrom(env, bs, clocks, t, id + 1, f, clock);
        }
      }
    }
  }

  lemma PassesWrongHash(env: Checks, s: ChainState, b: Block, last: Option<Block>, f: Option<Block>, now: int)
    requires CheckBlock(env, s, b, last, f, now) == Some(Good)
    ensures !env.wrongHash(b.hash)
  {
  }

  lemma MidwayForget(bs: seq<Block>, s: ChainState, t: ChainState, id: nat, f: Option<Block>)
    requires Midway(bs, s, t, id, f)
    ensures Midway(bs, s, t, id, None)
  {
  }

  lemma LoopEnds(bs: seq<Block>, s: ChainState, t: ChainState, f: Option<Block>)
    requires Midway(bs, s, t, |bs| + 1, f)
    ensures t == s
  {
    hide LastFull, Sound;
  }

  lemma ReloadsItself(s: ChainState)
    requires Sound(s) && FullFresh(s) && Height(s) < MAX_INDEX
    ensures Reload(s) == s
  {
    hide LastFull, Reload;
    WholeTables(s);
    LastFullBelow(s, Height(s) + 1);
    Reloaded(s, Height(s) + 1, s.lastFull);
  }

  /** The loop starts midway. */
  lemma StartsMidway(bs: seq<Block>, s: ChainState, start: nat)
    requires Holds(s, bs) && 1 <= start <= |bs| + 1
    ensures BlockBefore(s, start) == if start > 1 then Some(bs[start - 2]) else None
    ensures Midway(bs, s, s, start, FullBefore(s, BlockBefore(s, start)))
  {
    hide Linked, Projected, FullCached, FullFresh, CachedLastFull;
    if start > 1 {
      HeldBlock(s, bs, start - 2);
      CacheEqualsScan(s, start - 1, None);
      assert bs[start - 2].index == start - 1;
    }
  }

  /** A chain grown by Good appends passes the check at start-up untouched, over any number of its
      last blocks, as long as the clock has not gone back. The one exception is a chain checked from
      its first block whose genesis block is not the configured origin: there the check panics.
      (A node with no origin configured accepts any genesis block, but the check never does.) */
  lemma GoodRunPasses(env: Checks, bs: seq<Block>, clocks: seq<int>, count: nat, clock: nat -> int)
    requires GoodRun(env, bs, clocks) && |bs| < MAX_INDEX
    requires forall i | 1 <= i <= |bs| :: clocks[i - 1] <= clock(i)
    ensures CheckChain(env, Built(bs), count, clock) ==
      if bs == [] || count < |bs| || bs[0].hash == env.origin then Passed(Built(bs)) else Panicked
  {
    hide GoodRun, CheckBlock, Built, Sound, FullFresh, LastFull, Lists, CheckFrom, Reload, BlockBefore,
      FullBefore, Midway;
    BuiltIs(env, bs, clocks);
    var s, start := Built(bs), StartOf(|bs|, count);
    StartsMidway(bs, s, start);
    if bs == [] || count < |bs| || bs[0].hash == env.origin {
      if start == 1 {
        NothingBefore(s);
      }
      PassesFrom(env, bs, clocks, s, start, FullBefore(s, BlockBefore(s, start)), clock);
      ReloadsItself(s);
    } else {
      WrongOrigin(env, bs, s, FullBefore(s, BlockBefore(s, 1)), clock);
    }
  }

  lemma NothingBefore(s: ChainState)
    ensures FullBefore(s, BlockBefore(s, 1)).None?
  {
  }

  lemma WrongOrigin(env: Checks, bs: seq<Block>, s: ChainState, f: Option<Block>, clock: nat -> int)
    requires Holds(s, bs) && bs != [] && bs[0].hash != env.origin
    ensures CheckFrom(env, s, 1, None, f, clock) == Panicked
  {
    HeldBlock(s, bs, 0);
    hide Sound, FullFresh;
  }

  /** Stopping a node and starting it again, with the check, changes nothing in such a chain. */
  lemma RestartIsExact(env: Checks, bs: seq<Block>, clocks: seq<int>, count: nat, clock: nat -> int)
    requires GoodRun(env, bs, clocks) && |bs| < MAX_INDEX
    requires forall i | 1 <= i <= |bs| :: clocks[i - 1] <= clock(i)
    requires bs == [] || count < |bs| || bs[0].hash == env.origin
    ensures var s := Built(bs); CheckChain(env, Opened(s.blocks, s.domains), count, clock) == Passed(s)
  {
    hide GoodRun, CheckChain, Opened, Built, Sound, LastFull;
    BuiltIs(env, bs, clocks);
    OpenedIsFresh(Built(bs));
    GoodRunPasses(env, bs, clocks, count, clock);
  }
}
