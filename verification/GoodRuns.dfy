/** Chains grown by Good appends only, and what holds between their blocks. Block k of the sequence
    stands at index k + 1 and was judged at clock k. */
module GoodRuns {
  import opened Data
  import opened Blocks
  import opened ChainSpec
  import opened ChainInvariant
  import opened Signers
  import opened NodeSpec

  /** The chain made of these blocks, added in turn. */
  function Built(bs: seq<Block>): ChainState {
    if bs == [] then EMPTY_CHAIN else AddBlock(Built(bs[..|bs| - 1]), bs[|bs| - 1])
  }

  /** Every block was judged Good over the chain of those before it, and none has index 0 (a Good block
      of index 0 goes on top of nothing: see IndexZeroBreaks). */
  ghost predicate GoodRun(env: Checks, bs: seq<Block>, clocks: seq<int>) {
    && |clocks| == |bs|
    && forall k | 0 <= k < |bs| :: bs[k].index >= 1 && Check(env, Built(bs[..k]), bs[k], clocks[k]) == Some(Good)
  }

  /** The chain holds exactly these blocks, in order; it is sound and its cached full block fresh. */
  ghost predicate Holds(s: ChainState, bs: seq<Block>) {
    && Sound(s) && FullFresh(s) && Height(s) == |bs| && Lists(s.blocks, bs)
  }

  /** The block of index i is the i-th of the sequence. */
  ghost predicate Lists(blocks: map<nat, Block>, bs: seq<Block>) {
    forall i | 1 <= i <= |bs| :: i in blocks && blocks[i] == bs[i - 1] && bs[i - 1].index == i
  }

  lemma {:induction false} BuiltIs(env: Checks, bs: seq<Block>, clocks: seq<int>)
    requires GoodRun(env, bs, clocks)
    ensures Holds(Built(bs), bs)
    decreases |bs|
  {
    hide Check, Holds, AddBlock, GoodRun;
    if bs == [] {
      NothingHeld();
    } else {
      var n := |bs| - 1;
      GoodPrefix(env, bs, clocks, n);
      BuiltIs(env, bs[..n], clocks[..n]);
      RunVerdict(env, bs, clocks, n);
      HoldsMore(env, Built(bs[..n]), bs[..n], bs[n], clocks[n]);
      assert bs[..n] + [bs[n]] == bs;
    }
  }

  lemma NothingHeld()
    ensures Holds(EMPTY_CHAIN, [])
  {
  }

  lemma RunVerdict(env: Checks, bs: seq<Block>, clocks: seq<int>, k: nat)
    requires GoodRun(env, bs, clocks) && k < |bs|
    ensures |clocks| == |bs| && bs[k].index >= 1 && Check(env, Built(bs[..k]), bs[k], clocks[k]) == Some(Good)
  {
  }

  lemma HoldsMore(env: Checks, s: ChainState, bs: seq<Block>, b: Block, now: int)
    requires Holds(s, bs) && Check(env, s, b, now) == Some(Good) && b.index >= 1
    ensures Holds(AddBlock(s, b), bs + [b])
  {
    hide Check, AddBlock;
    GoodAdds(env, s, b, now);
    AddKeepsFresh(s, b);
    AddedBlocks(s, b);
    HoldsAppended(s, AddBlock(s, b), bs, b);
  }

  lemma HoldsAppended(s: ChainState, t: ChainState, bs: seq<Block>, b: Block)
    requires Holds(s, bs) && Sound(t) && FullFresh(t)
    requires Height(t) == b.index == |bs| + 1 && t.blocks == s.blocks[b.index := b]
    ensures Holds(t, bs + [b])
  {
    hide Sound, FullFresh, Lists;
    ListsAppended(s.blocks, bs, b);
    assert Holds(t, bs + [b]);
  }

  lemma ListsAppended(blocks: map<nat, Block>, bs: seq<Block>, b: Block)
    requires Lists(blocks, bs) && b.index == |bs| + 1
    ensures Lists(blocks[b.index := b], bs + [b])
  {
  }

  lemma AddedBlocks(s: ChainState, b: Block)
    requires b.index !in s.blocks
    ensures AddBlock(s, b).blocks == s.blocks[b.index := b]
  {
  }

  lemma GoodPrefix(env: Checks, bs: seq<Block>, clocks: seq<int>, n: nat)
    requires GoodRun(env, bs, clocks) && n <= |bs|
    ensures |clocks| == |bs| && GoodRun(env, bs[..n], clocks[..n])
  {
    hide Check, Built;
    assert forall k | 0 <= k < n :: bs[..n][..k] == bs[..k] && bs[..n][k] == bs[k] && clocks[..n][k] == clocks[k];
  }

  /** What a Good verdict says. */
  ghost predicate Verdict(s: ChainState, b: Block, now: int) {
    && b.index == Height(s) + 1
    && (s.last.Some? ==> s.last.value.timestamp <= b.timestamp)
    && (b.transaction.Some? ==>
          && IdAvailable(s.domains, b.index - 1, now, b.transaction.value.identity, b.pubKey)
          && CanMine(s, b.transaction.value.identity, b.index, b.timestamp, b.pubKey))
    && (b.index > BLOCK_SIGNERS_START && s.last.Some? ==> GoodSignBlock(s, b, s.lastFull) == Some(true))
  }

  lemma GoodVerdict(env: Checks, s: ChainState, b: Block, now: int)
    requires Sound(s) && Check(env, s, b, now) == Some(Good) && b.index >= 1
    ensures Verdict(s, b, now)
  {
    hide Linked, Projected, FullCached, Fits, GoodSignBlock, NeededDifficulty, HashDifficulty, IdAvailable, CanMine;
    GoodOrForkFits(env, s, b, now);
  }

  /** The k-th block of a run, over the chain of the blocks before it. */
  lemma GoodSays(env: Checks, bs: seq<Block>, clocks: seq<int>, k: nat)
    requires GoodRun(env, bs, clocks) && k < |bs|
    ensures |clocks| == |bs|
    ensures Holds(Built(bs[..k]), bs[..k]) && Verdict(Built(bs[..k]), bs[k], clocks[k])
    ensures bs[k].index == k + 1
  {
    hide Check, Sound, FullFresh, GoodRun;
    GoodPrefix(env, bs, clocks, k);
    BuiltIs(env, bs[..k], clocks[..k]);
    RunVerdict(env, bs, clocks, k);
    GoodVerdict(env, Built(bs[..k]), bs[k], clocks[k]);
  }

  // ---------------------------------------------------------------------------
  // Timestamps
  // ---------------------------------------------------------------------------

  /** Timestamps never decrease along a run. */
  lemma {:induction false} TimestampsRise(env: Checks, bs: seq<Block>, clocks: seq<int>, i: nat, j: nat)
    requires GoodRun(env, bs, clocks) && i <= j < |bs|
    ensures bs[i].timestamp <= bs[j].timestamp
    decreases j
  {
    hide GoodRun, Sound, FullFresh, IdAvailable, CanMine, GoodSignBlock, Built;
    if i < j {
      TimestampsRise(env, bs, clocks, i, j - 1);
      GoodSays(env, bs, clocks, j);
      TipOf(Built(bs[..j]), bs[..j]);
    }
  }

  lemma TipOf(s: ChainState, bs: seq<Block>)
    requires Holds(s, bs) && bs != []
    ensures s.last == Some(bs[|bs| - 1])
  {
  }

  /** The block introduces an identity no earlier domain block has. */
  predicate NewIdentity(bs: seq<Block>, k: nat)
    requires k < |bs| && bs[k].transaction.Some?
  {
    forall i | 0 <= i < k && bs[i].IsDomain() :: bs[i].transaction.value.identity != bs[k].transaction.value.identity
  }

  /** The latest row below an id, as the query finds it. */
  lemma {:induction false} LastRowMeans(domains: map<nat, DomainRow>, below: nat, identity: Bytes)
    ensures var r := LastRow(domains, below, identity);
      if r.None? then forall i | i in domains && i < below :: domains[i].identity != identity
      else forall i | i in domains && r.value < i < below :: domains[i].identity != identity
  {
    if below > 0 && !(below - 1 in domains && domains[below - 1].identity == identity) {
      LastRowMeans(domains, below - 1, identity);
    }
  }

  /** Rows of the held chain are the domain blocks of the sequence. */
  lemma RowsOf(s: ChainState, bs: seq<Block>)
    requires Holds(s, bs)
    ensures forall i :: i in s.domains <==> 1 <= i <= |bs| && bs[i - 1].IsDomain()
    ensures forall i | i in s.domains :: s.domains[i] == Row(bs[i - 1])
  {
    hide FullFresh;
  }

  /** A full block that introduces a new identity comes at least a day after every earlier full
      block by the same key. */
  lemma NewIdentityWaits(env: Checks, bs: seq<Block>, clocks: seq<int>, i: nat, k: nat)
    requires GoodRun(env, bs, clocks) && i < k < |bs|
    requires bs[i].transaction.Some? && bs[k].transaction.Some? && bs[i].pubKey == bs[k].pubKey
    requires NewIdentity(bs, k)
    ensures bs[i].timestamp + NEW_DOMAINS_INTERVAL <= bs[k].timestamp
  {
    hide GoodRun, Sound, FullFresh, IdAvailable, GoodSignBlock, Built, LastRow, CachedLastFull, Holds;
    GoodSays(env, bs, clocks, k);
    var s, id := Built(bs[..k]), bs[k].transaction.value.identity;
    NoRow(s, bs, k);
    var j := LastFullOf(s, bs[..k], bs[k].pubKey, i);
    TimestampsRise(env, bs, clocks, i, j);
  }

  lemma NoRow(s: ChainState, bs: seq<Block>, k: nat)
    requires k < |bs| && bs[k].transaction.Some? && NewIdentity(bs, k) && Holds(s, bs[..k])
    ensures LastRow(s.domains, k + 1, bs[k].transaction.value.identity).None?
  {
    hide Holds, LastRow;
    RowsOf(s, bs[..k]);
  }

  /** The last full block by a key is no earlier than any full block by that key. */
  lemma LastFullOf(s: ChainState, bs: seq<Block>, key: Bytes, i: nat) returns (j: nat)
    requires Holds(s, bs) && i < |bs| && FullFor(bs[i], Some(key))
    ensures i <= j < |bs| && CachedLastFull(s, |bs| + 1, Some(key)) == Some(bs[j])
  {
    hide Linked, Lists, Projected, FullCached, FullFresh, LastFull, CachedLastFull;
    HeldBlock(s, bs, i);
    CacheEqualsScan(s, |bs| + 1, Some(key));
    LastFullIndexed(s, |bs| + 1, Some(key));
    var r := LastFull(s.blocks, |bs| + 1, Some(key));
    HeldIndex(s, bs, r.value.index);
    j := r.value.index - 1;
  }

  lemma HeldBlock(s: ChainState, bs: seq<Block>, i: nat)
    requires Holds(s, bs) && i < |bs|
    ensures i + 1 in s.blocks && s.blocks[i + 1] == bs[i]
  {
    hide Sound, FullFresh;
  }

  lemma HeldIndex(s: ChainState, bs: seq<Block>, i: nat)
    requires Holds(s, bs) && i in s.blocks
    ensures 1 <= i <= |bs| && s.blocks[i] == bs[i - 1]
  {
    hide Projected, FullCached, FullFresh;
  }

  lemma LastFullIndexed(s: ChainState, before: nat, key: Option<Bytes>)
    requires Linked(s)
    ensures var r := LastFull(s.blocks, before, key);
      if r.None? then forall i | i in s.blocks && i < before :: !FullFor(s.blocks[i], key)
      else r.value.index < before && r.value.index in s.blocks && s.blocks[r.value.index] == r.value
           && FullFor(r.value, key)
           && forall i | i in s.blocks && r.value.index < i < before :: !FullFor(s.blocks[i], key)
  {
    LastFullMeans(s.blocks, before, key);
  }

  // ---------------------------------------------------------------------------
  // Ownership
  // ---------------------------------------------------------------------------

  /** Block i is the latest block before block k to carry k's identity. */
  predicate Precedes(bs: seq<Block>, i: nat, k: nat)
    requires i < k < |bs| && bs[k].transaction.Some?
  {
    var id := bs[k].transaction.value.identity;
    && bs[i].IsDomain() && bs[i].transaction.value.identity == id
    && forall j | i < j < k && bs[j].IsDomain() :: bs[j].transaction.value.identity != id
  }

  /** When two successive blocks of an identity are more than one block apart, the later one was made
      by the signing key of the earlier row, or at a time past the earlier timestamp plus the
      lifetime and the renewal period of a domain. */
  lemma OwnershipPasses(env: Checks, bs: seq<Block>, clocks: seq<int>, i: nat, k: nat)
    requires GoodRun(env, bs, clocks) && i + 1 < k < |bs|
    requires bs[k].transaction.Some? && Precedes(bs, i, k)
    ensures |clocks| == |bs|
    ensures Row(bs[i]).signing == bs[k].pubKey
            || bs[i].timestamp + DOMAIN_LIFETIME + DOMAIN_RENEW_TIME < clocks[k]
  {
    hide GoodRun, Sound, FullFresh, GoodSignBlock, Built, LastRow, CanMine, Holds;
    GoodSays(env, bs, clocks, k);
    LatestRow(Built(bs[..k]), bs, i, k);
  }

  lemma LatestRow(s: ChainState, bs: seq<Block>, i: nat, k: nat)
    requires i + 1 < k < |bs| && bs[k].transaction.Some? && Precedes(bs, i, k) && Holds(s, bs[..k])
    ensures LastRow(s.domains, k, bs[k].transaction.value.identity) == Some(i + 1)
    ensures i + 1 in s.domains && s.domains[i + 1] == Row(bs[i])
  {
    hide Holds, LastRow;
    var id := bs[k].transaction.value.identity;
    RowsOf(s, bs[..k]);
    LastRowMeans(s.domains, k, id);
    assert bs[..k][i] == bs[i];
    assert s.domains[i + 1].identity == id;
  }

  /** The distance matters: the availability check of a block never looks at the row of the block
      just below it, whoever owns that. */
  lemma AdjacentRowIsIgnored(
      domains: map<nat, DomainRow>, index: nat, row: DomainRow, time: int, identity: Bytes, key: Bytes)
    requires index >= 1
    ensures IdAvailable(domains[index - 1 := row], index - 1, time, identity, key)
        <==> IdAvailable(domains, index - 1, time, identity, key)
  {
    LastRowLocal(domains, domains[index - 1 := row], index - 1, identity);
  }

  lemma {:induction false} LastRowLocal(a: map<nat, DomainRow>, b: map<nat, DomainRow>, below: nat, identity: Bytes)
    requires forall i | i < below :: (i in a <==> i in b) && (i in a ==> a[i] == b[i])
    ensures LastRow(a, below, identity) == LastRow(b, below, identity)
  {
    if below > 0 {
      LastRowLocal(a, b, below - 1, identity);
    }
  }

  // ---------------------------------------------------------------------------
  // Signers
  // ---------------------------------------------------------------------------

  /** Block k is one of the up to seven signing blocks right above full block f. */
  predicate Signs(bs: seq<Block>, f: nat, k: nat)
    requires f < k < |bs|
  {
    && bs[f].transaction.Some? && f + 1 >= BLOCK_SIGNERS_START && k <= f + BLOCK_SIGNERS_ALL
    && forall j | f < j <= k :: bs[j].transaction.None?
  }

  /** The signing blocks above a full block come from its computed signers, never from its owner,
      and from pairwise distinct keys. */
  lemma SigningBlocks(env: Checks, bs: seq<Block>, clocks: seq<int>, f: nat, k: nat)
    requires GoodRun(env, bs, clocks) && f < k < |bs| && Signs(bs, f, k)
    ensures bs[f].index >= BLOCK_SIGNERS_START
    ensures SignersOf(Built(bs).blocks, bs[f]).Some?
    ensures bs[k].pubKey in SignersOf(Built(bs).blocks, bs[f]).value
    ensures bs[k].pubKey != bs[f].pubKey
    ensures forall j | f < j < k :: bs[j].pubKey != bs[k].pubKey
  {
    hide GoodRun, Sound, FullFresh, IdAvailable, CanMine, Built, SignersOf, Holds, AlreadySigned;
    var s := Built(bs[..k]);
    GoodSays(env, bs, clocks, k);
    GoodSays(env, bs, clocks, f);
    LastFullIs(s, bs, f, k);
    assert GoodSigner(s, bs[k], bs[f]) == Some(true);
    BuiltIs(env, bs, clocks);
    SameBelow(s, Built(bs), bs, k, f + 1);
    SignersLocal(s.blocks, Built(bs).blocks, bs[f], bs[f]);
    SevenSigners(s.blocks, bs[f]);
    NotYetSigned(s, bs, f, k);
  }

  lemma LastFullIs(s: ChainState, bs: seq<Block>, f: nat, k: nat)
    requires f < k < |bs| && Signs(bs, f, k) && Holds(s, bs[..k])
    ensures s.lastFull == Some(bs[f]) && Height(s) == k && bs[f].index == f + 1 && s.last.Some?
  {
    hide LastFull;
    LastFullIndexed(s, k + 1, None);
    assert s.blocks[f + 1] == bs[..k][f] == bs[f];
  }

  lemma SameBelow(a: ChainState, b: ChainState, bs: seq<Block>, k: nat, below: nat)
    requires below <= k <= |bs| && Holds(a, bs[..k]) && Holds(b, bs)
    ensures Agree(a.blocks, b.blocks, below)
  {
    hide FullFresh, Projected, FullCached;
    forall i | i < below
      ensures (i in a.blocks <==> i in b.blocks) && (i in a.blocks ==> a.blocks[i] == b.blocks[i])
    {
      if i >= 1 {
        assert a.blocks[i] == bs[..k][i - 1] == bs[i - 1];
      }
    }
  }

  lemma NotYetSigned(s: ChainState, bs: seq<Block>, f: nat, k: nat)
    requires f < k < |bs| && Holds(s, bs[..k]) && bs[f].index == f + 1 && bs[k].index == k + 1
    requires !AlreadySigned(s.blocks, bs[f], bs[k])
    ensures forall j | f < j < k :: bs[j].pubKey != bs[k].pubKey
  {
    hide Sound, FullFresh;
    forall j | f < j < k
      ensures bs[j].pubKey != bs[k].pubKey
    {
      assert s.blocks[j + 1] == bs[..k][j] == bs[j];
    }
  }
}
