/** The chain as the program keeps it: tables, caches and the memoised signers, updated in place. */
module Chains {
  import opened Data
  import opened Blocks
  import opened ChainSpec
  import opened ChainInvariant
  import opened Signers
  import opened NodeSpec
  import opened GoodRuns
  import opened StartupCheck

  /** The memoised signers, as an answer for a full block, are those the search would find. */
  ghost predicate MemoFor(blocks: map<nat, Block>, full: Block, index: nat, signers: seq<Bytes>) {
    signers != [] && index == full.index ==> index >= BLOCK_SIGNERS_START && SignersOf(blocks, full) == Some(signers)
  }

  /** The memo can only answer for the cached full block, and answers rightly. */
  ghost predicate Memo(s: ChainState, index: nat, signers: seq<Bytes>) {
    && (signers != [] ==> index <= Height(s))
    && (s.lastFull.Some? ==> MemoFor(s.blocks, s.lastFull.value, index, signers))
  }

  /** Appending makes no memo stale: the signers depend on the chain below the full block only. */
  lemma AddKeepsMemo(s: ChainState, b: Block, index: nat, signers: seq<Bytes>)
    requires Linked(s) && b.index == Height(s) + 1 && Memo(s, index, signers)
    ensures Memo(AddBlock(s, b), index, signers)
  {
    hide SignersOf;
    var t := AddBlock(s, b);
    assert b.index !in s.blocks;
    if signers != [] && b.transaction.None? && s.lastFull.Some? && s.lastFull.value.index == index {
      SignersLocal(s.blocks, t.blocks, s.lastFull.value, s.lastFull.value);
    }
  }

  /** After adding on top, everything the class keeps holds again. */
  lemma AddKeepsAll(s: ChainState, b: Block, index: nat, signers: seq<Bytes>)
    requires Sound(s) && Fits(s, b) && b.index == Height(s) + 1 && Memo(s, index, signers)
    ensures Sound(AddBlock(s, b)) && Memo(AddBlock(s, b), index, signers)
  {
    hide Linked, Projected, FullCached, Memo, AddBlock, Fits;
    AddKeepsSound(s, b);
    AddKeepsMemo(s, b, index, signers);
  }

  class Chain {
    const env: Checks
    var blocks: map<nat, Block>
    var domains: map<nat, DomainRow>
    var lastBlock: Option<Block>
    var lastFullBlock: Option<Block>
    var maxHeight: nat
    var signersIndex: nat
    var signers: seq<Bytes>

    /** Opens the stored tables. */
    constructor (env: Checks, blocks: map<nat, Block>, domains: map<nat, DomainRow>)
      ensures State() == Opened(blocks, domains) && this.env == env
      ensures signers == [] && maxHeight == 0
    {
      this.env, this.blocks, this.domains := env, blocks, domains;
      lastBlock, lastFullBlock := None, None;
      maxHeight, signersIndex, signers := 0, 0, [];
      new;
      lastBlock := LoadLastBlock(blocks);
      if lastBlock.Some? {
        if lastBlock.value.transaction.Some? {
          lastFullBlock := lastBlock;
        } else {
          lastFullBlock := GetLastFullBlock(MAX_INDEX, None);
        }
      }
    }

    static method LoadLastBlock(blocks: map<nat, Block>) returns (r: Option<Block>)
      ensures r == TopBlock(blocks)
    {
      if blocks == map[] {
        return None;
      }
      HasTop(blocks.Keys);
      var i: nat :| i in blocks && forall j | j in blocks :: j <= i;
      r := Some(blocks[i]);
    }

    function State(): ChainState
      reads this
    {
      ChainState(blocks, domains, lastBlock, lastFullBlock)
    }

    ghost predicate Valid()
      reads this
    {
      Sound(State()) && Memo(State(), signersIndex, signers)
    }

    function GetHeight(): u64
      reads this
    {
      Height(State())
    }

    /** get_last_full_block: while the cache is fresh, the answer is that of the plain query. */
    method GetLastFullBlock(before: nat, key: Option<Bytes>) returns (r: Option<Block>)
      ensures r == CachedLastFull(State(), before, key)
      ensures Linked(State()) && FullFresh(State()) ==> r == LastFull(blocks, before, key)
    {
      hide LastFull, Linked;
      if Linked(State()) && FullFresh(State()) {
        CacheEqualsScan(State(), before, key);
      }
      if lastFullBlock.Some? && lastFullBlock.value.index < before {
        match key
        case None => return lastFullBlock;
        case Some(k) =>
          if lastFullBlock.value.pubKey == k {
            return lastFullBlock;
          }
      }
      r := LastFull(blocks, before, key);
    }

    /** get_block_signers, which asks and fills the memo. */
    method GetBlockSigners(full: Block) returns (result: seq<Bytes>)
      requires full.transaction.Some? && MemoFor(blocks, full, signersIndex, signers)
      requires BlockSigners(State(), full).Some?
      modifies this`signersIndex, this`signers
      ensures BlockSigners(State(), full) == Some(result)
      ensures MemoFor(blocks, full, signersIndex, signers)
      ensures unchanged(this) || (signersIndex == full.index <= Height(State()) && signers == result)
    {
      hide SignersOf, Advance;
      result := [];
      if full.index < BLOCK_SIGNERS_START || GetHeight() < full.index {
        return;
      }
      if signersIndex == full.index && signers != [] {
        return signers;
      }
      var found: set<Bytes> := {};
      var tail: nat, count: nat, mitigated := Tail64(full.signature), 1, false;
      var window := full.index - 1;
      ghost var probes := Probes(blocks, full);
      while |found| < BLOCK_SIGNERS_ALL
        invariant |found| == |result| && forall k :: k in found <==> k in result
        invariant SignersOf(blocks, full) == Searched(blocks, full, Search(tail, count, mitigated, result), probes)
        decreases probes
      {
        AdvanceMeans(blocks, full, Search(tail, count, mitigated, result));
        ghost var next := Advance(blocks, full, Search(tail, count, mitigated, result));
        probes := probes - 1;
        var index := tail * count % TWO64 % window + 1;
        if index in blocks {
          var b := blocks[index];
          if UserBlockCount(blocks, b.pubKey, full.index) < Minimum(full) {
            count := (count + 1) % TWO64;
            assert next == Search(tail, count, mitigated, result);
            continue;
          }
          if b.pubKey != full.pubKey && b.pubKey !in found {
            result := result + [b.pubKey];
            found := found + {b.pubKey};
          }
        }
        count := (count + 1) % TWO64;
        if !mitigated && count > 5000 {
          tail := tail / 13;
          mitigated := true;
        }
        assert next == Search(tail, count, mitigated, result);
      }
      signersIndex := full.index;
      signers := result;
    }

    /** is_good_signer_for_block. Every block looked up is there: the program's `expect` never fails. */
    method IsGoodSignerForBlock(b: Block, full: Block) returns (good: bool)
      requires full.transaction.Some? && MemoFor(blocks, full, signersIndex, signers)
      requires Linked(State()) && full.index >= 1 && b.index <= GetHeight() + 1
      requires GoodSigner(State(), b, full).Some?
      modifies this`signersIndex, this`signers
      ensures GoodSigner(State(), b, full) == Some(good)
      ensures MemoFor(blocks, full, signersIndex, signers)
      ensures unchanged(this) || signersIndex == full.index <= Height(State())
    {
      hide SignersOf, BlockSigners;
      var keys := GetBlockSigners(full);
      if b.pubKey !in keys {
        return false;
      }
      for i := full.index + 1 to Max(b.index, full.index + 1)
        invariant forall j | full.index < j < i :: j in blocks && blocks[j].pubKey != b.pubKey
      {
        if blocks[i].pubKey == b.pubKey {
          return false;
        }
      }
      good := true;
    }

    /** is_good_sign_block */
    method IsGoodSignBlock(b: Block, lastFull: Option<Block>) returns (good: bool)
      requires Linked(State()) && b.index <= GetHeight() + 1
      requires lastFull.Some? ==>
        && lastFull.value.transaction.Some? && lastFull.value.index >= 1
        && MemoFor(blocks, lastFull.value, signersIndex, signers)
      requires GoodSignBlock(State(), b, lastFull).Some?
      modifies this`signersIndex, this`signers
      ensures GoodSignBlock(State(), b, lastFull) == Some(good)
      ensures lastFull.Some? ==> MemoFor(blocks, lastFull.value, signersIndex, signers)
      ensures unchanged(this) || (lastFull.Some? && signersIndex == lastFull.value.index <= Height(State()))
    {
      hide GoodSigner, SignersOf, Linked;
      if b.transaction.Some? {
        return true;
      }
      if lastFull.Some? {
        var full := lastFull.value;
        var signCount := WrapSub(GetHeight(), full.index, TWO64);
        if signCount < BLOCK_SIGNERS_MIN {
          var signer := IsGoodSignerForBlock(b, full);
          if !signer {
            return false;
          }
        } else if signCount < BLOCK_SIGNERS_ALL {
          var signer := IsGoodSignerForBlock(b, full);
          if !signer {
            return false;
          }
        }
      }
      good := true;
    }

    /** check_block: the judgement, whole. What it asks of the chain it asks only where signers matter. */
    method CheckBlockAgainst(b: Block, last: Option<Block>, lastFull: Option<Block>, now: int) returns (q: Quality)
      requires last.Some? && BLOCK_SIGNERS_START < b.index <= last.value.index + 1 ==>
        && Linked(State()) && last.value.index <= GetHeight()
        && (lastFull.Some? ==>
              && lastFull.value.transaction.Some? && lastFull.value.index >= 1
              && MemoFor(blocks, lastFull.value, signersIndex, signers))
      requires CheckBlock(env, State(), b, last, lastFull, now).Some?
      modifies this`signersIndex, this`signers
      ensures CheckBlock(env, State(), b, last, lastFull, now) == Some(q)
      ensures unchanged(this) ||
        (lastFull.Some? && signersIndex == lastFull.value.index <= Height(State())
         && MemoFor(blocks, lastFull.value, signersIndex, signers))
    {
      hide NeededDifficulty, HashDifficulty, GoodTransaction, GoodSignBlock, SignersOf, Linked, MemoFor;
      if b.version > CHAIN_VERSION || env.wrongHash(b.hash) || b.timestamp > now + 60 {
        return Bad;
      }
      if last.Some? && b.index > last.value.index + 1 {
        return Future;
      }
      if b.difficulty < NeededDifficulty(env, State(), b) || HashDifficulty(b.hash) < b.difficulty {
        return Bad;
      }
      if !env.goodHash(b) || !env.goodSignature(b) {
        return Bad;
      }
      if HasPredecessor(blocks, b.index) && b.prevBlockHash != blocks[b.index - 1].hash {
        return if b.index < WrapSub(GetHeight(), LIMITED_CONFIDENCE_DEPTH, TWO64) then Bad else Rewind;
      }
      var good := IsGoodTransaction(b, now);
      if !good {
        return Bad;
      }
      match last
      case None =>
        if !b.IsGenesis() {
          return Future;
        }
        return if !IsZero(env.origin) && b.hash != env.origin then Bad else Good;
      case Some(l) =>
        if b.timestamp < l.timestamp && b.index > l.index {
          return Bad;
        }
        if b.index > BLOCK_SIGNERS_START {
          var signed := IsGoodSignBlock(b, lastFull);
          if !signed {
            return Bad;
          }
        }
        if b.index <= l.index {
          if b.index == l.index && l.hash == b.hash {
            return Twin;
          }
          if b.index in blocks {
            return if blocks[b.index].hash != b.hash then Fork else Twin;
          }
        } else if b.prevBlockHash != l.hash {
          return Bad;
        }
        q := Good;
    }

    /** The conditions on the block's transaction. */
    method IsGoodTransaction(b: Block, now: int) returns (good: bool)
      ensures good == GoodTransaction(env, State(), b, now)
    {
      hide IdAvailable, CanMine;
      if b.transaction.Some? {
        var t := b.transaction.value;
        if !env.strongKey(b.pubKey) || !IdAvailable(domains, IdBefore(b.index), now, t.identity, b.pubKey) {
          return false;
        }
        var fine := CanMineIdentity(t.identity, b.index, b.timestamp, b.pubKey);
        if !fine || !env.allowedRecords(t) {
          return false;
        }
      }
      good := true;
    }

    /** can_mine_identity, when it answers Fine. */
    method CanMineIdentity(identity: Bytes, height: nat, time: int, key: Bytes) returns (fine: bool)
      ensures fine == CanMine(State(), identity, height, time, key)
    {
      hide CachedLastFull;
      var last := GetLastFullBlock(height, Some(key));
      if last.Some? {
        var wantNewDomain := LastRow(domains, height, identity).None?;
        var left := last.value.timestamp + NEW_DOMAINS_INTERVAL - time;
        if wantNewDomain && left > 0 {
          return false;
        }
      }
      fine := true;
    }

    /** check_new_block, over any chain the program can come to: a valid one, or one stranded by a
        block of index 0. */
    method CheckNewBlock(b: Block, now: int) returns (q: Quality)
      requires (Valid() || Stranded(State())) && Check(env, State(), b, now).Some?
      modifies this`signersIndex, this`signers
      ensures Check(env, State(), b, now) == Some(q)
      ensures old(Valid()) ==> Valid()
    {
      hide CheckBlock, SignersOf, Linked, Projected, MemoFor;
      if Valid() {
        TipIndex(State());
      }
      q := CheckBlockAgainst(b, lastBlock, lastFullBlock, now);
    }

    /** add_block. A block of unknown class would panic after it is stored. */
    method AddBlock(b: Block)
      requires KnownClass(b)
      modifies this`blocks, this`domains, this`lastBlock, this`lastFullBlock
      ensures State() == ChainSpec.AddBlock(old(State()), b)
      ensures old(Valid()) && Fits(old(State()), b) && b.index == Height(old(State())) + 1 ==> Valid()
    {
      hide Sound, Memo;
      if Valid() && Fits(State(), b) && b.index == GetHeight() + 1 {
        AddKeepsAll(State(), b, signersIndex, signers);
      }
      if b.index !in blocks {
        blocks := blocks[b.index := b];
        lastBlock := Some(b);
        if b.transaction.Some? {
          lastFullBlock := Some(b);
          var t := b.transaction.value;
          if t.signing == [] {
            t := t.(signing := b.pubKey);
          }
          if t.class_ == ClassDomain {
            var row := DomainRow(b.timestamp, t.identity, t.confirmation, t.data, t.signing, t.encryption);
            domains := domains[b.index := row];
          }
        }
      }
    }

    /** replace_block. The memo is cleared, so it cannot be stale. */
    method ReplaceBlock(b: Block)
      requires Valid() && Fits(State(), b)
      modifies this
      ensures Valid() && State() == ChainSpec.ReplaceBlock(old(State()), b) && maxHeight == old(maxHeight)
    {
      hide Sound, Fits, ChainSpec.AddBlock;
      FitsIsKnown(State(), b);
      ReplaceKeepsSound(State(), b);
      signersIndex, signers := 0, [];
      blocks, domains := Truncate(blocks, b.index), Truncate(domains, b.index);
      AddBlock(b);
    }

    /** check_chain; `passed` is false where the program panics. It is called once, when the chain has
        just been opened. */
    method CheckChain(count: nat, clock: nat -> int) returns (passed: bool)
      requires Valid() && FullFresh(State()) && signers == [] && GetHeight() < MAX_INDEX
      requires !StartupCheck.CheckChain(env, State(), count, clock).Endless?
      modifies this
      ensures match StartupCheck.CheckChain(env, old(State()), count, clock)
        case Passed(t) => passed && State() == t && Valid()
        case Panicked => !passed
        case Endless => true
      ensures maxHeight == old(maxHeight)
    {
      hide CheckFrom, LastFull, TopBlock, Linked, Projected, FullCached, MemoStored, Memo;
      ghost var s := State();
      CachedIsStored(s);
      var start := StartOf(GetHeight(), count);
      var last := BlockBefore(State(), start);
      var lastFull: Option<Block> := None;
      if last.Some? {
        StoredAt(s, start - 1);
        if last.value.transaction.Some? {
          lastFull := last;
        } else {
          lastFull := GetLastFullBlock(last.value.index, None);
          FullBeforeIsStored(s, last.value.index);
        }
      }
      NoMemo(blocks, start, signersIndex);
      ghost var id;
      passed, id := CheckBlocksFrom(start, last, lastFull, clock);
      if passed {
        ghost var t := State();
        lastBlock := LoadLastBlock(blocks);
        lastFullBlock := GetLastFullBlock(MAX_INDEX, None);
        assert State() == Reload(t);
        CheckKeepsSound(env, s, count, clock);
        ReloadedMemo(s, t, id, signersIndex, signers);
      }
    }

    /** The loop of check_chain. */
    method CheckBlocksFrom(start: nat, last0: Option<Block>, lastFull0: Option<Block>, clock: nat -> int)
      returns (passed: bool, ghost id: nat)
      requires Sound(State()) && 1 <= start <= GetHeight() + 1
      requires last0.Some? ==> last0.value.index <= GetHeight()
      requires StoredFull(blocks, start, lastFull0) && StoredFull(blocks, GetHeight() + 1, lastFullBlock)
      requires MemoStored(blocks, start, signersIndex, signers)
      requires !CheckFrom(env, State(), start, last0, lastFull0, clock).Endless?
      modifies this`blocks, this`domains, this`lastFullBlock, this`signersIndex, this`signers
      ensures match CheckFrom(env, old(State()), start, last0, lastFull0, clock)
        case Passed(t) => passed && State() == t
        case Panicked => !passed
        case Endless => true
      ensures passed ==>
        && 1 <= id <= Height(old(State())) + 1 && blocks == Truncate(old(blocks), id)
        && StoredFull(old(blocks), Height(old(State())) + 1, lastFullBlock)
        && MemoStored(old(blocks), id, signersIndex, signers)
    {
      hide CheckFrom, CheckBlock, LastFull, Linked, Projected, FullCached, MemoStored, StoredFull, Truncate, Height;
      ghost var s, height: nat := State(), GetHeight();
      var last, lastFull := last0, lastFull0;
      ghost var whole := CheckFrom(env, s, start, last, lastFull, clock);
      passed := true;
      id := start;
      for i := start to GetHeight() + 1
        invariant id == i
        invariant blocks == s.blocks && State() == s.(lastFull := lastFullBlock)
        invariant whole == CheckFrom(env, State(), i, last, lastFull, clock)
        invariant last.Some? ==> last.value.index <= height
        invariant StoredFull(s.blocks, i, lastFull) && StoredFull(s.blocks, height + 1, lastFullBlock)
        invariant MemoStored(s.blocks, i, signersIndex, signers)
      {
        StoredAt(s, i);
        SwapFull(s, lastFullBlock);
        CheckFromStep(env, State(), i, last, lastFull, clock);
        StoredLater(s.blocks, i, lastFull);
        var b := blocks[i];
        if b.index == 1 {
          if b.hash != env.origin {
            return false, id;
          }
          last := Some(b);
        } else if env.wrongHash(b.hash) {
          blocks, domains := Truncate(blocks, b.index), Truncate(domains, b.index);
          return;
        } else {
          var q := CheckStored(b, i, last, lastFull, clock(i));
          if q != Good {
            blocks, domains := Truncate(blocks, b.index), Truncate(domains, b.index);
            return;
          }
          if b.transaction.Some? {
            SwapFull(s, Some(b));
            StoredNow(s.blocks, i, height + 1);
            lastFullBlock := Some(b);
            lastFull := Some(b);
          }
          last := Some(b);
        }
        MemoLater(s.blocks, i, signersIndex, signers);
        id := id + 1;
      }
      WholeTables(s);
      SwapFull(s, lastFullBlock);
      CheckFromEnds(env, State(), height + 1, last, lastFull, clock);
    }

    /** check_block in that loop, for the stored block of an id. */
    method CheckStored(b: Block, id: nat, last: Option<Block>, lastFull: Option<Block>, now: int) returns (q: Quality)
      requires Linked(State()) && (last.Some? ==> last.value.index <= GetHeight())
      requires StoredFull(blocks, id, lastFull) && MemoStored(blocks, id, signersIndex, signers)
      requires CheckBlock(env, State(), b, last, lastFull, now).Some?
      modifies this`signersIndex, this`signers
      ensures CheckBlock(env, State(), b, last, lastFull, now) == Some(q)
      ensures MemoStored(blocks, id, signersIndex, signers)
    {
      hide CheckBlock, Linked, MemoStored, MemoFor;
      if lastFull.Some? {
        MemoStoredFor(blocks, id, lastFull, signersIndex, signers);
      }
      ghost var wasIndex, wasSigners := signersIndex, signers;
      q := CheckBlockAgainst(b, last, lastFull, now);
      if lastFull.Some? && (signersIndex != wasIndex || signers != wasSigners) {
        MemoIsStored(blocks, id, lastFull.value, signersIndex, signers);
      }
    }
  }

  lemma CheckFromStep(
      env: Checks, s: ChainState, id: nat, last: Option<Block>, f: Option<Block>, clock: nat -> int)
    requires id <= Height(s) && id in s.blocks
    ensures var b := s.blocks[id];
      CheckFrom(env, s, id, last, f, clock) ==
        if b.index == 1 then
          (if b.hash != env.origin then Panicked else CheckFrom(env, s, id + 1, Some(b), f, clock))
        else if env.wrongHash(b.hash) then Passed(CutFrom(s, b.index))
        else match CheckBlock(env, s, b, last, f, clock(id))
          case None => Endless
          case Some(q) =>
            if q != Good then Passed(CutFrom(s, b.index))
            else if b.transaction.Some? then CheckFrom(env, s.(lastFull := Some(b)), id + 1, Some(b), Some(b), clock)
            else CheckFrom(env, s, id + 1, Some(b), f, clock)
  {
    hide CheckBlock;
  }

  lemma CheckFromEnds(
      env: Checks, s: ChainState, id: nat, last: Option<Block>, f: Option<Block>, clock: nat -> int)
    requires id > Height(s)
    ensures CheckFrom(env, s, id, last, f, clock) == Passed(s)
  {
  }

  lemma StoredLater(blocks: map<nat, Block>, id: nat, f: Option<Block>)
    requires StoredFull(blocks, id, f)
    ensures StoredFull(blocks, id + 1, f)
  {
  }

  lemma StoredNow(blocks: map<nat, Block>, id: nat, top: nat)
    requires 1 <= id < top && id in blocks && blocks[id].index == id && blocks[id].transaction.Some?
    ensures StoredFull(blocks, id + 1, Some(blocks[id])) && StoredFull(blocks, top, Some(blocks[id]))
  {
  }

  lemma NoMemo(blocks: map<nat, Block>, id: nat, index: nat)
    ensures MemoStored(blocks, id, index, [])
  {
  }

  lemma MemoLater(blocks: map<nat, Block>, id: nat, index: nat, signers: seq<Bytes>)
    requires MemoStored(blocks, id, index, signers)
    ensures MemoStored(blocks, id + 1, index, signers)
  {
  }

  lemma MemoStoredFor(blocks: map<nat, Block>, id: nat, f: Option<Block>, index: nat, signers: seq<Bytes>)
    requires MemoStored(blocks, id, index, signers) && StoredFull(blocks, id, f) && f.Some?
    ensures MemoFor(blocks, f.value, index, signers)
  {
  }

  lemma MemoIsStored(blocks: map<nat, Block>, id: nat, full: Block, index: nat, signers: seq<Bytes>)
    requires StoredFull(blocks, id, Some(full)) && index == full.index && MemoFor(blocks, full, index, signers)
    ensures MemoStored(blocks, id, index, signers)
  {
  }

  /** A memo about a block below the cut is still right after it. */
  lemma ReloadedMemo(s: ChainState, t: ChainState, id: nat, index: nat, signers: seq<Bytes>)
    requires Linked(s) && Linked(Reload(t)) && Height(s) < MAX_INDEX && t.blocks == Truncate(s.blocks, id)
    requires MemoStored(s.blocks, id, index, signers) && StoredFull(s.blocks, Height(s) + 1, t.lastFull)
    ensures Memo(Reload(t), index, signers)
  {
    hide LastFull, TopBlock, SignersOf;
    var r := Reload(t);
    LastFullIndexed(r, MAX_INDEX, None);
    assert r.blocks == t.blocks;
    if signers != [] {
      assert index in r.blocks;
      SignersLocal(s.blocks, r.blocks, s.blocks[index], s.blocks[index]);
    }
  }

  /** A full block stored below an id. */
  ghost predicate StoredFull(blocks: map<nat, Block>, id: nat, f: Option<Block>) {
    f.Some? ==>
      && 1 <= f.value.index < id && f.value.index in blocks
      && blocks[f.value.index] == f.value && f.value.transaction.Some?
  }

  /** The memo is about a stored block below an id. */
  ghost predicate MemoStored(blocks: map<nat, Block>, id: nat, index: nat, signers: seq<Bytes>) {
    signers != [] ==>
      && BLOCK_SIGNERS_START <= index < id && index in blocks && blocks[index].index == index
      && SignersOf(blocks, blocks[index]) == Some(signers)
  }

  lemma CachedIsStored(s: ChainState)
    requires Linked(s) && FullFresh(s)
    ensures StoredFull(s.blocks, Height(s) + 1, s.lastFull)
  {
    hide LastFull;
    LastFullIndexed(s, Height(s) + 1, None);
  }

  lemma FullBeforeIsStored(s: ChainState, before: nat)
    requires Linked(s) && FullFresh(s)
    ensures StoredFull(s.blocks, before, CachedLastFull(s, before, None))
  {
    CacheEqualsScan(s, before, None);
    hide LastFull;
    LastFullIndexed(s, before, None);
  }

  lemma {:induction false} HasTop(keys: set<nat>)
    requires keys != {}
    ensures exists i :: i in keys && forall j | j in keys :: j <= i
  {
    var k :| k in keys;
    if keys != {k} {
      HasTop(keys - {k});
      var i :| i in keys - {k} && forall j | j in keys - {k} :: j <= i;
      assert forall j | j in keys :: j == k || j in keys - {k};
      if i < k {
        assert k in keys && forall j | j in keys :: j <= k;
      } else {
        assert i in keys && forall j | j in keys :: j <= i;
      }
    }
  }

  lemma TipIndex(s: ChainState)
    requires Linked(s)
    ensures s.last.Some? ==> s.last.value.index <= Height(s)
  {
  }

  lemma FitsIsKnown(s: ChainState, b: Block)
    requires Fits(s, b)
    ensures KnownClass(b)
  {
  }

  function Max(a: int, b: int): int {
    if a >= b then a else b
  }

  /** A number of probes after which the search ends. */
  ghost function Probes(blocks: map<nat, Block>, full: Block): (n: nat)
    requires full.index >= BLOCK_SIGNERS_START && SignersOf(blocks, full).Some?
    ensures SignersOf(blocks, full) == Searched(blocks, full, FirstProbe(full), n)
  {
    var n: nat :| Searched(blocks, full, FirstProbe(full), n).Some?;
    SignersAre(blocks, full, n);
    n
  }

  lemma AdvanceMeans(blocks: map<nat, Block>, full: Block, q: Search)
    requires full.index >= BLOCK_SIGNERS_START
    ensures Advance(blocks, full, q) ==
      var i := q.tail * q.count % TWO64 % (full.index - 1) + 1;
      if i in blocks && UserBlockCount(blocks, blocks[i].pubKey, full.index) < Minimum(full) then
        q.(count := (q.count + 1) % TWO64)
      else
        var found := if i in blocks && blocks[i].pubKey != full.pubKey && blocks[i].pubKey !in q.found
                     then q.found + [blocks[i].pubKey] else q.found;
        var count := (q.count + 1) % TWO64;
        if !q.mitigated && count > 5000 then Search(q.tail / 13, count, true, found)
        else Search(q.tail, count, q.mitigated, found)
  {
  }
}
