/** What every change to the chain keeps. */
module ChainInvariant {
  import opened Data
  import opened Blocks
  import opened ChainSpec

  /** Ids are 1..height, every block names its predecessor, and the cached tip is the top block. */
  ghost predicate Linked(s: ChainState) {
    && (s.last.Some? ==> s.last.value.index >= 1 && s.last.value.index in s.blocks
                         && s.blocks[s.last.value.index] == s.last.value)
    && (forall i :: i in s.blocks <==> 1 <= i <= Height(s))
    && (forall i | i in s.blocks :: s.blocks[i].index == i)
    && (forall i, j | i in s.blocks && j in s.blocks && i == j + 1 :: s.blocks[i].prevBlockHash == s.blocks[j].hash)
  }

  /** The domains table is the projection of the stored domain blocks, and no stored block has a
      transaction of unknown class. */
  ghost predicate Projected(s: ChainState) {
    && (forall i :: i in s.domains <==> i in s.blocks && s.blocks[i].IsDomain())
    && (forall i | i in s.domains :: s.domains[i] == Row(s.blocks[i]))
    && (forall i | i in s.blocks :: KnownClass(s.blocks[i]))
  }

  predicate KnownClass(b: Block) {
    b.transaction.Some? ==> !b.transaction.value.class_.ClassOther?
  }

  /** What is always true of the cached full block, up to date or not: it is a full block, and
      while there is none the chain has none. */
  ghost predicate FullCached(s: ChainState) {
    && (s.lastFull.Some? ==> s.lastFull.value.transaction.Some? && s.lastFull.value.index >= 1)
    && (s.lastFull.None? ==> forall i | i in s.blocks :: s.blocks[i].transaction.None?)
  }

  ghost predicate Sound(s: ChainState) {
    Linked(s) && Projected(s) && FullCached(s)
  }

  lemma EmptyIsSound()
    ensures Sound(EMPTY_CHAIN)
  {
  }

  /** A block fits at a place: it extends the blocks below its index. */
  ghost predicate Fits(s: ChainState, b: Block) {
    && 1 <= b.index <= Height(s) + 1
    && (b.index > 1 ==> b.index - 1 in s.blocks && b.prevBlockHash == s.blocks[b.index - 1].hash)
    && KnownClass(b)
  }

  /** No hash has a difficulty an unknown class would need, so such a transaction is always Bad. */
  lemma ScreenedClass(env: Checks, s: ChainState, b: Block, last: Option<Block>, now: int)
    requires Screen(env, s, b, last, now).None?
    ensures KnownClass(b)
    ensures b.IsDomain() ==> env.parsesData(b.transaction.value.data)
  {
    assert NeededDifficulty(env, s, b) <= 128;
  }

  /** A Good block goes on top, unless its index is 0; a Fork block contests a stored block of another
      hash. Both fit. */
  lemma GoodOrForkFits(env: Checks, s: ChainState, b: Block, now: int)
    requires Linked(s)
    ensures Check(env, s, b, now) == Some(Good) && b.index >= 1 ==>
      b.index == Height(s) + 1 && Fits(s, b) && (s.last.None? ==> b.IsGenesis())
    ensures Check(env, s, b, now) == Some(Fork) ==>
      b.index <= Height(s) && b.index in s.blocks && s.blocks[b.index].hash != b.hash && Fits(s, b)
  {
    hide NeededDifficulty, HashDifficulty, GoodTransaction, GoodSignBlock;
    if Screen(env, s, b, s.last, now).None? {
      ScreenedClass(env, s, b, s.last, now);
    }
  }

  /** A block of index 0 that passes the first checks is judged Good by every chain that has blocks:
      no block stands at its id or before it, and it is not above the tip. */
  lemma IndexZeroIsGood(env: Checks, s: ChainState, b: Block, now: int)
    requires Linked(s) && s.last.Some? && b.index == 0 && Screen(env, s, b, s.last, now).None?
    ensures Check(env, s, b, now) == Some(Good)
  {
    hide Screen;
  }

  /** Adding it makes it the tip, of height 0, above a chain that is still there. */
  lemma IndexZeroBreaks(s: ChainState, b: Block)
    requires Linked(s) && b.index == 0
    ensures AddBlock(s, b).last == Some(b) && Height(AddBlock(s, b)) == 0 && !Linked(AddBlock(s, b))
  {
    assert 0 in AddBlock(s, b).blocks;
  }

  /** So a Good block keeps the chain sound exactly when its index is not 0. */
  lemma GoodKeepsSoundExactly(env: Checks, s: ChainState, b: Block, now: int)
    requires Sound(s) && Check(env, s, b, now) == Some(Good)
    ensures Sound(AddBlock(s, b)) <==> b.index >= 1
    ensures Linked(AddBlock(s, b)) <==> b.index >= 1
  {
    hide Check, AddBlock, Fits;
    if b.index == 0 {
      IndexZeroBreaks(s, b);
    } else {
      GoodOrForkFits(env, s, b, now);
      AddKeepsSound(s, b);
    }
  }

  lemma AddKeepsLinked(s: ChainState, b: Block)
    requires Linked(s) && Fits(s, b) && b.index == Height(s) + 1
    ensures Linked(AddBlock(s, b)) && Height(AddBlock(s, b)) == b.index
  {
    var s' := AddBlock(s, b);
    assert b.index !in s.blocks;
    assert forall i :: i in s'.blocks <==> i in s.blocks || i == b.index;
    assert b.index + 1 !in s'.blocks;
  }

  lemma AddKeepsProjected(s: ChainState, b: Block)
    requires Projected(s) && KnownClass(b) && b.index !in s.blocks
    ensures Projected(AddBlock(s, b))
  {
  }

  lemma AddKeepsSound(s: ChainState, b: Block)
    requires Sound(s) && Fits(s, b) && b.index == Height(s) + 1
    ensures Sound(AddBlock(s, b)) && Height(AddBlock(s, b)) == b.index
  {
    assert b.index !in s.blocks;
    AddKeepsLinked(s, b);
    AddKeepsProjected(s, b);
  }

  /** The chain cut just below an index, as a chain of its own. */
  ghost function Below(s: ChainState, cut: nat): ChainState {
    ChainState(Truncate(s.blocks, cut), Truncate(s.domains, cut),
      if cut - 1 in s.blocks then Some(s.blocks[cut - 1]) else None, s.lastFull)
  }

  lemma BelowIsSound(s: ChainState, cut: nat)
    requires Sound(s) && 1 <= cut <= Height(s) + 1
    ensures Sound(Below(s, cut)) && Height(Below(s, cut)) == cut - 1
  {
    BelowIsLinked(s, cut);
    BelowIsProjected(s, cut);
  }

  lemma BelowIsLinked(s: ChainState, cut: nat)
    requires Linked(s) && 1 <= cut <= Height(s) + 1
    ensures Linked(Below(s, cut)) && Height(Below(s, cut)) == cut - 1
  {
    var t := Below(s, cut);
    assert forall i :: i in t.blocks <==> i in s.blocks && i < cut;
  }

  lemma BelowIsProjected(s: ChainState, cut: nat)
    requires Projected(s)
    ensures Projected(Below(s, cut))
  {
    var t := Below(s, cut);
    assert forall i :: i in t.domains <==> i in s.domains && i < cut;
  }

  /** Replacing is cutting and then adding. */
  lemma ReplaceKeepsSound(s: ChainState, b: Block)
    requires Sound(s) && Fits(s, b)
    ensures Sound(ReplaceBlock(s, b)) && Height(ReplaceBlock(s, b)) == b.index
  {
    BelowIsSound(s, b.index);
    AddKeepsSound(Below(s, b.index), b);
    var t := Below(s, b.index);
    assert b.index !in t.blocks;
    assert ReplaceBlock(s, b) == AddBlock(t, b);
  }

  // ---------------------------------------------------------------------------
  // The cached full block
  // ---------------------------------------------------------------------------

  /** What the plain query finds. */
  lemma {:induction false} LastFullMeans(blocks: map<nat, Block>, before: nat, key: Option<Bytes>)
    ensures var r := LastFull(blocks, before, key);
      if r.None? then forall i | i in blocks && i < before :: !FullFor(blocks[i], key)
      else exists i :: i in blocks && i < before && blocks[i] == r.value && FullFor(r.value, key)
                       && forall j | j in blocks && i < j < before :: !FullFor(blocks[j], key)
  {
    if before > 0 && !(before - 1 in blocks && FullFor(blocks[before - 1], key)) {
      LastFullMeans(blocks, before - 1, key);
    }
  }

  lemma {:induction false} LastFullSkips(blocks: map<nat, Block>, low: nat, high: nat, key: Option<Bytes>)
    requires low <= high && forall i | i in blocks && low <= i < high :: !FullFor(blocks[i], key)
    ensures LastFull(blocks, high, key) == LastFull(blocks, low, key)
    decreases high
  {
    if low < high {
      LastFullSkips(blocks, low, high - 1, key);
    }
  }

  lemma LastFullFound(blocks: map<nat, Block>, i: nat, key: Option<Bytes>)
    requires i in blocks && FullFor(blocks[i], key)
    ensures LastFull(blocks, i + 1, key) == Some(blocks[i])
  {
  }

  /** Blocks at or above the bound do not matter to it. */
  lemma {:induction false} LastFullLocal(a: map<nat, Block>, b: map<nat, Block>, before: nat, key: Option<Bytes>)
    requires Agree(a, b, before)
    ensures LastFull(a, before, key) == LastFull(b, before, key)
  {
    if before > 0 {
      LastFullLocal(a, b, before - 1, key);
    }
  }

  /** Two chains hold the same blocks below an id. */
  ghost predicate Agree(a: map<nat, Block>, b: map<nat, Block>, below: nat) {
    forall i | i < below :: (i in a <==> i in b) && (i in a ==> a[i] == b[i])
  }

  /** The cached full block is the last full block of the chain. */
  ghost predicate FullFresh(s: ChainState) {
    s.lastFull == LastFull(s.blocks, Height(s) + 1, None)
  }

  /** While it is, the fast path answers every query as the plain scan does. */
  lemma CacheEqualsScan(s: ChainState, before: nat, key: Option<Bytes>)
    requires Linked(s) && FullFresh(s)
    ensures CachedLastFull(s, before, key) == LastFull(s.blocks, before, key)
  {
    hide LastFull;
    LastFullMeans(s.blocks, Height(s) + 1, None);
    if s.lastFull.Some? {
      var full := s.lastFull.value;
      if full.index < before && FullFor(full, key) {
        LastFullSkips(s.blocks, full.index + 1, before, key);
        LastFullFound(s.blocks, full.index, key);
      }
    }
  }

  /** Appending keeps the cache fresh. */
  lemma AddKeepsFresh(s: ChainState, b: Block)
    requires Linked(s) && FullFresh(s) && b.index == Height(s) + 1
    ensures FullFresh(AddBlock(s, b))
  {
    var s' := AddBlock(s, b);
    assert b.index !in s.blocks;
    LastFullLocal(s.blocks, s'.blocks, b.index, None);
  }

  /** Replacing keeps it fresh exactly when the new block is full or the cached one lies below the
      cut. Otherwise the cache goes on naming a block that is no longer there. */
  lemma ReplaceFreshness(s: ChainState, b: Block)
    requires Sound(s) && FullFresh(s) && Fits(s, b) && b.index <= Height(s)
    ensures FullFresh(ReplaceBlock(s, b)) <==>
      b.transaction.Some? || s.lastFull.None? || s.lastFull.value.index < b.index
  {
    hide ReplaceBlock, Linked, Projected, LastFull;
    ReplaceBlocks(s, b);
    ReplacedLastFull(s, b);
    LastFullBelow(s, b.index);
    LastFullAbove(s, b.index);
  }

  lemma ReplacedLastFull(s: ChainState, b: Block)
    ensures LastFull(ReplaceBlock(s, b).blocks, b.index + 1, None) ==
      if b.transaction.Some? then Some(b) else LastFull(s.blocks, b.index, None)
  {
    ReplaceBlocks(s, b);
    hide ReplaceBlock;
    LastFullLocal(s.blocks, ReplaceBlock(s, b).blocks, b.index, None);
  }

  /** If the last full block lies below a cut, it is the last one below the cut. */
  lemma LastFullAbove(s: ChainState, cut: nat)
    requires Linked(s) && cut <= Height(s)
    ensures var r := LastFull(s.blocks, Height(s) + 1, None);
      r.None? || r.value.index < cut ==> LastFull(s.blocks, cut, None) == r
  {
    LastFullMeans(s.blocks, Height(s) + 1, None);
    var r := LastFull(s.blocks, Height(s) + 1, None);
    if r.None? || r.value.index < cut {
      LastFullSkips(s.blocks, cut, Height(s) + 1, None);
    }
  }

  lemma ReplaceBlocks(s: ChainState, b: Block)
    ensures var s' := ReplaceBlock(s, b);
      && s'.blocks == Truncate(s.blocks, b.index)[b.index := b]
      && Agree(s.blocks, s'.blocks, b.index)
      && s'.last == Some(b)
      && s'.lastFull == (if b.transaction.Some? then Some(b) else s.lastFull)
  {
    assert b.index !in Truncate(s.blocks, b.index);
  }

  lemma LastFullBelow(s: ChainState, before: nat)
    requires Linked(s)
    ensures var r := LastFull(s.blocks, before, None); r.Some? ==> r.value.index < before
  {
    LastFullMeans(s.blocks, before, None);
  }
}
