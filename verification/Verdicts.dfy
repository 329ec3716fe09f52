/** Which tests a received block has passed or failed, verdict by verdict. The tests are stated on the fields of
    the block and of the chain. */
module Verdicts {
  import opened Data
  import opened Blocks
  import opened ChainSpec
  import opened ChainInvariant
  import opened GoodRuns

  // ---------------------------------------------------------------------------
  // The tests
  // ---------------------------------------------------------------------------

  /** Version, blacklist, and a date at most a minute ahead. */
  predicate Sane(env: Checks, b: Block, now: int) {
    b.version <= 1 && !env.wrongHash(b.hash) && b.timestamp <= now + 60
  }

  predicate TooEarly(b: Block, last: Option<Block>) {
    last.Some? && b.index > last.value.index + 1
  }

  /** The announced difficulty is no less than needed and no more than the hash has. */
  predicate Worked(env: Checks, s: ChainState, b: Block) {
    && NeededDifficulty(env, s, b) <= b.difficulty <= HashDifficulty(b.hash)
    && env.goodHash(b) && env.goodSignature(b)
  }

  /** The block below is another than the one it names. */
  predicate Detached(s: ChainState, b: Block) {
    b.index >= 1 && b.index - 1 in s.blocks && s.blocks[b.index - 1].hash != b.prevBlockHash
  }

  /** More than four blocks below the tip. The difference wraps. */
  predicate Deep(s: ChainState, b: Block) {
    b.index < if Height(s) >= 4 then Height(s) - 4 else 0x1_0000_0000_0000_0000 - 4 + Height(s)
  }

  /** Row r is the latest of an identity below an id. */
  predicate LatestIs(domains: map<nat, DomainRow>, below: nat, identity: Bytes, r: nat) {
    && r in domains && r < below && domains[r].identity == identity
    && forall j | j in domains && r < j < below :: domains[j].identity != identity
  }

  /** The latest row of the identity, the one just below the block apart, names the block's key, or has expired
      395 days ago or more. */
  ghost predicate MayCarry(s: ChainState, b: Block, now: int)
    requires b.transaction.Some?
  {
    forall r | LatestIs(s.domains, if b.index == 0 then 0 else b.index - 1, b.transaction.value.identity, r) ::
      s.domains[r].signing == b.pubKey || s.domains[r].timestamp + 34128000 < now
  }

  /** The last full block before an id, by the key if one is given: the cached one if it lies there and is by
      that key. */
  ghost predicate LastByKey(s: ChainState, before: nat, key: Option<Bytes>, f: Block) {
    if s.lastFull.Some? && s.lastFull.value.index < before && (key.Some? ==> s.lastFull.value.pubKey == key.value)
    then f == s.lastFull.value
    else exists i :: i in s.blocks && i < before && s.blocks[i] == f && ByKey(f, key)
                     && forall j | j in s.blocks && i < j < before :: !ByKey(s.blocks[j], key)
  }

  predicate ByKey(x: Block, key: Option<Bytes>) {
    x.transaction.Some? && (key.Some? ==> x.pubKey == key.value)
  }

  /** The identity has a row below the block, or the key's last full block is a day old. */
  ghost predicate MayMine(s: ChainState, b: Block)
    requires b.transaction.Some?
  {
    || (exists r :: r in s.domains && r < b.index && s.domains[r].identity == b.transaction.value.identity)
    || (forall f | LastByKey(s, b.index, Some(b.pubKey), f) :: f.timestamp + 86400 <= b.timestamp)
  }

  /** A full block has a strong key, allowed records, and a right to its identity. */
  ghost predicate Entitled(env: Checks, s: ChainState, b: Block, now: int) {
    b.transaction.Some? ==>
      env.strongKey(b.pubKey) && env.allowedRecords(b.transaction.value) && MayCarry(s, b, now) && MayMine(s, b)
  }

  ghost predicate Passes(env: Checks, s: ChainState, b: Block, last: Option<Block>, now: int) {
    Sane(env, b, now) && !TooEarly(b, last) && Worked(env, s, b) && !Detached(s, b) && Entitled(env, s, b, now)
  }

  /** Above the tip a block is not dated before it. */
  predicate InTime(b: Block, last: Block) {
    b.index > last.index ==> b.timestamp >= last.timestamp
  }

  /** From index 36 on, fewer than seven blocks above the last full block must be by its signers. */
  predicate MustSign(s: ChainState, b: Block, f: Option<Block>) {
    && b.index > 35 && b.transaction.None? && f.Some?
    && (if Height(s) >= f.value.index then Height(s) - f.value.index
        else 0x1_0000_0000_0000_0000 + Height(s) - f.value.index) < 7
  }

  /** The block is by a signer of the full block who has not signed above it. */
  ghost predicate SignedBy(s: ChainState, b: Block, f: Block) {
    && BlockSigners(s, f).Some? && b.pubKey in BlockSigners(s, f).value
    && forall i | i in s.blocks && f.index < i < b.index :: s.blocks[i].pubKey != b.pubKey
  }

  predicate Genesis(b: Block) {
    b.index == 1 && b.transaction.Some? && b.transaction.value.class_ == ClassOrigin && b.prevBlockHash == []
  }

  predicate FromOrigin(env: Checks, b: Block) {
    (forall i | 0 <= i < |env.origin| :: env.origin[i] == 0) || b.hash == env.origin
  }

  // ---------------------------------------------------------------------------
  // The queries behind them
  // ---------------------------------------------------------------------------

  lemma CarriesExactly(s: ChainState, b: Block, now: int)
    requires b.transaction.Some?
    ensures MayCarry(s, b, now) <==>
      IdAvailable(s.domains, IdBefore(b.index), now, b.transaction.value.identity, b.pubKey)
  {
    hide LastRow;
    LastRowMeans(s.domains, IdBefore(b.index), b.transaction.value.identity);
  }

  lemma LastByKeyExactly(s: ChainState, before: nat, key: Option<Bytes>)
    ensures forall f :: LastByKey(s, before, key, f) <==> CachedLastFull(s, before, key) == Some(f)
  {
    hide LastFull;
    LastFullMeans(s.blocks, before, key);
    assert forall x: Block :: ByKey(x, key) <==> FullFor(x, key);
    forall f
      ensures LastByKey(s, before, key, f) <==> CachedLastFull(s, before, key) == Some(f)
    {
    }
  }

  lemma MinesExactly(s: ChainState, b: Block)
    requires b.transaction.Some?
    ensures CanMine(s, b.transaction.value.identity, b.index, b.timestamp, b.pubKey) <==> MayMine(s, b)
  {
    hide LastRow, CachedLastFull, LastByKey;
    LastRowMeans(s.domains, b.index, b.transaction.value.identity);
    LastByKeyExactly(s, b.index, Some(b.pubKey));
  }

  lemma EntitledExactly(env: Checks, s: ChainState, b: Block, now: int)
    ensures GoodTransaction(env, s, b, now) <==> Entitled(env, s, b, now)
  {
    hide IdAvailable, CanMine, MayCarry, MayMine;
    if b.transaction.Some? {
      CarriesExactly(s, b, now);
      MinesExactly(s, b);
    }
  }

  // ---------------------------------------------------------------------------
  // The needed difficulty
  // ---------------------------------------------------------------------------

  /** Zero bits a signing block, an origin block, and a block of unusable data need. */
  lemma NeededFixed(env: Checks, s: ChainState, b: Block)
    ensures b.transaction.None? ==> NeededDifficulty(env, s, b) == if b.index == 1 then 28 else 16
    ensures b.transaction.Some? && b.transaction.value.class_ == ClassOrigin ==> NeededDifficulty(env, s, b) == 28
    ensures b.IsDomain() && !env.parsesData(b.transaction.value.data) ==>
      NeededDifficulty(env, s, b) == 0xFFFF_FFFF
    ensures b.transaction.Some? && b.transaction.value.class_.ClassOther? ==> NeededDifficulty(env, s, b) == 0xFFFF_FFFF
  {
    hide Discount;
  }

  /** A domain block needs 24, less for an identity whose latest row is less than a year old: one less on chains
      below 4999, and from there on one less for every week begun since that row, up to eight. For a row dated after
      the block the weeks count the other way. */
  lemma NeededForDomain(env: Checks, s: ChainState, b: Block, r: nat)
    requires b.IsDomain() && env.parsesData(b.transaction.value.data)
    ensures (forall i | i in s.domains && i < b.index :: s.domains[i].identity != b.transaction.value.identity) ==>
      NeededDifficulty(env, s, b) == 24
    ensures LatestIs(s.domains, b.index, b.transaction.value.identity, r) ==>
      var age := b.timestamp - s.domains[r].timestamp;
      NeededDifficulty(env, s, b) ==
        if age > 31536000 then 24
        else if Height(s) < 4999 then 23
        else if age >= 4233600 then 16
        else if age >= 0 then 23 - age / 604800
        else (23 + (-age) / 604800) % 0x1_0000_0000
  {
    hide LastRow;
    LastRowMeans(s.domains, b.index, b.transaction.value.identity);
    if LatestIs(s.domains, b.index, b.transaction.value.identity, r) {
      assert LastRow(s.domains, b.index, b.transaction.value.identity) == Some(r);
      DiscountIs(s, b, r);
      hide Discount;
      var d := Discount(s, b.transaction.value.identity, b.index, b.timestamp);
      var age := b.timestamp - s.domains[r].timestamp;
      if age < 0 && Height(s) >= 4999 {
        Wraps((-age) / 604800, d);
      }
    }
  }

  lemma DiscountIs(s: ChainState, b: Block, r: nat)
    requires b.transaction.Some? && LastRow(s.domains, b.index, b.transaction.value.identity) == Some(r)
    ensures var d := Discount(s, b.transaction.value.identity, b.index, b.timestamp);
      var age := b.timestamp - s.domains[r].timestamp;
      d == if age > 31536000 then 0
           else if Height(s) < 4999 then 1
           else if age >= 4233600 then 8
           else if age >= 0 then 1 + age / 604800
           else (1 - (-age) / 604800) % 0x1_0000_0000
  {
    hide LastRow;
  }

  lemma Wraps(k: nat, d: nat)
    requires d == (1 - k) % 0x1_0000_0000
    ensures WrapSub(24, d, 0x1_0000_0000) == (23 + k) % 0x1_0000_0000
  {
  }

  // ---------------------------------------------------------------------------
  // The verdicts
  // ---------------------------------------------------------------------------

  /** The tests that do not look at the tip. */
  lemma ScreenMeans(env: Checks, s: ChainState, b: Block, last: Option<Block>, now: int)
    ensures Screen(env, s, b, last, now).None? <==> Passes(env, s, b, last, now)
    ensures Screen(env, s, b, last, now) == Some(Future) <==> Sane(env, b, now) && TooEarly(b, last)
    ensures Screen(env, s, b, last, now) == Some(Rewind) <==>
      Sane(env, b, now) && !TooEarly(b, last) && Worked(env, s, b) && Detached(s, b) && !Deep(s, b)
    ensures Screen(env, s, b, last, now) == Some(Bad) <==>
      || !Sane(env, b, now)
      || (!TooEarly(b, last)
          && (!Worked(env, s, b) || (Detached(s, b) && Deep(s, b)) || (!Detached(s, b) && !Entitled(env, s, b, now))))
    ensures Screen(env, s, b, last, now) in {None, Some(Bad), Some(Future), Some(Rewind)}
  {
    hide NeededDifficulty, HashDifficulty, GoodTransaction, Entitled;
    EntitledExactly(env, s, b, now);
  }

  lemma SignsExactly(s: ChainState, b: Block, f: Option<Block>)
    requires b.index > 35
    ensures GoodSignBlock(s, b, f).None? <==> MustSign(s, b, f) && BlockSigners(s, f.value).None?
    ensures GoodSignBlock(s, b, f) == Some(true) <==> !MustSign(s, b, f) || SignedBy(s, b, f.value)
  {
    hide BlockSigners;
  }

  /** Every verdict, by the tests passed and failed. The last two are the placing of a block that passed: above
      the tip it goes on top, at or below it contests the stored block of its index, or is that block. */
  lemma VerdictsExactly(
      env: Checks, s: ChainState, b: Block, last: Option<Block>, f: Option<Block>, now: int)
    ensures var v := CheckBlock(env, s, b, last, f, now);
      var passes := Passes(env, s, b, last, now);
      var timely := passes && last.Some? && InTime(b, last.value);
      var signed := timely && (MustSign(s, b, f) ==> SignedBy(s, b, f.value));
      var same := last.Some? && b.index == last.value.index && b.hash == last.value.hash;
      && (v == None <==> timely && MustSign(s, b, f) && BlockSigners(s, f.value).None?)
      && (v == Some(Future) <==> (Sane(env, b, now) && TooEarly(b, last)) || (passes && last.None? && !Genesis(b)))
      && (v == Some(Rewind) <==>
            Sane(env, b, now) && !TooEarly(b, last) && Worked(env, s, b) && Detached(s, b) && !Deep(s, b))
      && (v == Some(Bad) <==>
            || !Sane(env, b, now)
            || (!TooEarly(b, last)
                && (|| !Worked(env, s, b) || (Detached(s, b) && Deep(s, b))
                    || (!Detached(s, b) && !Entitled(env, s, b, now))))
            || (passes && last.None? && Genesis(b) && !FromOrigin(env, b))
            || (passes && last.Some? && !InTime(b, last.value))
            || (timely && MustSign(s, b, f) && BlockSigners(s, f.value).Some? && !SignedBy(s, b, f.value))
            || (signed && b.index > last.value.index && b.prevBlockHash != last.value.hash))
      && (v == Some(Twin) <==>
            signed && b.index <= last.value.index
            && (same || (b.index in s.blocks && s.blocks[b.index].hash == b.hash)))
      && (v == Some(Fork) <==>
            signed && b.index <= last.value.index && !same && b.index in s.blocks && s.blocks[b.index].hash != b.hash)
      && (v == Some(Good) <==>
            || (passes && last.None? && Genesis(b) && FromOrigin(env, b))
            || (signed && b.index <= last.value.index && !same && b.index !in s.blocks)
            || (signed && b.index > last.value.index && b.prevBlockHash == last.value.hash))
  {
    hide Screen, Passes, Sane, Worked, Detached, Deep, Entitled, GoodSignBlock, MustSign, SignedBy, BlockSigners;
    ScreenMeans(env, s, b, last, now);
    if b.index > 35 {
      SignsExactly(s, b, f);
    } else {
      NoneSigns(s, b, f);
    }
    Placing(env, b);
  }

  lemma NoneSigns(s: ChainState, b: Block, f: Option<Block>)
    requires b.index <= 35
    ensures !MustSign(s, b, f)
  {
  }

  lemma Placing(env: Checks, b: Block)
    ensures b.IsGenesis() <==> Genesis(b)
    ensures IsZero(env.origin) || b.hash == env.origin <==> FromOrigin(env, b)
  {
  }
}
