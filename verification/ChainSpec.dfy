/** The blockchain as a value: its tables, the questions asked of them, and the judgement of a
    received block. Arithmetic on u64 and u32 wraps, as in a release build. */
module ChainSpec {
  import opened Data
  import opened Blocks

  const CHAIN_VERSION := 1
  const ORIGIN_DIFFICULTY: nat := 28
  const DOMAIN_DIFFICULTY: nat := 24
  const SIGNER_DIFFICULTY: nat := 16
  const BLOCKS_WITHOUT_DISCOUNT: nat := 4999
  const BLOCK_SIGNERS_START: nat := 35
  const BLOCK_SIGNERS_ALL: nat := 7
  const BLOCK_SIGNERS_MIN: nat := 4
  const LIMITED_CONFIDENCE_DEPTH: nat := 4
  const NEW_DOMAINS_INTERVAL := 86400
  const ONE_WEEK := 86400 * 7
  const DOMAIN_LIFETIME := 86400 * 365
  const DOMAIN_RENEW_TIME := 86400 * 30
  const U32_MAX: nat := 0xFFFF_FFFF

  /** The checks whose inside is not modelled, and the configured origin hash. */
  datatype Checks = Checks(
    goodHash: Block -> bool,
    goodSignature: Block -> bool,
    strongKey: Bytes -> bool,
    wrongHash: Bytes -> bool,
    parsesData: Text -> bool,
    allowedRecords: Transaction -> bool,
    origin: Bytes)

  datatype DomainRow = DomainRow(
    timestamp: int, identity: Bytes, confirmation: Bytes, data: Text, signing: Bytes, encryption: Bytes)

  datatype ChainState = ChainState(
    blocks: map<nat, Block>,
    domains: map<nat, DomainRow>,
    last: Option<Block>,
    lastFull: Option<Block>)

  const EMPTY_CHAIN := ChainState(map[], map[], None, None)

  datatype Quality = Good | Twin | Future | Rewind | Bad | Fork

  function WrapSub(a: nat, b: nat, m: nat): nat
    requires a < m && b < m
  {
    (a - b + m) % m
  }

  // ---------------------------------------------------------------------------
  // Questions
  // ---------------------------------------------------------------------------

  function Height(s: ChainState): u64 {
    if s.last.None? then 0 else s.last.value.index
  }

  /** A full block, by the given key if one is given. */
  predicate FullFor(b: Block, key: Option<Bytes>) {
    b.transaction.Some? && (key.None? || b.pubKey == key.value)
  }

  /** The full block of greatest id below `before`: the plain query. */
  function LastFull(blocks: map<nat, Block>, before: nat, key: Option<Bytes>): Option<Block> {
    if before == 0 then None
    else if before - 1 in blocks && FullFor(blocks[before - 1], key) then Some(blocks[before - 1])
    else LastFull(blocks, before - 1, key)
  }

  /** get_last_full_block: the cached block answers when it can, the plain query otherwise. */
  function CachedLastFull(s: ChainState, before: nat, key: Option<Bytes>): Option<Block> {
    if s.lastFull.Some? && s.lastFull.value.index < before && (key.None? || s.lastFull.value.pubKey == key.value)
    then s.lastFull
    else LastFull(s.blocks, before, key)
  }

  /** The latest row of an identity below an id. */
  function LastRow(domains: map<nat, DomainRow>, below: nat, identity: Bytes): (r: Option<nat>)
    ensures r.Some? ==> r.value < below && r.value in domains && domains[r.value].identity == identity
  {
    if below == 0 then None
    else if below - 1 in domains && domains[below - 1].identity == identity then Some(below - 1)
    else LastRow(domains, below - 1, identity)
  }

  /** get_user_block_count: blocks by a key below an id. */
  function UserBlockCount(blocks: map<nat, Block>, key: Bytes, below: nat): nat {
    |set i | i in blocks && i < below && blocks[i].pubKey == key|
  }

  datatype DomainState = NotFound | Alive | Expired | Free

  /** get_identity_transaction_and_state: the row's fate at a time. */
  function StateAt(row: DomainRow, time: int): DomainState {
    if row.timestamp + DOMAIN_LIFETIME >= time then Alive
    else if row.timestamp + DOMAIN_LIFETIME + DOMAIN_RENEW_TIME >= time then Expired
    else Free
  }

  /** is_id_available */
  predicate IdAvailable(domains: map<nat, DomainRow>, height: nat, time: int, identity: Bytes, key: Bytes) {
    var r := LastRow(domains, height, identity);
    r.None? || domains[r.value].signing == key || StateAt(domains[r.value], time) == Free
  }

  /** can_mine_identity, when it answers Fine. */
  predicate CanMine(s: ChainState, identity: Bytes, height: nat, time: int, key: Bytes) {
    var last := CachedLastFull(s, height, Some(key));
    last.None? || LastRow(s.domains, height, identity).Some?
    || last.value.timestamp + NEW_DOMAINS_INTERVAL - time <= 0
  }

  /** i64 division, which truncates towards zero. */
  function DivTrunc(a: int, d: int): int
    requires d > 0
  {
    if a >= 0 then a / d else -((-a) / d)
  }

  /** get_identity_discount for a new block; the cast to u32 wraps. */
  function Discount(s: ChainState, identity: Bytes, height: nat, time: int): nat {
    var r := LastRow(s.domains, height, identity);
    if r.None? || s.domains[r.value].timestamp < time - DOMAIN_LIFETIME then 0
    else if Height(s) < BLOCKS_WITHOUT_DISCOUNT then 1
    else
      var weeks := DivTrunc(time - s.domains[r.value].timestamp, ONE_WEEK);
      ((if weeks < 7 then weeks else 7) + 1) % 0x1_0000_0000
  }

  /** get_difficulty_for_transaction */
  function TransactionDifficulty(env: Checks, s: ChainState, t: Transaction, height: nat, time: int): nat {
    match t.class_
    case ClassDomain =>
      if env.parsesData(t.data) then
        WrapSub(DOMAIN_DIFFICULTY, Discount(s, t.identity, height, time), 0x1_0000_0000)
      else U32_MAX
    case ClassOrigin => ORIGIN_DIFFICULTY
    case ClassOther(_) => U32_MAX
  }

  function NeededDifficulty(env: Checks, s: ChainState, b: Block): nat {
    if b.transaction.None? then (if b.index == 1 then ORIGIN_DIFFICULTY else SIGNER_DIFFICULTY)
    else TransactionDifficulty(env, s, b.transaction.value, b.index, b.timestamp)
  }

  // ---------------------------------------------------------------------------
  // Signers
  // ---------------------------------------------------------------------------

  function Minimum(full: Block): nat {
    if full.index < 855 then 1 else full.index / 100
  }

  /** Where the search looks on its `count`-th probe. */
  function Probe(tail: nat, count: nat, window: nat): (i: nat)
    requires window > 0
    ensures 1 <= i <= window
  {
    tail * count % TWO64 % window + 1
  }

  /** The progress of get_block_signers. */
  datatype Search = Search(tail: nat, count: nat, mitigated: bool, found: seq<Bytes>)

  predicate Eligible(blocks: map<nat, Block>, full: Block, key: Bytes) {
    key != full.pubKey && UserBlockCount(blocks, key, full.index) >= Minimum(full)
  }

  /** One probe. A key with too few blocks is skipped before the tail can be changed. */
  function Advance(blocks: map<nat, Block>, full: Block, q: Search): Search
    requires full.index >= BLOCK_SIGNERS_START
  {
    var i := Probe(q.tail, q.count, full.index - 1);
    if i in blocks && UserBlockCount(blocks, blocks[i].pubKey, full.index) < Minimum(full) then
      q.(count := (q.count + 1) % TWO64)
    else
      var found := if i in blocks && blocks[i].pubKey != full.pubKey && blocks[i].pubKey !in q.found
                   then q.found + [blocks[i].pubKey] else q.found;
      var count := (q.count + 1) % TWO64;
      var mitigate := !q.mitigated && count > 5000;
      Search(if mitigate then q.tail / 13 else q.tail, count, q.mitigated || mitigate, found)
  }

  /** The search from a given point, if it ends within so many probes. */
  function Searched(blocks: map<nat, Block>, full: Block, q: Search, probes: nat): Option<seq<Bytes>>
    requires full.index >= BLOCK_SIGNERS_START
    decreases probes
  {
    if |q.found| >= BLOCK_SIGNERS_ALL then Some(q.found)
    else if probes == 0 then None
    else Searched(blocks, full, Advance(blocks, full, q), probes - 1)
  }

  function FirstProbe(full: Block): Search {
    Search(Tail64(full.signature), 1, false, [])
  }

  /** The signers of a full block, or None if the search never returns. */
  ghost function SignersOf(blocks: map<nat, Block>, full: Block): Option<seq<Bytes>>
    requires full.index >= BLOCK_SIGNERS_START
  {
    if n: nat :| Searched(blocks, full, FirstProbe(full), n).Some?
    then Searched(blocks, full, FirstProbe(full), n)
    else None
  }

  /** get_block_signers, memo aside. */
  ghost function BlockSigners(s: ChainState, full: Block): Option<seq<Bytes>> {
    if full.index < BLOCK_SIGNERS_START || Height(s) < full.index then Some([]) else SignersOf(s.blocks, full)
  }

  predicate AlreadySigned(blocks: map<nat, Block>, full: Block, b: Block) {
    exists i | full.index < i < b.index :: i in blocks && blocks[i].pubKey == b.pubKey
  }

  /** is_good_signer_for_block */
  ghost function GoodSigner(s: ChainState, b: Block, full: Block): Option<bool> {
    match BlockSigners(s, full)
    case None => None
    case Some(keys) => Some(b.pubKey in keys && !AlreadySigned(s.blocks, full, b))
  }

  /** is_good_sign_block. The number of blocks over the last full block is a wrapping difference. */
  ghost function GoodSignBlock(s: ChainState, b: Block, lastFull: Option<Block>): Option<bool> {
    if b.transaction.Some? || lastFull.None? then Some(true)
    else if WrapSub(Height(s), lastFull.value.index, TWO64) < BLOCK_SIGNERS_ALL then
      GoodSigner(s, b, lastFull.value)
    else Some(true)
  }

  // ---------------------------------------------------------------------------
  // The judgement
  // ---------------------------------------------------------------------------

  /** The bound `block.index - 1` of a query. For index 0 the subtraction wraps and the tables are
      asked for -1, below which there is as little as below 0. */
  function IdBefore(index: nat): nat {
    if index == 0 then 0 else index - 1
  }

  /** The predecessor's id is looked up likewise: nothing is stored at -1. */
  predicate HasPredecessor(blocks: map<nat, Block>, index: u64) {
    index >= 1 && index - 1 in blocks
  }

  /** What a transaction has to satisfy. */
  predicate GoodTransaction(env: Checks, s: ChainState, b: Block, now: int) {
    b.transaction.Some? ==>
      var t := b.transaction.value;
      && env.strongKey(b.pubKey)
      && IdAvailable(s.domains, IdBefore(b.index), now, t.identity, b.pubKey)
      && CanMine(s, t.identity, b.index, b.timestamp, b.pubKey)
      && env.allowedRecords(t)
  }

  /** The first part of check_block: everything that does not depend on the tip. */
  function Screen(env: Checks, s: ChainState, b: Block, last: Option<Block>, now: int): Option<Quality> {
    if b.version > CHAIN_VERSION || env.wrongHash(b.hash) || b.timestamp > now + 60 then Some(Bad)
    else if last.Some? && b.index > last.value.index + 1 then Some(Future)
    else if b.difficulty < NeededDifficulty(env, s, b) || HashDifficulty(b.hash) < b.difficulty
            || !env.goodHash(b) || !env.goodSignature(b) then Some(Bad)
    else if HasPredecessor(s.blocks, b.index) && b.prevBlockHash != s.blocks[b.index - 1].hash then
      if b.index < WrapSub(Height(s), LIMITED_CONFIDENCE_DEPTH, TWO64) then Some(Bad) else Some(Rewind)
    else if !GoodTransaction(env, s, b, now) then Some(Bad)
    else None
  }

  predicate IsZero(x: Bytes) {
    forall i | 0 <= i < |x| :: x[i] == 0
  }

  /** check_block, for a block to follow `last`, with `lastFull` the last full block before it: None
      when the search for signers never returns. */
  ghost function CheckBlock(
      env: Checks, s: ChainState, b: Block, last: Option<Block>, lastFull: Option<Block>, now: int): Option<Quality>
  {
    match Screen(env, s, b, last, now)
    case Some(q) => Some(q)
    case None =>
      match last
      case None =>
        if !b.IsGenesis() then Some(Future)
        else if !IsZero(env.origin) && b.hash != env.origin then Some(Bad)
        else Some(Good)
      case Some(last) =>
        if b.timestamp < last.timestamp && b.index > last.index then Some(Bad)
        else
          var signed := if b.index > BLOCK_SIGNERS_START then GoodSignBlock(s, b, lastFull) else Some(true);
          match signed
          case None => None
          case Some(false) => Some(Bad)
          case Some(true) => Some(Placed(s, b, last))
  }

  /** check_new_block: the block is to follow the tip. */
  ghost function Check(env: Checks, s: ChainState, b: Block, now: int): Option<Quality> {
    CheckBlock(env, s, b, s.last, s.lastFull, now)
  }

  /** The last part of check_block: where the block belongs. */
  function Placed(s: ChainState, b: Block, last: Block): Quality {
    if b.index <= last.index then
      if b.index == last.index && last.hash == b.hash then Twin
      else if b.index in s.blocks then (if s.blocks[b.index].hash != b.hash then Fork else Twin)
      else Good
    else if b.prevBlockHash != last.hash then Bad
    else Good
  }

  // ---------------------------------------------------------------------------
  // Changes
  // ---------------------------------------------------------------------------

  /** The row of a domain block; an empty signing key defaults to the block's own. */
  function Row(b: Block): DomainRow
    requires b.transaction.Some?
  {
    var t := b.transaction.value;
    var signing := if t.signing == [] then b.pubKey else t.signing;
    DomainRow(b.timestamp, t.identity, t.confirmation, t.data, signing, t.encryption)
  }

  /** add_block. Inserting over an existing id fails and changes nothing. */
  function AddBlock(s: ChainState, b: Block): ChainState {
    if b.index in s.blocks then s
    else ChainState(
      s.blocks[b.index := b],
      if b.IsDomain() then s.domains[b.index := Row(b)] else s.domains,
      Some(b),
      if b.transaction.Some? then Some(b) else s.lastFull)
  }

  function Truncate<T>(table: map<nat, T>, cut: nat): map<nat, T> {
    map i | i in table && i < cut :: table[i]
  }

  /** replace_block: both tables lose the block's id and everything above it, then it is added. */
  function ReplaceBlock(s: ChainState, b: Block): ChainState {
    AddBlock(s.(blocks := Truncate(s.blocks, b.index), domains := Truncate(s.domains, b.index)), b)
  }
}
