/** The check a node makes of its stored chain when it starts. */
module StartupCheck {
  import opened Data
  import opened Blocks
  import opened ChainSpec
  import opened ChainInvariant
  import opened Signers
  import opened GoodRuns

  /** How the check ends: with a chain, by a panic, or never. */
  datatype Audit = Passed(chain: ChainState) | Panicked | Endless

  /** The greatest id the tables can hold. */
  const MAX_INDEX: nat := 0x7FFF_FFFF_FFFF_FFFF

  /** truncate_db_from_block: the tables lose an id and all above it; the caches keep what they held. */
  function CutFrom(s: ChainState, cut: nat): ChainState {
    s.(blocks := Truncate(s.blocks, cut), domains := Truncate(s.domains, cut))
  }

  /** The loop of check_chain, from an id on. */
  ghost function CheckFrom(
      env: Checks, s: ChainState, id: nat, last: Option<Block>, lastFull: Option<Block>, clock: nat -> int): Audit
    decreases Height(s) + 1 - id
  {
    if id > Height(s) then Passed(s)
    else if id !in s.blocks then Panicked
    else
      var b := s.blocks[id];
      if b.index == 1 then
        if b.hash != env.origin then Panicked else CheckFrom(env, s, id + 1, Some(b), lastFull, clock)
      else if env.wrongHash(b.hash) then Passed(CutFrom(s, b.index))
      else match CheckBlock(env, s, b, last, lastFull, clock(id))
        case None => Endless
        case Some(Good) =>
          if b.transaction.Some? then CheckFrom(env, s.(lastFull := Some(b)), id + 1, Some(b), Some(b), clock)
          else CheckFrom(env, s, id + 1, Some(b), lastFull, clock)
        case Some(_) => Passed(CutFrom(s, b.index))
  }

  /** load_last_block: the stored block of greatest id. */
  ghost function TopBlock(blocks: map<nat, Block>): Option<Block> {
    if i :| i in blocks && forall j | j in blocks :: j <= i then Some(blocks[i]) else None
  }

  /** The caches after the loop. The full block is asked of the cache itself. */
  ghost function Reload(s: ChainState): ChainState {
    var t := s.(last := TopBlock(s.blocks));
    t.(lastFull := CachedLastFull(t, MAX_INDEX, None))
  }

  function StartOf(height: nat, count: nat): (id: nat)
    ensures 1 <= id <= height + 1
  {
    if height > count then height - count + 1 else 1
  }

  function BlockBefore(s: ChainState, id: nat): Option<Block> {
    if id > 1 && id - 1 in s.blocks then Some(s.blocks[id - 1]) else None
  }

  /** The last full block the loop starts from. */
  function FullBefore(s: ChainState, last: Option<Block>): Option<Block> {
    match last
    case None => None
    case Some(b) => if b.transaction.Some? then Some(b) else CachedLastFull(s, b.index, None)
  }

  /** check_chain over the last `count` blocks. */
  ghost function CheckChain(env: Checks, s: ChainState, count: nat, clock: nat -> int): Audit {
    var start := StartOf(Height(s), count);
    var last := BlockBefore(s, start);
    match CheckFrom(env, s, start, last, FullBefore(s, last), clock)
    case Passed(t) => Passed(Reload(t))
    case Panicked => Panicked
    case Endless => Endless
  }

  /** init_db: the caches of a chain whose tables are already there. */
  ghost function Opened(blocks: map<nat, Block>, domains: map<nat, DomainRow>): ChainState {
    var last := TopBlock(blocks);
    ChainState(blocks, domains, last,
      match last
      case None => None
      case Some(b) => if b.transaction.Some? then last else LastFull(blocks, MAX_INDEX, None))
  }

  // ---------------------------------------------------------------------------
  // What the check leaves
  // ---------------------------------------------------------------------------

  /** The cached full block after the loop has passed the ids from `low` up to `cut`. The genesis
      block is never noted. */
  ghost function Noted(s: ChainState, low: nat, cut: nat): Option<Block> {
    var r := LastFull(s.blocks, cut, None);
    if r.Some? && r.value.index >= low && r.value.index > 1 then r else s.lastFull
  }

  /** The cached full block matters to neither the links nor the projection. */
  lemma SwapFull(s: ChainState, f: Option<Block>)
    requires Linked(s) && Projected(s)
    ensures Linked(s.(lastFull := f)) && Projected(s.(lastFull := f)) && Height(s.(lastFull := f)) == Height(s)
  {
    assert Linked(s.(lastFull := f));
    assert Projected(s.(lastFull := f));
  }

  lemma StoredAt(s: ChainState, id: nat)
    requires Linked(s) && 1 <= id <= Height(s)
    ensures id in s.blocks && s.blocks[id].index == id
  {
  }

  lemma NotedNothing(s: ChainState, low: nat, cut: nat)
    requires Linked(s) && cut <= low
    ensures Noted(s, low, cut) == s.lastFull
  {
    LastFullBelow(s, cut);
    hide LastFull, Linked;
  }

  lemma WholeTables(s: ChainState)
    requires Linked(s) && Projected(s)
    ensures CutFrom(s, Height(s) + 1) == s
  {
    assert Truncate(s.blocks, Height(s) + 1) == s.blocks;
    assert Truncate(s.domains, Height(s) + 1) == s.domains;
  }

  /** The last full block the loop goes by when it comes to an id: the last one it passed, or else the
      one it started from. */
  ghost function KnownFull(s: ChainState, start: nat, id: nat): Option<Block> {
    var r := LastFull(s.blocks, id, None);
    if r.Some? && r.value.index >= start && r.value.index > 1 then r else FullBefore(s, BlockBefore(s, start))
  }

  /** What the loop finds of the stored block of an id. */
  ghost function StoredVerdict(env: Checks, s: ChainState, start: nat, id: nat, clock: nat -> int): Option<Quality> {
    if id !in s.blocks then Some(Bad)
    else
      var b := s.blocks[id];
      if id == 1 then Some(if b.hash == env.origin then Good else Bad)
      else if env.wrongHash(b.hash) then Some(Bad)
      else
        CheckBlock(
          env, s.(lastFull := Noted(s, start, id)), b, BlockBefore(s, id), KnownFull(s, start, id), clock(id))
  }

  ghost predicate IsFoundGood(env: Checks, s: ChainState, start: nat, id: nat, clock: nat -> int) {
    StoredVerdict(env, s, start, id, clock) == Some(Good)
  }

  /** The first stored id, from one on, whose block is not found Good; one above the tip if all are. */
  ghost function FirstFailing(env: Checks, s: ChainState, start: nat, id: nat, clock: nat -> int): (cut: nat)
    ensures cut >= id && (id <= Height(s) + 1 ==> cut <= Height(s) + 1)
    decreases Height(s) + 1 - id
  {
    if id <= Height(s) && IsFoundGood(env, s, start, id, clock) then FirstFailing(env, s, start, id + 1, clock) else id
  }

  lemma {:induction false} FirstFailingMeans(env: Checks, s: ChainState, start: nat, id: nat, clock: nat -> int)
    ensures var cut := FirstFailing(env, s, start, id, clock);
      && (cut <= Height(s) ==> !IsFoundGood(env, s, start, cut, clock))
      && forall j | id <= j < cut :: IsFoundGood(env, s, start, j, clock)
    decreases Height(s) + 1 - id
  {
    hide IsFoundGood;
    if id <= Height(s) && IsFoundGood(env, s, start, id, clock) {
      FirstFailingMeans(env, s, start, id + 1, clock);
    }
  }

  lemma PassingOne(s: ChainState, start: nat, id: nat)
    requires Linked(s) && 1 <= start <= id <= Height(s)
    ensures var b := s.blocks[id];
      if b.transaction.Some? && id > 1 then Noted(s, start, id + 1) == KnownFull(s, start, id + 1) == Some(b)
      else Noted(s, start, id + 1) == Noted(s, start, id) && KnownFull(s, start, id + 1) == KnownFull(s, start, id)
    ensures BlockBefore(s, id + 1) == Some(s.blocks[id])
  {
    LastFullBelow(s, id);
    assert LastFull(s.blocks, id + 1, None) ==
      if s.blocks[id].transaction.Some? then Some(s.blocks[id]) else LastFull(s.blocks, id, None);
    hide LastFull;
  }

  /** How the loop ends, once it has come to an id: it panics at a first block that is not the
      origin, never ends where a judgement does not, and otherwise cuts the chain at the first block
      that is not found Good, having noted the last full block it passed. */
  lemma {:induction false} CheckFromCuts(env: Checks, s: ChainState, start: nat, id: nat, clock: nat -> int)
    requires Linked(s) && Projected(s) && 1 <= start <= id <= Height(s) + 1
    ensures var cut := FirstFailing(env, s, start, id, clock);
      CheckFrom(env, s.(lastFull := Noted(s, start, id)), id, BlockBefore(s, id), KnownFull(s, start, id), clock) ==
        if cut == 1 && cut <= Height(s) then Panicked
        else if cut <= Height(s) && StoredVerdict(env, s, start, cut, clock).None? then Endless
        else Passed(CutFrom(s, cut).(lastFull := Noted(s, start, cut)))
    decreases Height(s) + 1 - id
  {
    hide CheckBlock, Noted, KnownFull, CutFrom, Linked, Projected, BlockBefore;
    var t := s.(lastFull := Noted(s, start, id));
    CutKeepsFull(s, id);
    if id > Height(s) {
      WholeTables(s);
    } else {
      StoredAt(s, id);
      PassingOne(s, start, id);
      if StoredVerdict(env, s, start, id, clock) == Some(Good) {
        CheckFromCuts(env, s, start, id + 1, clock);
      }
    }
  }

  lemma CutKeepsFull(s: ChainState, cut: nat)
    ensures CutFrom(s, cut).lastFull == s.lastFull
    ensures forall f :: CutFrom(s, cut).(lastFull := f) == CutFrom(s.(lastFull := f), cut)
  {
  }

  lemma TopOf(s: ChainState, cut: nat)
    requires Linked(s) && 1 <= cut <= Height(s) + 1
    ensures TopBlock(Truncate(s.blocks, cut)) == Below(s, cut).last
  {
    var t := Truncate(s.blocks, cut);
    assert forall i :: i in t <==> 1 <= i < cut;
    if cut > 1 {
      assert cut - 1 in t && forall j | j in t :: j <= cut - 1;
    }
  }

  /** What is reloaded after a cut, whatever full block `n` was noted. */
  lemma Reloaded(s: ChainState, cut: nat, n: Option<Block>)
    requires Linked(s) && 1 <= cut <= Height(s) + 1 <= MAX_INDEX
    ensures Reload(CutFrom(s, cut).(lastFull := n)) ==
      Below(s, cut).(lastFull := if n.Some? && n.value.index < MAX_INDEX then n else LastFull(s.blocks, cut, None))
  {
    hide LastFull, TopBlock;
    TopOf(s, cut);
    var t := Truncate(s.blocks, cut);
    assert forall i | i in t :: i < cut;
    LastFullSkips(t, cut, MAX_INDEX, None);
    LastFullLocal(t, s.blocks, cut, None);
  }

  /** Where the check of a sound chain cuts it: the first of the stored ids it looks at that fails. */
  ghost function CutOf(env: Checks, s: ChainState, count: nat, clock: nat -> int): (cut: nat)
    ensures StartOf(Height(s), count) <= cut <= Height(s) + 1
  {
    FirstFailing(env, s, StartOf(Height(s), count), StartOf(Height(s), count), clock)
  }

  /** The outcome of the check of a sound chain, whole. */
  lemma Audited(env: Checks, s: ChainState, count: nat, clock: nat -> int)
    requires Sound(s) && Height(s) < MAX_INDEX
    ensures var (start, cut) := (StartOf(Height(s), count), CutOf(env, s, count, clock)); var n := Noted(s, start, cut);
      CheckChain(env, s, count, clock) ==
        if cut == 1 && cut <= Height(s) then Panicked
        else if cut <= Height(s) && StoredVerdict(env, s, start, cut, clock).None? then Endless
        else Passed(Below(s, cut).(lastFull :=
               if n.Some? && n.value.index < MAX_INDEX then n else LastFull(s.blocks, cut, None)))
  {
    hide CheckFrom, Noted, KnownFull, CutFrom, Below, Reload, Linked, Projected, FullCached, LastFull, FirstFailing,
      StoredVerdict;
    var start, cut := StartOf(Height(s), count), CutOf(env, s, count, clock);
    CheckFromCuts(env, s, start, start, clock);
    NotedNothing(s, start, start);
    KnownNothing(s, start);
    Reloaded(s, cut, Noted(s, start, cut));
  }

  lemma KnownNothing(s: ChainState, start: nat)
    requires Linked(s)
    ensures KnownFull(s, start, start) == FullBefore(s, BlockBefore(s, start))
  {
    LastFullBelow(s, start);
    hide LastFull, Linked;
  }

  /** Whatever the check decides, it leaves a sound chain: the stored one below the first block that
      fails. */
  lemma CheckKeepsSound(env: Checks, s: ChainState, count: nat, clock: nat -> int)
    requires Sound(s) && Height(s) < MAX_INDEX && CheckChain(env, s, count, clock).Passed?
    ensures var t := CheckChain(env, s, count, clock).chain;
      && Sound(t) && Height(t) == CutOf(env, s, count, clock) - 1 <= Height(s)
      && t.blocks == Truncate(s.blocks, Height(t) + 1)
  {
    hide CheckChain, Noted, LastFull, Linked, Projected, FullCached, CutOf, StoredVerdict;
    Audited(env, s, count, clock);
    var cut := CutOf(env, s, count, clock);
    var t := CheckChain(env, s, count, clock).chain;
    BelowIsSound(s, cut);
    SwapFull(Below(s, cut), t.lastFull);
    NotedIsCached(s, StartOf(Height(s), count), cut);
  }

  lemma NotedIsCached(s: ChainState, low: nat, cut: nat)
    requires Sound(s) && cut <= Height(s) + 1 <= MAX_INDEX
    ensures var n := Noted(s, low, cut);
      FullCached(Below(s, cut).(lastFull :=
        if n.Some? && n.value.index < MAX_INDEX then n else LastFull(s.blocks, cut, None)))
  {
    hide LastFull, Projected;
    LastFullIndexed(s, cut, None);
  }

  /** After the check the cached full block is the last of the chain exactly when the one cached
      before lies below the first block that fails, or the loop passed a full block, other than the
      genesis block, before it. Otherwise the cache goes on naming a block that was just deleted. */
  lemma CheckFreshness(env: Checks, s: ChainState, count: nat, clock: nat -> int)
    requires Sound(s) && FullFresh(s) && Height(s) < MAX_INDEX && CheckChain(env, s, count, clock).Passed?
    ensures var (start, cut) := (StartOf(Height(s), count), CutOf(env, s, count, clock));
      FullFresh(CheckChain(env, s, count, clock).chain) <==>
        || s.lastFull.None? || s.lastFull.value.index < cut
        || exists i | i in s.blocks :: start <= i < cut && i > 1 && s.blocks[i].transaction.Some?
  {
    hide CheckChain, Linked, Projected, FullCached, LastFull, CutOf, StoredVerdict;
    Audited(env, s, count, clock);
    var cut := CutOf(env, s, count, clock);
    var t := CheckChain(env, s, count, clock).chain;
    BelowIsSound(s, cut);
    assert Height(t) == Height(Below(s, cut));
    LastFullLocal(s.blocks, t.blocks, cut, None);
    LastFullBelow(s, Height(s) + 1);
    LastFullIndexed(s, cut, None);
    if s.lastFull.Some? && s.lastFull.value.index < cut && cut <= Height(s) {
      LastFullAbove(s, cut);
    }
  }

  /** Opening the tables of a sound chain gives that chain with its caches up to date. */
  lemma OpenedIsFresh(s: ChainState)
    requires Sound(s) && Height(s) < MAX_INDEX
    ensures var t := Opened(s.blocks, s.domains);
      t == s.(lastFull := LastFull(s.blocks, Height(s) + 1, None)) && Sound(t) && FullFresh(t)
  {
    hide LastFull, Projected, TopBlock;
    var cut := Height(s) + 1;
    WholeTables(s);
    TopOf(s, cut);
    LastFullSkips(s.blocks, cut, MAX_INDEX, None);
    LastFullIndexed(s, cut, None);
    if s.last.Some? && s.last.value.transaction.Some? {
      LastFullFound(s.blocks, Height(s), None);
    }
    SwapFull(s, LastFull(s.blocks, cut, None));
  }
}
