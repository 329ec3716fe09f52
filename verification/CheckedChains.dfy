/** What the check at start-up looks at, and which chain it leaves. */
module CheckedChains {
  import opened Data
  import opened Blocks
  import opened ChainSpec
  import opened ChainInvariant
  import opened GoodRuns
  import opened StartupCheck

  /** What the check at start-up looks at: the last `count` blocks, or all if there are no more, each with the block
      below it and the last full block below it. Only the genesis block is overlooked as that, in a full check. */
  lemma LooksAt(s: ChainState, count: nat, id: nat, i: nat)
    requires Sound(s) && FullFresh(s) && StartOf(Height(s), count) <= id <= Height(s) + 1
    ensures Height(s) + 1 - StartOf(Height(s), count) == if count < Height(s) then count else Height(s) as nat
    ensures var (start, f) := (StartOf(Height(s), count), KnownFull(s, StartOf(Height(s), count), id));
      && (id > 1 ==> id - 1 in s.blocks && BlockBefore(s, id) == Some(s.blocks[id - 1]))
      && (LastFullAt(s, id, i) ==> f == if i == 1 && start == 1 then None else Some(s.blocks[i]))
      && ((forall j | j in s.blocks && j < id :: s.blocks[j].transaction.None?) ==> f == None)
  {
    hide LastFull, Projected, FullCached, FullFresh;
    var start := StartOf(Height(s), count);
    LastFullIndexed(s, id, None);
    if start > 1 {
      var last := s.blocks[start - 1];
      CacheEqualsScan(s, last.index, None);
      LastFullIndexed(s, last.index, None);
    }
  }

  /** The full block of greatest index below an id. */
  predicate LastFullAt(s: ChainState, id: nat, i: nat) {
    && i in s.blocks && i < id && s.blocks[i].transaction.Some?
    && forall j | j in s.blocks && i < j < id :: s.blocks[j].transaction.None?
  }

  /** A stored block passes the check at start-up: the first one is the origin, and every other is not blacklisted
      and judged Good over the block below it. */
  ghost predicate Found(env: Checks, s: ChainState, start: nat, id: nat, clock: nat -> int)
    requires id >= 1 && (id > 1 ==> id - 1 in s.blocks)
  {
    && id in s.blocks
    && if id == 1 then s.blocks[id].hash == env.origin
       else
         && !env.wrongHash(s.blocks[id].hash)
         && CheckBlock(env, s.(lastFull := Noted(s, start, id)), s.blocks[id], Some(s.blocks[id - 1]),
                       KnownFull(s, start, id), clock(id)) == Some(Good)
  }

  lemma FoundIs(env: Checks, s: ChainState, start: nat, id: nat, clock: nat -> int)
    requires Linked(s) && 1 <= id <= Height(s)
    ensures id > 1 ==> id - 1 in s.blocks
    ensures Found(env, s, start, id, clock) <==> IsFoundGood(env, s, start, id, clock)
  {
    hide CheckBlock, Noted, KnownFull;
  }

  /** The chain that is left after the check: every block it looked at passes, and the block that stood above it, if
      one did, does not. The check panics only over a first block that is not the origin. */
  lemma CheckedExactly(env: Checks, s: ChainState, count: nat, clock: nat -> int)
    requires Sound(s) && Height(s) < MAX_INDEX
    ensures CheckChain(env, s, count, clock) == Panicked ==>
      StartOf(Height(s), count) == 1 && 1 in s.blocks && s.blocks[1].hash != env.origin
    ensures CheckChain(env, s, count, clock).Passed? ==>
      var (start, top) := (StartOf(Height(s), count), Height(CheckChain(env, s, count, clock).chain));
      && start - 1 <= top <= Height(s)
      && (forall id | start <= id <= top :: (id > 1 ==> id - 1 in s.blocks) && Found(env, s, start, id, clock))
      && (top < Height(s) ==> (top > 0 ==> top in s.blocks) && !Found(env, s, start, top + 1, clock))
  {
    hide CheckChain, Noted, LastFull, Projected, FullCached, Found, IsFoundGood, StoredVerdict, Reload;
    var start, cut := StartOf(Height(s), count), CutOf(env, s, count, clock);
    Audited(env, s, count, clock);
    FirstFailingMeans(env, s, start, start, clock);
    forall id | start <= id <= Height(s)
      ensures id > 1 ==> id - 1 in s.blocks
      ensures Found(env, s, start, id, clock) <==> IsFoundGood(env, s, start, id, clock)
    {
      FoundIs(env, s, start, id, clock);
    }
    if CheckChain(env, s, count, clock).Passed? {
      CheckKeepsSound(env, s, count, clock);
    } else if cut == 1 <= Height(s) {
      FirstPasses(env, s, start, clock);
    }
  }

  lemma FirstPasses(env: Checks, s: ChainState, start: nat, clock: nat -> int)
    requires Linked(s) && Height(s) >= 1
    ensures 1 in s.blocks && (IsFoundGood(env, s, start, 1, clock) <==> s.blocks[1].hash == env.origin)
  {
  }
}
