/** Who signs a full block, in numbers: where the search looks, which keys it takes, and when it stops. */
module SignerRules {
  import opened Data
  import opened Blocks
  import opened HashBits
  import opened ChainSpec
  import opened Signers
  import opened SignerSearch

  /** How many blocks below an id are by a key. */
  function Owned(blocks: map<nat, Block>, key: Bytes, below: nat): nat {
    |set x | x in blocks && x < below && blocks[x].pubKey == key|
  }

  /** A hundredth of the blocks below, but at least one up to block 854. */
  function Required(full: Block): nat {
    if full.index <= 854 then 1 else full.index / 100
  }

  predicate MaySign(blocks: map<nat, Block>, full: Block, key: Bytes) {
    key != full.pubKey && Owned(blocks, key, full.index) >= Required(full)
  }

  lemma MaySignExactly(blocks: map<nat, Block>, full: Block, key: Bytes)
    ensures Eligible(blocks, full, key) <==> MaySign(blocks, full, key)
  {
  }

  /** The probe of number j, from zero, finds a block whose key has too few. */
  predicate TooFew(blocks: map<nat, Block>, full: Block, i: nat) {
    i in blocks && Owned(blocks, blocks[i].pubKey, full.index) < Required(full)
  }

  /** The counter, which wraps, is past 5000 after probe m, and the probe is not skipped: the tail is changed. */
  predicate Changes(blocks: map<nat, Block>, full: Block, m: nat)
    requires full.index >= 35
  {
    (m + 2) % 0x1_0000_0000_0000_0000 > 5000 && !TooFew(blocks, full, Probed(blocks, full, m))
  }

  predicate Changed(blocks: map<nat, Block>, full: Block, j: nat)
    requires full.index >= 35
  {
    exists m | 0 <= m < j :: Changes(blocks, full, m)
  }

  /** The tail is the signature's, until it is divided by 13 once. */
  lemma {:induction false} TailIs(blocks: map<nat, Block>, full: Block, j: nat)
    requires full.index >= 35
    ensures At(blocks, full, j).mitigated <==> Changed(blocks, full, j)
    ensures At(blocks, full, j).tail == Tail64(full.signature) / if Changed(blocks, full, j) then 13 else 1
  {
    hide At, Changes, Probed;
    if j == 0 {
      StartsAt(blocks, full);
    } else {
      TailIs(blocks, full, j - 1);
      TailChanges(blocks, full, j - 1);
      assert Changed(blocks, full, j) <==> Changed(blocks, full, j - 1) || Changes(blocks, full, j - 1);
    }
  }

  lemma StartsAt(blocks: map<nat, Block>, full: Block)
    requires full.index >= 35
    ensures At(blocks, full, 0) == Search(Tail64(full.signature), 1, false, [])
  {
  }

  lemma TailChanges(blocks: map<nat, Block>, full: Block, j: nat)
    requires full.index >= 35
    ensures var (q, r) := (At(blocks, full, j), At(blocks, full, j + 1));
      && (r.mitigated <==> q.mitigated || Changes(blocks, full, j))
      && r.tail == if r.mitigated && !q.mitigated then q.tail / 13 else q.tail
  {
    hide At, Probe, UserBlockCount, Minimum;
    CountOf(blocks, full, j);
    CountTurns(j + 1);
    AtNext(blocks, full, j);
    TooFewIs(blocks, full);
  }

  lemma TooFewIs(blocks: map<nat, Block>, full: Block)
    ensures forall i :: TooFew(blocks, full, i) <==>
      i in blocks && UserBlockCount(blocks, blocks[i].pubKey, full.index) < Minimum(full)
  {
  }

  /** Probe j looks at the tail times j + 1, modulo 2^64, modulo the number of blocks below the full block's
      predecessor, counted from block 1. */
  lemma ProbesAt(blocks: map<nat, Block>, full: Block, j: nat)
    requires full.index >= 35 && |full.signature| >= 8
    ensures var tail := Tail(full.signature) / if Changed(blocks, full, j) then 13 else 1;
      Probed(blocks, full, j) ==
        tail * ((j + 1) % 0x1_0000_0000_0000_0000) % 0x1_0000_0000_0000_0000 % (full.index - 1) + 1
    ensures j < 5000 ==> !Changed(blocks, full, j)
  {
    hide At, Changed, Tail, Tail64;
    TailIs(blocks, full, j);
    TailIsSum(full.signature);
    if j < 5000 {
      NotChangedEarly(blocks, full, j);
    }
  }

  lemma NotChangedEarly(blocks: map<nat, Block>, full: Block, j: nat)
    requires full.index >= 35 && j < 5000
    ensures !Changed(blocks, full, j)
  {
    hide Probed;
  }

  /** The search makes just as many probes as it takes to meet seven keys that may sign, and returns those. */
  lemma SignersExactly(blocks: map<nat, Block>, full: Block) returns (n: nat)
    requires full.index >= 35 && SignersOf(blocks, full).Some?
    ensures var keys := SignersOf(blocks, full).value;
      && |keys| == 7 && Distinct(keys)
      && forall key :: key in keys <==>
           exists j | 0 <= j < n :: FindsAt(blocks, full, Probed(blocks, full, j), key)
  {
    hide Searched, FirstProbe, Probed, UserBlockCount, Minimum, At;
    var m: nat :| Searched(blocks, full, FirstProbe(full), m).Some?;
    ReturnedFound(blocks, full, m);
    n := FirstEnough(blocks, full, m);
    SearchedFollows(blocks, full, n, 0);
    StopsAt(blocks, full, At(blocks, full, n));
    SignersAre(blocks, full, n);
    SevenSigners(blocks, full);
    forall key
      ensures key in At(blocks, full, n).found <==>
        exists j | 0 <= j < n :: FindsAt(blocks, full, Probed(blocks, full, j), key)
    {
      FoundIsMet(blocks, full, n, key);
      MeetsFinds(blocks, full, key);
    }
  }

  /** At an id stands a block by the key, which may sign. */
  predicate FindsAt(blocks: map<nat, Block>, full: Block, i: nat, key: Bytes) {
    i in blocks && blocks[i].pubKey == key && MaySign(blocks, full, key)
  }

  lemma MeetsFinds(blocks: map<nat, Block>, full: Block, key: Bytes)
    requires full.index >= 35
    ensures forall j :: Meets(blocks, full, j, key) <==> FindsAt(blocks, full, Probed(blocks, full, j), key)
  {
    hide Probed;
    MaySignExactly(blocks, full, key);
    hide Eligible, MaySign;
  }

  lemma StopsAt(blocks: map<nat, Block>, full: Block, q: Search)
    requires full.index >= 35 && |q.found| >= 7
    ensures Searched(blocks, full, q, 0) == Some(q.found)
  {
  }

  lemma {:induction false} FirstEnough(blocks: map<nat, Block>, full: Block, m: nat) returns (n: nat)
    requires full.index >= 35 && |At(blocks, full, m).found| >= 7
    ensures n <= m && |At(blocks, full, n).found| >= 7
    ensures forall j | 0 <= j < n :: |At(blocks, full, j).found| < 7
    decreases m
  {
    hide At;
    if j :| 0 <= j < m && |At(blocks, full, j).found| >= 7 {
      n := FirstEnough(blocks, full, j);
    } else {
      n := m;
    }
  }

  /** Below index 35, and above the tip, a full block has no signers at all. */
  lemma NoSigners(s: ChainState, full: Block)
    ensures full.index < 35 || full.index > Height(s) ==> BlockSigners(s, full) == Some([])
    ensures 35 <= full.index <= Height(s) ==> BlockSigners(s, full) == SignersOf(s.blocks, full)
  {
  }
}
