/** When the search for signers returns: exactly when it meets seven distinct eligible keys, and then
    within a number of probes that does not depend on the chain. */
module SignerSearch {
  import opened Data
  import opened Blocks
  import opened ChainSpec
  import opened Signers

  /** The search after so many probes, were it never to stop. */
  function At(blocks: map<nat, Block>, full: Block, n: nat): Search
    requires full.index >= BLOCK_SIGNERS_START
  {
    if n == 0 then FirstProbe(full) else Advance(blocks, full, At(blocks, full, n - 1))
  }

  /** The id looked up by the probe of that number, counted from zero. */
  function Probed(blocks: map<nat, Block>, full: Block, j: nat): nat
    requires full.index >= BLOCK_SIGNERS_START
  {
    Probe(At(blocks, full, j).tail, (j + 1) % TWO64, full.index - 1)
  }

  /** The key a probe meets, if it is one that may sign. */
  predicate Meets(blocks: map<nat, Block>, full: Block, j: nat, key: Bytes)
    requires full.index >= BLOCK_SIGNERS_START
  {
    var i := Probed(blocks, full, j);
    i in blocks && blocks[i].pubKey == key && Eligible(blocks, full, key)
  }

  /** The keys that may sign, among those met by the first probes. */
  function Met(blocks: map<nat, Block>, full: Block, n: nat): set<Bytes>
    requires full.index >= BLOCK_SIGNERS_START
  {
    set j | 0 <= j < n && Probed(blocks, full, j) in blocks
            && Eligible(blocks, full, blocks[Probed(blocks, full, j)].pubKey)
      :: blocks[Probed(blocks, full, j)].pubKey
  }

  lemma MetMeans(blocks: map<nat, Block>, full: Block, n: nat, key: Bytes)
    requires full.index >= BLOCK_SIGNERS_START
    ensures key in Met(blocks, full, n) <==> exists j | 0 <= j < n :: Meets(blocks, full, j, key)
  {
    hide At, UserBlockCount, Probed;
    if key in Met(blocks, full, n) {
      var j :| 0 <= j < n && Probed(blocks, full, j) in blocks
               && Eligible(blocks, full, blocks[Probed(blocks, full, j)].pubKey)
               && blocks[Probed(blocks, full, j)].pubKey == key;
      assert Meets(blocks, full, j, key);
    }
  }

  lemma {:induction false} CountOf(blocks: map<nat, Block>, full: Block, n: nat)
    requires full.index >= BLOCK_SIGNERS_START
    ensures At(blocks, full, n).count == (n + 1) % TWO64
  {
    hide Advance;
    if n > 0 {
      CountOf(blocks, full, n - 1);
      CountAdvance(blocks, full, At(blocks, full, n - 1));
      CountTurns(n);
    }
  }

  lemma CountAdvance(blocks: map<nat, Block>, full: Block, q: Search)
    requires full.index >= BLOCK_SIGNERS_START
    ensures Advance(blocks, full, q).count == (q.count + 1) % TWO64
  {
    hide UserBlockCount, Probe;
  }

  lemma CountTurns(n: nat)
    ensures (n % TWO64 + 1) % TWO64 == (n + 1) % TWO64
  {
  }

  /** What one probe does to the keys found. */
  lemma FindsOne(blocks: map<nat, Block>, full: Block, q: Search, key: Bytes)
    requires full.index >= BLOCK_SIGNERS_START
    requires Distinct(q.found)
    ensures var i := Probe(q.tail, q.count, full.index - 1); var found := Advance(blocks, full, q).found;
      && Distinct(found)
      && (key in found <==> key in q.found || (i in blocks && blocks[i].pubKey == key && Eligible(blocks, full, key)))
  {
    hide UserBlockCount, Probe;
  }

  /** The keys found after so many probes are exactly those that may sign and stand at a probed id. */
  lemma {:induction false} FoundIsMet(blocks: map<nat, Block>, full: Block, n: nat, key: Bytes)
    requires full.index >= BLOCK_SIGNERS_START
    ensures Distinct(At(blocks, full, n).found)
    ensures key in At(blocks, full, n).found <==> exists j | 0 <= j < n :: Meets(blocks, full, j, key)
  {
    hide Advance, UserBlockCount, Meets;
    if n > 0 {
      FoundIsMet(blocks, full, n - 1, key);
      FindsOne(blocks, full, At(blocks, full, n - 1), key);
      CountOf(blocks, full, n - 1);
      MeetsAt(blocks, full, n - 1, key);
    }
  }

  lemma MeetsAt(blocks: map<nat, Block>, full: Block, j: nat, key: Bytes)
    requires full.index >= BLOCK_SIGNERS_START && At(blocks, full, j).count == (j + 1) % TWO64
    ensures var q := At(blocks, full, j); var i := Probe(q.tail, q.count, full.index - 1);
      Meets(blocks, full, j, key) <==> i in blocks && blocks[i].pubKey == key && Eligible(blocks, full, key)
  {
    hide At, UserBlockCount;
  }

  lemma {:induction false} SizeOf(keys: seq<Bytes>, all: set<Bytes>)
    requires Distinct(keys) && forall k :: k in keys <==> k in all
    ensures |keys| == |all|
  {
    if keys != [] {
      assert forall k :: k in keys[1..] <==> k in all - {keys[0]};
      SizeOf(keys[1..], all - {keys[0]});
    } else {
      assert all == {};
    }
  }

  /** As many keys are found as were met. */
  lemma FoundSize(blocks: map<nat, Block>, full: Block, n: nat)
    requires full.index >= BLOCK_SIGNERS_START
    ensures |At(blocks, full, n).found| == |Met(blocks, full, n)|
  {
    hide At, Met, Meets;
    FoundIsMet(blocks, full, n, []);
    forall k
      ensures k in At(blocks, full, n).found <==> k in Met(blocks, full, n)
    {
      FoundIsMet(blocks, full, n, k);
      MetMeans(blocks, full, n, k);
    }
    SizeOf(At(blocks, full, n).found, Met(blocks, full, n));
  }

  /** The search, from the start, is the unstopped one up to its first seventh key. */
  lemma {:induction false} SearchedFollows(blocks: map<nat, Block>, full: Block, n: nat, m: nat)
    requires full.index >= BLOCK_SIGNERS_START
    requires forall j | 0 <= j < n :: |At(blocks, full, j).found| < BLOCK_SIGNERS_ALL
    ensures Searched(blocks, full, FirstProbe(full), n + m) == Searched(blocks, full, At(blocks, full, n), m)
    decreases n
  {
    hide Advance, FirstProbe;
    if n > 0 {
      SearchedFollows(blocks, full, n - 1, m + 1);
    }
  }

  /** Keys are never lost. */
  lemma {:induction false} FoundGrows(blocks: map<nat, Block>, full: Block, n: nat, m: nat)
    requires full.index >= BLOCK_SIGNERS_START && n <= m
    ensures At(blocks, full, n).found <= At(blocks, full, m).found
    decreases m
  {
    hide UserBlockCount, Probe;
    if n < m {
      FoundGrows(blocks, full, n, m - 1);
    }
  }

  /** The search returns exactly when among the ids it probes stand seven distinct keys that may sign. */
  lemma ReturnsExactly(blocks: map<nat, Block>, full: Block)
    requires full.index >= BLOCK_SIGNERS_START
    ensures SignersOf(blocks, full).Some? <==> exists n: nat :: |Met(blocks, full, n)| >= BLOCK_SIGNERS_ALL
  {
    hide Searched, At, Met;
    if n: nat :| |Met(blocks, full, n)| >= BLOCK_SIGNERS_ALL {
      FoundSize(blocks, full, n);
      EnoughReturns(blocks, full, n);
    }
    if n: nat :| Searched(blocks, full, FirstProbe(full), n).Some? {
      ReturnedFound(blocks, full, n);
      FoundSize(blocks, full, n);
    }
  }

  lemma {:induction false} EnoughReturns(blocks: map<nat, Block>, full: Block, n: nat)
    requires full.index >= BLOCK_SIGNERS_START && |At(blocks, full, n).found| >= BLOCK_SIGNERS_ALL
    ensures SignersOf(blocks, full).Some?
    decreases n
  {
    hide At, Advance;
    if j :| 0 <= j < n && |At(blocks, full, j).found| >= BLOCK_SIGNERS_ALL {
      EnoughReturns(blocks, full, j);
    } else {
      SearchedFollows(blocks, full, n, 0);
      assert Searched(blocks, full, FirstProbe(full), n).Some?;
    }
  }

  lemma ReturnedFound(blocks: map<nat, Block>, full: Block, n: nat)
    requires full.index >= BLOCK_SIGNERS_START && Searched(blocks, full, FirstProbe(full), n).Some?
    ensures |At(blocks, full, n).found| >= BLOCK_SIGNERS_ALL
  {
    hide At, Advance, FirstProbe;
    if j :| 0 <= j < n && |At(blocks, full, j).found| >= BLOCK_SIGNERS_ALL {
      FoundGrows(blocks, full, j, n);
    } else {
      SearchedFollows(blocks, full, n, 0);
    }
  }

  // ---------------------------------------------------------------------------
  // A bound on the search
  // ---------------------------------------------------------------------------

  /** From here on the tail no longer changes: either it has been changed, or the counter has gone once
      around and found only keys to skip wherever it was past 5000. */
  const SETTLED: nat := TWO64

  /** Enough probes to see every id the search will ever look at. */
  const PROBES: nat := SETTLED + TWO64

  predicate Skips(blocks: map<nat, Block>, full: Block, i: nat) {
    i in blocks && UserBlockCount(blocks, blocks[i].pubKey, full.index) < Minimum(full)
  }

  /** The counter is past 5000 after this probe. */
  predicate Late(j: nat) {
    (j + 2) % TWO64 > 5000
  }

  /** How the tail changes, and when. */
  lemma TailStep(blocks: map<nat, Block>, full: Block, j: nat)
    requires full.index >= BLOCK_SIGNERS_START
    ensures var (q, r) := (At(blocks, full, j), At(blocks, full, j + 1));
      && (q.mitigated ==> r.mitigated)
      && (q.mitigated || Skips(blocks, full, Probed(blocks, full, j)) ==>
            r.tail == q.tail && r.mitigated == q.mitigated)
      && (!r.mitigated ==> r.tail == q.tail)
      && (!q.mitigated && !Skips(blocks, full, Probed(blocks, full, j)) ==> (r.mitigated <==> Late(j)))
  {
    hide UserBlockCount, At, Skips, Advance, Probe;
    CountOf(blocks, full, j);
    CountOf(blocks, full, j + 1);
    AtNext(blocks, full, j);
    TailAdvance(blocks, full, At(blocks, full, j));
  }

  lemma AtNext(blocks: map<nat, Block>, full: Block, j: nat)
    requires full.index >= BLOCK_SIGNERS_START
    ensures At(blocks, full, j + 1) == Advance(blocks, full, At(blocks, full, j))
  {
    hide Advance;
  }

  lemma TailAdvance(blocks: map<nat, Block>, full: Block, q: Search)
    requires full.index >= BLOCK_SIGNERS_START
    ensures var r := Advance(blocks, full, q); var skips := Skips(blocks, full, Probe(q.tail, q.count, full.index - 1));
      && (q.mitigated ==> r.mitigated)
      && (q.mitigated || skips ==> r.tail == q.tail && r.mitigated == q.mitigated)
      && (!r.mitigated ==> r.tail == q.tail)
      && (!q.mitigated && !skips ==> (r.mitigated <==> r.count > 5000))
  {
    hide UserBlockCount, Probe;
  }

  lemma WholeTurns(x: nat, n: nat)
    ensures (x + n * TWO64) % TWO64 == x % TWO64
  {
  }

  lemma {:induction false} TailKept(blocks: map<nat, Block>, full: Block, m: nat, j: nat)
    requires full.index >= BLOCK_SIGNERS_START && m <= j
    requires At(blocks, full, m).mitigated || !At(blocks, full, j).mitigated
    ensures At(blocks, full, j).tail == At(blocks, full, m).tail
    ensures At(blocks, full, m).mitigated ==> At(blocks, full, j).mitigated
    decreases j
  {
    hide At, Probed, Skips;
    if m < j {
      TailStep(blocks, full, j - 1);
      TailKept(blocks, full, m, j - 1);
    }
  }

  /** A search whose tail has gone unchanged for a whole turn after the 5000th probe never changes it. */
  lemma {:induction false} NeverChanged(blocks: map<nat, Block>, full: Block, m: nat, j: nat)
    requires full.index >= BLOCK_SIGNERS_START && m == SETTLED <= j && !At(blocks, full, m).mitigated
    ensures !At(blocks, full, j).mitigated
    decreases j
  {
    hide At, Skips, Probe, Late;
    if m < j {
      NeverChanged(blocks, full, m, j - 1);
      var k := (j - 1) % TWO64;
      SameTurn(k, j - 1);
      SameProbe(blocks, full, k, j - 1);
      NotYetChanged(blocks, full, k + 1, m);
      TailStep(blocks, full, k);
      TailStep(blocks, full, j - 1);
    }
  }

  lemma SameTurn(k: nat, j: nat)
    requires k <= j && (j - k) % TWO64 == 0
    ensures (j + 1) % TWO64 == (k + 1) % TWO64 && (Late(j) <==> Late(k))
  {
    var n := (j - k) / TWO64;
    assert j == k + n * TWO64;
    WholeTurns(k + 1, n);
    WholeTurns(k + 2, n);
  }

  lemma NotYetChanged(blocks: map<nat, Block>, full: Block, k: nat, m: nat)
    requires full.index >= BLOCK_SIGNERS_START && k <= m && !At(blocks, full, m).mitigated
    ensures !At(blocks, full, k).mitigated
  {
    hide At;
    if At(blocks, full, k).mitigated {
      TailKept(blocks, full, k, m);
    }
  }

  /** Two probes a whole number of turns apart, with the same tail, look at one id. */
  lemma SameProbe(blocks: map<nat, Block>, full: Block, k: nat, j: nat)
    requires full.index >= BLOCK_SIGNERS_START && k <= j && (j - k) % TWO64 == 0
    requires At(blocks, full, k).mitigated || !At(blocks, full, j).mitigated
    ensures Probed(blocks, full, j) == Probed(blocks, full, k)
  {
    hide At, Probe;
    TailKept(blocks, full, k, j);
    SameTurn(k, j);
  }

  /** Every id ever probed is probed among the first PROBES. */
  lemma ProbedEarly(blocks: map<nat, Block>, full: Block, m: nat, j: nat) returns (k: nat)
    requires full.index >= BLOCK_SIGNERS_START && m == SETTLED
    ensures k < PROBES && Probed(blocks, full, k) == Probed(blocks, full, j)
  {
    hide At, Probed;
    if j < m {
      k := j;
    } else {
      k := m + (j - m) % TWO64;
      if !At(blocks, full, m).mitigated {
        NeverChanged(blocks, full, m, j);
      } else {
        TailKept(blocks, full, m, k);
      }
      SameProbe(blocks, full, k, j);
    }
  }

  /** So whether the search returns can be told in advance: it does exactly when among the first
      PROBES ids it probes stand seven distinct keys that may sign. */
  lemma ReturnsWithin(blocks: map<nat, Block>, full: Block, probes: nat)
    requires full.index >= BLOCK_SIGNERS_START && probes == PROBES
    ensures SignersOf(blocks, full).Some? <==> |Met(blocks, full, probes)| >= BLOCK_SIGNERS_ALL
  {
    hide At, Met;
    ReturnsExactly(blocks, full);
    if n: nat :| |Met(blocks, full, n)| >= BLOCK_SIGNERS_ALL {
      MetEarly(blocks, full, n, probes);
      SubsetSize(Met(blocks, full, n), Met(blocks, full, probes));
    }
  }

  lemma MetEarly(blocks: map<nat, Block>, full: Block, n: nat, probes: nat)
    requires full.index >= BLOCK_SIGNERS_START && probes == PROBES
    ensures Met(blocks, full, n) <= Met(blocks, full, probes)
  {
    hide At, Met, Probed, UserBlockCount;
    forall key | key in Met(blocks, full, n)
      ensures key in Met(blocks, full, probes)
    {
      MetMeans(blocks, full, n, key);
      var j :| 0 <= j < n && Meets(blocks, full, j, key);
      var k := ProbedEarly(blocks, full, SETTLED, j);
      assert Meets(blocks, full, k, key);
      MetMeans(blocks, full, probes, key);
    }
  }

  // ---------------------------------------------------------------------------
  // Two ways never to return
  // ---------------------------------------------------------------------------

  /** With a signature whose tail is zero every probe falls on the first block, so the search never
      returns, however many keys there are. */
  lemma ZeroTailNeverReturns(blocks: map<nat, Block>, full: Block)
    requires full.index >= BLOCK_SIGNERS_START && Tail64(full.signature) == 0
    ensures SignersOf(blocks, full).None?
  {
    hide At, Met;
    ReturnsExactly(blocks, full);
    if n: nat :| |Met(blocks, full, n)| >= BLOCK_SIGNERS_ALL {
      AllAtOne(blocks, full, n);
    }
  }

  lemma {:induction false} ZeroTail(blocks: map<nat, Block>, full: Block, j: nat)
    requires full.index >= BLOCK_SIGNERS_START && Tail64(full.signature) == 0
    ensures At(blocks, full, j).tail == 0
  {
    hide UserBlockCount, Probe, Tail64;
    if j > 0 {
      ZeroTail(blocks, full, j - 1);
    }
  }

  lemma ProbeOfZero(count: nat, window: nat)
    requires window > 0
    ensures Probe(0, count, window) == 1
  {
    assert 0 * count == 0;
  }

  lemma AllAtOne(blocks: map<nat, Block>, full: Block, n: nat)
    requires full.index >= BLOCK_SIGNERS_START && Tail64(full.signature) == 0
    ensures |Met(blocks, full, n)| <= 1
  {
    hide At, UserBlockCount, Tail64, Probe;
    forall j: nat
      ensures Probed(blocks, full, j) == 1
    {
      ZeroTail(blocks, full, j);
      ProbeOfZero((j + 1) % TWO64, full.index - 1);
    }
    var met := Met(blocks, full, n);
    if 1 in blocks {
      assert met <= {blocks[1].pubKey};
      SubsetSize(met, {blocks[1].pubKey});
    } else {
      assert met == {};
    }
  }

  lemma {:induction false} SubsetSize<T>(a: set<T>, b: set<T>)
    requires a <= b
    ensures |a| <= |b|
  {
    if a != {} {
      var x :| x in a;
      SubsetSize(a - {x}, b - {x});
    }
  }

  /** With fewer than seven candidates, wherever they stand, the search never returns. */
  lemma TooFewCandidates(blocks: map<nat, Block>, full: Block)
    requires full.index >= BLOCK_SIGNERS_START && |Candidates(blocks, full)| < BLOCK_SIGNERS_ALL
    ensures forall n: nat :: Searched(blocks, full, FirstProbe(full), n).None?
    ensures SignersOf(blocks, full).None?
  {
    hide At, Met, Candidates, Searched;
    ReturnsExactly(blocks, full);
    if n: nat :| |Met(blocks, full, n)| >= BLOCK_SIGNERS_ALL {
      MetAreCandidates(blocks, full, n);
      SubsetSize(Met(blocks, full, n), Candidates(blocks, full));
    }
  }

  lemma MetAreCandidates(blocks: map<nat, Block>, full: Block, n: nat)
    requires full.index >= BLOCK_SIGNERS_START
    ensures Met(blocks, full, n) <= Candidates(blocks, full)
  {
    hide At, UserBlockCount, Probe;
    forall k | k in Met(blocks, full, n)
      ensures k in Candidates(blocks, full)
    {
      var j :| 0 <= j < n && Probed(blocks, full, j) in blocks
               && Eligible(blocks, full, blocks[Probed(blocks, full, j)].pubKey)
               && blocks[Probed(blocks, full, j)].pubKey == k;
      assert Probed(blocks, full, j) < full.index;
    }
  }
}
