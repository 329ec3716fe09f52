/** The search for the signers of a full block. */
module Signers {
  import opened Data
  import opened Blocks
  import opened ChainSpec
  import opened ChainInvariant

  lemma {:induction false} SearchedMore(blocks: map<nat, Block>, full: Block, q: Search, n: nat, m: nat)
    requires full.index >= BLOCK_SIGNERS_START && n <= m && Searched(blocks, full, q, n).Some?
    ensures Searched(blocks, full, q, m) == Searched(blocks, full, q, n)
    decreases n
  {
    hide Advance;
    if |q.found| < BLOCK_SIGNERS_ALL {
      SearchedMore(blocks, full, Advance(blocks, full, q), n - 1, m - 1);
    }
  }

  /** However many probes it is given, a search that returns returns the same signers. */
  lemma SignersAre(blocks: map<nat, Block>, full: Block, n: nat)
    requires full.index >= BLOCK_SIGNERS_START && Searched(blocks, full, FirstProbe(full), n).Some?
    ensures SignersOf(blocks, full) == Searched(blocks, full, FirstProbe(full), n)
  {
    hide Searched, FirstProbe;
    var m: nat :| Searched(blocks, full, FirstProbe(full), m).Some?
                  && SignersOf(blocks, full) == Searched(blocks, full, FirstProbe(full), m);
    if n <= m {
      SearchedMore(blocks, full, FirstProbe(full), n, m);
    } else {
      SearchedMore(blocks, full, FirstProbe(full), m, n);
    }
  }

  /** The keys that may sign a full block: not its owner's, and each with enough blocks below it. */
  function Candidates(blocks: map<nat, Block>, full: Block): set<Bytes> {
    set i | i in blocks && i < full.index && Eligible(blocks, full, blocks[i].pubKey) :: blocks[i].pubKey
  }

  predicate Distinct(keys: seq<Bytes>) {
    forall i, j | 0 <= i < j < |keys| :: keys[i] != keys[j]
  }

  /** What the search keeps true of the keys found so far. */
  ghost predicate Sifted(blocks: map<nat, Block>, full: Block, found: seq<Bytes>) {
    |found| <= BLOCK_SIGNERS_ALL && Distinct(found) && forall k | k in found :: k in Candidates(blocks, full)
  }

  lemma AdvanceKeepsSifted(blocks: map<nat, Block>, full: Block, q: Search)
    requires full.index >= BLOCK_SIGNERS_START && Sifted(blocks, full, q.found) && |q.found| < BLOCK_SIGNERS_ALL
    ensures Sifted(blocks, full, Advance(blocks, full, q).found)
  {
    hide UserBlockCount;
    var i := Probe(q.tail, q.count, full.index - 1);
    var found := Advance(blocks, full, q).found;
    if found != q.found {
      assert i in blocks && i < full.index && Eligible(blocks, full, blocks[i].pubKey);
      assert blocks[i].pubKey in Candidates(blocks, full);
    }
  }

  lemma {:induction false} SearchedIsSifted(blocks: map<nat, Block>, full: Block, q: Search, n: nat)
    requires full.index >= BLOCK_SIGNERS_START && Sifted(blocks, full, q.found)
    requires Searched(blocks, full, q, n).Some?
    ensures var keys := Searched(blocks, full, q, n).value;
      Sifted(blocks, full, keys) && |keys| == BLOCK_SIGNERS_ALL
    decreases n
  {
    hide Advance, Sifted;
    if |q.found| < BLOCK_SIGNERS_ALL {
      AdvanceKeepsSifted(blocks, full, q);
      SearchedIsSifted(blocks, full, Advance(blocks, full, q), n - 1);
    } else {
      SiftedSize(blocks, full, q.found);
    }
  }

  lemma SiftedSize(blocks: map<nat, Block>, full: Block, found: seq<Bytes>)
    requires Sifted(blocks, full, found)
    ensures |found| <= BLOCK_SIGNERS_ALL
  {
  }

  /** Whenever the search returns, it returns exactly seven distinct keys, none of them the owner's,
      each owning a block below the full block and at least the minimum number of them. */
  lemma SevenSigners(blocks: map<nat, Block>, full: Block)
    requires full.index >= BLOCK_SIGNERS_START && SignersOf(blocks, full).Some?
    ensures var keys := SignersOf(blocks, full).value;
      && |keys| == BLOCK_SIGNERS_ALL && Distinct(keys)
      && forall k | k in keys ::
           Eligible(blocks, full, k) && exists i :: i in blocks && i < full.index && blocks[i].pubKey == k
  {
    hide Searched, UserBlockCount;
    var n: nat :| Searched(blocks, full, FirstProbe(full), n).Some?
                  && SignersOf(blocks, full) == Searched(blocks, full, FirstProbe(full), n);
    SearchedIsSifted(blocks, full, FirstProbe(full), n);
  }

  // ---------------------------------------------------------------------------
  // What the signers depend on
  // ---------------------------------------------------------------------------

  lemma CountLocal(a: map<nat, Block>, b: map<nat, Block>, key: Bytes, below: nat)
    requires Agree(a, b, below)
    ensures UserBlockCount(a, key, below) == UserBlockCount(b, key, below)
  {
    assert (set i | i in a && i < below && a[i].pubKey == key) == (set i | i in b && i < below && b[i].pubKey == key);
  }

  predicate SameSeat(a: Block, b: Block) {
    a.index == b.index && a.pubKey == b.pubKey && a.signature == b.signature
  }

  lemma {:induction false} SearchedLocal(
      a: map<nat, Block>, b: map<nat, Block>, full: Block, full': Block, q: Search, n: nat)
    requires full.index >= BLOCK_SIGNERS_START && SameSeat(full, full') && Agree(a, b, full.index)
    ensures Searched(a, full, q, n) == Searched(b, full', q, n)
    decreases n
  {
    hide UserBlockCount, Probe;
    if |q.found| < BLOCK_SIGNERS_ALL && n > 0 {
      var i := Probe(q.tail, q.count, full.index - 1);
      assert i in a <==> i in b;
      if i in a {
        CountLocal(a, b, a[i].pubKey, full.index);
      }
      assert Advance(a, full, q) == Advance(b, full', q);
      SearchedLocal(a, b, full, full', Advance(a, full, q), n - 1);
    }
  }

  /** The signers are a function of the chain below the full block and of its index, key and
      signature: what is later appended or replaced above makes no difference. */
  lemma SignersLocal(a: map<nat, Block>, b: map<nat, Block>, full: Block, full': Block)
    requires full.index >= BLOCK_SIGNERS_START && SameSeat(full, full') && Agree(a, b, full.index)
    ensures SignersOf(a, full) == SignersOf(b, full')
  {
    hide Searched;
    if n: nat :| Searched(a, full, FirstProbe(full), n).Some? {
      SearchedLocal(a, b, full, full', FirstProbe(full), n);
      SignersAre(a, full, n);
      SignersAre(b, full', n);
    } else if n: nat :| Searched(b, full', FirstProbe(full'), n).Some? {
      SearchedLocal(a, b, full, full', FirstProbe(full), n);
      assert false;
    }
  }
}
