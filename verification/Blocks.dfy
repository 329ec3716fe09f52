/** Blocks and transactions, hash difficulty, and the order by which forks are decided. */
module Blocks {
  import opened Data

  type Bytes = seq<byte>

  datatype TxClass = ClassDomain | ClassOrigin | ClassOther(name: Text)

  datatype Transaction = Transaction(
    class_: TxClass, identity: Bytes, confirmation: Bytes, signing: Bytes, encryption: Bytes, data: Text)

  /** A full block carries a transaction, a signing block carries none. */
  datatype Block = Block(
    index: u64, timestamp: int, version: u32, difficulty: u32, random: u32, nonce: u64,
    hash: Bytes, prevBlockHash: Bytes, pubKey: Bytes, signature: Bytes,
    transaction: Option<Transaction>)
  {
    predicate IsGenesis() {
      index == 1 && transaction.Some? && transaction.value.class_ == ClassOrigin && prevBlockHash == []
    }

    predicate IsDomain() {
      transaction.Some? && transaction.value.class_ == ClassDomain
    }
  }

  const TWO64: nat := 0x1_0000_0000_0000_0000

  // ---------------------------------------------------------------------------
  // Difficulty
  // ---------------------------------------------------------------------------

  /** Bytes read as a big-endian number. */
  function BigEndian(b: Bytes): nat {
    if b == [] then 0 else BigEndian(b[..|b| - 1]) * 256 + b[|b| - 1] as int
  }

  function LeadingZeros(v: nat, bits: nat): (n: nat)
    ensures n <= bits
  {
    if bits == 0 || v >= Pow2(bits - 1) then 0 else 1 + LeadingZeros(v, bits - 1)
  }

  function TrailingZeros(v: nat, bits: nat): (n: nat)
    ensures n <= bits
  {
    if bits == 0 || v % 2 == 1 then 0 else 1 + TrailingZeros(v / 2, bits - 1)
  }

  function Pow2(n: nat): (p: nat)
    ensures p > 0
  {
    if n == 0 then 1 else 2 * Pow2(n - 1)
  }

  /** The count of leading zeros places a number between two powers of two. */
  lemma {:induction false} LeadingZerosMean(v: nat, bits: nat)
    requires 0 < v < Pow2(bits)
    ensures var n := LeadingZeros(v, bits); n < bits && Pow2(bits - n - 1) <= v < Pow2(bits - n)
  {
    if v < Pow2(bits - 1) {
      LeadingZerosMean(v, bits - 1);
    }
  }

  /** The count of trailing zeros is the power of two in a number. */
  lemma {:induction false} TrailingZerosMean(v: nat, bits: nat) returns (odd: nat)
    requires 0 < v < Pow2(bits)
    ensures odd % 2 == 1 && v == odd * Pow2(TrailingZeros(v, bits))
    decreases bits
  {
    if v % 2 == 1 {
      odd := v;
    } else {
      odd := TrailingZerosMean(v / 2, bits - 1);
      var p := Pow2(TrailingZeros(v / 2, bits - 1));
      assert v == 2 * (odd * p) == odd * (2 * p);
    }
  }

  /** `get_tail_u64`. Shorter byte strings make the program panic; no property is claimed of them. */
  function Tail64(b: Bytes): nat {
    if |b| < 8 then 0 else BigEndian(b[|b| - 8..])
  }

  /** Zero bits at the start of the hash. */
  function KeyHashDifficulty(hash: Bytes): (d: nat)
    ensures d <= 64
  {
    if |hash| < 8 then 0 else LeadingZeros(BigEndian(hash[..8]), 64)
  }

  /** Zero bits at the start of the hash and at its end. */
  function HashDifficulty(hash: Bytes): (d: nat)
    ensures d <= 128
  {
    KeyHashDifficulty(hash) + TrailingZeros(Tail64(hash), 64)
  }

  // ---------------------------------------------------------------------------
  // Fork choice
  // ---------------------------------------------------------------------------

  /** The number two hashes are compared by: difficulty in the high half, tail in the low half. */
  function Rank(hash: Bytes): (r: nat)
    ensures r < 0x1_0000_0000
  {
    (HashDifficulty(hash) + KeyHashDifficulty(hash)) * 0x1_0000 + Tail64(hash) % 0xFFFF
  }

  /** Block::is_better_than */
  predicate IsBetterThan(a: Block, b: Block) {
    (a.transaction.Some? && b.transaction.None?)
    || Rank(a.hash) > Rank(b.hash)
    || (Rank(a.hash) == Rank(b.hash) && a.nonce < b.nonce)
  }

  /** The two halves of the rank do not interfere: difficulty decides, the tail breaks ties. */
  lemma RankIsLexicographic(a: Bytes, b: Bytes)
    ensures var (da, db) := (HashDifficulty(a) + KeyHashDifficulty(a), HashDifficulty(b) + KeyHashDifficulty(b));
      Rank(a) > Rank(b) <==> da > db || (da == db && Tail64(a) % 0xFFFF > Tail64(b) % 0xFFFF)
  {
  }

  predicate SameKind(a: Block, b: Block) {
    a.transaction.Some? <==> b.transaction.Some?
  }

  predicate Tied(a: Block, b: Block) {
    Rank(a.hash) == Rank(b.hash) && a.nonce == b.nonce
  }

  /** Among blocks of one kind the comparison is a strict weak order: irreflexive, transitive,
      and two blocks neither of which is better are tied, which is an equivalence. */
  lemma StrictWeakOrder(a: Block, b: Block, c: Block)
    requires SameKind(a, b) && SameKind(b, c)
    ensures !IsBetterThan(a, a)
    ensures IsBetterThan(a, b) && IsBetterThan(b, c) ==> IsBetterThan(a, c)
    ensures !IsBetterThan(a, b) && !IsBetterThan(b, a) <==> Tied(a, b)
    ensures Tied(a, b) && Tied(b, c) ==> Tied(a, c)
  {
  }

  /** Across kinds the comparison can hold both ways: exactly when one block is full, the other is
      a signing block, and the signing block has the better hash. */
  lemma BetterBothWays(a: Block, b: Block)
    ensures IsBetterThan(a, b) && IsBetterThan(b, a) <==>
      && !SameKind(a, b)
      && var (full, sign) := if a.transaction.Some? then (a, b) else (b, a);
        Rank(sign.hash) > Rank(full.hash) || (Rank(sign.hash) == Rank(full.hash) && sign.nonce < full.nonce)
  {
  }

  /** Competing blocks arriving one after another, each replacing the held one if it is better. */
  function Contest(held: Block, arrivals: seq<Block>): Block
    decreases |arrivals|
  {
    if arrivals == [] then held
    else Contest(if IsBetterThan(arrivals[0], held) then arrivals[0] else held, arrivals[1..])
  }

  /** The winner is one of the contestants and none of them is better. */
  lemma {:induction false} WinnerIsMaximal(held: Block, arrivals: seq<Block>)
    requires forall x | x in arrivals :: SameKind(x, held)
    ensures var w := Contest(held, arrivals);
      && (w == held || w in arrivals)
      && !IsBetterThan(held, w)
      && (forall x | x in arrivals :: !IsBetterThan(x, w))
    decreases |arrivals|
  {
    hide Rank;
    if arrivals != [] {
      var first := arrivals[0];
      var next := if IsBetterThan(first, held) then first else held;
      assert forall x | x in arrivals[1..] :: x in arrivals;
      assert first in arrivals;
      WinnerIsMaximal(next, arrivals[1..]);
      forall x | x in arrivals
        ensures !IsBetterThan(x, Contest(held, arrivals))
      {
        if x == first {
        } else {
          assert x in arrivals[1..];
        }
      }
    }
  }

  /** When no two contestants tie, the same block wins in every order of arrival. */
  lemma WinnerIsOrderFree(held: Block, arrivals: seq<Block>, held': Block, arrivals': seq<Block>)
    requires forall x | x in [held] + arrivals :: SameKind(x, held)
    requires forall x :: x in [held] + arrivals <==> x in [held'] + arrivals'
    requires forall x, y | x in [held] + arrivals && y in [held] + arrivals && Tied(x, y) :: x == y
    ensures Contest(held, arrivals) == Contest(held', arrivals')
  {
    hide Rank, Contest;
    assert held in [held] + arrivals && held' in [held'] + arrivals';
    assert forall x | x in arrivals :: x in [held] + arrivals;
    assert forall x | x in arrivals' :: x in [held'] + arrivals';
    WinnerIsMaximal(held, arrivals);
    WinnerIsMaximal(held', arrivals');
    var (w, w') := (Contest(held, arrivals), Contest(held', arrivals'));
    assert w in [held] + arrivals && w' in [held'] + arrivals';
    assert w in [held'] + arrivals' && w' in [held] + arrivals;
    assert !IsBetterThan(w', w) && !IsBetterThan(w, w');
    assert Tied(w, w');
  }
}
