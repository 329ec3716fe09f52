/** Hash difficulty and the fork choice, on the bits and bytes of the hashes. */
module HashBits {
  import opened Data
  import opened Blocks

  /** The k-th bit of a byte string, counted from the top bit of its first byte. */
  predicate BitAt(b: Bytes, k: nat)
    requires k < 8 * |b|
  {
    b[k / 8] as int / [128, 64, 32, 16, 8, 4, 2, 1][k % 8] % 2 == 1
  }

  /** The first d of the first 64 bits are zero, and no more of them. */
  predicate Leads(b: Bytes, d: nat)
    requires |b| >= 8
  {
    && d <= 64
    && (forall k | 0 <= k < d :: !BitAt(b, k))
    && (d < 64 ==> BitAt(b, d))
  }

  /** The last e of the last 64 bits are zero, and no more of them. */
  predicate Trails(b: Bytes, e: nat)
    requires |b| >= 8
  {
    && e <= 64
    && (forall k | 8 * |b| - e <= k < 8 * |b| :: !BitAt(b, k))
    && (e < 64 ==> BitAt(b, 8 * |b| - 1 - e))
  }

  /** The number the last eight bytes spell, the first of them the most significant. */
  function Tail(b: Bytes): nat
    requires |b| >= 8
  {
    var n := |b|;
    b[n - 8] as int * 0x100_0000_0000_0000 + b[n - 7] as int * 0x1_0000_0000_0000
    + b[n - 6] as int * 0x100_0000_0000 + b[n - 5] as int * 0x1_0000_0000
    + b[n - 4] as int * 0x100_0000 + b[n - 3] as int * 0x1_0000
    + b[n - 2] as int * 0x100 + b[n - 1] as int
  }

  // ---------------------------------------------------------------------------
  // Bits of a number
  // ---------------------------------------------------------------------------

  lemma PowersSplit(a: nat, b: nat)
    ensures Pow2(a + b) == Pow2(a) * Pow2(b)
    decreases a
  {
    if a > 0 {
      PowersSplit(a - 1, b);
      assert 2 * (Pow2(a - 1) * Pow2(b)) == (2 * Pow2(a - 1)) * Pow2(b);
    }
  }

  lemma {:induction false} PowersRise(a: nat, b: nat)
    requires a <= b
    ensures Pow2(a) <= Pow2(b)
  {
    if a < b {
      PowersRise(a, b - 1);
    }
  }

  /** The bit worth 2^j of a number. */
  predicate Holds(v: nat, j: nat) {
    v / Pow2(j) % 2 == 1
  }

  lemma LowBit(q: nat, r: byte, j: nat)
    requires j < 8
    ensures Holds(q * 256 + r, j) <==> Holds(r as int, j)
  {
    var p, h := Pow2(j), Pow2(7 - j);
    PowersSplit(j, 7 - j);
    assert Pow2(7) == 128;
    hide Pow2;
    Split(2 * (q * h), r as int, p);
    assert 2 * (q * h) * p == 2 * (q * (p * h)) == q * 256;
    Even(q * h, r as int / p);
  }

  lemma Split(q: nat, r: nat, p: nat)
    requires p > 0
    ensures (q * p + r) / p == q + r / p
  {
    var (d, m) := (r / p, r % p);
    assert q * p + r == (q + d) * p + m;
    DivUnique(q * p + r, p, q + d, m);
  }

  lemma DivUnique(n: nat, p: nat, q: nat, m: nat)
    requires p > 0 && m < p && n == q * p + m
    ensures n / p == q
  {
    var (d, r) := (n / p, n % p);
    assert n == d * p + r;
    SameMultiple(q, m, d, r, p);
  }

  lemma SameMultiple(q: nat, m: nat, d: nat, r: nat, p: nat)
    requires m < p && r < p && q * p + m == d * p + r
    ensures q == d
  {
    if q > d {
      NextMultiple(d, q, p);
    } else if d > q {
      NextMultiple(q, d, p);
    }
  }

  lemma NextMultiple(a: nat, b: nat, p: nat)
    requires a < b
    ensures a * p + p <= b * p
  {
    var more: nat := b - a - 1;
    assert b * p == (a + 1 + more) * p == a * p + p + more * p;
  }

  lemma Even(a: nat, b: nat)
    ensures (2 * a + b) % 2 == b % 2
  {
  }

  lemma HighBit(q: nat, r: byte, j: nat)
    ensures Holds(q * 256 + r, j + 8) <==> Holds(q, j)
  {
    PowersSplit(8, j);
    assert Pow2(8) == 256;
    var p := Pow2(j);
    var (d, m) := (q / p, q % p);
    assert q * 256 + r == d * (256 * p) + (m * 256 + r as int) by {
      assert q == d * p + m;
      assert (d * p + m) * 256 == d * (256 * p) + m * 256;
    }
    assert m * 256 + r as int < 256 * p;
    DivUnique(q * 256 + r, 256 * p, d, m * 256 + r as int);
  }

  lemma ByteBit(x: byte, i: nat)
    requires i < 8
    ensures Holds(x as int, 7 - i) <==> x as int / [128, 64, 32, 16, 8, 4, 2, 1][i] % 2 == 1
  {
    assert Pow2(7) == 128 && Pow2(6) == 64 && Pow2(5) == 32 && Pow2(4) == 16;
    assert Pow2(3) == 8 && Pow2(2) == 4 && Pow2(1) == 2 && Pow2(0) == 1;
  }

  /** The bits of the bytes are the bits of the big-endian number, the first the most significant. */
  lemma {:induction false} BitsOfNumber(b: Bytes, k: nat)
    requires k < 8 * |b|
    ensures BitAt(b, k) <==> Holds(BigEndian(b), 8 * |b| - 1 - k)
    decreases |b|
  {
    hide Holds;
    var n := |b| - 1;
    if k < 8 * n {
      BitsOfNumber(b[..n], k);
      HighBit(BigEndian(b[..n]), b[n], 8 * n - 1 - k);
    } else {
      LowBit(BigEndian(b[..n]), b[n], 8 * n + 7 - k);
      ByteBit(b[n], k - 8 * n);
    }
  }

  lemma {:induction false} BigEndianBound(b: Bytes)
    ensures BigEndian(b) < Pow2(8 * |b|)
  {
    if b != [] {
      var n := |b| - 1;
      BigEndianBound(b[..n]);
      PowersSplit(8, 8 * n);
      assert Pow2(8) == 256;
    }
  }

  // ---------------------------------------------------------------------------
  // Zeros at both ends
  // ---------------------------------------------------------------------------

  lemma {:induction false} LeadingBits(v: nat, bits: nat)
    requires v < Pow2(bits)
    ensures var n := LeadingZeros(v, bits);
      && v < Pow2(bits - n)
      && (n < bits ==> Holds(v, bits - 1 - n))
  {
    if bits > 0 {
      if v < Pow2(bits - 1) {
        LeadingBits(v, bits - 1);
      } else {
        DivUnique(v, Pow2(bits - 1), 1, v - Pow2(bits - 1));
      }
    }
  }

  lemma NoHighBits(v: nat, m: nat, j: nat)
    requires v < Pow2(m) && m <= j
    ensures !Holds(v, j)
  {
    PowersRise(m, j);
    hide Pow2;
    DivUnique(v, Pow2(j), 0, v);
  }

  lemma {:induction false} TrailingBits(v: nat, bits: nat, j: nat)
    ensures var n := TrailingZeros(v, bits);
      && (j < n ==> !Holds(v, j))
      && (n < bits ==> Holds(v, n))
    decreases bits
  {
    if bits > 0 && v % 2 == 0 {
      TrailingBits(v / 2, bits - 1, if j > 0 then j - 1 else 0);
      if j > 0 {
        HalfBit(v, j - 1);
      }
      HalfBit(v, TrailingZeros(v / 2, bits - 1));
      assert Pow2(0) == 1;
    }
  }

  lemma HalfBit(v: nat, j: nat)
    requires v % 2 == 0
    ensures Holds(v, j + 1) <==> Holds(v / 2, j)
  {
    var p := Pow2(j);
    assert Pow2(j + 1) == 2 * p;
    hide Pow2;
    HalfDivides(v / 2, p);
    assert 2 * (v / 2) == v;
  }

  lemma HalfDivides(h: nat, p: nat)
    requires p > 0
    ensures 2 * h / (2 * p) == h / p
  {
    var (d, m) := (h / p, h % p);
    assert 2 * h == 2 * (d * p + m) == d * (2 * p) + 2 * m;
    DivUnique(2 * h, 2 * p, d, 2 * m);
  }

  lemma LeadsUnique(b: Bytes, d: nat, d': nat)
    requires |b| >= 8 && Leads(b, d) && Leads(b, d')
    ensures d == d'
  {
    hide BitAt;
  }

  lemma TrailsUnique(b: Bytes, e: nat, e': nat)
    requires |b| >= 8 && Trails(b, e) && Trails(b, e')
    ensures e == e'
  {
    hide BitAt;
  }

  /** The difficulty of a key's hash is the number of zero bits in front of its first one bit. */
  lemma KeyHashCountsBits(hash: Bytes)
    requires |hash| >= 8
    ensures Leads(hash, KeyHashDifficulty(hash))
  {
    hide LeadingZeros, BitAt, Holds, BigEndian, Pow2;
    var first := hash[..8];
    var d := KeyHashDifficulty(hash);
    BigEndianBound(first);
    LeadingBits(BigEndian(first), 64);
    forall k: nat | k < 64
      ensures BitAt(hash, k) <==> Holds(BigEndian(first), 63 - k)
    {
      SameBit(hash, first, 0, k);
      BitsOfNumber(first, k);
    }
    forall k: nat | k < d
      ensures !BitAt(hash, k)
    {
      NoHighBits(BigEndian(first), 64 - d, 63 - k);
    }
  }

  lemma SameBit(b: Bytes, part: Bytes, from: nat, k: nat)
    requires from + |part| <= |b| && part == b[from..from + |part|] && k < 8 * |part|
    ensures BitAt(b, 8 * from + k) <==> BitAt(part, k)
  {
    assert (8 * from + k) / 8 == from + k / 8 && (8 * from + k) % 8 == k % 8;
  }

  /** A hash is exactly as difficult as it has zero bits in front and zero bits at its end. */
  lemma HashCountsBits(hash: Bytes, d: nat, e: nat)
    requires |hash| >= 8 && Leads(hash, d) && Trails(hash, e)
    ensures KeyHashDifficulty(hash) == d && HashDifficulty(hash) == d + e
  {
    hide BitAt, KeyHashDifficulty, Leads, Trails;
    KeyHashCountsBits(hash);
    LeadsUnique(hash, d, KeyHashDifficulty(hash));
    EndBits(hash);
    TrailsUnique(hash, e, TrailingZeros(Tail64(hash), 64));
  }

  lemma EndBits(hash: Bytes)
    requires |hash| >= 8
    ensures Trails(hash, TrailingZeros(Tail64(hash), 64))
  {
    hide TrailingZeros, BitAt, Holds, BigEndian;
    var n := |hash|;
    var end := hash[n - 8..];
    var v := BigEndian(end);
    var e := TrailingZeros(v, 64);
    forall j: nat | j < 64
      ensures BitAt(hash, 8 * n - 1 - j) <==> Holds(v, j)
    {
      SameBit(hash, end, n - 8, 63 - j);
      BitsOfNumber(end, 63 - j);
    }
    TrailingBits(v, 64, 0);
    forall k | 8 * n - e <= k < 8 * n
      ensures !BitAt(hash, k)
    {
      var j: nat := 8 * n - 1 - k;
      TrailingBits(v, 64, j);
      assert BitAt(hash, 8 * n - 1 - j) <==> Holds(v, j);
    }
  }

  // ---------------------------------------------------------------------------
  // The tail and the fork choice
  // ---------------------------------------------------------------------------

  lemma BigEndianStep(b: Bytes, n: nat)
    requires n < |b|
    ensures BigEndian(b[..n + 1]) == BigEndian(b[..n]) * 256 + b[n] as int
  {
    assert b[..n + 1][..n] == b[..n];
  }

  /** `get_tail_u64` is the number the last eight bytes spell. */
  lemma TailIsSum(b: Bytes)
    requires |b| >= 8
    ensures Tail64(b) == Tail(b)
  {
    hide BigEndian;
    var end := b[|b| - 8..];
    assert BigEndian(end[..0]) == 0 by {
      Nothing(end[..0]);
    }
    BigEndianStep(end, 0);
    BigEndianStep(end, 1);
    BigEndianStep(end, 2);
    BigEndianStep(end, 3);
    BigEndianStep(end, 4);
    BigEndianStep(end, 5);
    BigEndianStep(end, 6);
    BigEndianStep(end, 7);
    assert end[..8] == end;
  }

  lemma Nothing(b: Bytes)
    requires b == []
    ensures BigEndian(b) == 0
  {
  }

  /** Which of two blocks wins, by the bits and bytes of their hashes: a full block beats a signing
      block; then the leading zero bits, counted twice, with the trailing ones decide, then the last
      eight bytes modulo 0xFFFF, the greater winning, and then the nonce, the smaller winning. */
  lemma ForkChoice(a: Block, b: Block, da: nat, ea: nat, db: nat, eb: nat)
    requires |a.hash| >= 8 && Leads(a.hash, da) && Trails(a.hash, ea)
    requires |b.hash| >= 8 && Leads(b.hash, db) && Trails(b.hash, eb)
    ensures IsBetterThan(a, b) <==>
      || (a.transaction.Some? && b.transaction.None?)
      || 2 * da + ea > 2 * db + eb
      || (2 * da + ea == 2 * db + eb
          && (Tail(a.hash) % 0xFFFF > Tail(b.hash) % 0xFFFF
              || (Tail(a.hash) % 0xFFFF == Tail(b.hash) % 0xFFFF && a.nonce < b.nonce)))
  {
    hide Leads, Trails, HashDifficulty, KeyHashDifficulty, Tail64, Tail;
    HashCountsBits(a.hash, da, ea);
    HashCountsBits(b.hash, db, eb);
    TailIsSum(a.hash);
    TailIsSum(b.hash);
  }
}
