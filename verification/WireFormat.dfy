/** What stands at each position of a written message, in bytes and numbers (section 4 of RFC 1035). */
module WireFormat {
  import opened Data
  import opened Names
  import opened NameCodec
  import opened Layout
  import opened Records
  import opened Packets

  /** The number two bytes spell, the first the most significant. */
  function Num16(b: seq<byte>, at: nat): nat
    requires at + 2 <= |b|
  {
    b[at] as int * 0x100 + b[at + 1] as int
  }

  /** The number four bytes spell, the first the most significant. */
  function Num32(b: seq<byte>, at: nat): nat
    requires at + 4 <= |b|
  {
    b[at] as int * 0x100_0000 + b[at + 1] as int * 0x1_0000 + b[at + 2] as int * 0x100 + b[at + 3] as int
  }

  lemma Written16(b: seq<byte>, at: nat, v: u16)
    requires at + 2 <= |b| && b[at..at + 2] == U16Bytes(v)
    ensures Num16(b, at) == v
  {
    assert b[at] == U16Bytes(v)[0] && b[at + 1] == U16Bytes(v)[1];
  }

  lemma Written32(b: seq<byte>, at: nat, v: u32)
    requires at + 4 <= |b| && b[at..at + 4] == U32Bytes(v)
    ensures Num32(b, at) == v
  {
    var x := U32Bytes(v);
    assert b[at] == x[0] && b[at + 1] == x[1] && b[at + 2] == x[2] && b[at + 3] == x[3];
  }

  // ---------------------------------------------------------------------------
  // Names
  // ---------------------------------------------------------------------------

  /** Labels in a row, each after one byte with its length. */
  function Flat(ls: seq<Text>): seq<byte> {
    if ls == [] then [] else [|ls[0]| % 256] + ls[0] + Flat(ls[1..])
  }

  /** The i-th suffix of a name. */
  function Suffix(ls: seq<Text>, i: nat): Text
    requires i <= |ls|
  {
    Join(ls[i..])
  }

  lemma {:induction false} SuffixShorter(ls: seq<Text>, i: nat)
    requires i <= |ls|
    ensures |Suffix(ls, i)| <= |Join(ls)|
  {
    if i > 0 {
      SuffixShorter(ls[1..], i - 1);
      assert ls[1..][i - 1..] == ls[i..];
    } else {
      assert ls[0..] == ls;
    }
  }

  /** The first k suffixes were not saved, and the next one was, if there is one. */
  predicate FirstSaved(table: Table, ls: seq<Text>, k: nat) {
    && k <= |ls|
    && (forall j | 0 <= j < k :: Suffix(ls, j) !in table)
    && (k < |ls| ==> Suffix(ls, k) in table)
  }

  /** The first k labels in a row, and then a pointer to where the next suffix was saved, or the zero
      byte if there is none. So a saved suffix never takes more than two bytes. */
  predicate ChunkStands(table: Table, ls: seq<Text>, chunk: seq<byte>, k: nat)
    requires FirstSaved(table, ls, k)
  {
    if k == |ls| then chunk == Flat(ls) + [0]
    else
      var p := table[Suffix(ls, k)];
      chunk == Flat(ls[..k]) + [0xC0 + p / 256 % 64, p % 256]
  }

  /** Each of the first k suffixes is saved with the position it starts at, and nothing else changes. */
  ghost predicate TableStands(table: Table, at: nat, ls: seq<Text>, table': Table, k: nat)
    requires k <= |ls|
  {
    && (forall j | 0 <= j < k :: Suffix(ls, j) in table' && table'[Suffix(ls, j)] == at + |Flat(ls[..j])|)
    && (forall t | t in table && (forall j | 0 <= j < k :: t != Suffix(ls, j)) :: t in table' && table'[t] == table[t])
    && (forall t | t in table' && t !in table :: exists j | 0 <= j < k :: t == Suffix(ls, j))
  }

  /** The bytes of a name are its labels in a row up to the first suffix that was saved before, and
      then a pointer; what was spelt out is saved for the names to come. */
  lemma {:induction false} NameBytes(table: Table, at: nat, s: Text) returns (k: nat)
    ensures k <= |Labels(s)|
    ensures var (ls, e) := (Labels(s), EncName(table, at, s));
      FirstSaved(table, ls, k) && ChunkStands(table, ls, e.chunk, k) && TableStands(table, at, ls, e.table, k)
    decreases |s|
  {
    hide FirstDot, Join, Flat, EncName, Labels, FirstSaved, ChunkStands, TableStands, LabelBytes;
    var i := FirstDot(s);
    SplitLabels(s);
    if s in table {
      k := 0;
      HitStands(table, at, s);
    } else if i == |s| {
      k := 1;
      EncNameLast(table, at, s);
      LastStands(table, at, s);
    } else {
      var l, s1 := s[..i], s[i + 1..];
      EncNameInner(table, at, s, l, s1);
      var rest := EncName(table[s := at], at + 1 + i, s1);
      var k1 := NameBytes(table[s := at], at + 1 + i, s1);
      k := k1 + 1;
      JoinLabels(s);
      JoinLabels(s1);
      InnerSaved(table, at, s, l, Labels(s1), k1);
      InnerChunk(table, at, s, l, Labels(s1), rest.chunk, k1);
      InnerTable(table, at, s, l, Labels(s1), rest.table, k1);
    }
  }

  lemma HitStands(table: Table, at: nat, s: Text)
    requires s in table
    ensures var (ls, e) := (Labels(s), EncName(table, at, s));
      FirstSaved(table, ls, 0) && ChunkStands(table, ls, e.chunk, 0) && TableStands(table, at, ls, e.table, 0)
  {
    hide Labels, Join;
    var ls := Labels(s);
    assert ls[0..] == ls;
    JoinLabels(s);
    var p := table[s];
    assert (0xC000 + p % 0x4000) / 256 == 0xC0 + p / 256 % 64;
    assert (0xC000 + p % 0x4000) % 256 == p % 256;
    assert ls[..0] == [];
  }

  lemma LastStands(table: Table, at: nat, s: Text)
    requires s !in table
    ensures FirstSaved(table, [s], 1)
    ensures ChunkStands(table, [s], LabelBytes(s) + [0], 1) && TableStands(table, at, [s], table[s := at], 1)
  {
    assert [s][0..] == [s];
    assert [s][1..] == [];
    assert Suffix([s], 0) == s;
  }

  /** The suffixes of a longer row of labels. */
  lemma InnerSuffixes(l: Text, ls: seq<Text>)
    ensures Suffix([l] + ls, 0) == Join([l] + ls)
    ensures forall j | 0 <= j <= |ls| :: Suffix([l] + ls, j + 1) == Suffix(ls, j) && |Suffix(ls, j)| <= |Join(ls)|
  {
    hide Join;
    assert ([l] + ls)[0..] == [l] + ls;
    forall j | 0 <= j <= |ls|
      ensures Suffix([l] + ls, j + 1) == Suffix(ls, j) && |Suffix(ls, j)| <= |Join(ls)|
    {
      assert ([l] + ls)[j + 1..] == ls[j..];
      SuffixShorter(ls, j);
    }
  }

  lemma InnerSaved(table: Table, at: nat, s: Text, l: Text, ls: seq<Text>, k: nat)
    requires s !in table && Join([l] + ls) == s && |Join(ls)| < |s|
    requires FirstSaved(table[s := at], ls, k)
    ensures FirstSaved(table, [l] + ls, k + 1)
  {
    hide Suffix, Join;
    InnerSuffixes(l, ls);
    forall j | 0 <= j < k + 1
      ensures Suffix([l] + ls, j) !in table
    {
      if j > 0 {
        assert Suffix([l] + ls, j - 1 + 1) == Suffix(ls, j - 1);
      }
    }
  }

  lemma FlatStep(l: Text, ls: seq<Text>)
    ensures Flat([l] + ls) == [|l| % 256] + l + Flat(ls)
  {
    assert ([l] + ls)[1..] == ls;
  }

  lemma InnerChunk(table: Table, at: nat, s: Text, l: Text, ls: seq<Text>, chunk: seq<byte>, k: nat)
    requires s !in table && Join([l] + ls) == s && |Join(ls)| < |s|
    requires FirstSaved(table[s := at], ls, k) && ChunkStands(table[s := at], ls, chunk, k)
    ensures FirstSaved(table, [l] + ls, k + 1) && ChunkStands(table, [l] + ls, LabelBytes(l) + chunk, k + 1)
  {
    hide Suffix, Join, Flat;
    InnerSaved(table, at, s, l, ls, k);
    InnerSuffixes(l, ls);
    FlatStep(l, ls);
    FlatStep(l, ls[..k]);
    assert ([l] + ls)[..k + 1] == [l] + ls[..k];
  }

  lemma InnerTable(table: Table, at: nat, s: Text, l: Text, ls: seq<Text>, table': Table, k: nat)
    requires s !in table && Join([l] + ls) == s && |Join(ls)| < |s| && k <= |ls|
    requires TableStands(table[s := at], at + 1 + |l|, ls, table', k)
    ensures TableStands(table, at, [l] + ls, table', k + 1)
  {
    hide Suffix, Join, Flat;
    var all := [l] + ls;
    InnerSuffixes(l, ls);
    forall j | 0 <= j < k + 1
      ensures Suffix(all, j) in table' && table'[Suffix(all, j)] == at + |Flat(all[..j])|
    {
      if j > 0 {
        assert Suffix(all, j - 1 + 1) == Suffix(ls, j - 1);
        assert all[..j] == [l] + ls[..j - 1];
        FlatStep(l, ls[..j - 1]);
      } else {
        assert forall i | 0 <= i < k :: s != Suffix(ls, i);
        FlatNone(all[..0]);
      }
    }
    InnerOthers(table, at, s, l, ls, table', k);
  }

  lemma FlatNone(ls: seq<Text>)
    requires ls == []
    ensures Flat(ls) == []
  {
  }

  lemma InnerOthers(table: Table, at: nat, s: Text, l: Text, ls: seq<Text>, table': Table, k: nat)
    requires s !in table && Join([l] + ls) == s && k <= |ls|
    requires TableStands(table[s := at], at + 1 + |l|, ls, table', k)
    ensures forall t | t in table && (forall j | 0 <= j < k + 1 :: t != Suffix([l] + ls, j)) ::
      t in table' && table'[t] == table[t]
    ensures forall t | t in table' && t !in table :: exists j | 0 <= j < k + 1 :: t == Suffix([l] + ls, j)
  {
    hide Suffix, Join, Flat;
    var all := [l] + ls;
    InnerSuffixes(l, ls);
    forall t | t in table && (forall j | 0 <= j < k + 1 :: t != Suffix(all, j))
      ensures t in table' && table'[t] == table[t]
    {
      forall j | 0 <= j < k
        ensures t != Suffix(ls, j)
      {
        assert Suffix(all, j + 1) == Suffix(ls, j);
      }
      assert t in table[s := at] && t != s;
    }
    forall t | t in table' && t !in table
      ensures exists j | 0 <= j < k + 1 :: t == Suffix(all, j)
    {
      if t == s {
        assert t == Suffix(all, 0);
      } else {
        assert t !in table[s := at];
        var j :| 0 <= j < k && t == Suffix(ls, j);
        assert t == Suffix(all, j + 1);
      }
    }
  }

  // ---------------------------------------------------------------------------
  // Records
  // ---------------------------------------------------------------------------

  /** The type numbers of sections 3.2.2 of RFC 1035, 2.1 of RFC 3596, RFC 2782, 6.1.2 of RFC 6891
      and 7.1 of RFC 6698. */
  function TypeNumber(rec: DnsRecord): nat
    requires !rec.UNKNOWN?
  {
    match rec
    case A(_, _, _) => 1
    case NS(_, _, _) => 2
    case CNAME(_, _, _) => 5
    case SOA(_, _, _, _, _, _, _, _, _) => 6
    case PTR(_, _, _) => 12
    case MX(_, _, _, _) => 15
    case TXT(_, _, _) => 16
    case AAAA(_, _, _) => 28
    case SRV(_, _, _, _, _, _) => 33
    case OPT(_, _, _) => 41
    case TLSA(_, _, _, _, _, _) => 52
  }

  /** The owner's name; an OPT record's owner is the root, one zero byte. */
  function OwnerName(table: Table, at: nat, rec: DnsRecord): Enc
    requires !rec.UNKNOWN?
  {
    if rec.OPT? then Enc([0], table) else EncName(table, at, rec.domain)
  }

  /** The ten bytes after the owner: type number, class, TTL and length of the data. The class is 1,
      the Internet, and an OPT record has its payload size and its flags in place of class and TTL. */
  predicate HeadStands(b: seq<byte>, n: nat, rec: DnsRecord, len: nat)
    requires !rec.UNKNOWN? && n + 10 <= |b|
  {
    && Num16(b, n) == TypeNumber(rec)
    && Num16(b, n + 2) == (if rec.OPT? then rec.packetLen as int else 1)
    && Num32(b, n + 4) == (if rec.OPT? then rec.flags as int else rec.ttl as int)
    && Num16(b, n + 8) == len % 0x1_0000
  }

  /** The data of a record of each type, given where and with which table it is written. */
  predicate DataStands(table: Table, at: nat, rec: DnsRecord, d: Enc)
    requires !rec.UNKNOWN?
  {
    var b := d.chunk;
    match rec
    case A(_, addr, _) =>
      |b| == 4 && b[0] == addr[0] && b[1] == addr[1] && b[2] == addr[2] && b[3] == addr[3] && d.table == table
    case AAAA(_, addr, _) => |b| == 16 && (forall i | 0 <= i < 8 :: Num16(b, 2 * i) == addr[i]) && d.table == table
    case NS(_, host, _) => d == EncName(table, at, host)
    case CNAME(_, host, _) => d == EncName(table, at, host)
    case PTR(_, data, _) => d == EncName(table, at, data)
    case MX(_, priority, host, _) =>
      var e := EncName(table, at + 2, host);
      |b| == 2 + |e.chunk| && Num16(b, 0) == priority && b[2..] == e.chunk && d.table == e.table
    case SRV(_, priority, weight, port, host, _) =>
      var e := EncName(table, at + 6, host);
      && |b| == 6 + |e.chunk| && b[6..] == e.chunk && d.table == e.table
      && Num16(b, 0) == priority && Num16(b, 2) == weight && Num16(b, 4) == port
    case SOA(_, mName, rName, serial, refresh, retry, expire, minimum, _) =>
      var e := EncName(table, at, mName);
      var f := EncName(e.table, at + |e.chunk|, rName);
      var n := |e.chunk| + |f.chunk|;
      && |b| == n + 20 && b[..n] == e.chunk + f.chunk && d.table == f.table
      && Num32(b, n) == serial && Num32(b, n + 4) == refresh && Num32(b, n + 8) == retry
      && Num32(b, n + 12) == expire && Num32(b, n + 16) == minimum
    case TXT(_, data, _) => |b| == 1 + |data| && b[0] == |data| % 256 && b[1..] == data && d.table == table
    case TLSA(_, usage, selector, matching, data, _) =>
      && |b| == 3 + |data| && b[0] == usage && b[1] == selector && b[2] == matching && b[3..] == data
      && d.table == table
    case OPT(_, _, data) => b == data && d.table == table
  }

  lemma Piece16(table: Table, at: nat, v: u16, rest: Pieces)
    ensures var (r, e) := (Encode(table, at + 2, rest), Encode(table, at, Int16(v, rest)));
      |e.chunk| == 2 + |r.chunk| && Num16(e.chunk, 0) == v && e.chunk[2..] == r.chunk && e.table == r.table
  {
    EncodeRaw(table, at, U16Bytes(v), rest);
    hide Encode;
    var x, r := U16Bytes(v), Encode(table, at + 2, rest).chunk;
    assert (x + r)[..2] == x && (x + r)[2..] == r;
    Written16(x + r, 0, v);
  }

  lemma Piece32(table: Table, at: nat, v: u32, rest: Pieces)
    ensures var (r, e) := (Encode(table, at + 4, rest), Encode(table, at, Int32(v, rest)));
      |e.chunk| == 4 + |r.chunk| && Num32(e.chunk, 0) == v && e.chunk[4..] == r.chunk && e.table == r.table
  {
    EncodeRaw(table, at, U32Bytes(v), rest);
    hide Encode;
    var x, r := U32Bytes(v), Encode(table, at + 4, rest).chunk;
    assert (x + r)[..4] == x && (x + r)[4..] == r;
    Written32(x + r, 0, v);
  }

  lemma PieceName(table: Table, at: nat, s: Text, rest: Pieces)
    ensures var n := EncName(table, at, s);
      var (r, e) := (Encode(n.table, at + |n.chunk|, rest), Encode(table, at, Dom(s, rest)));
      e.chunk == n.chunk + r.chunk && e.table == r.table
  {
    EncodeDom(table, at, s, rest);
  }

  /** A number at a position after a cut. */
  lemma Later(b: seq<byte>, k: nat, rest: seq<byte>)
    requires k <= |b| && b[k..] == rest
    ensures forall i | 0 <= i && i + 2 <= |rest| :: Num16(b, k + i) == Num16(rest, i)
    ensures forall i | 0 <= i && i + 4 <= |rest| :: Num32(b, k + i) == Num32(rest, i)
    ensures forall i | 0 <= i <= |rest| :: b[k + i..] == rest[i..]
  {
    assert forall i | 0 <= i < |rest| :: b[k + i] == rest[i];
  }

  lemma AddressBytes(a: Ipv6Addr)
    ensures |Segments(a)| == 16
    ensures forall i | 0 <= i < 8 :: Num16(Segments(a), 2 * i) == a[i]
  {
    SegmentBytes(a, 0);
    forall i | 0 <= i < 8
      ensures Num16(Segments(a), 2 * i) == a[i]
    {
      SegmentBytes(a, i);
    }
  }

  lemma EncodeOne(table: Table, at: nat, x: seq<byte>)
    ensures Encode(table, at, Raw(x, End)) == Enc(x, table)
  {
    assert x + [] == x;
  }

  lemma EncodeName(table: Table, at: nat, s: Text)
    ensures Encode(table, at, Dom(s, End)) == EncName(table, at, s)
  {
    hide EncName;
    var e := EncName(table, at, s);
    assert e.chunk + [] == e.chunk;
  }

  lemma MxBytes(table: Table, at: nat, rec: DnsRecord)
    requires rec.MX?
    ensures DataStands(table, at, rec, Encode(table, at, Body(rec)))
  {
    hide EncName, Encode, U16Bytes;
    Piece16(table, at, rec.priority, Dom(rec.host, End));
    EncodeName(table, at + 2, rec.host);
  }

  lemma SrvBytes(table: Table, at: nat, rec: DnsRecord)
    requires rec.SRV?
    ensures DataStands(table, at, rec, Encode(table, at, Body(rec)))
  {
    hide EncName, Encode, U16Bytes, Num16;
    var t2 := Dom(rec.host, End);
    var t1 := Int16(rec.port, t2);
    var t0 := Int16(rec.weight, t1);
    var (b0, b1) := (Encode(table, at, Body(rec)).chunk, Encode(table, at + 2, t0).chunk);
    var b2 := Encode(table, at + 4, t1).chunk;
    Piece16(table, at, rec.priority, t0);
    Piece16(table, at + 2, rec.weight, t1);
    Piece16(table, at + 4, rec.port, t2);
    EncodeName(table, at + 6, rec.host);
    Later(b1, 2, b2);
    Later(b0, 2, b1);
    assert Num16(b0, 2 + 0) == rec.weight && Num16(b0, 2 + 2) == Num16(b1, 2 + 0) == rec.port;
    assert b0[2 + 4..] == b1[2 + 2..];
  }

  /** Five numbers in a row. */
  lemma FiveNumbers(table: Table, at: nat, v: u32, w: u32, x: u32, y: u32, z: u32, rest: Pieces)
    ensures var e := Encode(table, at, Int32(v, Int32(w, Int32(x, Int32(y, Int32(z, rest))))));
      var r := Encode(table, at + 20, rest);
      && |e.chunk| == 20 + |r.chunk| && e.chunk[20..] == r.chunk && e.table == r.table
      && Num32(e.chunk, 0) == v && Num32(e.chunk, 4) == w && Num32(e.chunk, 8) == x
      && Num32(e.chunk, 12) == y && Num32(e.chunk, 16) == z
  {
    hide Encode, U32Bytes, Num32;
    var t4 := Int32(z, rest);
    var t3 := Int32(y, t4);
    var t2 := Int32(x, t3);
    var t1 := Int32(w, t2);
    Piece32(table, at, v, t1);
    Piece32(table, at + 4, w, t2);
    Piece32(table, at + 8, x, t3);
    Piece32(table, at + 12, y, t4);
    Piece32(table, at + 16, z, rest);
    var e0, e1 := Encode(table, at, Int32(v, t1)).chunk, Encode(table, at + 4, t1).chunk;
    var e2, e3 := Encode(table, at + 8, t2).chunk, Encode(table, at + 12, t3).chunk;
    var e4, e5 := Encode(table, at + 16, t4).chunk, Encode(table, at + 20, rest).chunk;
    CutTwice(e0, 4, e1, 4, e2);
    CutTwice(e0, 8, e2, 4, e3);
    CutTwice(e0, 12, e3, 4, e4);
    CutTwice(e0, 16, e4, 4, e5);
    At32(e0, 4, e1);
    At32(e0, 8, e2);
    At32(e0, 12, e3);
    At32(e0, 16, e4);
  }

  lemma CutTwice(b: seq<byte>, k: nat, c: seq<byte>, m: nat, d: seq<byte>)
    requires k <= |b| && b[k..] == c && m <= |c| && c[m..] == d
    ensures b[k + m..] == d
  {
  }

  lemma At32(b: seq<byte>, k: nat, rest: seq<byte>)
    requires k <= |b| && b[k..] == rest && |rest| >= 4
    ensures Num32(b, k) == Num32(rest, 0)
  {
    assert b[k] == rest[0] && b[k + 1] == rest[1] && b[k + 2] == rest[2] && b[k + 3] == rest[3];
  }

  lemma At16(b: seq<byte>, k: nat, rest: seq<byte>)
    requires k <= |b| && b[k..] == rest && |rest| >= 2
    ensures Num16(b, k) == Num16(rest, 0)
  {
    assert b[k] == rest[0] && b[k + 1] == rest[1];
  }

  lemma SoaBytes(table: Table, at: nat, rec: DnsRecord)
    requires rec.SOA?
    ensures DataStands(table, at, rec, Encode(table, at, Body(rec)))
  {
    hide EncName, Encode, U32Bytes, Num32;
    var five := Int32(rec.serial, Int32(rec.refresh, Int32(rec.retry, Int32(rec.expire, Int32(rec.minimum, End)))));
    var e := EncName(table, at, rec.mName);
    var f := EncName(e.table, at + |e.chunk|, rec.rName);
    var n := |e.chunk| + |f.chunk|;
    EncodeDom(table, at, rec.mName, Dom(rec.rName, five));
    EncodeDom(e.table, at + |e.chunk|, rec.rName, five);
    FiveNumbers(f.table, at + n, rec.serial, rec.refresh, rec.retry, rec.expire, rec.minimum, End);
    EncodeEnd(f.table, at + n + 20);
    var d, r := Encode(table, at, Body(rec)), Encode(f.table, at + n, five).chunk;
    assert d.chunk == e.chunk + f.chunk + r;
    Later32(e.chunk + f.chunk, r);
  }

  lemma Later32(front: seq<byte>, rest: seq<byte>)
    ensures forall i | 0 <= i && i + 4 <= |rest| :: Num32(front + rest, |front| + i) == Num32(rest, i)
  {
  }

  /** The data of every record stands as its type lays it out. */
  lemma DataBytes(table: Table, at: nat, rec: DnsRecord)
    requires !rec.UNKNOWN?
    ensures DataStands(table, at, rec, Encode(table, at, Body(rec)))
  {
    hide EncName, Encode, Segments, Num16, Num32, U16Bytes, U32Bytes;
    match rec
    case A(_, addr, _) => EncodeOne(table, at, addr);
    case AAAA(_, addr, _) =>
      EncodeOne(table, at, Segments(addr));
      AddressBytes(addr);
    case NS(_, host, _) => EncodeName(table, at, host);
    case CNAME(_, host, _) => EncodeName(table, at, host);
    case PTR(_, data, _) => EncodeName(table, at, data);
    case MX(_, _, _, _) => MxBytes(table, at, rec);
    case SRV(_, _, _, _, _, _) => SrvBytes(table, at, rec);
    case SOA(_, _, _, _, _, _, _, _, _) => SoaBytes(table, at, rec);
    case TXT(_, data, _) => EncodeOne(table, at, [|data| % 256] + data);
    case TLSA(_, usage, selector, matching, data, _) => EncodeOne(table, at, [usage, selector, matching] + data);
    case OPT(_, _, data) => EncodeOne(table, at, data);
  }

  /** Type, class and TTL after the owner. */
  lemma EightBytes(table: Table, at: nat, num: u16, class_: u16, ttl: u32)
    ensures var e := Encode(table, at, Int16(num, Int16(class_, Int32(ttl, End))));
      && |e.chunk| == 8 && e.table == table
      && Num16(e.chunk, 0) == num && Num16(e.chunk, 2) == class_ && Num32(e.chunk, 4) == ttl
  {
    hide Encode, U16Bytes, U32Bytes, Num16, Num32;
    var t1 := Int32(ttl, End);
    var t0 := Int16(class_, t1);
    Piece16(table, at, num, t0);
    Piece16(table, at + 2, class_, t1);
    Piece32(table, at + 4, ttl, End);
    EncodeEnd(table, at + 8);
    var b0, b1 := Encode(table, at, Int16(num, t0)).chunk, Encode(table, at + 2, t0).chunk;
    var b2 := Encode(table, at + 4, t1).chunk;
    CutTwice(b0, 2, b1, 2, b2);
    At16(b0, 2, b1);
    At32(b0, 4, b2);
  }

  lemma HeadBytes(table: Table, at: nat, rec: DnsRecord)
    requires !rec.UNKNOWN?
    ensures var (o, h) := (OwnerName(table, at, rec), Encode(table, at, Headed(rec, End)));
      var n := |o.chunk|;
      && |h.chunk| == n + 8 && h.chunk[..n] == o.chunk && h.table == o.table
      && Num16(h.chunk[n..], 0) == TypeNumber(rec)
      && Num16(h.chunk[n..], 2) == (if rec.OPT? then rec.packetLen as int else 1)
      && Num32(h.chunk[n..], 4) == (if rec.OPT? then rec.flags as int else rec.ttl as int)
  {
    hide EncName, Encode, U16Bytes, U32Bytes, Num16, Num32;
    var o := OwnerName(table, at, rec);
    var n := |o.chunk|;
    var num := rec.GetQuerytype().ToNum();
    if rec.OPT? {
      EncodeRaw(table, at, [0], Int16(num, Int16(rec.packetLen, Int32(rec.flags, End))));
      EightBytes(table, at + 1, num, rec.packetLen, rec.flags);
    } else {
      EncodeDom(table, at, rec.domain, Int16(num, Int16(1, Int32(rec.ttl, End))));
      EightBytes(o.table, at + n, num, 1, rec.ttl);
    }
  }

  /** Every record that is written stands in the buffer as its owner, the ten bytes of its head with the
      length of what follows, and its data. */
  lemma RecordBytes(table: Table, at: nat, rec: DnsRecord)
    requires !rec.UNKNOWN?
    ensures var (o, e) := (OwnerName(table, at, rec), EncRecord(table, at, rec));
      var n := |o.chunk|;
      && n + 10 <= |e.chunk| && e.chunk[..n] == o.chunk
      && HeadStands(e.chunk, n, rec, |e.chunk| - n - 10)
      && DataStands(o.table, at + n + 10, rec, Enc(e.chunk[n + 10..], e.table))
  {
    hide OwnerName, Encode, Headed, Body, DataStands, TypeNumber, U16Bytes;
    var o, h := OwnerName(table, at, rec), Encode(table, at, Headed(rec, End));
    var n := |o.chunk|;
    HeadBytes(table, at, rec);
    DataBytes(o.table, at + n + 10, rec);
    var d := Encode(o.table, at + n + 10, Body(rec));
    InThree(h.chunk, n, U16Bytes(|d.chunk| % 0x1_0000), d.chunk);
    Written16(h.chunk + U16Bytes(|d.chunk| % 0x1_0000) + d.chunk, n + 8, |d.chunk| % 0x1_0000);
  }

  lemma InThree(h: seq<byte>, n: nat, x: seq<byte>, d: seq<byte>)
    requires |h| == n + 8 && |x| == 2
    ensures var e := h + x + d;
      && e[..n] == h[..n] && e[n + 8..n + 10] == x && e[n + 10..] == d
      && Num16(e, n) == Num16(h[n..], 0) && Num16(e, n + 2) == Num16(h[n..], 2) && Num32(e, n + 4) == Num32(h[n..], 4)
  {
  }
}
