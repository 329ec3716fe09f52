/** What stands at each position of a written message or zone file around its records: header,
    questions, and the order of the sections. */
module WireMessages {
  import opened Data
  import opened Names
  import opened NameCodec
  import opened Layout
  import opened PacketBuffers
  import opened Records
  import opened RecordIO
  import opened Packets
  import opened Messages
  import opened Authority
  import opened WireFormat

  /** The bit of a byte that is worth w. */
  predicate On(x: byte, w: nat)
    requires w > 0
  {
    x as int / w % 2 == 1
  }

  /** The response codes of section 4.1.1 of RFC 1035. */
  predicate CodeStands(code: ResultCode, n: nat) {
    && (code == NOERROR ==> n == 0) && (code == FORMERR ==> n == 1) && (code == SERVFAIL ==> n == 2)
    && (code == NXDOMAIN ==> n == 3) && (code == NOTIMP ==> n == 4) && (code == REFUSED ==> n == 5)
  }

  /** The two flag bytes, bit by bit (section 4.1.1 of RFC 1035, section 3.2 of RFC 4035). */
  predicate FlagsStand(a: byte, b: byte, h: DnsHeader) {
    && (On(a, 1) <==> h.recursionDesired) && (On(a, 2) <==> h.truncatedMessage) && (On(a, 4) <==> h.authoritativeAnswer)
    && a as int / 8 % 16 == h.opcode % 16
    && (On(a, 128) <==> h.response || h.opcode / 16 % 2 == 1)
    && CodeStands(h.rescode, b as int % 16)
    && (On(b, 16) <==> h.checkingDisabled) && (On(b, 32) <==> h.authedData)
    && (On(b, 64) <==> h.z) && (On(b, 128) <==> h.recursionAvailable)
  }

  /** The twelve bytes of a header. */
  predicate HeaderStands(b: seq<byte>, h: DnsHeader)
    requires |b| >= 12
  {
    && Num16(b, 0) == h.id && FlagsStand(b[2], b[3], h)
    && Num16(b, 4) == h.questions && Num16(b, 6) == h.answers
    && Num16(b, 8) == h.authoritativeEntries && Num16(b, 10) == h.resourceEntries
  }

  lemma LowFlags(f0: bool, f1: bool, f2: bool, rest: nat, x: byte)
    requires x as int == Bits(f0, f1, f2, rest)
    ensures (On(x, 1) <==> f0) && (On(x, 2) <==> f1) && (On(x, 4) <==> f2) && x as int / 8 == rest
  {
    var t1 := Bit(f2) as nat + 2 * rest;
    var t0 := Bit(f1) as nat + 2 * t1;
    TakeBit(f2, rest);
    TakeBit(f1, t1);
    TakeBit(f0, t0);
    assert x as int / 2 == t0 && x as int / 4 == t1;
  }

  lemma FirstFlags(h: DnsHeader)
    ensures var a := FlagsA(h);
      && (On(a, 1) <==> h.recursionDesired) && (On(a, 2) <==> h.truncatedMessage)
      && (On(a, 4) <==> h.authoritativeAnswer)
      && a as int / 8 % 16 == h.opcode % 16
      && (On(a, 128) <==> h.response || h.opcode / 16 % 2 == 1)
  {
    var a := FlagsA(h);
    var low, top := h.opcode % 16, Bit(h.response || h.opcode / 16 % 2 == 1);
    hide FlagsA, Bits;
    assert a as int == Bits(h.recursionDesired, h.truncatedMessage, h.authoritativeAnswer, low + 16 * top) by {
      FirstIs(h);
    }
    LowFlags(h.recursionDesired, h.truncatedMessage, h.authoritativeAnswer, low + 16 * top, a);
    Nibble(low, top);
    TopBit(a, low, top);
  }

  lemma FirstIs(h: DnsHeader)
    ensures FlagsA(h) as int == Bits(h.recursionDesired, h.truncatedMessage, h.authoritativeAnswer,
                                     h.opcode % 16 + 16 * Bit(h.response || h.opcode / 16 % 2 == 1))
  {
  }

  lemma TopBit(a: byte, low: nat, top: nat)
    requires a as int / 8 == low + 16 * top && low < 16 && top < 2
    ensures a as int / 128 % 2 == top
  {
  }

  lemma SecondFlags(h: DnsHeader)
    ensures var b := FlagsB(h);
      && CodeStands(h.rescode, b as int % 16)
      && (On(b, 16) <==> h.checkingDisabled) && (On(b, 32) <==> h.authedData)
      && (On(b, 64) <==> h.z) && (On(b, 128) <==> h.recursionAvailable)
  {
    var b := FlagsB(h);
    var high := Bits(h.checkingDisabled, h.authedData, h.z, Bit(h.recursionAvailable));
    assert b as int == h.rescode.ToNum() as int + 16 * high && h.rescode.ToNum() < 16;
    assert CodeStands(h.rescode, h.rescode.ToNum() as int);
    hide Bits, FlagsB;
    HighNibble(b, h.rescode.ToNum(), high);
    LowFlags(h.checkingDisabled, h.authedData, h.z, Bit(h.recursionAvailable), high);
    assert Bit(h.recursionAvailable) % 2 == 1 <==> h.recursionAvailable;
  }

  lemma HighNibble(b: byte, low: nat, high: nat)
    requires b as int == low + 16 * high && low < 16
    ensures b as int % 16 == low && high < 16
    ensures b as int / 16 == high && b as int / 32 == high / 2
    ensures b as int / 64 == high / 4 && b as int / 128 == high / 8
  {
  }

  /** Four counts in a row. */
  lemma FourCounts(table: Table, at: nat, v: u16, w: u16, x: u16, y: u16, rest: Pieces)
    ensures var e := Encode(table, at, Int16(v, Int16(w, Int16(x, Int16(y, rest)))));
      var r := Encode(table, at + 8, rest);
      && |e.chunk| == 8 + |r.chunk| && e.chunk[8..] == r.chunk && e.table == r.table
      && Num16(e.chunk, 0) == v && Num16(e.chunk, 2) == w && Num16(e.chunk, 4) == x && Num16(e.chunk, 6) == y
  {
    hide Encode, U16Bytes, Num16;
    var t3 := Int16(y, rest);
    var t2 := Int16(x, t3);
    var t1 := Int16(w, t2);
    Piece16(table, at, v, t1);
    Piece16(table, at + 2, w, t2);
    Piece16(table, at + 4, x, t3);
    Piece16(table, at + 6, y, rest);
    var e0, e1 := Encode(table, at, Int16(v, t1)).chunk, Encode(table, at + 2, t1).chunk;
    var e2, e3 := Encode(table, at + 4, t2).chunk, Encode(table, at + 6, t3).chunk;
    CutTwice(e0, 2, e1, 2, e2);
    CutTwice(e0, 4, e2, 2, e3);
    CutTwice(e0, 6, e3, 2, Encode(table, at + 8, rest).chunk);
    At16(e0, 2, e1);
    At16(e0, 4, e2);
    At16(e0, 6, e3);
  }

  /** The header's bytes, and what is written after them. */
  lemma HeaderBytes(table: Table, at: nat, h: DnsHeader, rest: Pieces)
    ensures var (e, r) := (Encode(table, at, HeaderPieces(h, rest)), Encode(table, at + 12, rest));
      |e.chunk| == 12 + |r.chunk| && HeaderStands(e.chunk, h) && e.chunk[12..] == r.chunk && e.table == r.table
  {
    hide Encode, FlagsA, FlagsB, U16Bytes, Num16, FlagsStand;
    var counts := Int16(h.questions, Int16(h.answers, Int16(h.authoritativeEntries, Int16(h.resourceEntries, rest))));
    var second := Raw([FlagsB(h)], counts);
    Piece16(table, at, h.id, Raw([FlagsA(h)], second));
    EncodeRaw(table, at + 2, [FlagsA(h)], second);
    EncodeRaw(table, at + 3, [FlagsB(h)], counts);
    FourCounts(table, at + 4, h.questions, h.answers, h.authoritativeEntries, h.resourceEntries, rest);
    var e := Encode(table, at, HeaderPieces(h, rest)).chunk;
    var c := Encode(table, at + 4, counts).chunk;
    assert e[2..] == [FlagsA(h)] + ([FlagsB(h)] + c);
    assert e[2] == e[2..][0] && e[3] == e[2..][1];
    CutTwice(e, 2, e[2..], 2, c);
    CutTwice(e, 4, c, 8, Encode(table, at + 12, rest).chunk);
    Later(e, 4, c);
    assert Num16(e, 4 + 0) == Num16(c, 0) && Num16(e, 4 + 2) == Num16(c, 2);
    assert Num16(e, 4 + 4) == Num16(c, 4) && Num16(e, 4 + 6) == Num16(c, 6);
    FlagBytes(h);
  }

  lemma FlagBytes(h: DnsHeader)
    ensures FlagsStand(FlagsA(h), FlagsB(h), h)
  {
    hide FlagsA, FlagsB, On, CodeStands;
    FirstFlags(h);
    SecondFlags(h);
  }

  // ---------------------------------------------------------------------------
  // Questions
  // ---------------------------------------------------------------------------

  /** The number a type is asked for by. */
  predicate AskedFor(q: QueryType, n: nat) {
    match q
    case UNKNOWN(num) => n == num
    case A => n == 1
    case NS => n == 2
    case CNAME => n == 5
    case SOA => n == 6
    case PTR => n == 12
    case MX => n == 15
    case TXT => n == 16
    case AAAA => n == 28
    case SRV => n == 33
    case OPT => n == 41
    case TLSA => n == 52
  }

  /** The first of some questions: its name, the number of its type, class 1; the others follow. */
  lemma QuestionBytes(table: Table, at: nat, qs: seq<DnsQuestion>)
    requires qs != []
    ensures var e := Encode(table, at, QuestionPieces(qs));
      var n := EncName(table, at, qs[0].name);
      var k := |n.chunk|;
      var r := Encode(n.table, at + k + 4, QuestionPieces(qs[1..]));
      && |e.chunk| == k + 4 + |r.chunk| && e.chunk[..k] == n.chunk && e.chunk[k + 4..] == r.chunk && e.table == r.table
      && AskedFor(qs[0].qtype, Num16(e.chunk, k)) && Num16(e.chunk, k + 2) == 1
  {
    hide EncName, Encode, U16Bytes, Num16, QuestionPieces;
    var n := EncName(table, at, qs[0].name);
    var k := |n.chunk|;
    var num := qs[0].qtype.ToNum();
    var rest := QuestionPieces(qs[1..]);
    QuestionPiecesStep(qs);
    EncodeDom(table, at, qs[0].name, Int16(num, Int16(1, rest)));
    TypeAndClass(n.table, at + k, num, rest);
    var e, b := Encode(table, at, QuestionPieces(qs)).chunk, Encode(n.table, at + k, Int16(num, Int16(1, rest))).chunk;
    assert e[..k] == n.chunk && e[k..] == b;
    Later(e, k, b);
    assert Num16(e, k + 0) == num && Num16(e, k + 2) == 1 && e[k + 4..] == b[4..];
  }

  lemma TypeAndClass(table: Table, at: nat, num: u16, rest: Pieces)
    ensures var e := Encode(table, at, Int16(num, Int16(1, rest))); var r := Encode(table, at + 4, rest);
      && |e.chunk| == 4 + |r.chunk| && e.chunk[4..] == r.chunk && e.table == r.table
      && Num16(e.chunk, 0) == num && Num16(e.chunk, 2) == 1
  {
    hide Encode, U16Bytes, Num16;
    var t1 := Int16(1, rest);
    Piece16(table, at, num, t1);
    Piece16(table, at + 2, 1, rest);
    var e, c := Encode(table, at, Int16(num, t1)).chunk, Encode(table, at + 2, t1).chunk;
    At16(e, 2, c);
    CutTwice(e, 2, c, 2, Encode(table, at + 4, rest).chunk);
  }

  // ---------------------------------------------------------------------------
  // Rows of records
  // ---------------------------------------------------------------------------

  /** In a row of records the i-th stands right after the ones before it, with the table they left. */
  lemma RowBytes(table: Table, at: nat, rs: seq<DnsRecord>, i: nat)
    requires i < |rs|
    ensures var front := EncRecords(table, at, rs[..i]);
      var e := EncRecord(front.table, at + |front.chunk|, rs[i]);
      EncRecords(table, at, rs[..i + 1]) == Enc(front.chunk + e.chunk, e.table)
  {
    hide EncRecords, EncRecord;
    assert rs[..i] + [rs[i]] == rs[..i + 1];
    SnocRecords(table, at, rs[..i], rs[i], at + |EncRecords(table, at, rs[..i]).chunk|);
  }

  /** The lesser of two numbers. */
  function Least(a: nat, b: nat): nat {
    if a < b then a else b
  }

  /** A message as it is sent: the header with the counts of what follows and the truncation bit, the
      questions, and then as many records as are kept, the answers before the authorities and those
      before the rest. */
  lemma MessageBytes(m: Message, maxSize: nat)
    requires Sendable(m)
    ensures var (out, kept) := (Output(m, maxSize), Kept(m.questions, m.Records(), maxSize));
      var (a, b) := (|m.answers|, |m.answers| + |m.authorities|);
      && |out| >= 12
      && Num16(out, 0) == m.header.id
      && Num16(out, 4) == |m.questions|
      && Num16(out, 6) == Least(kept, a)
      && Num16(out, 8) == Least(kept, b) - Least(kept, a)
      && Num16(out, 10) == kept - Least(kept, b)
      && FlagsStand(out[2], out[3],
           m.header.(truncatedMessage := m.header.truncatedMessage || kept < |m.Records()|))
      && var q := Encode(map[], 12, QuestionPieces(m.questions));
         var r := EncRecords(q.table, 12 + |q.chunk|, (m.answers + m.authorities + m.resources)[..kept]);
         out[12..] == q.chunk + r.chunk
  {
    hide Encode, EncRecords, HeaderPieces, QuestionPieces, Kept, Sendable, Num16, FlagsA, FlagsB, FlagsStand;
    var kept := Kept(m.questions, m.Records(), maxSize);
    var h := FinalHeader(m, kept);
    Counters(m, kept);
    HeaderBytes(map[], 0, h, QuestionPieces(m.questions));
    var f := Encode(map[], 0, HeaderPieces(h, QuestionPieces(m.questions)));
    var q := Encode(map[], 12, QuestionPieces(m.questions));
    var r := EncRecords(q.table, 12 + |q.chunk|, m.Records()[..kept]).chunk;
    assert Output(m, maxSize) == f.chunk + r;
    FrontOf(f.chunk, r);
    SameFlags(f.chunk[2], f.chunk[3], h, m.header.(truncatedMessage := h.truncatedMessage));
  }

  lemma FrontOf(f: seq<byte>, r: seq<byte>)
    requires |f| >= 12
    ensures (f + r)[12..] == f[12..] + r && (f + r)[2] == f[2] && (f + r)[3] == f[3]
    ensures Num16(f + r, 0) == Num16(f, 0) && Num16(f + r, 4) == Num16(f, 4) && Num16(f + r, 6) == Num16(f, 6)
    ensures Num16(f + r, 8) == Num16(f, 8) && Num16(f + r, 10) == Num16(f, 10)
  {
  }

  lemma SameFlags(a: byte, b: byte, g: DnsHeader, h: DnsHeader)
    requires FlagsStand(a, b, g)
    requires h == g.(questions := h.questions, answers := h.answers, authoritativeEntries := h.authoritativeEntries,
                     resourceEntries := h.resourceEntries)
    ensures FlagsStand(a, b, h)
  {
  }

  /** The uncompressed length of the questions' names. */
  function NamesLength(qs: seq<DnsQuestion>): nat {
    if qs == [] then 0 else |qs[0].name| + 2 + NamesLength(qs[1..])
  }

  lemma {:induction false} QuestionsMeasured(qs: seq<DnsQuestion>)
    ensures QuestionsLen(qs) == NamesLength(qs)
  {
    hide SumLabels;
    if qs != [] {
      BinaryLenIsLength(qs[0]);
      QuestionsMeasured(qs[1..]);
    }
  }

  /** As many records are kept as fit the size limit: with the twelve bytes of the header, the names of the
      questions at full length, and the records as they are written. */
  lemma KeptIsGreatest(m: Message, maxSize: nat)
    ensures var (kept, rs) := (Kept(m.questions, m.Records(), maxSize), m.answers + m.authorities + m.resources);
      var q := Encode(map[], 0, QuestionPieces(m.questions));
      var front := 12 + NamesLength(m.questions);
      && kept <= |rs|
      && (kept > 0 ==> front + |EncRecords(q.table, |q.chunk|, rs[..kept]).chunk| <= maxSize)
      && (kept < |rs| ==> front + |EncRecords(q.table, |q.chunk|, rs[..kept + 1]).chunk| > maxSize)
  {
    hide Encode, EncRecords, Fitting, QuestionPieces;
    var q := Encode(map[], 0, QuestionPieces(m.questions));
    QuestionsMeasured(m.questions);
    FittingIsGreatest(q.table, |q.chunk|, m.Records(), 12 + NamesLength(m.questions), maxSize);
  }

  // ---------------------------------------------------------------------------
  // Zone files
  // ---------------------------------------------------------------------------

  /** The zone's own name and those of its server and mailbox, in turn. */
  function ZoneNames(z: Zone): Enc {
    var e1 := EncName(map[], 0, z.domain);
    var e2 := EncName(e1.table, |e1.chunk|, z.mName);
    var e3 := EncName(e2.table, |e1.chunk| + |e2.chunk|, z.rName);
    Enc(e1.chunk + e2.chunk + e3.chunk, e3.table)
  }

  function ZoneNumbers(z: Zone, count: u32): Pieces {
    Int32(z.serial, Int32(z.refresh, Int32(z.retry, Int32(z.expire, Int32(z.minimum, Int32(count, End))))))
  }

  /** A zone file: three names, serial, refresh, retry, expire, minimum and the number of records, each in
      four bytes, and then the records. */
  lemma ZoneBytes(z: Zone, order: seq<DnsRecord>)
    requires |order| < 0x1_0000_0000
    ensures var (file, n) := (ZoneFile(z, order), |ZoneNames(z).chunk|);
      && |file| >= n + 24 && file[..n] == ZoneNames(z).chunk
      && Num32(file, n) == z.serial && Num32(file, n + 4) == z.refresh && Num32(file, n + 8) == z.retry
      && Num32(file, n + 12) == z.expire && Num32(file, n + 16) == z.minimum && Num32(file, n + 20) == |order|
      && file[n + 24..] == EncRecords(ZoneNames(z).table, n + 24, order).chunk
  {
    hide EncName, Encode, EncRecords, Num32, ZoneNames, ZonePieces, ZoneNumbers;
    var names := ZoneNames(z);
    FixedPart(z, |order|);
    ZoneNumberBytes(names.table, |names.chunk|, z, |order|);
    var d := Encode(names.table, |names.chunk|, ZoneNumbers(z, |order|)).chunk;
    var r := EncRecords(names.table, |names.chunk| + 24, order).chunk;
    assert |order| % 0x1_0000_0000 == |order|;
    assert ZoneFile(z, order) == names.chunk + d + r;
    hide ZoneFile;
    ThenNumbers(names.chunk, d, r);
  }

  lemma FixedPart(z: Zone, count: u32)
    ensures var names := ZoneNames(z); var d := Encode(names.table, |names.chunk|, ZoneNumbers(z, count));
      Encode(map[], 0, ZonePieces(z, count)) == Enc(names.chunk + d.chunk, d.table)
  {
    NamesThen(z, ZoneNumbers(z, count));
    hide Encode, EncName, ZoneNames, U32Bytes;
  }

  lemma ZoneNumberBytes(table: Table, at: nat, z: Zone, count: u32)
    ensures var e := Encode(table, at, ZoneNumbers(z, count));
      && |e.chunk| == 24 && e.table == table
      && Num32(e.chunk, 0) == z.serial && Num32(e.chunk, 4) == z.refresh && Num32(e.chunk, 8) == z.retry
      && Num32(e.chunk, 12) == z.expire && Num32(e.chunk, 16) == z.minimum && Num32(e.chunk, 20) == count
  {
    hide Encode, U32Bytes, Num32;
    FiveNumbers(table, at, z.serial, z.refresh, z.retry, z.expire, z.minimum, Int32(count, End));
    Piece32(table, at + 20, count, End);
    EncodeEnd(table, at + 24);
    var d := Encode(table, at, ZoneNumbers(z, count)).chunk;
    At32(d, 20, Encode(table, at + 20, Int32(count, End)).chunk);
  }

  lemma NamesThen(z: Zone, rest: Pieces)
    ensures var names := ZoneNames(z); var r := Encode(names.table, |names.chunk|, rest);
      Encode(map[], 0, Dom(z.domain, Dom(z.mName, Dom(z.rName, rest)))) == Enc(names.chunk + r.chunk, r.table)
  {
    hide EncName, Encode;
    var e1 := EncName(map[], 0, z.domain);
    var e2 := EncName(e1.table, |e1.chunk|, z.mName);
    EncodeDom(map[], 0, z.domain, Dom(z.mName, Dom(z.rName, rest)));
    EncodeDom(e1.table, |e1.chunk|, z.mName, Dom(z.rName, rest));
    EncodeDom(e2.table, |e1.chunk| + |e2.chunk|, z.rName, rest);
  }

  lemma ThenNumbers(front: seq<byte>, d: seq<byte>, r: seq<byte>)
    requires |d| == 24
    ensures var (b, n) := (front + d + r, |front|);
      && b[..n] == front && b[n + 24..] == r
      && Num32(b, n) == Num32(d, 0) && Num32(b, n + 4) == Num32(d, 4) && Num32(b, n + 8) == Num32(d, 8)
      && Num32(b, n + 12) == Num32(d, 12) && Num32(b, n + 16) == Num32(d, 16) && Num32(b, n + 20) == Num32(d, 20)
  {
  }
}
