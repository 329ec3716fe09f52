/** Messages (section 4.1 of RFC 1035): header, questions, and three sections of records. */
module Packets {
  import opened Data
  import opened Names
  import opened NameCodec
  import opened Layout
  import opened PacketBuffers
  import opened Records

  // ---------------------------------------------------------------------------
  // Header
  // ---------------------------------------------------------------------------

  datatype ResultCode = NOERROR | FORMERR | SERVFAIL | NXDOMAIN | NOTIMP | REFUSED {
    function ToNum(): byte {
      match this
      case NOERROR => 0
      case FORMERR => 1
      case SERVFAIL => 2
      case NXDOMAIN => 3
      case NOTIMP => 4
      case REFUSED => 5
    }
  }

  function ResultFromNum(num: byte): ResultCode {
    match num
    case 1 => FORMERR
    case 2 => SERVFAIL
    case 3 => NXDOMAIN
    case 4 => NOTIMP
    case 5 => REFUSED
    case _ => NOERROR
  }

  datatype DnsHeader = DnsHeader(
    id: u16,
    recursionDesired: bool,
    truncatedMessage: bool,
    authoritativeAnswer: bool,
    opcode: byte,
    response: bool,
    rescode: ResultCode,
    checkingDisabled: bool,
    authedData: bool,
    z: bool,
    recursionAvailable: bool,
    questions: u16,
    answers: u16,
    authoritativeEntries: u16,
    resourceEntries: u16)

  const EMPTY_HEADER := DnsHeader(0, false, false, false, 0, false, NOERROR, false, false, false, false, 0, 0, 0, 0)

  function Bit(v: bool): byte {
    if v then 1 else 0
  }

  /** The two flag bytes. `opcode << 3` loses the opcode's top three bits, and its fifth bit lands
      on the response bit. */
  function FlagsA(h: DnsHeader): byte {
    Bits(h.recursionDesired, h.truncatedMessage, h.authoritativeAnswer,
      h.opcode % 16 + 16 * Bit(h.response || h.opcode / 16 % 2 == 1))
  }

  function FlagsB(h: DnsHeader): byte {
    h.rescode.ToNum() + 16 * Bits(h.checkingDisabled, h.authedData, h.z, Bit(h.recursionAvailable))
  }

  /** Three flags below a number, from the low bit up. */
  function Bits(f0: bool, f1: bool, f2: bool, rest: nat): nat {
    Bit(f0) as nat + 2 * (Bit(f1) as nat + 2 * (Bit(f2) as nat + 2 * rest))
  }

  function HeaderPieces(h: DnsHeader, rest: Pieces): Pieces {
    Int16(h.id, Raw([FlagsA(h)], Raw([FlagsB(h)],
      Int16(h.questions, Int16(h.answers, Int16(h.authoritativeEntries, Int16(h.resourceEntries, rest)))))))
  }

  /** The low three bits of a number, and the rest of it. */
  function Apart(v: nat): (bool, bool, bool, nat) {
    (v % 2 == 1, v / 2 % 2 == 1, v / 2 / 2 % 2 == 1, v / 2 / 2 / 2)
  }

  /** The flag bytes taken apart, from the low bit up. */
  function Flagged(id: u16, a: byte, b: byte): DnsHeader {
    var (rd, tc, aa, top) := Apart(a);
    var (cd, ad, z, ra) := Apart(b / 16);
    DnsHeader(id, rd, tc, aa, top % 16, top / 16 % 2 == 1, ResultFromNum(b % 16), cd, ad, z, ra % 2 == 1, 0, 0, 0, 0)
  }

  function ReadHeader(b: seq<byte>, at: nat): Parse<DnsHeader> {
    var (id, at) :- ReadU16(b, at);
    var (flags, at) :- ReadU16(b, at);
    var (questions, at) :- ReadU16(b, at);
    var (answers, at) :- ReadU16(b, at);
    var (authoritative, at) :- ReadU16(b, at);
    var (resources, at) :- ReadU16(b, at);
    Done(Flagged(id, flags / 256, flags % 256).(questions := questions, answers := answers,
      authoritativeEntries := authoritative, resourceEntries := resources), at)
  }

  lemma FlagsRead(h: DnsHeader)
    ensures var f := Flagged(h.id, FlagsA(h), FlagsB(h));
      && f.opcode == h.opcode % 16
      && f.response == (h.response || h.opcode / 16 % 2 == 1)
      && f.(opcode := h.opcode, response := h.response, questions := h.questions, answers := h.answers,
            authoritativeEntries := h.authoritativeEntries, resourceEntries := h.resourceEntries) == h
  {
    hide FlagsA, FlagsB, Apart, ResultFromNum;
    FlagsAApart(h);
    FlagsBApart(h);
    Nibble(h.opcode % 16, Bit(h.response || h.opcode / 16 % 2 == 1));
    ResultReadsBack(h.rescode);
  }

  lemma FlagsAApart(h: DnsHeader)
    ensures Apart(FlagsA(h)) == (h.recursionDesired, h.truncatedMessage, h.authoritativeAnswer,
                                 h.opcode % 16 + 16 * Bit(h.response || h.opcode / 16 % 2 == 1))
  {
    BitsApart(h.recursionDesired, h.truncatedMessage, h.authoritativeAnswer,
      h.opcode % 16 + 16 * Bit(h.response || h.opcode / 16 % 2 == 1));
  }

  lemma FlagsBApart(h: DnsHeader)
    ensures FlagsB(h) % 16 == h.rescode.ToNum()
    ensures Apart(FlagsB(h) / 16) == (h.checkingDisabled, h.authedData, h.z, Bit(h.recursionAvailable))
  {
    hide Bits, Apart;
    Nibble(h.rescode.ToNum(), Bits(h.checkingDisabled, h.authedData, h.z, Bit(h.recursionAvailable)));
    BitsApart(h.checkingDisabled, h.authedData, h.z, Bit(h.recursionAvailable));
  }

  lemma ResultReadsBack(rc: ResultCode)
    ensures ResultFromNum(rc.ToNum()) == rc && rc.ToNum() < 16
  {
  }

  lemma Nibble(low: nat, high: nat)
    requires low < 16
    ensures (low + 16 * high) % 16 == low && (low + 16 * high) / 16 == high
  {
  }

  lemma BitsApart(f0: bool, f1: bool, f2: bool, rest: nat)
    ensures Apart(Bits(f0, f1, f2, rest)) == (f0, f1, f2, rest)
  {
    TakeBit(f2, rest);
    TakeBit(f1, Bit(f2) as nat + 2 * rest);
    TakeBit(f0, Bit(f1) as nat + 2 * (Bit(f2) as nat + 2 * rest));
  }

  lemma TakeBit(bit: bool, rest: nat)
    ensures (Bit(bit) + 2 * rest) % 2 == Bit(bit) && (Bit(bit) + 2 * rest) / 2 == rest
  {
  }

  /** A header reads back exactly when its opcode fits the four bits it is given. */
  lemma HeaderRoundTrip(c: seq<byte>, at: nat, h: DnsHeader, rest: Pieces, end: nat)
    requires Reads(c, at, HeaderPieces(h, rest), end)
    ensures ReadHeader(c, at).Done? && ReadHeader(c, at).next == at + 12
    ensures ReadHeader(c, at).value == h <==> h.opcode < 16
    ensures Reads(c, at + 12, rest, end)
  {
    hide Reads, ReadName, FlagsA, FlagsB, Flagged;
    var t3 := Int16(h.resourceEntries, rest);
    var t2 := Int16(h.authoritativeEntries, t3);
    var t1 := Int16(h.answers, t2);
    var t0 := Int16(h.questions, t1);
    ReadsInt16(c, at, h.id, Raw([FlagsA(h)], Raw([FlagsB(h)], t0)), end);
    RawReads(c, at + 2, [FlagsA(h)], Raw([FlagsB(h)], t0), end);
    RawReads(c, at + 3, [FlagsB(h)], t0, end);
    assert c[at + 2] == c[at + 2..at + 3][0] && c[at + 3] == c[at + 3..at + 4][0];
    Byte256(FlagsA(h), FlagsB(h));
    ReadsInt16(c, at + 4, h.questions, t1, end);
    ReadsInt16(c, at + 6, h.answers, t2, end);
    ReadsInt16(c, at + 8, h.authoritativeEntries, t3, end);
    ReadsInt16(c, at + 10, h.resourceEntries, rest, end);
    FlagsRead(h);
  }

  // ---------------------------------------------------------------------------
  // Questions
  // ---------------------------------------------------------------------------

  datatype DnsQuestion = DnsQuestion(name: Text, qtype: QueryType) {
    /** `binary_len`: one byte more than every label, and one to start with. */
    function BinaryLen(): nat {
      1 + SumLabels(Labels(name))
    }
  }

  function SumLabels(ls: seq<Text>): nat {
    if ls == [] then 0 else |ls[0]| + 1 + SumLabels(ls[1..])
  }

  lemma {:induction false} BinaryLenIsLength(q: DnsQuestion)
    ensures q.BinaryLen() == |q.name| + 2
  {
    SumLabelsIsLength(q.name);
  }

  lemma {:induction false} SumLabelsIsLength(s: Text)
    ensures SumLabels(Labels(s)) == |s| + 1
    decreases |s|
  {
    hide FirstDot;
    SplitLabels(s);
    var i := FirstDot(s);
    if i < |s| {
      SumLabelsIsLength(s[i + 1..]);
      assert Labels(s)[1..] == Labels(s[i + 1..]);
    } else {
      assert Labels(s)[1..] == [];
    }
  }

  function QuestionPieces(qs: seq<DnsQuestion>): Pieces {
    if qs == [] then End
    else Dom(qs[0].name, Int16(qs[0].qtype.ToNum(), Int16(1, QuestionPieces(qs[1..]))))
  }

  function ReadQuestion(b: seq<byte>, at: nat): Parse<DnsQuestion> {
    var (name, at) :- ReadName(b, at);
    var (num, at) :- ReadU16(b, at);
    var (_, at) :- ReadU16(b, at);
    Done(DnsQuestion(name, FromNum(num)), at)
  }

  function ReadQuestions(b: seq<byte>, at: nat, n: nat): Parse<seq<DnsQuestion>>
    decreases n
  {
    if n == 0 then Done([], at)
    else
      var (q, at) :- ReadQuestion(b, at);
      var (qs, at) :- ReadQuestions(b, at, n - 1);
      Done([q] + qs, at)
  }

  /** What a question becomes when written and read: the name lower-cased, the type through its number. */
  function AskedBack(qs: seq<DnsQuestion>): (r: seq<DnsQuestion>)
    ensures |r| == |qs|
  {
    if qs == [] then []
    else [DnsQuestion(Lower(qs[0].name), FromNum(qs[0].qtype.ToNum()))] + AskedBack(qs[1..])
  }

  lemma QuestionReads(c: seq<byte>, at: nat, q: DnsQuestion, tail: Pieces, end: nat) returns (next: nat)
    requires Reads(c, at, Dom(q.name, Int16(q.qtype.ToNum(), Int16(1, tail))), end)
    ensures ReadQuestion(c, at) == Done(DnsQuestion(Lower(q.name), FromNum(q.qtype.ToNum())), next)
    ensures Reads(c, next, tail, end)
  {
    var num := q.qtype.ToNum();
    var mid := DomReads(c, at, q.name, Int16(num, Int16(1, tail)), end);
    hide Reads, ReadName, Lower, ReadU16, FromNum;
    ReadsInt16(c, mid, num, Int16(1, tail), end);
    ReadsInt16(c, mid + 2, 1, tail, end);
    next := mid + 4;
  }

  lemma {:induction false} QuestionsRead(c: seq<byte>, at: nat, qs: seq<DnsQuestion>, end: nat)
    requires Reads(c, at, QuestionPieces(qs), end)
    ensures ReadQuestions(c, at, |qs|) == Done(AskedBack(qs), end)
    decreases |qs|
  {
    hide Reads, ReadQuestion, Lower, FromNum;
    if qs == [] {
      EndReads(c, at, end);
    } else {
      var next := QuestionReads(c, at, qs[0], QuestionPieces(qs[1..]), end);
      QuestionsRead(c, next, qs[1..], end);
    }
  }

  // ---------------------------------------------------------------------------
  // Records in a row
  // ---------------------------------------------------------------------------

  function EncRecords(table: Table, at: nat, rs: seq<DnsRecord>): Enc
    decreases |rs|
  {
    if rs == [] then Enc([], table)
    else
      var e := EncRecord(table, at, rs[0]);
      var r := EncRecords(e.table, at + |e.chunk|, rs[1..]);
      Enc(e.chunk + r.chunk, r.table)
  }

  /** Every pointer in a row of records leads where a pointer can lead. */
  predicate RecordsInReach(table: Table, at: nat, rs: seq<DnsRecord>)
    decreases |rs|
  {
    rs == [] ||
      var e := EncRecord(table, at, rs[0]);
      RecordInReach(table, at, rs[0]) && RecordsInReach(e.table, at + |e.chunk|, rs[1..])
  }

  lemma {:induction false} RecordsWithin(table: Table, at: nat, rs: seq<DnsRecord>)
    requires SavedBelow(table, at) && at + |EncRecords(table, at, rs).chunk| <= 0x4000
    ensures RecordsInReach(table, at, rs)
    decreases |rs|
  {
    hide EncRecord, RecordInReach, SavedBelow;
    if rs != [] {
      var e := EncRecord(table, at, rs[0]);
      RecordWithin(table, at, rs[0]);
      RecordsWithin(e.table, at + |e.chunk|, rs[1..]);
    }
  }

  function ReadRecords(b: seq<byte>, at: nat, n: nat): Parse<seq<DnsRecord>>
    decreases n
  {
    if n == 0 then Done([], at)
    else
      var (r, at) :- ReadRecord(b, at);
      var (rs, at) :- ReadRecords(b, at, n - 1);
      Done([r] + rs, at)
  }

  /** The records that are really written: all but the UNKNOWN ones. */
  function Emitted(rs: seq<DnsRecord>): seq<DnsRecord> {
    if rs == [] then []
    else if rs[0].UNKNOWN? then Emitted(rs[1..])
    else [rs[0]] + Emitted(rs[1..])
  }

  function ReadbackAll(rs: seq<DnsRecord>): (r: seq<DnsRecord>)
    ensures |r| == |rs|
  {
    if rs == [] then [] else [Readback(rs[0])] + ReadbackAll(rs[1..])
  }

  predicate GoodRecords(rs: seq<DnsRecord>) {
    forall r | r in rs :: GoodRecord(r)
  }

  /** A row of records reads back, minus the UNKNOWN ones, and the reader stops where they stop. */
  lemma {:induction false} RecordsRoundTrip(b: seq<byte>, table: Table, rs: seq<DnsRecord>, more: seq<byte>)
    requires GoodRecords(rs) && TableOk(b, table)
    requires RecordsInReach(table, |b|, rs)
    ensures var e := EncRecords(table, |b|, rs); var w := Emitted(rs);
      ReadRecords(b + e.chunk + more, |b|, |w|) == Done(ReadbackAll(w), |b| + |e.chunk|)
    decreases |rs|
  {
    hide EncRecord, ReadRecord, Readback, GoodRecord, TableOk, RecordInReach;
    if rs == [] {
    } else {
      var e := EncRecord(table, |b|, rs[0]);
      var r := EncRecords(e.table, |b| + |e.chunk|, rs[1..]);
      Assoc(b, e.chunk, r.chunk);
      Assoc(b + e.chunk, r.chunk, more);
      assert rs[0] in rs;
      if rs[0].UNKNOWN? {
        UnknownIsSkipped(table, |b|, rs[0]);
        assert b + [] == b;
      } else {
        RecordRoundTrip(b, table, rs[0], r.chunk + more);
      }
      RecordsRoundTrip(b + e.chunk, e.table, rs[1..], more);
      if !rs[0].UNKNOWN? {
        var w := Emitted(rs[1..]);
        assert Emitted(rs)[1..] == w;
      }
    }
  }

  /** Reading n records and then m is reading n + m. */
  lemma {:induction false} ReadRecordsSplit(b: seq<byte>, at: nat, n: nat, m: nat)
    ensures ReadRecords(b, at, n + m) == match ReadRecords(b, at, n)
      case Done(xs, mid) => (match ReadRecords(b, mid, m)
        case Done(ys, end) => Done(xs + ys, end)
        case other => other)
      case other => other
    decreases n
  {
    hide ReadRecord;
    if n == 0 {
      match ReadRecords(b, at, m)
      case Done(ys, end) => assert [] + ys == ys;
      case other =>
    } else if ReadRecord(b, at).Done? {
      var first := ReadRecord(b, at);
      ReadRecordsSplit(b, first.next, n - 1, m);
      match ReadRecords(b, first.next, n - 1)
      case Done(xs, mid) =>
        if ReadRecords(b, mid, m).Done? {
          Assoc([first.value], xs, ReadRecords(b, mid, m).value);
        }
      case other =>
    }
  }

  lemma PastTheEnd(b: seq<byte>, n: nat)
    requires n > 0
    ensures ReadRecords(b, |b|, n) == Fault
  {
    assert Walk(b, |b|, |b| + 1) == OutOfBounds;
  }

  lemma {:induction false} EmittedAll(rs: seq<DnsRecord>)
    ensures |Emitted(rs)| <= |rs|
    ensures |Emitted(rs)| == |rs| <==> forall i | 0 <= i < |rs| :: !rs[i].UNKNOWN?
    ensures |Emitted(rs)| == |rs| ==> Emitted(rs) == rs
  {
    if rs != [] {
      EmittedAll(rs[1..]);
      assert forall i | 1 <= i < |rs| :: rs[i] == rs[1..][i - 1];
    }
  }
}
