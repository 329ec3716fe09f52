/** Whole messages: what `DnsPacket::write` emits, where it truncates, and what
    `DnsPacket::from_buffer` makes of the result. */
module Messages {
  import opened Data
  import opened Names
  import opened NameCodec
  import opened Layout
  import opened PacketBuffers
  import opened Records
  import opened Packets

  /** The contents of a DnsPacket. */
  datatype Message = Message(
    header: DnsHeader,
    questions: seq<DnsQuestion>,
    answers: seq<DnsRecord>,
    authorities: seq<DnsRecord>,
    resources: seq<DnsRecord>)
  {
    function Records(): seq<DnsRecord> {
      answers + authorities + resources
    }
  }

  datatype Sections = Sections(answers: seq<DnsRecord>, authorities: seq<DnsRecord>, resources: seq<DnsRecord>)

  function ReadSections(b: seq<byte>, at: nat, n1: nat, n2: nat, n3: nat): Parse<Sections> {
    var (answers, at) :- ReadRecords(b, at, n1);
    var (authorities, at) :- ReadRecords(b, at, n2);
    var (resources, at) :- ReadRecords(b, at, n3);
    Done(Sections(answers, authorities, resources), at)
  }

  /** `DnsPacket::from_buffer` */
  function ReadPacket(b: seq<byte>, at: nat): Parse<Message> {
    var (h, at) :- ReadHeader(b, at);
    var (questions, at) :- ReadQuestions(b, at, h.questions);
    var (s, at) :- ReadSections(b, at, h.answers, h.authoritativeEntries, h.resourceEntries);
    Done(Message(h, questions, s.answers, s.authorities, s.resources), at)
  }

  /** Header, questions and records written in a row. */
  function EncMessage(table: Table, at: nat, h: DnsHeader, qs: seq<DnsQuestion>, rs: seq<DnsRecord>): Enc {
    var f := Encode(table, at, HeaderPieces(h, QuestionPieces(qs)));
    var r := EncRecords(f.table, at + |f.chunk|, rs);
    Enc(f.chunk + r.chunk, r.table)
  }

  /** Every pointer in a message written into an empty buffer leads where a pointer can lead. */
  predicate MessageInReach(h: DnsHeader, qs: seq<DnsQuestion>, rs: seq<DnsRecord>) {
    var p := HeaderPieces(h, QuestionPieces(qs));
    var f := Encode(map[], 0, p);
    InReach(map[], 0, p) && RecordsInReach(f.table, |f.chunk|, rs)
  }

  /** It does in a message of no more than 0x4000 bytes. */
  lemma MessageWithin(h: DnsHeader, qs: seq<DnsQuestion>, rs: seq<DnsRecord>)
    requires |EncMessage(map[], 0, h, qs, rs).chunk| <= 0x4000
    ensures MessageInReach(h, qs, rs)
  {
    hide Encode, InReach, EncRecords, RecordsInReach, HeaderPieces, QuestionPieces;
    var p := HeaderPieces(h, QuestionPieces(qs));
    var f := Encode(map[], 0, p);
    PiecesInReach(map[], 0, p);
    RecordsWithin(f.table, |f.chunk|, rs);
  }

  // ---------------------------------------------------------------------------
  // The dry run
  // ---------------------------------------------------------------------------

  function QuestionsLen(qs: seq<DnsQuestion>): nat {
    if qs == [] then 0 else qs[0].BinaryLen() + QuestionsLen(qs[1..])
  }

  /** How many records go in before the running size passes the limit. */
  function Fitting(table: Table, at: nat, rs: seq<DnsRecord>, size: nat, maxSize: nat): (n: nat)
    ensures n <= |rs|
    decreases |rs|
  {
    if rs == [] then 0
    else
      var e := EncRecord(table, at, rs[0]);
      if size + |e.chunk| > maxSize then 0
      else 1 + Fitting(e.table, at + |e.chunk|, rs[1..], size + |e.chunk|, maxSize)
  }

  /** The number of records kept: measured in a second buffer that holds no header, starting from
      the uncompressed length of the questions. */
  function Kept(qs: seq<DnsQuestion>, rs: seq<DnsRecord>, maxSize: nat): (n: nat)
    ensures n <= |rs|
  {
    var q := Encode(map[], 0, QuestionPieces(qs));
    Fitting(q.table, |q.chunk|, rs, 12 + QuestionsLen(qs), maxSize)
  }

  function Clamp(n: int, top: nat): nat {
    if n < 0 then 0 else if n > top then top else n
  }

  /** The header after `write`: counters advanced for the records kept, the truncation flag set if
      one was dropped. */
  function FinalHeader(m: Message, kept: nat): DnsHeader {
    var (a, b, c) := (|m.answers|, |m.authorities|, |m.resources|);
    m.header.(
      truncatedMessage := m.header.truncatedMessage || kept < a + b + c,
      questions := |m.questions| % 0x1_0000,
      answers := (m.header.answers + Clamp(kept, a)) % 0x1_0000,
      authoritativeEntries := (m.header.authoritativeEntries + Clamp(kept - a, b)) % 0x1_0000,
      resourceEntries := (m.header.resourceEntries + Clamp(kept - a - b, c)) % 0x1_0000)
  }

  /** The bytes `DnsPacket::write` puts into an empty buffer. */
  function Output(m: Message, maxSize: nat): seq<byte> {
    var kept := Kept(m.questions, m.Records(), maxSize);
    EncMessage(map[], 0, FinalHeader(m, kept), m.questions, m.Records()[..kept]).chunk
  }

  /** Every pointer in that output leads where a pointer can lead. */
  predicate OutputInReach(m: Message, maxSize: nat) {
    var kept := Kept(m.questions, m.Records(), maxSize);
    MessageInReach(FinalHeader(m, kept), m.questions, m.Records()[..kept])
  }

  /** An output of no more than 0x4000 bytes needs no other pointers. */
  lemma OutputWithin(m: Message, maxSize: nat)
    requires |Output(m, maxSize)| <= 0x4000
    ensures OutputInReach(m, maxSize)
  {
    hide EncMessage, MessageInReach, FinalHeader, Kept;
    var kept := Kept(m.questions, m.Records(), maxSize);
    MessageWithin(FinalHeader(m, kept), m.questions, m.Records()[..kept]);
  }

  lemma RecordShift(table: Table, table': Table, at: nat, at': nat, rec: DnsRecord, d: nat)
    requires Shifted(table, table', d) && at' == at + d
    ensures var e, e' := EncRecord(table, at, rec), EncRecord(table', at', rec);
      |e'.chunk| == |e.chunk| && Shifted(e.table, e'.table, d)
  {
    hide Encode, Shifted, Headed, Body;
    if !rec.UNKNOWN? {
      EncodeShift(table, table', at, at', Headed(rec, End), d);
      var h, h' := Encode(table, at, Headed(rec, End)), Encode(table', at', Headed(rec, End));
      EncodeShift(h.table, h'.table, at + |h.chunk| + 2, at' + |h'.chunk| + 2, Body(rec), d);
    }
  }

  lemma {:induction false} RecordsShift(table: Table, table': Table, at: nat, at': nat, rs: seq<DnsRecord>, d: nat)
    requires Shifted(table, table', d) && at' == at + d
    ensures |EncRecords(table', at', rs).chunk| == |EncRecords(table, at, rs).chunk|
    decreases |rs|
  {
    hide EncRecord, Shifted;
    if rs != [] {
      RecordShift(table, table', at, at', rs[0], d);
      var e, e' := EncRecord(table, at, rs[0]), EncRecord(table', at', rs[0]);
      RecordsShift(e.table, e'.table, at + |e.chunk|, at' + |e'.chunk|, rs[1..], d);
    }
  }

  lemma {:induction false} HeaderLength(h: DnsHeader, rest: Pieces, table: Table, at: nat)
    ensures var r := Encode(table, at + 12, rest); var e := Encode(table, at, HeaderPieces(h, rest));
      |e.chunk| == 12 + |r.chunk| && e.table == r.table
  {
    hide Encode, FlagsA, FlagsB, U16Bytes;
    var t3 := Int16(h.resourceEntries, rest);
    var t2 := Int16(h.authoritativeEntries, t3);
    var t1 := Int16(h.answers, t2);
    var t0 := Int16(h.questions, t1);
    var a1 := Raw([FlagsB(h)], t0);
    var a0 := Raw([FlagsA(h)], a1);
    RawLength(table, at, U16Bytes(h.id), a0);
    RawLength(table, at + 2, [FlagsA(h)], a1);
    RawLength(table, at + 3, [FlagsB(h)], t0);
    RawLength(table, at + 4, U16Bytes(h.questions), t1);
    RawLength(table, at + 6, U16Bytes(h.answers), t2);
    RawLength(table, at + 8, U16Bytes(h.authoritativeEntries), t3);
    RawLength(table, at + 10, U16Bytes(h.resourceEntries), rest);
  }

  lemma DomLength(table: Table, at: nat, s: Text, rest: Pieces)
    ensures var n := EncName(table, at, s);
      && |n.chunk| <= |s| + 2
      && |Encode(table, at, Dom(s, rest)).chunk| == |n.chunk| + |Encode(n.table, at + |n.chunk|, rest).chunk|
  {
    hide EncName, Encode;
    NameLength(table, at, s);
    EncodeDom(table, at, s, rest);
  }

  lemma RawLength(table: Table, at: nat, x: seq<byte>, rest: Pieces)
    ensures var r := Encode(table, at + |x|, rest); var e := Encode(table, at, Raw(x, rest));
      |e.chunk| == |x| + |r.chunk| && e.table == r.table
  {
  }

  /** The dry run is exact: although every offset is twelve bytes lower in it, any number of
      records takes as many bytes there as in the real run. */
  lemma DryRunIsExact(h: DnsHeader, qs: seq<DnsQuestion>, rs: seq<DnsRecord>)
    ensures var q := Encode(map[], 0, QuestionPieces(qs));
      |EncMessage(map[], 0, h, qs, rs).chunk| == 12 + |q.chunk| + |EncRecords(q.table, |q.chunk|, rs).chunk|
  {
    hide Encode, HeaderPieces, EncRecords;
    var p := QuestionPieces(qs);
    HeaderLength(h, p, map[], 0);
    var q, q' := Encode(map[], 0, p), Encode(map[], 12, p);
    EncodeShift(map[], map[], 0, 12, p, 12);
    RecordsShift(q.table, q'.table, |q.chunk|, 12 + |q'.chunk|, rs, 12);
  }

  /** The records kept fit, and one more would not. */
  lemma {:induction false} FittingIsGreatest(table: Table, at: nat, rs: seq<DnsRecord>, size: nat, maxSize: nat)
    ensures var n := Fitting(table, at, rs, size, maxSize);
      && (n > 0 ==> size + |EncRecords(table, at, rs[..n]).chunk| <= maxSize)
      && (n < |rs| ==> size + |EncRecords(table, at, rs[..n + 1]).chunk| > maxSize)
    decreases |rs|
  {
    hide EncRecord, EncRecords;
    if rs != [] {
      var e := EncRecord(table, at, rs[0]);
      var n := Fitting(table, at, rs, size, maxSize);
      NoRecords(e.table, at + |e.chunk|, rs[1..][..0]);
      if n == 0 {
        FirstOf(table, at, rs, 1);
      } else {
        FirstOf(table, at, rs, n);
        FittingIsGreatest(e.table, at + |e.chunk|, rs[1..], size + |e.chunk|, maxSize);
        if n < |rs| {
          FirstOf(table, at, rs, n + 1);
        }
      }
    }
  }

  lemma FirstOf(table: Table, at: nat, rs: seq<DnsRecord>, n: nat)
    requires 0 < n <= |rs|
    ensures var e := EncRecord(table, at, rs[0]);
      |EncRecords(table, at, rs[..n]).chunk| ==
        |e.chunk| + |EncRecords(e.table, at + |e.chunk|, rs[1..][..n - 1]).chunk|
  {
    hide EncRecord;
    assert rs[..n][0] == rs[0] && rs[..n][1..] == rs[1..][..n - 1];
  }

  lemma {:induction false} QuestionsLength(table: Table, at: nat, qs: seq<DnsQuestion>)
    ensures |Encode(table, at, QuestionPieces(qs)).chunk| <= QuestionsLen(qs) + 4 * |qs|
    decreases |qs|
  {
    hide EncName, SumLabels, Encode, QuestionPieces, U16Bytes;
    QuestionPiecesStep(qs);
    if qs == [] {
      EncodeEnd(table, at);
    } else {
      var q := qs[0];
      var e := EncName(table, at, q.name);
      var rest := QuestionPieces(qs[1..]);
      DomLength(table, at, q.name, Int16(q.qtype.ToNum(), Int16(1, rest)));
      BinaryLenIsLength(q);
      RawLength(e.table, at + |e.chunk|, U16Bytes(q.qtype.ToNum()), Int16(1, rest));
      RawLength(e.table, at + |e.chunk| + 2, U16Bytes(1), rest);
      QuestionsLength(e.table, at + |e.chunk| + 4, qs[1..]);
    }
  }

  lemma QuestionPiecesStep(qs: seq<DnsQuestion>)
    ensures QuestionPieces(qs) ==
      if qs == [] then End
      else Dom(qs[0].name, Int16(qs[0].qtype.ToNum(), Int16(1, QuestionPieces(qs[1..]))))
  {
  }

  /** Truncation: the output stays within the limit (or within what the header and questions take
      anyway), give or take the four bytes per question that `binary_len` forgets; the flag is set
      exactly when a record was dropped; and a record is dropped only if it would not have fitted. */
  lemma Truncation(m: Message, maxSize: nat)
    requires !m.header.truncatedMessage
    ensures var base, kept := 12 + QuestionsLen(m.questions), Kept(m.questions, m.Records(), maxSize);
      && |Output(m, maxSize)| <= (if maxSize > base then maxSize else base) + 4 * |m.questions|
      && (FinalHeader(m, kept).truncatedMessage <==> kept < |m.Records()|)
      && (kept < |m.Records()| ==>
            |EncMessage(map[], 0, m.header, m.questions, m.Records()[..kept + 1]).chunk| + QuestionsLen(m.questions)
              > maxSize + |Encode(map[], 0, QuestionPieces(m.questions)).chunk|)
  {
    hide Encode, EncRecords, EncMessage, Fitting, QuestionsLen, QuestionPieces;
    var qs, rs := m.questions, m.Records();
    var kept := Kept(qs, rs, maxSize);
    var q := Encode(map[], 0, QuestionPieces(qs));
    var base := 12 + QuestionsLen(qs);
    FittingIsGreatest(q.table, |q.chunk|, rs, base, maxSize);
    DryRunIsExact(FinalHeader(m, kept), qs, rs[..kept]);
    QuestionsLength(map[], 0, qs);
    if kept < |rs| {
      DryRunIsExact(m.header, qs, rs[..kept + 1]);
    }
    if kept == 0 {
      NoRecords(q.table, |q.chunk|, rs[..0]);
    }
  }

  lemma NoRecords(table: Table, at: nat, rs: seq<DnsRecord>)
    requires rs == []
    ensures EncRecords(table, at, rs) == Enc([], table)
  {
  }

  // ---------------------------------------------------------------------------
  // Round trip
  // ---------------------------------------------------------------------------

  lemma {:induction false} ReadRecordsLength(b: seq<byte>, at: nat, n: nat)
    ensures ReadRecords(b, at, n).Done? ==> |ReadRecords(b, at, n).value| == n
    decreases n
  {
    hide ReadRecord;
    if n > 0 && ReadRecord(b, at).Done? {
      ReadRecordsLength(b, ReadRecord(b, at).next, n - 1);
    }
  }

  /** Reading three sections in turn is reading one row of records and cutting it in three. */
  lemma SectionsOfRow(b: seq<byte>, at: nat, n1: nat, n2: nat, n3: nat)
    ensures ReadSections(b, at, n1, n2, n3) == match ReadRecords(b, at, n1 + n2 + n3)
      case Done(xs, end) =>
        if |xs| == n1 + n2 + n3 then Done(Sections(xs[..n1], xs[n1..n1 + n2], xs[n1 + n2..]), end) else Fault
      case Fault => Fault
      case Diverges => Diverges
  {
    hide ReadRecords;
    ReadRecordsSplit(b, at, n1, n2 + n3);
    assert n1 + (n2 + n3) == n1 + n2 + n3;
    ReadRecordsLength(b, at, n1);
    var first := ReadRecords(b, at, n1);
    if first.Done? {
      ReadRecordsSplit(b, first.next, n2, n3);
      ReadRecordsLength(b, first.next, n2);
      var second := ReadRecords(b, first.next, n2);
      if second.Done? {
        ReadRecordsLength(b, second.next, n3);
        var third := ReadRecords(b, second.next, n3);
        if third.Done? {
          var all := first.value + (second.value + third.value);
          assert all[..n1] == first.value && all[n1..n1 + n2] == second.value && all[n1 + n2..] == third.value;
        }
      }
    }
  }

  lemma {:induction false} ReadbackAppend(a: seq<DnsRecord>, b: seq<DnsRecord>)
    ensures ReadbackAll(a + b) == ReadbackAll(a) + ReadbackAll(b)
  {
    hide Readback;
    if a == [] {
      assert a + b == b;
    } else {
      assert (a + b)[1..] == a[1..] + b;
      ReadbackAppend(a[1..], b);
    }
  }

  /** What the wire format asks of a message: an opcode of four bits, names of good labels, counts
      that start at zero and fit sixteen bits. */
  predicate Sendable(m: Message) {
    && m.header.opcode < 16
    && m.header.answers == m.header.authoritativeEntries == m.header.resourceEntries == 0
    && |m.questions| < 0x1_0000 && |m.answers| < 0x1_0000
    && |m.authorities| < 0x1_0000 && |m.resources| < 0x1_0000
    && (forall q | q in m.questions :: GoodName(q.name))
    && GoodRecords(m.Records())
  }

  /** What the reader should find: the final header, the questions, and in each section its share
      of the records kept. */
  function Delivered(m: Message, kept: nat): Message {
    var (a, b, c) := (|m.answers|, |m.authorities|, |m.resources|);
    Message(FinalHeader(m, kept), AskedBack(m.questions),
      ReadbackAll(m.answers[..Clamp(kept, a)]),
      ReadbackAll(m.authorities[..Clamp(kept - a, b)]),
      ReadbackAll(m.resources[..Clamp(kept - a - b, c)]))
  }

  lemma {:induction false} GoodQuestions(qs: seq<DnsQuestion>)
    requires forall q | q in qs :: GoodName(q.name)
    ensures GoodNames(QuestionPieces(qs))
    decreases |qs|
  {
    hide GoodName;
    QuestionPiecesStep(qs);
    if qs != [] {
      assert qs[0] in qs;
      GoodQuestions(qs[1..]);
      assert GoodNames(Int16(1, QuestionPieces(qs[1..])));
    }
  }

  lemma HeaderGood(h: DnsHeader, rest: Pieces)
    requires GoodNames(rest)
    ensures GoodNames(HeaderPieces(h, rest))
  {
    hide FlagsA, FlagsB;
    var t2 := Int16(h.authoritativeEntries, Int16(h.resourceEntries, rest));
    assert GoodNames(t2);
    var t0 := Int16(h.questions, Int16(h.answers, t2));
    assert GoodNames(t0);
    assert GoodNames(Raw([FlagsA(h)], Raw([FlagsB(h)], t0)));
  }

  /** Header and questions read back, and leave the records to be read where they were written. */
  lemma FrontReads(h: DnsHeader, qs: seq<DnsQuestion>, more: seq<byte>)
    requires h.opcode < 16 && forall q | q in qs :: GoodName(q.name)
    requires InReach(map[], 0, HeaderPieces(h, QuestionPieces(qs)))
    ensures var f := Encode(map[], 0, HeaderPieces(h, QuestionPieces(qs)));
      && TableOk(f.chunk, f.table)
      && ReadHeader(f.chunk + more, 0) == Done(h, 12)
      && ReadQuestions(f.chunk + more, 12, |qs|) == Done(AskedBack(qs), |f.chunk|)
  {
    hide Encode, Reads, ReadHeader, ReadQuestions, QuestionPieces, HeaderPieces, GoodNames, InReach;
    var p := QuestionPieces(qs);
    GoodQuestions(qs);
    HeaderGood(h, p);
    var f := Encode(map[], 0, HeaderPieces(h, p));
    EmptyTable();
    RoundTrip([], map[], HeaderPieces(h, p), more);
    assert [] + f.chunk == f.chunk;
    HeaderRoundTrip(f.chunk + more, 0, h, p, |f.chunk|);
    QuestionsRead(f.chunk + more, 12, qs, |f.chunk|);
  }

  lemma NothingMore(b: seq<byte>)
    ensures b + [] == b
  {
  }

  /** The row of records in a message, read as one. */
  lemma RowReads(h: DnsHeader, qs: seq<DnsQuestion>, rs: seq<DnsRecord>)
    requires h.opcode < 16 && (forall q | q in qs :: GoodName(q.name)) && GoodRecords(rs)
    requires MessageInReach(h, qs, rs)
    ensures var out := EncMessage(map[], 0, h, qs, rs).chunk;
      && ReadHeader(out, 0) == Done(h, 12)
      && ReadQuestions(out, 12, |qs|).Done? && ReadQuestions(out, 12, |qs|).value == AskedBack(qs)
      && var start := ReadQuestions(out, 12, |qs|).next;
      && ((forall i | 0 <= i < |rs| :: !rs[i].UNKNOWN?) ==>
            ReadRecords(out, start, |rs|) == Done(ReadbackAll(rs), |out|))
      && (!(forall i | 0 <= i < |rs| :: !rs[i].UNKNOWN?) ==> ReadRecords(out, start, |rs|) == Fault)
  {
    hide Encode, ReadRecords, ReadQuestions, ReadHeader, EncRecords, ReadbackAll, AskedBack, GoodRecords, GoodName,
      TableOk, Emitted, HeaderPieces, QuestionPieces, InReach, RecordsInReach;
    var f := Encode(map[], 0, HeaderPieces(h, QuestionPieces(qs)));
    var r := EncRecords(f.table, |f.chunk|, rs);
    FrontReads(h, qs, r.chunk);
    var out := f.chunk + r.chunk;
    RecordsRoundTrip(f.chunk, f.table, rs, []);
    NothingMore(out);
    EmittedAll(rs);
    var w := |Emitted(rs)|;
    if w < |rs| {
      ReadRecordsSplit(out, |f.chunk|, w, |rs| - w);
      PastTheEnd(out, |rs| - w);
    }
  }

  lemma PrefixOfRow<T>(a: seq<T>, b: seq<T>, c: seq<T>, k: nat)
    requires k <= |a + b + c|
    ensures (a + b + c)[..k] == a[..Clamp(k, |a|)] + b[..Clamp(k - |a|, |b|)] + c[..Clamp(k - |a| - |b|, |c|)]
  {
  }

  lemma CutInThree<T>(x: seq<T>, y: seq<T>, z: seq<T>, n1: nat, n2: nat)
    requires n1 == |x| && n2 == |y|
    ensures var all := x + y + z; all[..n1] == x && all[n1..n1 + n2] == y && all[n1 + n2..] == z
  {
  }

  /** The counters the writer leaves are the shares of the kept records. */
  lemma Counters(m: Message, kept: nat)
    requires Sendable(m) && kept <= |m.Records()|
    ensures var h := FinalHeader(m, kept);
      && h.answers == Clamp(kept, |m.answers|)
      && h.authoritativeEntries == Clamp(kept - |m.answers|, |m.authorities|)
      && h.resourceEntries == Clamp(kept - |m.answers| - |m.authorities|, |m.resources|)
      && h.answers as nat + h.authoritativeEntries as nat + h.resourceEntries as nat == kept
      && h.questions == |m.questions| && h.opcode < 16
  {
    hide GoodRecord, GoodName;
  }

  /** And they cut the row of the kept records into its sections. */
  lemma SharesOf(m: Message, kept: nat)
    requires Sendable(m) && kept <= |m.Records()|
    ensures var h := FinalHeader(m, kept); var xs := ReadbackAll(m.Records()[..kept]);
      var (n1, n2, n3) := (h.answers as nat, h.authoritativeEntries as nat, h.resourceEntries as nat);
      && n1 + n2 + n3 == kept == |xs| && h.questions == |m.questions| && h.opcode < 16
      && Delivered(m, kept) == Message(h, AskedBack(m.questions), xs[..n1], xs[n1..n1 + n2], xs[n1 + n2..])
  {
    hide ReadbackAll, AskedBack, FinalHeader, Sendable;
    Counters(m, kept);
    var (a, b, c) := (|m.answers|, |m.authorities|, |m.resources|);
    var (x, y) := (m.answers[..Clamp(kept, a)], m.authorities[..Clamp(kept - a, b)]);
    var z := m.resources[..Clamp(kept - a - b, c)];
    PrefixOfRow(m.answers, m.authorities, m.resources, kept);
    ReadbackAppend(x + y, z);
    ReadbackAppend(x, y);
    CutInThree(ReadbackAll(x), ReadbackAll(y), ReadbackAll(z), |x|, |y|);
  }

  /** Writing a message into an empty buffer and parsing it gives back its header, its questions
      and exactly the records kept, in their sections, and consumes every byte. It does so exactly
      when no kept record is UNKNOWN: those are counted but not written, and the reader then runs
      off the end. */
  lemma PacketRoundTrip(m: Message, maxSize: nat)
    requires Sendable(m) && OutputInReach(m, maxSize)
    ensures var kept := Kept(m.questions, m.Records(), maxSize);
      var out := Output(m, maxSize);
      if forall i | 0 <= i < kept :: !m.Records()[i].UNKNOWN? then
        ReadPacket(out, 0) == Done(Delivered(m, kept), |out|)
      else
        ReadPacket(out, 0) == Fault
  {
    hide ReadHeader, ReadQuestions, ReadSections, ReadRecords, EncMessage, ReadbackAll, GoodRecord, GoodName, Kept,
      AskedBack, FinalHeader, Delivered, MessageInReach;
    var kept := Kept(m.questions, m.Records(), maxSize);
    var h, rs := FinalHeader(m, kept), m.Records()[..kept];
    var out := Output(m, maxSize);
    assert forall r | r in rs :: r in m.Records();
    SharesOf(m, kept);
    RowReads(h, m.questions, rs);
    var start := ReadQuestions(out, 12, |m.questions|).next;
    SectionsOfRow(out, start, h.answers, h.authoritativeEntries, h.resourceEntries);
    assert (forall i | 0 <= i < kept :: !m.Records()[i].UNKNOWN?) <==> (forall i | 0 <= i < |rs| :: !rs[i].UNKNOWN?);
  }

  /** A message no part of which is changed by a trip over the wire. */
  predicate Plain(m: Message) {
    && (forall q | q in m.questions :: Lower(q.name) == q.name && FromNum(q.qtype.ToNum()) == q.qtype)
    && (forall r | r in m.Records() :: LowerCase(r) && IsText(r) && !r.TXT? && !r.UNKNOWN?)
  }

  lemma {:induction false} ReadbackSame(rs: seq<DnsRecord>)
    requires forall r | r in rs :: LowerCase(r) && IsText(r) && !r.TXT?
    ensures ReadbackAll(rs) == rs
  {
    hide Readback, LowerCase, IsText;
    if rs != [] {
      ReadbackIsExact(rs[0]);
      ReadbackSame(rs[1..]);
    }
  }

  lemma {:induction false} AskedBackSame(qs: seq<DnsQuestion>)
    requires forall q | q in qs :: Lower(q.name) == q.name && FromNum(q.qtype.ToNum()) == q.qtype
    ensures AskedBack(qs) == qs
  {
    hide Lower, FromNum;
    if qs != [] {
      assert qs[0] in qs;
      AskedBackSame(qs[1..]);
    }
  }

  /** Lower-case names, ordinary query types, text, no TXT and no UNKNOWN: what was kept comes back equal,
      and if everything was kept the parsed message differs from the written one in no field. */
  lemma PlainPacketRoundTrip(m: Message, maxSize: nat)
    requires Sendable(m) && Plain(m) && OutputInReach(m, maxSize)
    ensures var kept := Kept(m.questions, m.Records(), maxSize); var p := ReadPacket(Output(m, maxSize), 0);
      && p.Done? && p.next == |Output(m, maxSize)|
      && p.value.header == FinalHeader(m, kept) && p.value.questions == m.questions
      && p.value.Records() == m.Records()[..kept]
      && (kept == |m.Records()| ==> p.value == m.(header := FinalHeader(m, kept)))
  {
    hide ReadPacket, Output, Kept, FinalHeader, ReadbackAll, AskedBack, LowerCase, IsText, GoodRecord, GoodName, Lower,
      FromNum, OutputInReach;
    var kept := Kept(m.questions, m.Records(), maxSize);
    PacketRoundTrip(m, maxSize);
    var (a, b, c) := (|m.answers|, |m.authorities|, |m.resources|);
    var (x, y) := (m.answers[..Clamp(kept, a)], m.authorities[..Clamp(kept - a, b)]);
    var z := m.resources[..Clamp(kept - a - b, c)];
    PrefixOfRow(m.answers, m.authorities, m.resources, kept);
    assert forall i | 0 <= i < kept :: m.Records()[i] in m.Records();
    InRow(m.answers, m.authorities, m.resources, kept);
    ReadbackSame(x);
    ReadbackSame(y);
    ReadbackSame(z);
    AskedBackSame(m.questions);
  }

  lemma InRow<T>(a: seq<T>, b: seq<T>, c: seq<T>, k: nat)
    requires k <= |a + b + c|
    ensures forall r |
      r in a[..Clamp(k, |a|)] || r in b[..Clamp(k - |a|, |b|)] || r in c[..Clamp(k - |a| - |b|, |c|)] ::
      r in a + b + c
  {
  }
}
