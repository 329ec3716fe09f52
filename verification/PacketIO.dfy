/** `DnsHeader`, `DnsQuestion` and `DnsPacket` over a packet buffer. */
module PacketIO {
  import opened Data
  import opened NameCodec
  import opened Layout
  import opened PacketBuffers
  import opened Records
  import opened RecordIO
  import opened Packets
  import opened Messages

  method ReadHeaderFrom(buffer: PacketBuffer) returns (r: Result<DnsHeader>)
    modifies buffer`buffer, buffer`stream, buffer`pos
    ensures buffer.Bytes() == old(buffer.Bytes())
    ensures Reports(ReadHeader(buffer.Bytes(), old(buffer.pos)), r, buffer.pos)
  {
    hide ReadU16, Flagged;
    var id: u16 :- buffer.ReadInt16();
    var flags: u16 :- buffer.ReadInt16();
    var questions: u16 :- buffer.ReadInt16();
    var answers: u16 :- buffer.ReadInt16();
    var authoritative: u16 :- buffer.ReadInt16();
    var resources: u16 :- buffer.ReadInt16();
    r := Ok(Flagged(id, flags / 256, flags % 256).(questions := questions, answers := answers,
      authoritativeEntries := authoritative, resourceEntries := resources));
  }

  method WriteHeader(buffer: PacketBuffer, h: DnsHeader)
    requires buffer.Writable()
    modifies buffer`buffer, buffer`pos
    ensures buffer.Wrote(Encode(old(buffer.labelLookup), |old(buffer.buffer)|, HeaderPieces(h, End)))
  {
    hide EncName, U16Bytes, Left, Encode, FlagsA, FlagsB;
    ghost var whole := Start(buffer, HeaderPieces(h, End));
    LeftSteps();
    buffer.WriteU16(h.id);
    buffer.Write(FlagsA(h));
    buffer.Write(FlagsB(h));
    buffer.WriteU16(h.questions);
    buffer.WriteU16(h.answers);
    buffer.WriteU16(h.authoritativeEntries);
    buffer.WriteU16(h.resourceEntries);
  }

  method ReadQuestionFrom(buffer: PacketBuffer) returns (r: Result<DnsQuestion>)
    requires !ReadQuestion(buffer.Bytes(), buffer.pos).Diverges?
    modifies buffer`buffer, buffer`stream, buffer`pos
    ensures buffer.Bytes() == old(buffer.Bytes())
    ensures Reports(ReadQuestion(buffer.Bytes(), old(buffer.pos)), r, buffer.pos)
  {
    hide ReadName, ReadU16, FromNum;
    var name: Text :- buffer.ReadQname();
    var num: u16 :- buffer.ReadInt16();
    var class_: u16 :- buffer.ReadInt16();
    r := Ok(DnsQuestion(name, FromNum(num)));
  }

  /** Writes the questions in turn, adding up their `binary_len`. */
  method WriteQuestions(buffer: PacketBuffer, qs: seq<DnsQuestion>) returns (len: nat)
    requires buffer.Writable()
    modifies buffer`buffer, buffer`pos, buffer`labelLookup
    ensures buffer.Wrote(Encode(old(buffer.labelLookup), |old(buffer.buffer)|, QuestionPieces(qs)))
    ensures len == QuestionsLen(qs)
  {
    len := 0;
    hide EncName, U16Bytes, Left, Encode, QuestionPieces;
    ghost var whole := Start(buffer, QuestionPieces(qs));
    LeftSteps();
    assert qs[0..] == qs;
    for i := 0 to |qs|
      invariant buffer.Writable()
      invariant Left(whole, buffer.buffer, buffer.labelLookup, QuestionPieces(qs[i..]))
      invariant len + QuestionsLen(qs[i..]) == QuestionsLen(qs)
    {
      QuestionPiecesStep(qs[i..]);
      assert qs[i..][1..] == qs[i + 1..];
      buffer.WriteQname(qs[i].name);
      buffer.WriteU16(qs[i].qtype.ToNum());
      buffer.WriteU16(1);
      len := len + qs[i].BinaryLen();
    }
    QuestionPiecesStep(qs[|qs|..]);
  }

  /** Writes the records in turn. */
  method WriteRecords(buffer: PacketBuffer, rs: seq<DnsRecord>)
    requires buffer.Writable()
    modifies buffer`buffer, buffer`pos, buffer`labelLookup
    ensures buffer.Wrote(EncRecords(old(buffer.labelLookup), |old(buffer.buffer)|, rs))
  {
    hide EncRecord;
    assert rs[0..] == rs;
    ghost var e := EncRecords(buffer.labelLookup, |buffer.buffer|, rs);
    for i := 0 to |rs|
      invariant buffer.Writable()
      invariant var r := EncRecords(buffer.labelLookup, |buffer.buffer|, rs[i..]);
        Enc(old(buffer.buffer) + e.chunk, e.table) == Enc(buffer.buffer + r.chunk, r.table)
    {
      RecordsStep(buffer.labelLookup, buffer.buffer, rs[i..]);
      assert rs[i..][1..] == rs[i + 1..];
      var _ := WriteRecord(buffer, rs[i]);
    }
    assert buffer.buffer + [] == buffer.buffer;
  }

  lemma RecordsStep(table: Table, b: seq<byte>, rs: seq<DnsRecord>)
    requires rs != []
    ensures var e := EncRecord(table, |b|, rs[0]);
      var r := EncRecords(e.table, |b + e.chunk|, rs[1..]);
      var all := EncRecords(table, |b|, rs);
      Enc(b + all.chunk, all.table) == Enc(b + e.chunk + r.chunk, r.table)
  {
    hide EncRecord;
    var e := EncRecord(table, |b|, rs[0]);
    Assoc(b, e.chunk, EncRecords(e.table, |b| + |e.chunk|, rs[1..]).chunk);
  }

  method ReadRecordsFrom(buffer: PacketBuffer, n: nat) returns (r: Result<seq<DnsRecord>>)
    requires !ReadRecords(buffer.Bytes(), buffer.pos, n).Diverges?
    modifies buffer`buffer, buffer`stream, buffer`pos
    ensures buffer.Bytes() == old(buffer.Bytes())
    ensures Reports(ReadRecords(buffer.Bytes(), old(buffer.pos), n), r, buffer.pos)
  {
    hide ReadRecord;
    var rs := [];
    ghost var b, whole := buffer.Bytes(), ReadRecords(buffer.Bytes(), buffer.pos, n);
    AfterNone(whole);
    for i := 0 to n
      invariant buffer.Bytes() == b
      invariant whole == After(rs, ReadRecords(b, buffer.pos, n - i))
    {
      AfterOne(rs, b, buffer.pos, n - i);
      var rec: DnsRecord :- ReadRecordFrom(buffer);
      rs := rs + [rec];
    }
    assert rs + [] == rs;
    r := Ok(rs);
  }

  /** A parse whose first values are already at hand. */
  ghost function After<T>(done: seq<T>, p: Parse<seq<T>>): Parse<seq<T>> {
    match p
    case Done(xs, n) => Done(done + xs, n)
    case Fault => Fault
    case Diverges => Diverges
  }

  lemma AfterNone<T>(p: Parse<seq<T>>)
    ensures After([], p) == p
  {
    if p.Done? {
      assert [] + p.value == p.value;
    }
  }

  lemma AfterOne(rs: seq<DnsRecord>, b: seq<byte>, at: nat, n: nat)
    requires n > 0
    ensures After(rs, ReadRecords(b, at, n)) == match ReadRecord(b, at)
      case Done(rec, next) => After(rs + [rec], ReadRecords(b, next, n - 1))
      case Fault => Fault
      case Diverges => Diverges
  {
    hide ReadRecord;
    var first := ReadRecord(b, at);
    if first.Done? && ReadRecords(b, first.next, n - 1).Done? {
      Assoc(rs, [first.value], ReadRecords(b, first.next, n - 1).value);
    }
  }

  lemma AfterQuestion(qs: seq<DnsQuestion>, b: seq<byte>, at: nat, n: nat)
    requires n > 0
    ensures After(qs, ReadQuestions(b, at, n)) == match ReadQuestion(b, at)
      case Done(q, next) => After(qs + [q], ReadQuestions(b, next, n - 1))
      case Fault => Fault
      case Diverges => Diverges
  {
    hide ReadQuestion;
    var first := ReadQuestion(b, at);
    if first.Done? && ReadQuestions(b, first.next, n - 1).Done? {
      Assoc(qs, [first.value], ReadQuestions(b, first.next, n - 1).value);
    }
  }

  class DnsPacket {
    var header: DnsHeader
    var questions: seq<DnsQuestion>
    var answers: seq<DnsRecord>
    var authorities: seq<DnsRecord>
    var resources: seq<DnsRecord>

    constructor ()
      ensures View() == Message(EMPTY_HEADER, [], [], [], [])
    {
      header, questions, answers, authorities, resources := EMPTY_HEADER, [], [], [], [];
    }

    function View(): Message
      reads this
    {
      Message(header, questions, answers, authorities, resources)
    }

    /** `DnsPacket::from_buffer` */
    static method FromBuffer(buffer: PacketBuffer) returns (r: Result<DnsPacket>)
      requires !ReadPacket(buffer.Bytes(), buffer.pos).Diverges?
      modifies buffer`buffer, buffer`stream, buffer`pos
      ensures buffer.Bytes() == old(buffer.Bytes())
      ensures r.Ok? ==> fresh(r.value)
      ensures match ReadPacket(buffer.Bytes(), old(buffer.pos))
        case Done(m, n) => r.Ok? && r.value.View() == m && buffer.pos == n
        case Fault => r.EndOfBuffer?
        case Diverges => true
    {
      hide ReadHeader, ReadQuestions, ReadRecords;
      var result := new DnsPacket();
      var h: DnsHeader :- ReadHeaderFrom(buffer);
      result.header := h;
      var qs: seq<DnsQuestion> :- ReadQuestionsFrom(buffer, h.questions);
      result.questions := qs;
      var an: seq<DnsRecord> :- ReadRecordsFrom(buffer, h.answers);
      result.answers := an;
      var au: seq<DnsRecord> :- ReadRecordsFrom(buffer, h.authoritativeEntries);
      result.authorities := au;
      var re: seq<DnsRecord> :- ReadRecordsFrom(buffer, h.resourceEntries);
      result.resources := re;
      r := Ok(result);
    }

    static method ReadQuestionsFrom(buffer: PacketBuffer, n: nat) returns (r: Result<seq<DnsQuestion>>)
      requires !ReadQuestions(buffer.Bytes(), buffer.pos, n).Diverges?
      modifies buffer`buffer, buffer`stream, buffer`pos
      ensures buffer.Bytes() == old(buffer.Bytes())
      ensures Reports(ReadQuestions(buffer.Bytes(), old(buffer.pos), n), r, buffer.pos)
    {
      hide ReadQuestion;
      var qs := [];
      ghost var b, whole := buffer.Bytes(), ReadQuestions(buffer.Bytes(), buffer.pos, n);
      AfterNone(whole);
      for i := 0 to n
        invariant buffer.Bytes() == b
        invariant whole == After(qs, ReadQuestions(b, buffer.pos, n - i))
      {
        AfterQuestion(qs, b, buffer.pos, n - i);
        var q: DnsQuestion :- ReadQuestionFrom(buffer);
        qs := qs + [q];
      }
      assert qs + [] == qs;
      r := Ok(qs);
    }

    /** The dry run of `write`: measures records into a second buffer until the limit is passed,
        counting the ones that fit in the header. */
    method DryRun(maxSize: nat) returns (recordCount: nat)
      modifies this`header
      ensures recordCount == Kept(questions, View().Records(), maxSize)
      ensures header == Measured(old(View()), recordCount)
    {
      hide EncRecord, Encode, QuestionPieces, Counted, Fitting, QuestionsLen;
      var testBuffer := new PacketBuffer();
      var size: nat := WriteQuestions(testBuffer, questions);
      size := size + 12;
      var rs := answers + authorities + resources;
      recordCount := |rs|;
      ghost var kept := Kept(questions, rs, maxSize);
      ghost var m := View();
      assert rs[0..] == rs && [] + testBuffer.buffer == testBuffer.buffer;
      Uncounted(m);
      for i := 0 to |rs|
        invariant fresh(testBuffer) && testBuffer.Writable()
        invariant recordCount == |rs| && View() == m.(header := Counted(m, i))
        invariant kept == i + Fitting(testBuffer.labelLookup, |testBuffer.buffer|, rs[i..], size, maxSize)
      {
        FittingStep(testBuffer.labelLookup, testBuffer.buffer, rs[i..], size, maxSize);
        assert rs[i..][1..] == rs[i + 1..];
        var n := WriteRecord(testBuffer, rs[i]);
        size := size + n;
        if size > maxSize {
          recordCount := i;
          header := header.(truncatedMessage := true);
          break;
        }
        CountedStep(m, i);
        assert header == Counted(m, i);
        if i < |answers| {
          header := header.(answers := (header.answers + 1) % 0x1_0000);
        } else if i < |answers| + |authorities| {
          header := header.(authoritativeEntries := (header.authoritativeEntries + 1) % 0x1_0000);
        } else {
          header := header.(resourceEntries := (header.resourceEntries + 1) % 0x1_0000);
        }
      }
    }

    /** `DnsPacket::write` */
    method Write(buffer: PacketBuffer, maxSize: nat)
      requires buffer.Writable()
      modifies this`header, buffer`buffer, buffer`pos, buffer`labelLookup
      ensures var kept := Kept(questions, View().Records(), maxSize);
        && header == FinalHeader(old(View()), kept)
        && buffer.Wrote(
             EncMessage(old(buffer.labelLookup), |old(buffer.buffer)|, header, questions, View().Records()[..kept]))
    {
      hide Encode, EncRecords, Kept, HeaderPieces, QuestionPieces, FinalHeader, Measured;
      var recordCount := DryRun(maxSize);
      MeasuredIsFinal(old(View()), recordCount);
      header := header.(questions := |questions| % 0x1_0000);
      ghost var b, t := buffer.buffer, buffer.labelLookup;
      WriteHeader(buffer, header);
      var _ := WriteQuestions(buffer, questions);
      FrontOf(t, b, header, questions);
      WriteRecords(buffer, (answers + authorities + resources)[..recordCount]);
      Assoc(b, Encode(t, |b|, HeaderPieces(header, QuestionPieces(questions))).chunk,
        EncRecords(Encode(t, |b|, HeaderPieces(header, QuestionPieces(questions))).table,
          |b| + |Encode(t, |b|, HeaderPieces(header, QuestionPieces(questions))).chunk|,
          (answers + authorities + resources)[..recordCount]).chunk);
    }
  }

  /** A packet written into an empty buffer, which is then rewound and parsed: for all messages what
      the program's own test tries on one. */
  method WireTrip(packet: DnsPacket, maxSize: nat) returns (buffer: PacketBuffer, r: Result<DnsPacket>)
    requires Sendable(packet.View()) && OutputInReach(packet.View(), maxSize)
    modifies packet`header
    ensures fresh(buffer) && (r.Ok? ==> fresh(r.value))
    ensures var m := old(packet.View()); var kept := Kept(m.questions, m.Records(), maxSize);
      if forall i | 0 <= i < kept :: !m.Records()[i].UNKNOWN? then
        r.Ok? && r.value.View() == Delivered(m, kept) && buffer.pos == |buffer.Bytes()|
      else r.EndOfBuffer?
  {
    hide Sendable, Kept, Delivered, EncMessage, ReadPacket, FinalHeader, OutputInReach;
    ghost var m := packet.View();
    PacketRoundTrip(m, maxSize);
    buffer := new PacketBuffer();
    packet.Write(buffer, maxSize);
    assert [] + Output(m, maxSize) == Output(m, maxSize);
    assert buffer.Bytes() == Output(m, maxSize);
    buffer.Seek(0);
    r := DnsPacket.FromBuffer(buffer);
  }

  /** A 16-bit counter after the first `n` of `top` records of its section. */
  function CountTo(start: u16, n: int, top: nat): u16 {
    (start + Clamp(n, top)) % 0x1_0000
  }

  /** The header once the first `i` records have been counted and none dropped. */
  function Counted(m: Message, i: nat): DnsHeader {
    var (a, b, c) := (|m.answers|, |m.authorities|, |m.resources|);
    m.header.(
      answers := CountTo(m.header.answers, i, a),
      authoritativeEntries := CountTo(m.header.authoritativeEntries, i - a, b),
      resourceEntries := CountTo(m.header.resourceEntries, i - a - b, c))
  }

  /** The header after the dry run. */
  function Measured(m: Message, kept: nat): DnsHeader {
    Counted(m, kept).(truncatedMessage := m.header.truncatedMessage || kept < |m.Records()|)
  }

  lemma MeasuredIsFinal(m: Message, kept: nat)
    ensures FinalHeader(m, kept) == Measured(m, kept).(questions := |m.questions| % 0x1_0000)
  {
  }

  lemma Uncounted(m: Message)
    ensures Counted(m, 0) == m.header
    ensures forall i :: Counted(m, i).truncatedMessage == m.header.truncatedMessage
  {
  }

  lemma CountedStep(m: Message, i: nat)
    requires i < |m.Records()|
    ensures var (a, b) := (|m.answers|, |m.authorities|); var (h, h') := (Counted(m, i), Counted(m, i + 1));
      h' == if i < a then h.(answers := (h.answers + 1) % 0x1_0000)
            else if i < a + b then h.(authoritativeEntries := (h.authoritativeEntries + 1) % 0x1_0000)
            else h.(resourceEntries := (h.resourceEntries + 1) % 0x1_0000)
  {
    var (a, b, c) := (|m.answers|, |m.authorities|, |m.resources|);
    hide CountTo;
    CountToStep(m.header.answers, i, a);
    CountToStep(m.header.authoritativeEntries, i - a, b);
    CountToStep(m.header.resourceEntries, i - a - b, c);
    assert i + 1 - a == (i - a) + 1 && i + 1 - a - b == (i - a - b) + 1;
  }

  lemma CountToStep(start: u16, n: int, top: nat)
    ensures CountTo(start, n + 1, top) ==
      if 0 <= n < top then (CountTo(start, n, top) + 1) % 0x1_0000 else CountTo(start, n, top)
  {
  }

  lemma FittingStep(table: Table, b: seq<byte>, rs: seq<DnsRecord>, size: nat, maxSize: nat)
    requires rs != []
    ensures var e := EncRecord(table, |b|, rs[0]);
      Fitting(table, |b|, rs, size, maxSize) ==
        if size + |e.chunk| > maxSize then 0
        else 1 + Fitting(e.table, |b + e.chunk|, rs[1..], size + |e.chunk|, maxSize)
  {
    hide EncRecord;
  }

  /** Header pieces and question pieces written one after the other are the front of the message. */
  lemma FrontOf(t: Table, b: seq<byte>, h: DnsHeader, qs: seq<DnsQuestion>)
    ensures var f := Encode(t, |b|, HeaderPieces(h, End));
      var q := Encode(f.table, |b + f.chunk|, QuestionPieces(qs));
      var all := Encode(t, |b|, HeaderPieces(h, QuestionPieces(qs)));
      Enc(b + f.chunk + q.chunk, q.table) == Enc(b + all.chunk, all.table)
  {
    hide Encode, QuestionPieces, HeaderPieces;
    var f := Encode(t, |b|, HeaderPieces(h, End));
    HeaderAppend(h, QuestionPieces(qs));
    EncodeAppend(t, |b|, HeaderPieces(h, End), QuestionPieces(qs), |b| + |f.chunk|);
    Assoc(b, f.chunk, Encode(f.table, |b| + |f.chunk|, QuestionPieces(qs)).chunk);
  }

  lemma HeaderAppend(h: DnsHeader, rest: Pieces)
    ensures Append(HeaderPieces(h, End), rest) == HeaderPieces(h, rest)
  {
    hide FlagsA, FlagsB, U16Bytes;
    AppendRaw(U16Bytes(h.resourceEntries), End, rest);
    AppendRaw(U16Bytes(h.authoritativeEntries), Int16(h.resourceEntries, End), rest);
    var t := Int16(h.authoritativeEntries, Int16(h.resourceEntries, End));
    AppendRaw(U16Bytes(h.answers), t, rest);
    AppendRaw(U16Bytes(h.questions), Int16(h.answers, t), rest);
    var t0 := Int16(h.questions, Int16(h.answers, t));
    AppendRaw([FlagsB(h)], t0, rest);
    AppendRaw([FlagsA(h)], Raw([FlagsB(h)], t0), rest);
    AppendRaw(U16Bytes(h.id), Raw([FlagsA(h)], Raw([FlagsB(h)], t0)), rest);
    assert Append(End, rest) == rest;
  }

  lemma AppendRaw(x: seq<byte>, p: Pieces, q: Pieces)
    ensures Append(Raw(x, p), q) == Raw(x, Append(p, q))
  {
  }
}
