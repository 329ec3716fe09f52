/** Resource records (section 4.1.3 of RFC 1035): their layout on the wire and how they are read. */
module Records {
  import opened Data
  import opened Names
  import opened NameCodec
  import opened Layout
  import opened PacketBuffers
  import opened Utf8

  datatype QueryType =
    UNKNOWN(num: u16) | A | NS | CNAME | SOA | PTR | MX | TXT | AAAA | SRV | OPT | TLSA
  {
    function ToNum(): u16 {
      match this
      case UNKNOWN(x) => x
      case A => 1
      case NS => 2
      case CNAME => 5
      case SOA => 6
      case PTR => 12
      case MX => 15
      case TXT => 16
      case AAAA => 28
      case SRV => 33
      case OPT => 41
      case TLSA => 52
    }
  }

  function FromNum(num: u16): QueryType {
    match num
    case 1 => QueryType.A
    case 2 => QueryType.NS
    case 5 => QueryType.CNAME
    case 6 => QueryType.SOA
    case 12 => QueryType.PTR
    case 15 => QueryType.MX
    case 16 => QueryType.TXT
    case 28 => QueryType.AAAA
    case 33 => QueryType.SRV
    case 41 => QueryType.OPT
    case 52 => QueryType.TLSA
    case _ => QueryType.UNKNOWN(num)
  }

  /** The numbers that have a named type of their own. */
  const NAMED := {1, 2, 5, 6, 12, 15, 16, 28, 33, 41, 52}

  /** A query type reads back exactly when it is not an UNKNOWN carrying the number of a named one. */
  lemma QueryTypeReadsBack(q: QueryType)
    ensures FromNum(q.ToNum()) == q <==> !(q.UNKNOWN? && q.num in NAMED)
  {
  }

  type Ipv4Addr = s: seq<byte> | |s| == 4 witness [0, 0, 0, 0]
  type Ipv6Addr = s: seq<u16> | |s| == 8 witness [0, 0, 0, 0, 0, 0, 0, 0]

  datatype DnsRecord =
    | UNKNOWN(domain: Text, qtype: u16, dataLen: u16, ttl: u32)
    | A(domain: Text, addr4: Ipv4Addr, ttl: u32)
    | NS(domain: Text, host: Text, ttl: u32)
    | CNAME(domain: Text, host: Text, ttl: u32)
    | SOA(domain: Text, mName: Text, rName: Text,
          serial: u32, refresh: u32, retry: u32, expire: u32, minimum: u32, ttl: u32)
    | PTR(domain: Text, data: Text, ttl: u32)
    | MX(domain: Text, priority: u16, host: Text, ttl: u32)
    | TXT(domain: Text, data: Text, ttl: u32)
    | AAAA(domain: Text, addr6: Ipv6Addr, ttl: u32)
    | SRV(domain: Text, priority: u16, weight: u16, port: u16, host: Text, ttl: u32)
    | OPT(packetLen: u16, flags: u32, data: Text)
    | TLSA(domain: Text, certificateUsage: byte, selector: byte, matchingType: byte, data: Text, ttl: u32)
  {
    function GetQuerytype(): QueryType {
      match this
      case UNKNOWN(_, qtype, _, _) => QueryType.UNKNOWN(qtype)
      case A(_, _, _) => QueryType.A
      case NS(_, _, _) => QueryType.NS
      case CNAME(_, _, _) => QueryType.CNAME
      case SOA(_, _, _, _, _, _, _, _, _) => QueryType.SOA
      case PTR(_, _, _) => QueryType.PTR
      case MX(_, _, _, _) => QueryType.MX
      case TXT(_, _, _) => QueryType.TXT
      case AAAA(_, _, _) => QueryType.AAAA
      case SRV(_, _, _, _, _, _) => QueryType.SRV
      case OPT(_, _, _) => QueryType.OPT
      case TLSA(_, _, _, _, _, _) => QueryType.TLSA
    }

    function GetDomain(): Option<Text> {
      if OPT? then None else Some(domain)
    }

    function GetTtl(): u32 {
      if OPT? then 0 else ttl
    }
  }

  // ---------------------------------------------------------------------------
  // Layout
  // ---------------------------------------------------------------------------

  function Int16(v: u16, rest: Pieces): Pieces {
    Raw(U16Bytes(v), rest)
  }

  function Int32(v: u32, rest: Pieces): Pieces {
    Raw(U32Bytes(v), rest)
  }

  function Segments(a: seq<u16>): seq<byte> {
    if a == [] then [] else U16Bytes(a[0]) + Segments(a[1..])
  }

  /** Everything before RDLENGTH. An OPT record has the root as owner, its payload size in the
      class field and its flags in the TTL field. */
  function Headed(rec: DnsRecord, rest: Pieces): Pieces {
    var num := rec.GetQuerytype().ToNum();
    if rec.OPT? then Raw([0], Int16(num, Int16(rec.packetLen, Int32(rec.flags, rest))))
    else Dom(rec.domain, Int16(num, Int16(1, Int32(rec.ttl, rest))))
  }

  /** The record data. */
  function Body(rec: DnsRecord): Pieces {
    match rec
    case UNKNOWN(_, _, _, _) => End
    case A(_, addr, _) => Raw(addr, End)
    case AAAA(_, addr, _) => Raw(Segments(addr), End)
    case NS(_, host, _) => Dom(host, End)
    case CNAME(_, host, _) => Dom(host, End)
    case PTR(_, data, _) => Dom(data, End)
    case SRV(_, priority, weight, port, host, _) =>
      Int16(priority, Int16(weight, Int16(port, Dom(host, End))))
    case MX(_, priority, host, _) => Int16(priority, Dom(host, End))
    case SOA(_, mName, rName, serial, refresh, retry, expire, minimum, _) =>
      Dom(mName, Dom(rName,
        Int32(serial, Int32(refresh, Int32(retry, Int32(expire, Int32(minimum, End)))))))
    case TXT(_, data, _) => Raw([|data| % 256] + data, End)
    case TLSA(_, usage, selector, matching, data, _) => Raw([usage, selector, matching] + data, End)
    case OPT(_, _, data) => Raw(data, End)
  }

  /** `DnsRecord::write`: head, then the length of the data as written, then the data.
      An UNKNOWN record is skipped. */
  function EncRecord(table: Table, at: nat, rec: DnsRecord): Enc {
    if rec.UNKNOWN? then Enc([], table)
    else
      var h := Encode(table, at, Headed(rec, End));
      var d := Encode(h.table, at + |h.chunk| + 2, Body(rec));
      Enc(h.chunk + U16Bytes(|d.chunk| % 0x1_0000) + d.chunk, d.table)
  }

  /** The same record as one sequence of pieces, once the length of its data is known. */
  function DataLength(table: Table, at: nat, rec: DnsRecord): nat {
    var h := Encode(table, at, Headed(rec, End));
    |Encode(h.table, at + |h.chunk| + 2, Body(rec)).chunk|
  }

  function RecordPieces(rec: DnsRecord, len: nat): Pieces {
    Headed(rec, Int16(len % 0x1_0000, Body(rec)))
  }

  /** Every pointer in the record leads where a pointer can lead, and where the reader counts on the
      length field, the field can hold the length. */
  predicate RecordInReach(table: Table, at: nat, rec: DnsRecord) {
    rec.UNKNOWN? ||
    (InReach(table, at, RecordPieces(rec, DataLength(table, at, rec)))
     && (rec.TXT? || rec.OPT? || rec.TLSA? ==> DataLength(table, at, rec) < 0x1_0000))
  }

  lemma RecordWithin(table: Table, at: nat, rec: DnsRecord)
    requires SavedBelow(table, at) && at + |EncRecord(table, at, rec).chunk| <= 0x4000
    ensures RecordInReach(table, at, rec)
    ensures SavedBelow(EncRecord(table, at, rec).table, at + |EncRecord(table, at, rec).chunk|)
  {
    hide EncRecord, DataLength, RecordPieces, InReach, Encode, SavedBelow;
    if rec.UNKNOWN? {
      UnknownIsSkipped(table, at, rec);
    } else {
      EncRecordIsPieces(table, at, rec);
      DataIsPart(table, at, rec);
      PiecesInReach(table, at, RecordPieces(rec, DataLength(table, at, rec)));
    }
  }

  lemma DataIsPart(table: Table, at: nat, rec: DnsRecord)
    requires !rec.UNKNOWN?
    ensures DataLength(table, at, rec) <= |EncRecord(table, at, rec).chunk|
  {
    hide Encode;
  }

  /** An UNKNOWN record is not written at all. */
  lemma UnknownIsSkipped(table: Table, at: nat, rec: DnsRecord)
    requires rec.UNKNOWN?
    ensures EncRecord(table, at, rec) == Enc([], table)
  {
  }

  lemma EncRecordIsPieces(table: Table, at: nat, rec: DnsRecord)
    requires !rec.UNKNOWN?
    ensures EncRecord(table, at, rec) == Encode(table, at, RecordPieces(rec, DataLength(table, at, rec)))
  {
    hide EncName, Body;
    var h := Encode(table, at, Headed(rec, End));
    var len := DataLength(table, at, rec);
    var tail := Int16(len % 0x1_0000, Body(rec));
    HeadedAppend(rec, tail);
    EncodeAppend(table, at, Headed(rec, End), tail, at + |h.chunk|);
    hide Encode, Headed;
    EncodeInt16(h.table, at + |h.chunk|, len % 0x1_0000, Body(rec));
    Assoc(h.chunk, U16Bytes(len % 0x1_0000), Encode(h.table, at + |h.chunk| + 2, Body(rec)).chunk);
  }

  lemma HeadedAppend(rec: DnsRecord, tail: Pieces)
    ensures Append(Headed(rec, End), tail) == Headed(rec, tail)
  {
    var num := rec.GetQuerytype().ToNum();
    assert Append(End, tail) == tail;
    if rec.OPT? {
      assert Append(Int32(rec.flags, End), tail) == Int32(rec.flags, tail);
      assert Append(Int16(rec.packetLen, Int32(rec.flags, End)), tail) == Int16(rec.packetLen, Int32(rec.flags, tail));
    } else {
      assert Append(Int32(rec.ttl, End), tail) == Int32(rec.ttl, tail);
      assert Append(Int16(1, Int32(rec.ttl, End)), tail) == Int16(1, Int32(rec.ttl, tail));
    }
  }

  lemma EncodeInt16(table: Table, at: nat, v: u16, rest: Pieces)
    ensures var r := Encode(table, at + 2, rest);
      Encode(table, at, Int16(v, rest)) == Enc(U16Bytes(v) + r.chunk, r.table)
  {
  }

  // ---------------------------------------------------------------------------
  // Reading
  // ---------------------------------------------------------------------------

  /** `DnsRecord::read` */
  function ReadRecord(b: seq<byte>, at: nat): Parse<DnsRecord> {
    var (domain, at) :- ReadName(b, at);
    var (num, at) :- ReadU16(b, at);
    var (class_, at) :- ReadU16(b, at);
    var (ttl, at) :- ReadU32(b, at);
    var (len, at) :- ReadU16(b, at);
    ReadData(b, at, domain, num, class_, ttl, len)
  }

  /** `Ipv4Addr::new` on the four bytes of an integer, from the top one down. */
  function Octets(v: u32): Ipv4Addr {
    U32Bytes(v)
  }

  /** The high and low sixteen bits of an integer: two segments of an IPv6 address. */
  function Halves(v: u32): (r: seq<u16>)
    ensures |r| == 2
  {
    [v / 0x1_0000, v % 0x1_0000]
  }

  function ReadData(b: seq<byte>, at: nat, domain: Text, num: u16, class_: u16, ttl: u32, len: u16): Parse<DnsRecord> {
    match FromNum(num)
    case A =>
      var (raw, at) :- ReadU32(b, at);
      Done(DnsRecord.A(domain, Octets(raw), ttl), at)
    case AAAA =>
      var (r1, at) :- ReadU32(b, at);
      var (r2, at) :- ReadU32(b, at);
      var (r3, at) :- ReadU32(b, at);
      var (r4, at) :- ReadU32(b, at);
      Done(DnsRecord.AAAA(domain, Halves(r1) + Halves(r2) + Halves(r3) + Halves(r4), ttl), at)
    case NS =>
      var (host, at) :- ReadName(b, at);
      Done(DnsRecord.NS(domain, host, ttl), at)
    case CNAME =>
      var (host, at) :- ReadName(b, at);
      Done(DnsRecord.CNAME(domain, host, ttl), at)
    case SRV =>
      var (priority, at) :- ReadU16(b, at);
      var (weight, at) :- ReadU16(b, at);
      var (port, at) :- ReadU16(b, at);
      var (host, at) :- ReadName(b, at);
      Done(DnsRecord.SRV(domain, priority, weight, port, host, ttl), at)
    case PTR =>
      var (data, at) :- ReadName(b, at);
      Done(DnsRecord.PTR(domain, data, ttl), at)
    case MX =>
      var (priority, at) :- ReadU16(b, at);
      var (host, at) :- ReadName(b, at);
      Done(DnsRecord.MX(domain, priority, host, ttl), at)
    case SOA =>
      var (mName, at) :- ReadName(b, at);
      var (rName, at) :- ReadName(b, at);
      var (serial, at) :- ReadU32(b, at);
      var (refresh, at) :- ReadU32(b, at);
      var (retry, at) :- ReadU32(b, at);
      var (expire, at) :- ReadU32(b, at);
      var (minimum, at) :- ReadU32(b, at);
      Done(DnsRecord.SOA(domain, mName, rName, serial, refresh, retry, expire, minimum, ttl), at)
    case TXT =>
      var (data, at) :- ReadRange(b, at, len);
      Done(DnsRecord.TXT(domain, Lossy(data), ttl), at)
    case OPT =>
      var (data, at) :- ReadRange(b, at, len);
      Done(DnsRecord.OPT(class_, ttl, Lossy(data)), at)
    case TLSA =>
      var (usage, at) :- ReadU8(b, at);
      var (selector, at) :- ReadU8(b, at);
      var (matching, at) :- ReadU8(b, at);
      var (data, at) :- ReadRange(b, at, (len + 0xFFFD) % 0x1_0000); // len - 3 in sixteen bits
      Done(DnsRecord.TLSA(domain, usage, selector, matching, data, ttl), at)
    case UNKNOWN(_) =>
      Done(DnsRecord.UNKNOWN(domain, num, len, ttl), at + len as int)
  }

  // ---------------------------------------------------------------------------
  // Round trip
  // ---------------------------------------------------------------------------

  /** What reading gives back: names lower-cased, TXT data preceded by its length byte, which the
      reader does not take off, and TXT and OPT data as far as they are text. */
  function Readback(rec: DnsRecord): DnsRecord {
    match rec
    case UNKNOWN(_, _, _, _) => rec
    case OPT(packetLen, flags, data) => DnsRecord.OPT(packetLen, flags, Lossy(data))
    case A(domain, addr, ttl) => DnsRecord.A(Lower(domain), addr, ttl)
    case AAAA(domain, addr, ttl) => DnsRecord.AAAA(Lower(domain), addr, ttl)
    case NS(domain, host, ttl) => DnsRecord.NS(Lower(domain), Lower(host), ttl)
    case CNAME(domain, host, ttl) => DnsRecord.CNAME(Lower(domain), Lower(host), ttl)
    case PTR(domain, data, ttl) => DnsRecord.PTR(Lower(domain), Lower(data), ttl)
    case SRV(domain, priority, weight, port, host, ttl) =>
      DnsRecord.SRV(Lower(domain), priority, weight, port, Lower(host), ttl)
    case MX(domain, priority, host, ttl) => DnsRecord.MX(Lower(domain), priority, Lower(host), ttl)
    case SOA(domain, mName, rName, serial, refresh, retry, expire, minimum, ttl) =>
      DnsRecord.SOA(Lower(domain), Lower(mName), Lower(rName), serial, refresh, retry, expire, minimum, ttl)
    case TXT(domain, data, ttl) => DnsRecord.TXT(Lower(domain), Lossy([|data| % 256] + data), ttl)
    case TLSA(domain, usage, selector, matching, data, ttl) =>
      DnsRecord.TLSA(Lower(domain), usage, selector, matching, data, ttl)
  }

  lemma ReadsInt16(c: seq<byte>, at: nat, v: u16, rest: Pieces, end: nat)
    requires Reads(c, at, Int16(v, rest), end)
    ensures ReadU16(c, at) == Done(v, at + 2) && Reads(c, at + 2, rest, end)
  {
    hide Reads, ReadName;
    hide U16At, U16Bytes;
    RawReads(c, at, U16Bytes(v), rest, end);
    IntegersReadBack(c, at, v, 0);
  }

  lemma ReadsInt32(c: seq<byte>, at: nat, v: u32, rest: Pieces, end: nat)
    requires Reads(c, at, Int32(v, rest), end)
    ensures ReadU32(c, at) == Done(v, at + 4) && Reads(c, at + 4, rest, end)
  {
    hide Reads, ReadName;
    hide U32At, U32Bytes;
    RawReads(c, at, U32Bytes(v), rest, end);
    IntegersReadBack(c, at, 0, v);
  }

  lemma RawReads(c: seq<byte>, at: nat, x: seq<byte>, rest: Pieces, end: nat)
    requires Reads(c, at, Raw(x, rest), end)
    ensures at + |x| <= |c| && c[at..at + |x|] == x && Reads(c, at + |x|, rest, end)
  {
  }

  lemma DomReads(c: seq<byte>, at: nat, s: Text, rest: Pieces, end: nat) returns (next: nat)
    requires Reads(c, at, Dom(s, rest), end)
    ensures ReadName(c, at) == Done(Lower(s), next) && Reads(c, next, rest, end)
  {
    next := ReadName(c, at).next;
  }

  lemma HeadReads(c: seq<byte>, at: nat, rec: DnsRecord, len: u16, body: Pieces, end: nat) returns (next: nat)
    requires Reads(c, at, Headed(rec, Int16(len, body)), end)
    ensures Reads(c, next, body, end)
    ensures var num := rec.GetQuerytype().ToNum();
      ReadRecord(c, at) ==
        if rec.OPT? then ReadData(c, next, [], num, rec.packetLen, rec.flags, len)
        else ReadData(c, next, Lower(rec.domain), num, 1, rec.ttl, len)
  {
    var num := rec.GetQuerytype().ToNum();
    var class_, ttl, name := if rec.OPT? then rec.packetLen else 1,
                             if rec.OPT? then rec.flags else rec.ttl,
                             if rec.OPT? then [] else Lower(rec.domain);
    var tail := Int16(num, Int16(class_, Int32(ttl, Int16(len, body))));
    var p: nat;
    if rec.OPT? {
      RawReads(c, at, [0], tail, end);
      assert c[at] == c[at..at + 1][0];
      RootByteReads(c, at);
      p := at + 1;
    } else {
      p := DomReads(c, at, rec.domain, tail, end);
    }
    hide Reads, ReadName, ReadData, Lower, ReadU16, ReadU32;
    ReadsInt16(c, p, num, Int16(class_, Int32(ttl, Int16(len, body))), end);
    ReadsInt16(c, p + 2, class_, Int32(ttl, Int16(len, body)), end);
    ReadsInt32(c, p + 4, ttl, Int16(len, body), end);
    ReadsInt16(c, p + 8, len, body, end);
    next := p + 10;
  }

  lemma RootByteReads(c: seq<byte>, at: nat)
    requires at < |c| && c[at] == 0
    ensures ReadName(c, at) == Done([], at + 1)
  {
    assert Walk(c, at, |c| + 1) == Settled([], at + 1);
  }

  lemma {:induction false} SegmentBytes(a: seq<u16>, i: nat)
    requires i < |a|
    ensures |Segments(a)| == 2 * |a|
    ensures Segments(a)[2 * i] == a[i] / 256 && Segments(a)[2 * i + 1] == a[i] % 256
    decreases |a|
  {
    if |a| > 1 {
      SegmentBytes(a[1..], if i == 0 then 0 else i - 1);
    } else {
      assert a[1..] == [];
    }
  }

  /** Two adjacent address segments, read as the program reads them, through one 32-bit integer. */
  lemma SegmentPair(c: seq<byte>, at: nat, a: Ipv6Addr, i: nat)
    requires at + 16 <= |c| && c[at..at + 16] == Segments(a) && i < 7
    ensures Halves(U32At(c, at + 2 * i)) == a[i..i + 2]
  {
    var x := c[at..at + 16];
    SegmentBytes(a, i);
    SegmentBytes(a, i + 1);
    var p := at + 2 * i;
    assert c[p] == x[2 * i] && c[p + 1] == x[2 * i + 1];
    assert c[p + 2] == x[2 * (i + 1)] && c[p + 3] == x[2 * (i + 1) + 1];
    assert U32At(c, p) == a[i] as int * 0x1_0000 + a[i + 1] as int;
  }

  lemma Ipv6ReadsBack(c: seq<byte>, at: nat, domain: Text, a: Ipv6Addr, ttl: u32, len: u16, end: nat)
    requires Reads(c, at, Raw(Segments(a), End), end)
    ensures ReadData(c, at, domain, 28, 1, ttl, len) == Done(DnsRecord.AAAA(domain, a, ttl), end)
  {
    RawReads(c, at, Segments(a), End, end);
    assert Reads(c, at + |Segments(a)|, End, end);
    SegmentBytes(a, 0);
    SegmentPair(c, at, a, 0);
    SegmentPair(c, at, a, 2);
    SegmentPair(c, at, a, 4);
    SegmentPair(c, at, a, 6);
    hide U32At, Segments, Halves, Reads;
    assert a == a[0..2] + a[2..4] + a[4..6] + a[6..8];
  }

  lemma Ipv4ReadsBack(c: seq<byte>, at: nat, domain: Text, a: Ipv4Addr, ttl: u32, len: u16, end: nat)
    requires Reads(c, at, Raw(a, End), end)
    ensures ReadData(c, at, domain, 1, 1, ttl, len) == Done(DnsRecord.A(domain, a, ttl), end)
  {
    RawReads(c, at, a, End, end);
    U32BytesAt(c, at);
  }

  /** Every name in the record fits the wire format. */
  predicate GoodRecord(rec: DnsRecord) {
    GoodNames(Headed(rec, End)) && GoodNames(Body(rec))
  }

  /** The data of each kind of record reads back, given its announced length. Only the kinds whose
      data is not self-delimiting depend on that length. */
  lemma BodyReads(c: seq<byte>, at: nat, rec: DnsRecord, len: u16, end: nat)
    requires !rec.UNKNOWN? && Reads(c, at, Body(rec), end)
    requires rec.TXT? || rec.OPT? || rec.TLSA? ==> at + len == end
    ensures var num := rec.GetQuerytype().ToNum();
      Done(Readback(rec), end) ==
        if rec.OPT? then ReadData(c, at, [], num, rec.packetLen, rec.flags, len)
        else ReadData(c, at, Lower(rec.domain), num, 1, rec.ttl, len)
  {
    hide ReadName, Lower, Lossy, ReadData, Reads;
    match rec
    case A(domain, addr, ttl) => Ipv4ReadsBack(c, at, Lower(domain), addr, ttl, len, end);
    case AAAA(domain, addr, ttl) => Ipv6ReadsBack(c, at, Lower(domain), addr, ttl, len, end);
    case NS(_, _, _) => NameReads(c, at, rec, len, end);
    case CNAME(_, _, _) => NameReads(c, at, rec, len, end);
    case PTR(_, _, _) => NameReads(c, at, rec, len, end);
    case MX(_, _, _, _) => MxReads(c, at, rec, len, end);
    case SRV(_, _, _, _, _, _) => SrvReads(c, at, rec, len, end);
    case SOA(_, _, _, _, _, _, _, _, _) => SoaReads(c, at, rec, len, end);
    case TXT(_, _, _) => RestReads(c, at, rec, len, end);
    case OPT(_, _, _) => RestReads(c, at, rec, len, end);
    case TLSA(_, _, _, _, _, _) => TlsaReads(c, at, rec, len, end);
  }

  lemma NameReads(c: seq<byte>, at: nat, rec: DnsRecord, len: u16, end: nat)
    requires (rec.NS? || rec.CNAME? || rec.PTR?) && Reads(c, at, Body(rec), end)
    ensures ReadData(c, at, Lower(rec.domain), rec.GetQuerytype().ToNum(), 1, rec.ttl, len) == Done(Readback(rec), end)
  {
    hide ReadName, Lower;
    var next := DomReads(c, at, if rec.PTR? then rec.data else rec.host, End, end);
  }

  lemma MxReads(c: seq<byte>, at: nat, rec: DnsRecord, len: u16, end: nat)
    requires rec.MX? && Reads(c, at, Body(rec), end)
    ensures ReadData(c, at, Lower(rec.domain), 15, 1, rec.ttl, len) == Done(Readback(rec), end)
  {
    hide ReadName, Lower, U16Bytes;
    ReadsInt16(c, at, rec.priority, Dom(rec.host, End), end);
    var next := DomReads(c, at + 2, rec.host, End, end);
  }

  lemma RestReads(c: seq<byte>, at: nat, rec: DnsRecord, len: u16, end: nat)
    requires (rec.TXT? || rec.OPT?) && Reads(c, at, Body(rec), end) && at + len == end
    ensures Done(Readback(rec), end) ==
      if rec.OPT? then ReadData(c, at, [], 41, rec.packetLen, rec.flags, len)
      else ReadData(c, at, Lower(rec.domain), 16, 1, rec.ttl, len)
  {
    hide Lower, Lossy, Reads;
    var x := if rec.TXT? then [|rec.data| % 256] + rec.data else rec.data;
    assert Body(rec) == Raw(x, End);
    RawReads(c, at, x, End, end);
    EndReads(c, at + |x|, end);
    hide Body;
  }

  lemma SrvReads(c: seq<byte>, at: nat, rec: DnsRecord, len: u16, end: nat)
    requires rec.SRV? && Reads(c, at, Body(rec), end)
    ensures ReadData(c, at, Lower(rec.domain), 33, 1, rec.ttl, len) == Done(Readback(rec), end)
  {
    var tail := Dom(rec.host, End);
    ReadsInt16(c, at, rec.priority, Int16(rec.weight, Int16(rec.port, tail)), end);
    ReadsInt16(c, at + 2, rec.weight, Int16(rec.port, tail), end);
    ReadsInt16(c, at + 4, rec.port, tail, end);
    var next := DomReads(c, at + 6, rec.host, End, end);
    hide ReadName, ReadU16, Lower;
  }

  lemma SoaReads(c: seq<byte>, at: nat, rec: DnsRecord, len: u16, end: nat)
    requires rec.SOA? && Reads(c, at, Body(rec), end)
    ensures ReadData(c, at, Lower(rec.domain), 6, 1, rec.ttl, len) == Done(Readback(rec), end)
  {
    hide ReadName, ReadU32, Lower, Reads;
    var t4 := Int32(rec.minimum, End);
    var t3 := Int32(rec.expire, t4);
    var t2 := Int32(rec.retry, t3);
    var t1 := Int32(rec.refresh, t2);
    var t0 := Int32(rec.serial, t1);
    var p := DomReads(c, at, rec.mName, Dom(rec.rName, t0), end);
    var q := DomReads(c, p, rec.rName, t0, end);
    ReadsInt32(c, q, rec.serial, t1, end);
    ReadsInt32(c, q + 4, rec.refresh, t2, end);
    ReadsInt32(c, q + 8, rec.retry, t3, end);
    ReadsInt32(c, q + 12, rec.expire, t4, end);
    ReadsInt32(c, q + 16, rec.minimum, End, end);
    EndReads(c, q + 20, end);
  }

  lemma EndReads(c: seq<byte>, at: nat, end: nat)
    requires Reads(c, at, End, end)
    ensures at == end
  {
  }

  lemma TlsaReads(c: seq<byte>, at: nat, rec: DnsRecord, len: u16, end: nat)
    requires rec.TLSA? && Reads(c, at, Body(rec), end) && at + len == end
    ensures ReadData(c, at, Lower(rec.domain), 52, 1, rec.ttl, len) == Done(Readback(rec), end)
  {
    var head := [rec.certificateUsage, rec.selector, rec.matchingType];
    var x := head + rec.data;
    RawReads(c, at, x, End, end);
    EndReads(c, at + |x|, end);
    assert c[at] == c[at..at + |x|][0] && c[at + 1] == c[at..at + |x|][1] && c[at + 2] == c[at..at + |x|][2];
    assert c[at + 3..end] == c[at..at + |x|][3..] == rec.data;
    assert (len + 0xFFFD) % 0x1_0000 == len - 3;
  }

  /** The length the writer announces is the length of the data, for the kinds that rely on it. */
  lemma AnnouncedLength(table: Table, at: nat, rec: DnsRecord, c: seq<byte>, p: nat, end: nat)
    requires rec.TXT? || rec.OPT? || rec.TLSA?
    requires Reads(c, p, Body(rec), end)
    ensures p + DataLength(table, at, rec) == end
  {
    assert Body(rec).Raw? && Body(rec).rest == End;
    var x := Body(rec).bytes;
    RawReads(c, p, x, End, end);
    EndReads(c, p + |x|, end);
    hide EncName, Headed;
    var h := Encode(table, at, Headed(rec, End));
    assert Encode(h.table, at + |h.chunk| + 2, Raw(x, End)).chunk == x + [];
  }

  /** A record written into a readable buffer reads back from where it starts, whatever follows,
      and leaves the buffer readable; the reader stops exactly where the writer did. */
  lemma RecordRoundTrip(b: seq<byte>, table: Table, rec: DnsRecord, more: seq<byte>)
    requires GoodRecord(rec) && !rec.UNKNOWN? && TableOk(b, table)
    requires RecordInReach(table, |b|, rec)
    ensures var e := EncRecord(table, |b|, rec);
      && TableOk(b + e.chunk, e.table)
      && ReadRecord(b + e.chunk + more, |b|) == Done(Readback(rec), |b| + |e.chunk|)
  {
    hide Headed, Body, ReadRecord, ReadData, Readback, Encode, Reads, TableOk, InReach;
    var e := EncRecord(table, |b|, rec);
    var len := DataLength(table, |b|, rec) % 0x1_0000;
    var c, end := b + e.chunk + more, |b| + |e.chunk|;
    EncRecordIsPieces(table, |b|, rec);
    HeadedGood(rec, Int16(len, Body(rec)));
    RoundTrip(b, table, RecordPieces(rec, DataLength(table, |b|, rec)), more);
    var next := HeadReads(c, |b|, rec, len, Body(rec), end);
    if rec.TXT? || rec.OPT? || rec.TLSA? {
      AnnouncedLength(table, |b|, rec, c, next, end);
    }
    BodyReads(c, next, rec, len, end);
  }

  lemma HeadedGood(rec: DnsRecord, tail: Pieces)
    ensures GoodNames(Headed(rec, tail)) <==> GoodNames(Headed(rec, End)) && GoodNames(tail)
  {
    HeadedAppend(rec, tail);
    GoodAppend(Headed(rec, End), tail);
  }

  /** Every name in the record is already in lower case. */
  predicate LowerCase(rec: DnsRecord) {
    && (rec.OPT? || rec.UNKNOWN? || Lower(rec.domain) == rec.domain)
    && (rec.NS? || rec.CNAME? || rec.MX? || rec.SRV? ==> Lower(rec.host) == rec.host)
    && (rec.PTR? ==> Lower(rec.data) == rec.data)
    && (rec.SOA? ==> Lower(rec.mName) == rec.mName && Lower(rec.rName) == rec.rName)
  }

  /** The data the reader makes text of is text. */
  predicate IsText(rec: DnsRecord) {
    rec.OPT? ==> IsUtf8(rec.data)
  }

  /** A record comes back as it was exactly when its names are in lower case, its data are text where
      they are read as text, and it is not TXT: no TXT record ever reads back equal. */
  lemma ReadbackIsExact(rec: DnsRecord)
    ensures Readback(rec) == rec <==> LowerCase(rec) && IsText(rec) && !rec.TXT?
  {
    hide Lower, Lossy, IsUtf8;
    if rec.OPT? {
      LossyIsExact(rec.data);
    } else if rec.TXT? {
      NeverTheSame(|rec.data| % 256, rec.data);
    }
  }

  lemma NeverTheSame(x: byte, data: Text)
    ensures Lossy([x] + data) != data
  {
    hide Lossy, IsUtf8;
    if IsUtf8(data) {
      ByteBeforeText(x, data);
      assert |Lossy([x] + data)| > |data|;
    } else {
      LossyIsUtf8([x] + data);
    }
  }

  /** What becomes of TXT data: the length byte stays in front of it if it is below 128, and otherwise
      a replacement character does. */
  lemma TxtComesBack(domain: Text, data: Text, ttl: u32, x: byte)
    requires IsUtf8(data) && x == |data| % 256
    ensures Readback(DnsRecord.TXT(domain, data, ttl)) ==
      DnsRecord.TXT(Lower(domain), (if x < 128 then [x] else REPLACEMENT) + data, ttl)
  {
    hide Lower, Lossy, IsUtf8;
    ByteBeforeText(x, data);
  }
}
