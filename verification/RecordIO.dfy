/** `DnsRecord::read` and `DnsRecord::write` over a packet buffer. */
module RecordIO {
  import opened Data
  import opened NameCodec
  import opened Layout
  import opened PacketBuffers
  import opened Records
  import opened Utf8

  // ---------------------------------------------------------------------------
  // Reading
  // ---------------------------------------------------------------------------

  method ReadRecordFrom(buffer: PacketBuffer) returns (r: Result<DnsRecord>)
    requires !ReadRecord(buffer.Bytes(), buffer.pos).Diverges?
    modifies buffer`buffer, buffer`stream, buffer`pos
    ensures buffer.Bytes() == old(buffer.Bytes())
    ensures Reports(ReadRecord(buffer.Bytes(), old(buffer.pos)), r, buffer.pos)
  {
    hide ReadName, ReadU16, ReadU32, ReadData;
    var domain: Text :- buffer.ReadQname();
    var num: u16 :- buffer.ReadInt16();
    var class_: u16 :- buffer.ReadInt16();
    var ttl: u32 :- buffer.ReadInt32();
    var len: u16 :- buffer.ReadInt16();
    r := ReadDataFrom(buffer, domain, num, class_, ttl, len);
  }

  method ReadDataFrom(buffer: PacketBuffer, domain: Text, num: u16, class_: u16, ttl: u32, len: u16)
    returns (r: Result<DnsRecord>)
    requires !ReadData(buffer.Bytes(), buffer.pos, domain, num, class_, ttl, len).Diverges?
    modifies buffer`buffer, buffer`stream, buffer`pos
    ensures buffer.Bytes() == old(buffer.Bytes())
    ensures Reports(ReadData(buffer.Bytes(), old(buffer.pos), domain, num, class_, ttl, len), r, buffer.pos)
  {
    hide ReadName, ReadU8, ReadU16, ReadU32, ReadRange, Octets, Halves, Lossy;
    match FromNum(num)
    case A =>
      var raw: u32 :- buffer.ReadInt32();
      r := Ok(DnsRecord.A(domain, Octets(raw), ttl));
    case AAAA =>
      var r1: u32 :- buffer.ReadInt32();
      var r2: u32 :- buffer.ReadInt32();
      var r3: u32 :- buffer.ReadInt32();
      var r4: u32 :- buffer.ReadInt32();
      r := Ok(DnsRecord.AAAA(domain, Halves(r1) + Halves(r2) + Halves(r3) + Halves(r4), ttl));
    case NS =>
      var host: Text :- buffer.ReadQname();
      r := Ok(DnsRecord.NS(domain, host, ttl));
    case CNAME =>
      var host: Text :- buffer.ReadQname();
      r := Ok(DnsRecord.CNAME(domain, host, ttl));
    case SRV =>
      var priority: u16 :- buffer.ReadInt16();
      var weight: u16 :- buffer.ReadInt16();
      var port: u16 :- buffer.ReadInt16();
      var host: Text :- buffer.ReadQname();
      r := Ok(DnsRecord.SRV(domain, priority, weight, port, host, ttl));
    case PTR =>
      var data: Text :- buffer.ReadQname();
      r := Ok(DnsRecord.PTR(domain, data, ttl));
    case MX =>
      var priority: u16 :- buffer.ReadInt16();
      var host: Text :- buffer.ReadQname();
      r := Ok(DnsRecord.MX(domain, priority, host, ttl));
    case SOA =>
      var mName: Text :- buffer.ReadQname();
      var rName: Text :- buffer.ReadQname();
      var serial: u32 :- buffer.ReadInt32();
      var refresh: u32 :- buffer.ReadInt32();
      var retry: u32 :- buffer.ReadInt32();
      var expire: u32 :- buffer.ReadInt32();
      var minimum: u32 :- buffer.ReadInt32();
      r := Ok(DnsRecord.SOA(domain, mName, rName, serial, refresh, retry, expire, minimum, ttl));
    case TXT =>
      var data: seq<byte> :- buffer.ReadBytes(len);
      r := Ok(DnsRecord.TXT(domain, Lossy(data), ttl));
    case OPT =>
      var data: seq<byte> :- buffer.ReadBytes(len);
      r := Ok(DnsRecord.OPT(class_, ttl, Lossy(data)));
    case TLSA =>
      var usage: byte :- buffer.Read();
      var selector: byte :- buffer.Read();
      var matching: byte :- buffer.Read();
      var data: seq<byte> :- buffer.ReadBytes((len + 0xFFFD) % 0x1_0000);
      r := Ok(DnsRecord.TLSA(domain, usage, selector, matching, data, ttl));
    case UNKNOWN(_) =>
      buffer.Step(len);
      r := Ok(DnsRecord.UNKNOWN(domain, num, len, ttl));
  }

  // ---------------------------------------------------------------------------
  // Writing
  // ---------------------------------------------------------------------------

  method WriteHead(buffer: PacketBuffer, rec: DnsRecord)
    requires buffer.Writable()
    modifies buffer`buffer, buffer`pos, buffer`labelLookup
    ensures buffer.Wrote(Encode(old(buffer.labelLookup), |old(buffer.buffer)|, Headed(rec, End)))
  {
    hide EncName, U16Bytes, U32Bytes, Left, Encode;
    ghost var whole := Start(buffer, Headed(rec, End));
    LeftSteps();
    var num := rec.GetQuerytype().ToNum();
    if rec.OPT? {
      buffer.Write(0);
      buffer.WriteU16(num);
      buffer.WriteU16(rec.packetLen);
      buffer.WriteU32(rec.flags);
    } else {
      buffer.WriteQname(rec.domain);
      buffer.WriteU16(num);
      buffer.WriteU16(1);
      buffer.WriteU32(rec.ttl);
    }
  }

  /** Tracks the writing of `p`: see Left. */
  ghost method Start(buffer: PacketBuffer, p: Pieces) returns (whole: Enc)
    ensures Left(whole, buffer.buffer, buffer.labelLookup, p)
    ensures var e := Encode(buffer.labelLookup, |buffer.buffer|, p); whole == Enc(buffer.buffer + e.chunk, e.table)
  {
    var e := Encode(buffer.labelLookup, |buffer.buffer|, p);
    whole := Enc(buffer.buffer + e.chunk, e.table);
  }

  /** The record data, field by field. */
  method WriteBody(buffer: PacketBuffer, rec: DnsRecord)
    requires buffer.Writable()
    modifies buffer`buffer, buffer`pos, buffer`labelLookup
    ensures buffer.Wrote(Encode(old(buffer.labelLookup), |old(buffer.buffer)|, Body(rec)))
  {
    hide EncName, U16Bytes, U32Bytes, Left, Encode;
    ghost var whole := Start(buffer, Body(rec));
    LeftSteps();
    match rec
    case UNKNOWN(_, _, _, _) =>
    case A(_, addr, _) => buffer.WriteBytes(addr);
    case AAAA(_, addr, _) => WriteSegments(buffer, addr);
    case NS(_, host, _) => buffer.WriteQname(host);
    case CNAME(_, host, _) => buffer.WriteQname(host);
    case PTR(_, data, _) => buffer.WriteQname(data);
    case SRV(_, priority, weight, port, host, _) =>
      buffer.WriteU16(priority);
      buffer.WriteU16(weight);
      buffer.WriteU16(port);
      buffer.WriteQname(host);
    case MX(_, priority, host, _) =>
      buffer.WriteU16(priority);
      buffer.WriteQname(host);
    case SOA(_, _, _, _, _, _, _, _, _) => WriteSoa(buffer, rec);
    case TXT(_, data, _) =>
      buffer.Write(|data| % 256);
      buffer.WriteBytes(data);
      assert old(buffer.buffer) + [|data| % 256] + data == old(buffer.buffer) + ([|data| % 256] + data);
    case TLSA(_, _, _, _, _, _) => WriteTlsa(buffer, rec);
    case OPT(_, _, data) => buffer.WriteBytes(data);
  }

  method WriteSoa(buffer: PacketBuffer, rec: DnsRecord)
    requires buffer.Writable() && rec.SOA?
    modifies buffer`buffer, buffer`pos, buffer`labelLookup
    ensures buffer.Wrote(Encode(old(buffer.labelLookup), |old(buffer.buffer)|, Body(rec)))
  {
    hide EncName, U16Bytes, U32Bytes, Left, Encode;
    ghost var whole := Start(buffer, Body(rec));
    LeftSteps();
    buffer.WriteQname(rec.mName);
    buffer.WriteQname(rec.rName);
    buffer.WriteU32(rec.serial);
    buffer.WriteU32(rec.refresh);
    buffer.WriteU32(rec.retry);
    buffer.WriteU32(rec.expire);
    buffer.WriteU32(rec.minimum);
  }

  method WriteTlsa(buffer: PacketBuffer, rec: DnsRecord)
    requires buffer.Writable() && rec.TLSA?
    modifies buffer`buffer, buffer`pos
    ensures buffer.Wrote(Encode(old(buffer.labelLookup), |old(buffer.buffer)|, Body(rec)))
  {
    buffer.Write(rec.certificateUsage);
    buffer.Write(rec.selector);
    buffer.Write(rec.matchingType);
    buffer.WriteBytes(rec.data);
    assert old(buffer.buffer) + [rec.certificateUsage] + [rec.selector] + [rec.matchingType] + rec.data
        == old(buffer.buffer) + ([rec.certificateUsage, rec.selector, rec.matchingType] + rec.data + []);
  }

  method WriteSegments(buffer: PacketBuffer, addr: seq<u16>)
    requires buffer.Writable()
    modifies buffer`buffer, buffer`pos
    ensures buffer.Wrote(Enc(Segments(addr), old(buffer.labelLookup)))
  {
    assert addr[0..] == addr;
    for i := 0 to |addr|
      invariant buffer.Writable()
      invariant buffer.buffer + Segments(addr[i..]) == old(buffer.buffer) + Segments(addr)
    {
      Assoc(buffer.buffer, U16Bytes(addr[i]), Segments(addr[i + 1..]));
      assert addr[i..][1..] == addr[i + 1..];
      buffer.WriteU16(addr[i]);
    }
  }

  /** The length announced up front by the kinds of record whose data is not back-patched. */
  function Announced(rec: DnsRecord): Option<u16> {
    match rec
    case A(_, _, _) => Some(4)
    case AAAA(_, _, _) => Some(16)
    case TXT(_, data, _) => Some((|data| + 1) % 0x1_0000)
    case TLSA(_, _, _, _, data, _) => Some((|data| + 3) % 0x1_0000)
    case OPT(_, _, data) => Some(|data| % 0x1_0000)
    case _ => None
  }

  lemma AnnouncedIsLength(rec: DnsRecord, table: Table, at: nat)
    requires Announced(rec).Some?
    ensures |Encode(table, at, Body(rec)).chunk| % 0x1_0000 == Announced(rec).value
  {
    assert Body(rec).Raw? && Body(rec).rest == End;
    assert Encode(table, at, Body(rec)).chunk == Body(rec).bytes + [];
    if rec.AAAA? {
      SegmentBytes(rec.addr6, 0);
    }
  }

  /** `DnsRecord::write`: returns the number of bytes written. */
  method WriteRecord(buffer: PacketBuffer, rec: DnsRecord) returns (size: nat)
    requires buffer.Writable()
    modifies buffer`buffer, buffer`pos, buffer`labelLookup
    ensures buffer.Wrote(EncRecord(old(buffer.labelLookup), |old(buffer.buffer)|, rec))
    ensures size == |EncRecord(old(buffer.labelLookup), |old(buffer.buffer)|, rec).chunk|
  {
    hide EncName, U16Bytes, Encode, Headed, Body;
    var startPos := buffer.pos;
    if rec.UNKNOWN? {
      return 0;
    }
    WriteHead(buffer, rec);
    var at := buffer.pos;
    ghost var head, table := buffer.buffer, buffer.labelLookup;
    if Announced(rec).Some? {
      AnnouncedIsLength(rec, table, |head| + 2);
      buffer.WriteU16(Announced(rec).value);
      WriteBody(buffer, rec);
    } else {
      buffer.WriteU16(0);
      WriteBody(buffer, rec);
      var dataSize := buffer.pos - (at + 2);
      Patched(head, U16Bytes(0), Encode(table, |head| + 2, Body(rec)).chunk, U16Bytes(dataSize % 0x1_0000));
      buffer.SetU16(at, dataSize % 0x1_0000);
    }
    size := buffer.pos - startPos;
    ghost var was := old(buffer.buffer);
    ghost var h := Encode(old(buffer.labelLookup), |was|, Headed(rec, End)).chunk;
    ghost var d := Encode(table, |head| + 2, Body(rec)).chunk;
    Assoc(was, h, U16Bytes(|d| % 0x1_0000));
    Assoc(was, h + U16Bytes(|d| % 0x1_0000), d);
  }

  lemma Patched(head: seq<byte>, x: seq<byte>, data: seq<byte>, y: seq<byte>)
    requires |x| == |y| == 2
    ensures var b := head + x + data; b[..|head|] + y + b[|head| + 2..] == head + y + data
  {
  }
}
