/** What the reader makes of bytes nobody here wrote: every field by its position. */
module WireReading {
  import opened Data
  import opened Names
  import opened NameCodec
  import opened NameLimits
  import opened PacketBuffers
  import opened Utf8
  import opened Records
  import opened Packets
  import opened WireFormat
  import opened WireMessages

  // ---------------------------------------------------------------------------
  // Names
  // ---------------------------------------------------------------------------

  /** The upper-case letters become lower-case ones, and every other byte stays. */
  lemma LowerBytes(s: Text, i: nat)
    requires i < |s|
    ensures |Lower(s)| == |s| && !(0x41 <= Lower(s)[i] <= 0x5A)
    ensures if 0x41 <= s[i] <= 0x5A then Lower(s)[i] == s[i] + 0x20 else Lower(s)[i] == s[i]
  {
  }

  /** The fourteen bits of a pointer whose two top bits are set lead where they count to. With one of the two bits
      clear, which the program takes for a pointer all the same, that bit counts as set and the other as clear. */
  lemma PointerLeads(hi: byte, lo: byte)
    requires hi >= 0x40
    ensures Target(hi, lo) ==
      (hi as int % 0x40 + (if hi >= 0xC0 then 0 else if hi >= 0x80 then 0x40 else 0x80)) * 0x100 + lo as int
  {
  }

  /** No label that is read is empty, so only a name without labels is. */
  lemma {:induction false} LabelsNotEmpty(b: seq<byte>, at: nat, steps: nat)
    ensures var w := Walk(b, at, steps); w.Settled? ==> forall l | l in w.labels :: l != []
    decreases steps
  {
    hide Lower;
    if steps > 0 && at < |b| {
      if b[at] >= 64 {
        if at + 1 < |b| {
          LabelsNotEmpty(b, Target(b[at], b[at + 1]), steps - 1);
        }
      } else if b[at] > 0 && at + 1 + b[at] <= |b| {
        LabelsNotEmpty(b, at + 1 + b[at], steps - 1);
        var l, rest := Lower(b[at + 1..at + 1 + b[at]]), Walk(b, at + 1 + b[at], steps - 1);
        assert |l| == b[at];
        assert rest.Settled? ==> Walk(b, at, steps).labels == [l] + rest.labels;
      }
    }
  }

  lemma Joined(l: Text, ls: seq<Text>)
    requires forall x | x in ls :: x != []
    ensures Join([l] + ls) == if Join(ls) == [] then l else l + [46] + Join(ls)
  {
    assert ([l] + ls)[1..] == ls;
    assert ls != [] ==> ls[0] in ls;
  }

  /** One step of the reader, whatever stands at a position: the end of the bytes is a fault, a zero byte
      ends the name, and a byte from 64 on begins a pointer of two bytes. */
  lemma NameStops(b: seq<byte>, at: nat)
    ensures at >= |b| ==> ReadName(b, at) == Fault
    ensures at < |b| && b[at] == 0 ==> ReadName(b, at) == Done([], at + 1)
    ensures at + 1 == |b| && b[at] >= 0x40 ==> ReadName(b, at) == Fault
    ensures at < |b| && 0 < b[at] < 0x40 && at + 1 + b[at] > |b| ==> ReadName(b, at) == Fault
  {
  }

  lemma PointerStep(b: seq<byte>, at: nat)
    requires at + 1 < |b| && b[at] >= 0x40
    ensures match ReadName(b, Target(b[at], b[at + 1]))
      case Done(name, _) => ReadName(b, at) == Done(name, at + 2)
      case Fault => ReadName(b, at) == Fault
      case Diverges => ReadName(b, at) == Diverges
  {
    hide Walk, Join;
    ReadsOn(b, at);
  }

  /** Any other byte counts the bytes of a label, which comes before what is read after it. */
  lemma LabelStep(b: seq<byte>, at: nat)
    requires at < |b| && 0 < b[at] < 0x40 && at + 1 + b[at] <= |b|
    ensures var (l, next) := (Lower(b[at + 1..at + 1 + b[at]]), at + 1 + b[at]);
      match ReadName(b, next)
      case Done(name, end) => ReadName(b, at) == Done(if name == [] then l else l + [46] + name, end)
      case Fault => ReadName(b, at) == Fault
      case Diverges => ReadName(b, at) == Diverges
  {
    hide Walk, Join, Lower;
    var (l, next) := (Lower(b[at + 1..at + 1 + b[at]]), at + 1 + b[at]);
    ReadsOn(b, at);
    LabelsNotEmpty(b, next, |b| + 1);
    if Whole(b, next).Settled? {
      Joined(l, Whole(b, next).labels);
    }
  }

  // ---------------------------------------------------------------------------
  // Headers and questions
  // ---------------------------------------------------------------------------

  /** A header is read exactly where twelve bytes are left, and each of its parts from its place. */
  lemma HeaderRead(b: seq<byte>, at: nat)
    ensures if at + 12 > |b| then ReadHeader(b, at) == Fault
      else
        var r := ReadHeader(b, at);
        && r.Done? && r.next == at + 12
        && Num16(b, at) == r.value.id
        && Num16(b, at + 4) == r.value.questions && Num16(b, at + 6) == r.value.answers
        && Num16(b, at + 8) == r.value.authoritativeEntries && Num16(b, at + 10) == r.value.resourceEntries
        && FlagsRead(b[at + 2], b[at + 3], r.value)
  {
    hide FlagsRead;
    if at + 12 <= |b| {
      Byte256(b[at + 2], b[at + 3]);
      FlagsTaken(Num16(b, at), b[at + 2], b[at + 3]);
      SameRead(b[at + 2], b[at + 3], Flagged(Num16(b, at), b[at + 2], b[at + 3]), ReadHeader(b, at).value);
    }
    hide Flagged;
  }

  lemma SameRead(a: byte, b: byte, g: DnsHeader, h: DnsHeader)
    requires FlagsRead(a, b, g)
    requires h == g.(questions := h.questions, answers := h.answers, authoritativeEntries := h.authoritativeEntries,
                     resourceEntries := h.resourceEntries)
    ensures FlagsRead(a, b, h)
  {
  }

  /** The flag bits, four bits of opcode, and the code, which stands for no error if it is unknown. */
  predicate FlagsRead(a: byte, b: byte, h: DnsHeader) {
    && (On(a, 1) <==> h.recursionDesired) && (On(a, 2) <==> h.truncatedMessage) && (On(a, 4) <==> h.authoritativeAnswer)
    && h.opcode as int == a as int / 8 % 16
    && (On(a, 128) <==> h.response)
    && (if 1 <= b as int % 16 <= 5 then CodeStands(h.rescode, b as int % 16) else h.rescode == NOERROR)
    && (On(b, 16) <==> h.checkingDisabled) && (On(b, 32) <==> h.authedData)
    && (On(b, 64) <==> h.z) && (On(b, 128) <==> h.recursionAvailable)
  }

  lemma FlagsTaken(id: u16, a: byte, b: byte)
    ensures FlagsRead(a, b, Flagged(id, a, b))
  {
    ApartIs(a);
    ApartIs(b as int / 16);
    Nested(a);
    Nested(b);
    CodeRead(b as int % 16);
    hide Apart, ResultFromNum, CodeStands;
  }

  lemma CodeRead(n: byte)
    ensures if 1 <= n <= 5 then CodeStands(ResultFromNum(n), n as int) else ResultFromNum(n) == NOERROR
  {
  }

  lemma Nested(x: byte)
    ensures x as int / 16 / 2 == x as int / 32 && x as int / 16 / 4 == x as int / 64
    ensures x as int / 16 / 8 == x as int / 128 && x as int / 8 / 16 == x as int / 128
    ensures x as int / 8 < 32 && x as int / 128 < 2
  {
  }

  lemma ApartIs(v: nat)
    ensures Apart(v) == (v % 2 == 1, v / 2 % 2 == 1, v / 4 % 2 == 1, v / 8)
  {
    assert v / 2 / 2 == v / 4 && v / 4 / 2 == v / 8;
  }

  /** A question is a name, two bytes of type, and two more that are passed over. */
  lemma QuestionRead(b: seq<byte>, at: nat)
    ensures match ReadName(b, at)
      case Done(name, n) =>
        if n + 4 > |b| then ReadQuestion(b, at) == Fault
        else
          var r := ReadQuestion(b, at);
          r.Done? && r.next == n + 4 && r.value.name == name && TypeOf(r.value.qtype, Num16(b, n))
      case Fault => ReadQuestion(b, at) == Fault
      case Diverges => ReadQuestion(b, at) == Diverges
  {
    hide ReadName;
  }

  /** The type a number names: its own type if it has one, and otherwise an unknown type of that number. */
  predicate TypeOf(q: QueryType, n: nat) {
    AskedFor(q, n) && (q.UNKNOWN? ==> n !in {1, 2, 5, 6, 12, 15, 16, 28, 33, 41, 52})
  }

  // ---------------------------------------------------------------------------
  // Records
  // ---------------------------------------------------------------------------

  /** The fields of a record whose head starts at n and whose data starts ten bytes later. */
  predicate FieldsRead(b: seq<byte>, n: nat, name: Text, rec: DnsRecord, end: nat)
    requires n + 10 <= |b|
  {
    var num, ttl, len, d := Num16(b, n), Num32(b, n + 4), Num16(b, n + 8), n + 10;
    match rec
    case A(domain, addr, t) =>
      num == 1 && domain == name && t == ttl && end == d + 4 <= |b| && (forall i | 0 <= i < 4 :: addr[i] == b[d + i])
    case AAAA(domain, addr, t) =>
      && num == 28 && domain == name && t == ttl && end == d + 16 <= |b|
      && (forall i | 0 <= i < 8 :: addr[i] == Num16(b, d + 2 * i))
    case NS(domain, host, t) => num == 2 && domain == name && t == ttl && ReadName(b, d) == Done(host, end)
    case CNAME(domain, host, t) => num == 5 && domain == name && t == ttl && ReadName(b, d) == Done(host, end)
    case PTR(domain, data, t) => num == 12 && domain == name && t == ttl && ReadName(b, d) == Done(data, end)
    case MX(domain, priority, host, t) =>
      && num == 15 && domain == name && t == ttl && d + 2 <= |b|
      && priority == Num16(b, d) && ReadName(b, d + 2) == Done(host, end)
    case SRV(domain, priority, weight, port, host, t) =>
      && num == 33 && domain == name && t == ttl && d + 6 <= |b|
      && priority == Num16(b, d) && weight == Num16(b, d + 2) && port == Num16(b, d + 4)
      && ReadName(b, d + 6) == Done(host, end)
    case SOA(domain, mName, rName, serial, refresh, retry, expire, minimum, t) =>
      && num == 6 && domain == name && t == ttl
      && ReadName(b, d).Done? && ReadName(b, d).value == mName
      && var p := ReadName(b, d).next;
      && ReadName(b, p).Done? && ReadName(b, p).value == rName
      && var q := ReadName(b, p).next;
      && end == q + 20 <= |b|
      && serial == Num32(b, q) && refresh == Num32(b, q + 4) && retry == Num32(b, q + 8)
      && expire == Num32(b, q + 12) && minimum == Num32(b, q + 16)
    case TXT(domain, data, t) =>
      num == 16 && domain == name && t == ttl && end == d + len <= |b| && data == Lossy(b[d..end])
    case OPT(packetLen, flags, data) =>
      num == 41 && packetLen == Num16(b, n + 2) && flags == ttl && end == d + len <= |b| && data == Lossy(b[d..end])
    case TLSA(domain, usage, selector, matching, data, t) =>
      && num == 52 && domain == name && t == ttl && d + 3 <= end <= |b|
      && usage == b[d] && selector == b[d + 1] && matching == b[d + 2]
      && end == d + 3 + (if len >= 3 then len - 3 else len + 0x1_0000 - 3) && data == b[d + 3..end]
    case UNKNOWN(domain, qtype, dataLen, t) =>
      && num !in {1, 2, 5, 6, 12, 15, 16, 28, 33, 41, 52} && qtype == num
      && domain == name && t == ttl && dataLen == len && end == d + len
  }

  lemma Reads16(b: seq<byte>, at: nat)
    ensures ReadU16(b, at) == if at + 2 <= |b| then Done(Num16(b, at), at + 2) else Fault
  {
  }

  lemma Reads32(b: seq<byte>, at: nat)
    ensures ReadU32(b, at) == if at + 4 <= |b| then Done(Num32(b, at), at + 4) else Fault
  {
  }

  /** Reading the data that starts ten bytes after n, given the numbers of the head. */
  function DataAfter(b: seq<byte>, n: nat, name: Text): Parse<DnsRecord>
    requires n + 10 <= |b|
  {
    ReadData(b, n + 10, name, Num16(b, n), Num16(b, n + 2), Num32(b, n + 4), Num16(b, n + 8))
  }

  lemma AddressRead(b: seq<byte>, n: nat, name: Text)
    requires n + 10 <= |b| && DataAfter(b, n, name).Done? && Num16(b, n) in {1, 28}
    ensures FieldsRead(b, n, name, DataAfter(b, n, name).value, DataAfter(b, n, name).next)
  {
    var d := n + 10;
    if Num16(b, n) == 1 {
      U32BytesAt(b, d);
    } else {
      HalvesAt(b, d);
      HalvesAt(b, d + 4);
      HalvesAt(b, d + 8);
      HalvesAt(b, d + 12);
      hide Halves, U32At, Num16;
    }
  }

  lemma HalvesAt(b: seq<byte>, at: nat)
    requires at + 4 <= |b|
    ensures Halves(U32At(b, at)) == [Num16(b, at), Num16(b, at + 2)]
  {
    var (hi, lo) := (Num16(b, at), Num16(b, at + 2));
    assert U32At(b, at) as int == hi * 0x1_0000 + lo;
  }

  lemma NamesRead(b: seq<byte>, n: nat, name: Text)
    requires n + 10 <= |b| && DataAfter(b, n, name).Done? && Num16(b, n) in {2, 5, 12, 15, 33}
    ensures FieldsRead(b, n, name, DataAfter(b, n, name).value, DataAfter(b, n, name).next)
  {
    hide ReadName, U16At;
    var d := n + 10;
    Reads16(b, d);
    Reads16(b, d + 2);
    Reads16(b, d + 4);
    hide ReadU16, Num16, Num32;
  }

  lemma SoaRead(b: seq<byte>, n: nat, name: Text)
    requires n + 10 <= |b| && DataAfter(b, n, name).Done? && Num16(b, n) == 6
    ensures FieldsRead(b, n, name, DataAfter(b, n, name).value, DataAfter(b, n, name).next)
  {
    hide ReadName, U32At, Num16, Num32;
    forall at: nat
      ensures ReadU32(b, at) == if at + 4 <= |b| then Done(Num32(b, at), at + 4) else Fault
    {
      Reads32(b, at);
    }
    hide ReadU32;
  }

  lemma BytesRead(b: seq<byte>, n: nat, name: Text)
    requires n + 10 <= |b| && DataAfter(b, n, name).Done? && Num16(b, n) !in {1, 2, 5, 6, 12, 15, 28, 33}
    ensures FieldsRead(b, n, name, DataAfter(b, n, name).value, DataAfter(b, n, name).next)
  {
    hide ReadName, Lossy;
  }

  lemma DataRead(b: seq<byte>, n: nat, name: Text)
    requires n + 10 <= |b| && DataAfter(b, n, name).Done?
    ensures FieldsRead(b, n, name, DataAfter(b, n, name).value, DataAfter(b, n, name).next)
  {
    hide DataAfter, FieldsRead, Num16;
    if Num16(b, n) in {1, 28} {
      AddressRead(b, n, name);
    } else if Num16(b, n) in {2, 5, 12, 15, 33} {
      NamesRead(b, n, name);
    } else if Num16(b, n) == 6 {
      SoaRead(b, n, name);
    } else {
      BytesRead(b, n, name);
    }
  }

  /** Whatever record is read from whatever bytes: its name is the name that stands there, and each of its
      fields is the number or the bytes at its own place. */
  lemma RecordRead(b: seq<byte>, at: nat)
    requires ReadRecord(b, at).Done?
    ensures ReadName(b, at).Done? && ReadName(b, at).next + 10 <= |b|
    ensures FieldsRead(b, ReadName(b, at).next, ReadName(b, at).value, ReadRecord(b, at).value, ReadRecord(b, at).next)
  {
    hide ReadName, ReadData, FieldsRead, Num16, Num32, ReadU16, ReadU32;
    if ReadName(b, at).Done? {
      var n := ReadName(b, at).next;
      Reads16(b, n);
      Reads16(b, n + 2);
      Reads32(b, n + 4);
      Reads16(b, n + 8);
      if n + 10 <= |b| {
        DataRead(b, n, ReadName(b, at).value);
      }
    }
  }
}
