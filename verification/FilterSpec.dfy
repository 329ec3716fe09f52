/** What the name answer logic should say about a name under the blockchain's zones. */
module FilterSpec {
  import opened Data
  import opened Names
  import opened Records
  import opened Packets
  import opened Messages

  function Ascii(s: string): Text {
    seq(|s|, i requires 0 <= i < |s| => s[i] as int % 0x80)
  }

  const AT: Text := [0x40]
  const STAR: Text := [0x2A]

  datatype Addr = V4(ip4: Ipv4Addr) | V6(ip6: Ipv6Addr)

  /** What the chain stores about a domain: nothing, data that does not parse, or records. */
  datatype DomainInfo = Absent | Unreadable | Stored(records: seq<DnsRecord>)

  /** What a lookup reads of the node's context, at one moment, and the servers it may ask. */
  datatype Context = Context(
    zones: set<Text>,
    serial: u32,
    info: Text -> DomainInfo,
    ask: (Text, QueryType, seq<Addr>) -> Option<Message>)

  // ---------------------------------------------------------------------------
  // Records and names
  // ---------------------------------------------------------------------------

  /** PTR records keep their owner name and OPT records have none. */
  predicate Renames(rec: DnsRecord) {
    !rec.PTR? && !rec.OPT?
  }

  function Renamed(rec: DnsRecord, qname: Text): (r: DnsRecord)
    ensures r.GetQuerytype() == rec.GetQuerytype()
    ensures r.GetDomain() == if Renames(rec) then Some(qname) else rec.GetDomain()
  {
    match rec
    case UNKNOWN(_, t, len, ttl) => DnsRecord.UNKNOWN(qname, t, len, ttl)
    case A(_, addr, ttl) => DnsRecord.A(qname, addr, ttl)
    case NS(_, host, ttl) => DnsRecord.NS(qname, host, ttl)
    case CNAME(_, host, ttl) => DnsRecord.CNAME(qname, host, ttl)
    case SOA(_, m, r, serial, refresh, retry, expire, minimum, ttl) =>
      DnsRecord.SOA(qname, m, r, serial, refresh, retry, expire, minimum, ttl)
    case MX(_, priority, host, ttl) => DnsRecord.MX(qname, priority, host, ttl)
    case TXT(_, data, ttl) => DnsRecord.TXT(qname, data, ttl)
    case AAAA(_, addr, ttl) => DnsRecord.AAAA(qname, addr, ttl)
    case SRV(_, priority, weight, port, host, ttl) => DnsRecord.SRV(qname, priority, weight, port, host, ttl)
    case TLSA(_, usage, selector, matching, data, ttl) => DnsRecord.TLSA(qname, usage, selector, matching, data, ttl)
    case PTR(_, _, _) => rec
    case OPT(_, _, _) => rec
  }

  /** The stored record is about the name asked: its owner is the subdomain, the whole name, or `@`
      where there is no subdomain. */
  predicate Owned(rec: DnsRecord, sub: Text, qname: Text) {
    var d := rec.GetDomain();
    d.Some? && (d.value == sub || d.value == qname || (d.value == AT && sub == [] && Renames(rec)))
  }

  /** The records of the asked type that are about the name, renamed to it. */
  function Direct(records: seq<DnsRecord>, sub: Text, qname: Text, qtype: QueryType): seq<DnsRecord> {
    if records == [] then []
    else
      var n := |records| - 1;
      var rest := Direct(records[..n], sub, qname, qtype);
      if records[n].GetQuerytype() == qtype && !records[n].CNAME? && Owned(records[n], sub, qname)
      then rest + [Renamed(records[n], qname)] else rest
  }

  /** The last alias of the name. */
  function LastAlias(records: seq<DnsRecord>, sub: Text, qname: Text): Option<DnsRecord> {
    if records == [] then None
    else
      var n := |records| - 1;
      if records[n].CNAME? && Owned(records[n], sub, qname) then Some(Renamed(records[n], qname))
      else LastAlias(records[..n], sub, qname)
  }

  /** The wildcard records of the asked type, renamed to the name. */
  function Wildcards(records: seq<DnsRecord>, qname: Text, qtype: QueryType): seq<DnsRecord> {
    if records == [] then []
    else
      var n := |records| - 1;
      var rest := Wildcards(records[..n], qname, qtype);
      if records[n].GetQuerytype() == qtype && records[n].GetDomain() == Some(STAR)
      then rest + [Renamed(records[n], qname)] else rest
  }

  /** The answers: records about the name, or else its alias, or else wildcards. */
  function Answers(records: seq<DnsRecord>, sub: Text, qname: Text, qtype: QueryType): seq<DnsRecord> {
    var direct, alias := Direct(records, sub, qname, qtype), LastAlias(records, sub, qname);
    if direct != [] then direct else if alias.Some? then [alias.value] else Wildcards(records, qname, qtype)
  }

  /** Some stored record, of whatever type, has the subdomain or the wildcard for its owner. */
  predicate Known(records: seq<DnsRecord>, sub: Text) {
    exists i | 0 <= i < |records| :: records[i].GetDomain() == Some(sub) || records[i].GetDomain() == Some(STAR)
  }

  // ---------------------------------------------------------------------------
  // Servers of the domain's own
  // ---------------------------------------------------------------------------

  function Hosts(records: seq<DnsRecord>): seq<Text> {
    if records == [] then []
    else
      var n := |records| - 1;
      Hosts(records[..n]) + if records[n].NS? && records[n].domain == AT then [records[n].host] else []
  }

  function AddrOf(rec: DnsRecord): Option<Addr> {
    match rec
    case A(_, addr, _) => Some(V4(addr))
    case AAAA(_, addr, _) => Some(V6(addr))
    case _ => None
  }

  function Repeat<T>(x: T, n: nat): seq<T> {
    seq(n, _ => x)
  }

  /** How often a name is listed. */
  function Times(hosts: seq<Text>, name: Text): nat {
    if hosts == [] then 0 else Times(hosts[..|hosts| - 1], name) + if hosts[|hosts| - 1] == name then 1 else 0
  }

  /** The addresses of the named hosts, each once for every time its host is listed. */
  function Servers(records: seq<DnsRecord>, hosts: seq<Text>, top: Text): seq<Addr> {
    if records == [] then []
    else
      var n := |records| - 1;
      Servers(records[..n], hosts, top) +
        if AddrOf(records[n]).Some?
        then Repeat(AddrOf(records[n]).value, Times(hosts, records[n].domain + [DOT] + top)) else []
  }

  // ---------------------------------------------------------------------------
  // The packet
  // ---------------------------------------------------------------------------

  function Soa(zone: Text, serial: u32): DnsRecord {
    DnsRecord.SOA(zone, Ascii("ns.ruvcha.in"), Ascii("admin.ruvcha.in"), serial, 3600, 300, 604800, 60, 60)
  }

  /** create_packet */
  function Packet(ctx: Context, qname: Text, qtype: QueryType, zone: Text, answers: seq<DnsRecord>): Message {
    if answers != [] then
      Message(EMPTY_HEADER.(authoritativeAnswer := true), [DnsQuestion(qname, qtype)], answers,
        [DnsRecord.NS(zone, Ascii("ns.ruvcha.in"), 600)], [])
    else
      Message(EMPTY_HEADER.(authoritativeAnswer := true, rescode := NXDOMAIN), [DnsQuestion(qname, qtype)], [],
        [Soa(zone, ctx.serial)], [])
  }

  function TopDomain(ls: seq<Text>): Text
    requires |ls| >= 2
  {
    ls[|ls| - 2] + [DOT] + ls[|ls| - 1]
  }

  function Subdomain(ls: seq<Text>): Text
    requires |ls| >= 2
  {
    Join(ls[..|ls| - 2])
  }

  lemma Dotted(sub: Text, a: Text, b: Text)
    ensures sub + [DOT] + a + [DOT] + b == sub + [DOT] + (a + [DOT] + b)
  {
  }

  /** A name is its subdomain, if it has one, before its top domain. */
  lemma NameIsSubAndTop(qname: Text)
    requires |Labels(qname)| >= 2
    ensures var ls := Labels(qname);
      qname == if |ls| == 2 then TopDomain(ls) else Subdomain(ls) + [DOT] + TopDomain(ls)
  {
    hide Labels;
    var ls := Labels(qname);
    var n := |ls|;
    JoinLabels(qname);
    hide Join;
    assert ls == ls[..n - 2] + [ls[n - 2]] + [ls[n - 1]];
    JoinAppend(ls[..n - 2] + [ls[n - 2]], ls[n - 1]);
    JoinAppend(ls[..n - 2], ls[n - 2]);
    Dotted(Subdomain(ls), ls[n - 2], ls[n - 1]);
  }

  /** The answer from a domain's stored records. */
  function FromRecords(
      ctx: Context, qname: Text, qtype: QueryType, zone: Text, sub: Text, records: seq<DnsRecord>): Message
  {
    var answers := Answers(records, sub, qname, qtype);
    var m := Packet(ctx, qname, qtype, zone, answers);
    if answers == [] && (sub == [] || Known(records, sub)) then m.(header := m.header.(rescode := NOERROR)) else m
  }

  /** lookup */
  function Response(ctx: Context, qname: Text, qtype: QueryType): Option<Message> {
    var ls := Labels(qname);
    var zone := ls[|ls| - 1];
    if |ls| == 1 then
      (if zone in ctx.zones then Some(Message(EMPTY_HEADER, [], [], [Soa(zone, ctx.serial)], [])) else None)
    else
      match ctx.info(TopDomain(ls))
      case Absent => if zone in ctx.zones then Some(Packet(ctx, qname, qtype, zone, [])) else None
      case Unreadable => None
      case Stored(records) =>
        var servers := Servers(records, Hosts(records), TopDomain(ls));
        if servers != [] then ctx.ask(qname, qtype, servers)
        else Some(FromRecords(ctx, qname, qtype, zone, Subdomain(ls), records))
  }

  // ---------------------------------------------------------------------------
  // What the answers mean
  // ---------------------------------------------------------------------------

  lemma {:induction false} DirectMeans(records: seq<DnsRecord>, sub: Text, qname: Text, qtype: QueryType, a: DnsRecord)
    ensures a in Direct(records, sub, qname, qtype) <==>
      exists r | r in records ::
        r.GetQuerytype() == qtype && !r.CNAME? && Owned(r, sub, qname) && a == Renamed(r, qname)
    decreases |records|
  {
    if records != [] {
      var n := |records| - 1;
      DirectMeans(records[..n], sub, qname, qtype, a);
      assert records == records[..n] + [records[n]];
    }
  }

  lemma {:induction false} AliasMeans(records: seq<DnsRecord>, sub: Text, qname: Text)
    ensures var a := LastAlias(records, sub, qname);
      if a.None? then forall r | r in records :: !(r.CNAME? && Owned(r, sub, qname))
      else exists r | r in records :: r.CNAME? && Owned(r, sub, qname) && a.value == Renamed(r, qname)
    decreases |records|
  {
    if records != [] {
      var n := |records| - 1;
      AliasMeans(records[..n], sub, qname);
      assert records == records[..n] + [records[n]];
    }
  }

  lemma {:induction false} WildcardsMean(records: seq<DnsRecord>, qname: Text, qtype: QueryType, a: DnsRecord)
    ensures a in Wildcards(records, qname, qtype) <==>
      exists r | r in records :: r.GetQuerytype() == qtype && r.GetDomain() == Some(STAR) && a == Renamed(r, qname)
    decreases |records|
  {
    if records != [] {
      var n := |records| - 1;
      WildcardsMean(records[..n], qname, qtype, a);
      assert records == records[..n] + [records[n]];
    }
  }

  /** Every answer has the asked type or is an alias, every answer but a PTR is owned by the name
      asked, and each comes from a stored record: one about the name, or else a wildcard. */
  lemma AnswersMean(records: seq<DnsRecord>, sub: Text, qname: Text, qtype: QueryType, a: DnsRecord)
    requires a in Answers(records, sub, qname, qtype)
    ensures a.GetQuerytype() == qtype || a.CNAME?
    ensures a.GetDomain().Some? && (!a.PTR? ==> a.GetDomain() == Some(qname))
    ensures exists r | r in records :: a == Renamed(r, qname) && (Owned(r, sub, qname) || r.GetDomain() == Some(STAR))
  {
    hide Direct, LastAlias, Wildcards, Owned, Renamed;
    DirectMeans(records, sub, qname, qtype, a);
    AliasMeans(records, sub, qname);
    WildcardsMean(records, qname, qtype, a);
    AnswerSource(records, sub, qname, qtype, a);
  }

  lemma AnswerSource(records: seq<DnsRecord>, sub: Text, qname: Text, qtype: QueryType, a: DnsRecord)
    requires exists r | r in records ::
      && a == Renamed(r, qname) && (r.GetQuerytype() == qtype || r.CNAME?)
      && (Owned(r, sub, qname) || r.GetDomain() == Some(STAR))
    ensures a.GetQuerytype() == qtype || a.CNAME?
    ensures a.GetDomain().Some? && (!a.PTR? ==> a.GetDomain() == Some(qname))
  {
  }

  /** A stored record is about the name and of a type that answers the question. */
  predicate Answering(r: DnsRecord, sub: Text, qname: Text, qtype: QueryType) {
    (r.GetQuerytype() == qtype || r.CNAME?) && Owned(r, sub, qname)
  }

  /** Wildcards are used exactly when no stored record about the name answers. */
  lemma WildcardsAreLast(records: seq<DnsRecord>, sub: Text, qname: Text, qtype: QueryType)
    ensures (Direct(records, sub, qname, qtype) == [] && LastAlias(records, sub, qname).None?) <==>
      forall r | r in records :: !Answering(r, sub, qname, qtype)
    ensures (forall r | r in records :: !Answering(r, sub, qname, qtype)) ==>
      Answers(records, sub, qname, qtype) == Wildcards(records, qname, qtype)
  {
    hide Direct, LastAlias, Wildcards, Owned, Renamed;
    var direct := Direct(records, sub, qname, qtype);
    AliasMeans(records, sub, qname);
    if direct != [] {
      DirectMeans(records, sub, qname, qtype, direct[0]);
    } else {
      forall r | r in records
        ensures !(r.GetQuerytype() == qtype && !r.CNAME? && Owned(r, sub, qname))
      {
        DirectMeans(records, sub, qname, qtype, Renamed(r, qname));
      }
    }
  }

  /** There is no such name exactly when there is a subdomain, no stored record of any type is owned
      by it or by the wildcard, and none spells out the whole name and answers the question.
      Otherwise an empty answer means no data of this type (sections 2.1 and 2.2 of RFC 2308). */
  lemma NameErrorExactly(ctx: Context, qname: Text, qtype: QueryType, zone: Text, sub: Text, records: seq<DnsRecord>)
    ensures FromRecords(ctx, qname, qtype, zone, sub, records).header.rescode == NXDOMAIN <==>
      && sub != []
      && (forall r | r in records :: r.GetDomain() != Some(sub) && r.GetDomain() != Some(STAR))
      && (forall r | r in records :: !(r.GetDomain() == Some(qname) && (r.GetQuerytype() == qtype || r.CNAME?)))
    ensures FromRecords(ctx, qname, qtype, zone, sub, records).header.rescode in {NXDOMAIN, NOERROR}
    ensures FromRecords(ctx, qname, qtype, zone, sub, records).answers == Answers(records, sub, qname, qtype)
  {
    hide Direct, LastAlias, Wildcards, Renamed;
    WildcardsAreLast(records, sub, qname, qtype);
    var answers := Answers(records, sub, qname, qtype);
    var wild := Wildcards(records, qname, qtype);
    if wild != [] {
      WildcardsMean(records, qname, qtype, wild[0]);
    }
    KnownMeans(records, sub);
  }

  lemma KnownMeans(records: seq<DnsRecord>, sub: Text)
    ensures Known(records, sub) <==>
      exists r | r in records :: r.GetDomain() == Some(sub) || r.GetDomain() == Some(STAR)
  {
  }

  /** The domain glues an address to a server it names for itself. */
  predicate Glues(ns: DnsRecord, addr: DnsRecord, top: Text) {
    ns.NS? && ns.domain == AT && AddrOf(addr).Some? && addr.domain + [DOT] + top == ns.host
  }

  lemma {:induction false} HostsMean(records: seq<DnsRecord>, host: Text)
    ensures host in Hosts(records) <==> exists ns | ns in records :: ns.NS? && ns.domain == AT && ns.host == host
    decreases |records|
  {
    if records != [] {
      var n := |records| - 1;
      HostsMean(records[..n], host);
      assert records == records[..n] + [records[n]];
    }
  }

  lemma {:induction false} TimesMeans(hosts: seq<Text>, name: Text)
    ensures Times(hosts, name) > 0 <==> name in hosts
    decreases |hosts|
  {
    if hosts != [] {
      var n := |hosts| - 1;
      TimesMeans(hosts[..n], name);
      assert hosts == hosts[..n] + [hosts[n]];
    }
  }

  lemma {:induction false} ServersMean(records: seq<DnsRecord>, hosts: seq<Text>, top: Text)
    ensures Servers(records, hosts, top) != [] <==>
      exists addr | addr in records :: AddrOf(addr).Some? && addr.domain + [DOT] + top in hosts
    decreases |records|
  {
    if records != [] {
      var n := |records| - 1;
      ServersMean(records[..n], hosts, top);
      assert records == records[..n] + [records[n]];
      if AddrOf(records[n]).Some? {
        TimesMeans(hosts, records[n].domain + [DOT] + top);
      }
    }
  }

  /** Other servers are asked exactly when some stored address is glued to a server the domain names. */
  lemma AsksExactly(records: seq<DnsRecord>, top: Text)
    ensures Servers(records, Hosts(records), top) != [] <==>
      exists ns, addr | ns in records && addr in records :: Glues(ns, addr, top)
  {
    hide Servers, Hosts;
    ServersMean(records, Hosts(records), top);
    forall addr | addr in records && AddrOf(addr).Some?
      ensures addr.domain + [DOT] + top in Hosts(records) <==> exists ns | ns in records :: Glues(ns, addr, top)
    {
      HostsMean(records, addr.domain + [DOT] + top);
    }
  }

  /** For a domain with stored records and no glue, the lookup always answers, with authority: every
      answer but a PTR is owned by the name asked, and the code is NXDOMAIN exactly when there is no
      answer, the name has a subdomain, and nothing stored is owned by it or by the wildcard. */
  lemma ResponseMeans(ctx: Context, qname: Text, qtype: QueryType, records: seq<DnsRecord>)
    requires |Labels(qname)| >= 2 && ctx.info(TopDomain(Labels(qname))) == Stored(records)
    requires forall ns, addr | ns in records && addr in records :: !Glues(ns, addr, TopDomain(Labels(qname)))
    ensures Response(ctx, qname, qtype).Some?
    ensures var (m, sub) := (Response(ctx, qname, qtype).value, Subdomain(Labels(qname)));
      && m.header.authoritativeAnswer && m.questions == [DnsQuestion(qname, qtype)]
      && (forall a | a in m.answers && !a.PTR? :: a.GetDomain() == Some(qname))
      && (m.header.rescode == NXDOMAIN <==>
            && m.answers == [] && sub != []
            && forall r | r in records :: r.GetDomain() != Some(sub) && r.GetDomain() != Some(STAR))
  {
    hide Labels, Servers, Hosts, Answers, Subdomain, TopDomain, Glues;
    var ls := Labels(qname);
    AsksExactly(records, TopDomain(ls));
    forall a | a in Answers(records, Subdomain(ls), qname, qtype) && !a.PTR?
      ensures a.GetDomain() == Some(qname)
    {
      AnswersMean(records, Subdomain(ls), qname, qtype, a);
    }
    KnownMeans(records, Subdomain(ls));
  }
}
