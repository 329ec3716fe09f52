/** Every answer of the blockchain filter, field by field, and which stored records it holds. */
module FilterAnswers {
  import opened Data
  import opened Names
  import opened Records
  import opened Packets
  import opened Messages
  import opened FilterSpec

  /** The bytes of ns.ruvcha.in and of admin.ruvcha.in. */
  const SERVER: Text := [0x6E, 0x73, 0x2E, 0x72, 0x75, 0x76, 0x63, 0x68, 0x61, 0x2E, 0x69, 0x6E]
  const ADMIN: Text := [0x61, 0x64, 0x6D, 0x69, 0x6E, 0x2E, 0x72, 0x75, 0x76, 0x63, 0x68, 0x61, 0x2E, 0x69, 0x6E]

  lemma ServerNames()
    ensures Ascii("ns.ruvcha.in") == SERVER && Ascii("admin.ruvcha.in") == ADMIN
  {
  }

  // ---------------------------------------------------------------------------
  // Labels
  // ---------------------------------------------------------------------------

  /** The labels of a name hold no dot, and joined by dots they are the name. */
  lemma {:induction false} LabelsExactly(s: Text)
    ensures forall l | l in Labels(s) :: 0x2E !in l
    ensures Join(Labels(s)) == s
    decreases |s|
  {
    hide FirstDot;
    JoinLabels(s);
    SplitLabels(s);
    var i := FirstDot(s);
    assert 0x2E !in s[..i];
    if i < |s| {
      LabelsExactly(s[i + 1..]);
    } else {
      assert s[..i] == s;
    }
  }

  // ---------------------------------------------------------------------------
  // The records chosen
  // ---------------------------------------------------------------------------

  /** The same record under another owner. PTR records keep their owner, and OPT records have none. */
  predicate RenamedTo(r: DnsRecord, a: DnsRecord, qname: Text) {
    match r
    case UNKNOWN(_, num, len, ttl) => a == DnsRecord.UNKNOWN(qname, num, len, ttl)
    case A(_, addr, ttl) => a == DnsRecord.A(qname, addr, ttl)
    case AAAA(_, addr, ttl) => a == DnsRecord.AAAA(qname, addr, ttl)
    case NS(_, host, ttl) => a == DnsRecord.NS(qname, host, ttl)
    case CNAME(_, host, ttl) => a == DnsRecord.CNAME(qname, host, ttl)
    case MX(_, priority, host, ttl) => a == DnsRecord.MX(qname, priority, host, ttl)
    case SRV(_, priority, weight, port, host, ttl) => a == DnsRecord.SRV(qname, priority, weight, port, host, ttl)
    case SOA(_, m, n, serial, refresh, retry, expire, minimum, ttl) =>
      a == DnsRecord.SOA(qname, m, n, serial, refresh, retry, expire, minimum, ttl)
    case TXT(_, data, ttl) => a == DnsRecord.TXT(qname, data, ttl)
    case TLSA(_, usage, selector, matching, data, ttl) =>
      a == DnsRecord.TLSA(qname, usage, selector, matching, data, ttl)
    case PTR(_, _, _) => a == r
    case OPT(_, _, _) => a == r
  }

  lemma RenamedIs(r: DnsRecord, qname: Text)
    ensures RenamedTo(r, Renamed(r, qname), qname)
  {
  }

  /** The owner of a stored record means the name asked: it is the subdomain or the whole name, or "@" (0x40)
      for a name without subdomain, except in a PTR record. */
  predicate OwnerMeans(r: DnsRecord, sub: Text, qname: Text) {
    && !r.OPT?
    && (r.domain == sub || r.domain == qname || (r.domain == [0x40] && sub == [] && !r.PTR?))
  }

  predicate WildOwner(r: DnsRecord) {
    !r.OPT? && r.domain == [0x2A]
  }

  /** One stored record answers directly if it has the asked type, is no alias, and its owner means the name. */
  lemma DirectOne(r: DnsRecord, sub: Text, qname: Text, qtype: QueryType)
    ensures if r.GetQuerytype() == qtype && !r.CNAME? && OwnerMeans(r, sub, qname)
      then |Direct([r], sub, qname, qtype)| == 1 && RenamedTo(r, Direct([r], sub, qname, qtype)[0], qname)
      else Direct([r], sub, qname, qtype) == []
  {
    assert [r][..0] == [];
    RenamedIs(r, qname);
    hide Renamed, RenamedTo;
  }

  lemma WildcardsOne(r: DnsRecord, qname: Text, qtype: QueryType)
    ensures if r.GetQuerytype() == qtype && WildOwner(r)
      then |Wildcards([r], qname, qtype)| == 1 && RenamedTo(r, Wildcards([r], qname, qtype)[0], qname)
      else Wildcards([r], qname, qtype) == []
  {
    assert [r][..0] == [];
    RenamedIs(r, qname);
    hide Renamed, RenamedTo;
  }

  lemma AliasOne(r: DnsRecord, sub: Text, qname: Text)
    ensures if r.CNAME? && OwnerMeans(r, sub, qname)
      then LastAlias([r], sub, qname).Some? && RenamedTo(r, LastAlias([r], sub, qname).value, qname)
      else LastAlias([r], sub, qname) == None
  {
    assert [r][..0] == [];
    RenamedIs(r, qname);
    hide Renamed, RenamedTo;
  }

  lemma SplitLast<T>(a: seq<T>, b: seq<T>)
    requires b != []
    ensures var n := |a + b| - 1; (a + b)[..n] == a + b[..|b| - 1] && (a + b)[n] == b[|b| - 1]
  {
  }

  /** What two parts of the stored records answer is answered in turn: the order is theirs, and nothing is lost
      or doubled. */
  lemma {:induction false} DirectJoins(a: seq<DnsRecord>, b: seq<DnsRecord>, sub: Text, qname: Text, qtype: QueryType)
    ensures Direct(a + b, sub, qname, qtype) == Direct(a, sub, qname, qtype) + Direct(b, sub, qname, qtype)
    decreases |b|
  {
    hide Owned, Renamed;
    if b == [] {
      assert a + b == a;
    } else {
      SplitLast(a, b);
      DirectJoins(a, b[..|b| - 1], sub, qname, qtype);
    }
  }

  lemma {:induction false} WildcardsJoin(a: seq<DnsRecord>, b: seq<DnsRecord>, qname: Text, qtype: QueryType)
    ensures Wildcards(a + b, qname, qtype) == Wildcards(a, qname, qtype) + Wildcards(b, qname, qtype)
    decreases |b|
  {
    hide Renamed;
    if b == [] {
      assert a + b == a;
    } else {
      SplitLast(a, b);
      WildcardsJoin(a, b[..|b| - 1], qname, qtype);
    }
  }

  /** A later alias hides an earlier one. */
  lemma {:induction false} AliasJoins(a: seq<DnsRecord>, b: seq<DnsRecord>, sub: Text, qname: Text)
    ensures LastAlias(a + b, sub, qname) ==
      if LastAlias(b, sub, qname).Some? then LastAlias(b, sub, qname) else LastAlias(a, sub, qname)
    decreases |b|
  {
    hide Owned, Renamed;
    if b == [] {
      assert a + b == a;
    } else {
      SplitLast(a, b);
      AliasJoins(a, b[..|b| - 1], sub, qname);
    }
  }

  /** Direct answers come first; without any the last alias answers alone; without one the wildcards do. */
  lemma AnswersChosen(records: seq<DnsRecord>, sub: Text, qname: Text, qtype: QueryType)
    ensures var (direct, alias) := (Direct(records, sub, qname, qtype), LastAlias(records, sub, qname));
      && (direct != [] ==> Answers(records, sub, qname, qtype) == direct)
      && (direct == [] && alias.Some? ==> Answers(records, sub, qname, qtype) == [alias.value])
      && (direct == [] && alias.None? ==> Answers(records, sub, qname, qtype) == Wildcards(records, qname, qtype))
  {
    hide Direct, LastAlias, Wildcards;
  }

  // ---------------------------------------------------------------------------
  // The servers asked
  // ---------------------------------------------------------------------------

  /** Record j names a server of the domain itself ("@"), and record i is an address of that server. */
  predicate GluedAt(records: seq<DnsRecord>, top: Text, a: Addr, i: nat, j: nat)
    requires i < |records| && j < |records|
  {
    && records[j].NS? && records[j].domain == [0x40]
    && AddressOf(records[i], a) && records[j].host == records[i].domain + [0x2E] + top
  }

  predicate AddressOf(r: DnsRecord, a: Addr) {
    (r.A? && a == V4(r.addr4)) || (r.AAAA? && a == V6(r.addr6))
  }

  /** The places of the NS records that name a host, among the first n. */
  function Naming(records: seq<DnsRecord>, name: Text, n: nat): set<nat>
    requires n <= |records|
  {
    set j | 0 <= j < n && records[j].NS? && records[j].domain == [0x40] && records[j].host == name
  }

  /** The glued pairs whose address is among the first n records. */
  function Pairs(records: seq<DnsRecord>, top: Text, a: Addr, n: nat): set<(nat, nat)>
    requires n <= |records|
  {
    set i, j | 0 <= i < n && 0 <= j < |records| && GluedAt(records, top, a, i, j) :: (i, j)
  }

  lemma {:induction false} TimesCount(records: seq<DnsRecord>, name: Text, n: nat)
    requires n <= |records|
    ensures Times(Hosts(records[..n]), name) == |Naming(records, name, n)|
  {
    hide Naming;
    if n > 0 {
      TimesCount(records, name, n - 1);
      HostsOne(records, n - 1);
      NamingOne(records, name, n - 1);
      hide Hosts, Times;
      TimesMore(Hosts(records[..n - 1]), if NamesItself(records[n - 1]) then [records[n - 1].host] else [], name);
    } else {
      NamingNone(records, name);
    }
  }

  lemma HostsOne(records: seq<DnsRecord>, n: nat)
    requires n < |records|
    ensures Hosts(records[..n + 1]) == Hosts(records[..n]) + if NamesItself(records[n]) then [records[n].host] else []
  {
    assert records[..n + 1][..n] == records[..n];
  }

  predicate NamesItself(r: DnsRecord) {
    r.NS? && r.domain == [0x40]
  }

  lemma NamingNone(records: seq<DnsRecord>, name: Text)
    ensures |Naming(records, name, 0)| == 0
  {
    assert Naming(records, name, 0) == {};
  }

  lemma NamingOne(records: seq<DnsRecord>, name: Text, n: nat)
    requires n < |records|
    ensures |Naming(records, name, n + 1)| ==
      |Naming(records, name, n)| + if NamesItself(records[n]) && records[n].host == name then 1 else 0
  {
    NamingMore(records, name, n);
    assert n !in Naming(records, name, n);
    hide Naming;
  }

  lemma NamingMore(records: seq<DnsRecord>, name: Text, n: nat)
    requires n < |records|
    ensures Naming(records, name, n + 1) ==
      Naming(records, name, n) + if NamesItself(records[n]) && records[n].host == name then {n} else {}
  {
  }

  lemma TimesMore(hosts: seq<Text>, more: seq<Text>, name: Text)
    requires |more| <= 1
    ensures Times(hosts + more, name) == Times(hosts, name) + if more != [] && more[0] == name then 1 else 0
  {
    if more == [] {
      assert hosts + more == hosts;
    } else {
      assert (hosts + more)[..|hosts|] == hosts && (hosts + more)[|hosts|] == more[0];
    }
  }

  function PairsAt(i: nat, js: set<nat>): set<(nat, nat)> {
    set j | j in js :: (i, j)
  }

  lemma {:induction false} PairsAtSize(i: nat, js: set<nat>)
    ensures |PairsAt(i, js)| == |js|
    decreases |js|
  {
    if js != {} {
      var j :| j in js;
      PairsAtSize(i, js - {j});
      assert PairsAt(i, js) == PairsAt(i, js - {j}) + {(i, j)};
    } else {
      assert PairsAt(i, js) == {};
    }
  }

  lemma PairsNone(records: seq<DnsRecord>, top: Text, a: Addr)
    ensures |Pairs(records, top, a, 0)| == 0
  {
    assert Pairs(records, top, a, 0) == {};
  }

  lemma PairsOne(records: seq<DnsRecord>, top: Text, a: Addr, n: nat)
    requires n < |records|
    ensures |Pairs(records, top, a, n + 1)| == |Pairs(records, top, a, n)| +
      if AddressOf(records[n], a) then |Naming(records, records[n].domain + [0x2E] + top, |records|)| else 0
  {
    var before := Pairs(records, top, a, n);
    if AddressOf(records[n], a) {
      var js := Naming(records, records[n].domain + [0x2E] + top, |records|);
      PairsAtSize(n, js);
      PairsMore(records, top, a, n);
      assert before !! PairsAt(n, js);
    } else {
      PairsSame(records, top, a, n);
    }
  }

  lemma PairsMore(records: seq<DnsRecord>, top: Text, a: Addr, n: nat)
    requires n < |records| && AddressOf(records[n], a)
    ensures Pairs(records, top, a, n + 1) ==
      Pairs(records, top, a, n) + PairsAt(n, Naming(records, records[n].domain + [0x2E] + top, |records|))
  {
    forall j | 0 <= j < |records|
      ensures GluedAt(records, top, a, n, j) <==> j in Naming(records, records[n].domain + [0x2E] + top, |records|)
    {
    }
    hide GluedAt, Naming;
  }

  lemma PairsSame(records: seq<DnsRecord>, top: Text, a: Addr, n: nat)
    requires n < |records| && !AddressOf(records[n], a)
    ensures Pairs(records, top, a, n + 1) == Pairs(records, top, a, n)
  {
    assert forall j | 0 <= j < |records| :: !GluedAt(records, top, a, n, j);
    hide GluedAt;
  }

  /** The servers asked hold each address as often as a server is named and glued to it. */
  lemma {:induction false} ServersCount(records: seq<DnsRecord>, top: Text, a: Addr, n: nat)
    requires n <= |records|
    ensures multiset(Servers(records[..n], Hosts(records), top))[a] == |Pairs(records, top, a, n)|
  {
    hide Hosts, Pairs, Servers;
    if n > 0 {
      ServersCount(records, top, a, n - 1);
      PairsOne(records, top, a, n - 1);
      var from := ServersFrom(records[n - 1], Hosts(records), top);
      ServersOne(records, Hosts(records), top, n - 1);
      FromCount(records, top, records[n - 1], a);
      CountJoins(Servers(records[..n - 1], Hosts(records), top), from, a);
    } else {
      PairsNone(records, top, a);
      ServersNone(records, Hosts(records), top);
    }
  }

  function ServersFrom(r: DnsRecord, hosts: seq<Text>, top: Text): seq<Addr> {
    if AddrOf(r).Some? then Repeat(AddrOf(r).value, Times(hosts, r.domain + [DOT] + top)) else []
  }

  lemma ServersOne(records: seq<DnsRecord>, hosts: seq<Text>, top: Text, n: nat)
    requires n < |records|
    ensures Servers(records[..n + 1], hosts, top) ==
      Servers(records[..n], hosts, top) + ServersFrom(records[n], hosts, top)
  {
    hide Times, Repeat;
    assert records[..n + 1][..n] == records[..n];
  }

  lemma ServersNone(records: seq<DnsRecord>, hosts: seq<Text>, top: Text)
    ensures Servers(records[..0], hosts, top) == []
  {
  }

  lemma FromCount(records: seq<DnsRecord>, top: Text, r: DnsRecord, a: Addr)
    ensures multiset(ServersFrom(r, Hosts(records), top))[a] ==
      if AddressOf(r, a) then |Naming(records, r.domain + [0x2E] + top, |records|)| else 0
  {
    hide Hosts, Times, Naming, Repeat;
    if AddrOf(r).Some? {
      var name := r.domain + [DOT] + top;
      assert records[..|records|] == records;
      TimesCount(records, name, |records|);
      RepeatCount(AddrOf(r).value, Times(Hosts(records), name), a);
    }
  }

  lemma CountJoins(x: seq<Addr>, y: seq<Addr>, a: Addr)
    ensures multiset(x + y)[a] == multiset(x)[a] + multiset(y)[a]
  {
  }

  lemma {:induction false} RepeatCount(x: Addr, n: nat, a: Addr)
    ensures multiset(Repeat(x, n))[a] == if x == a then n else 0
  {
    if n > 0 {
      RepeatCount(x, n - 1, a);
      assert Repeat(x, n) == Repeat(x, n - 1) + [x];
    } else {
      assert Repeat(x, n) == [];
    }
  }

  lemma ServersExactly(records: seq<DnsRecord>, top: Text, a: Addr)
    ensures multiset(Servers(records, Hosts(records), top))[a] == |Pairs(records, top, a, |records|)|
  {
    assert records[..|records|] == records;
    ServersCount(records, top, a, |records|);
  }

  // ---------------------------------------------------------------------------
  // The response
  // ---------------------------------------------------------------------------

  /** A header with nothing set but the authority bit and a code. */
  predicate BareHeader(h: DnsHeader, authority: bool, code: ResultCode) {
    && h.id == 0 && h.opcode == 0 && h.authoritativeAnswer == authority && h.rescode == code
    && !h.recursionDesired && !h.truncatedMessage && !h.response && !h.recursionAvailable
    && !h.checkingDisabled && !h.authedData && !h.z
    && h.questions == h.answers == h.authoritativeEntries == h.resourceEntries == 0
  }

  predicate ZoneSoa(r: DnsRecord, zone: Text, serial: u32) {
    && r.SOA? && r.domain == zone && r.mName == SERVER && r.rName == ADMIN && r.serial == serial
    && r.refresh == 3600 && r.retry == 300 && r.expire == 604800 && r.minimum == 60 && r.ttl == 60
  }

  predicate ZoneServer(r: DnsRecord, zone: Text) {
    r.NS? && r.domain == zone && r.host == SERVER && r.ttl == 600
  }

  /** With the authority bit: the question, no answer, and the zone's SOA record. */
  predicate Denial(m: Message, qname: Text, qtype: QueryType, zone: Text, serial: u32, code: ResultCode) {
    && BareHeader(m.header, true, code)
    && |m.questions| == 1 && m.questions[0].name == qname && m.questions[0].qtype == qtype
    && m.answers == [] && m.resources == []
    && |m.authorities| == 1 && ZoneSoa(m.authorities[0], zone, serial)
  }

  /** With the authority bit: the question, the answers, and the zone's server. */
  predicate Reply(m: Message, qname: Text, qtype: QueryType, zone: Text, answers: seq<DnsRecord>) {
    && BareHeader(m.header, true, NOERROR)
    && |m.questions| == 1 && m.questions[0].name == qname && m.questions[0].qtype == qtype
    && m.answers == answers && m.resources == []
    && |m.authorities| == 1 && ZoneServer(m.authorities[0], zone)
  }

  /** The zone's SOA record alone, with nothing set. */
  predicate ZoneAlone(m: Message, zone: Text, serial: u32) {
    && BareHeader(m.header, false, NOERROR) && m.questions == [] && m.answers == [] && m.resources == []
    && |m.authorities| == 1 && ZoneSoa(m.authorities[0], zone, serial)
  }

  lemma PacketIs(ctx: Context, qname: Text, qtype: QueryType, zone: Text, answers: seq<DnsRecord>)
    ensures var m := Packet(ctx, qname, qtype, zone, answers);
      if answers != [] then Reply(m, qname, qtype, zone, answers)
      else Denial(m, qname, qtype, zone, ctx.serial, NXDOMAIN)
  {
    ServerNames();
    hide Ascii;
  }

  /** A name of one label is answered, with the zone's SOA record, exactly when it is one of the node's zones. */
  lemma ZoneItself(ctx: Context, qname: Text, qtype: QueryType)
    requires |Labels(qname)| == 1
    ensures if qname in ctx.zones
      then Response(ctx, qname, qtype).Some? && ZoneAlone(Response(ctx, qname, qtype).value, qname, ctx.serial)
      else Response(ctx, qname, qtype) == None
  {
    LabelsExactly(qname);
    assert Labels(qname)[0] == qname;
    hide Labels, Ascii;
    ServerNames();
  }

  /** The name's last two labels. */
  function LastTwo(qname: Text): Text
    requires |Labels(qname)| >= 2
  {
    var ls := Labels(qname);
    ls[|ls| - 2] + [0x2E] + ls[|ls| - 1]
  }

  function Zone(qname: Text): Text {
    var ls := Labels(qname);
    ls[|ls| - 1]
  }

  /** A domain nothing is stored about is denied exactly in the node's own zones; other names are left to other
      resolvers, and so is a domain whose data do not parse. */
  lemma NothingStored(ctx: Context, qname: Text, qtype: QueryType)
    requires |Labels(qname)| >= 2
    ensures ctx.info(LastTwo(qname)) == Absent ==>
      if Zone(qname) in ctx.zones then
        && Response(ctx, qname, qtype).Some?
        && Denial(Response(ctx, qname, qtype).value, qname, qtype, Zone(qname), ctx.serial, NXDOMAIN)
      else Response(ctx, qname, qtype) == None
    ensures ctx.info(LastTwo(qname)) == Unreadable ==> Response(ctx, qname, qtype) == None
  {
    PacketIs(ctx, qname, qtype, Zone(qname), []);
    hide Labels, Ascii, Packet;
  }

  /** A domain that names a server and has its address has that and all such servers asked. */
  lemma GlueAsks(ctx: Context, qname: Text, qtype: QueryType, records: seq<DnsRecord>, a: Addr, i: nat, j: nat)
      returns (servers: seq<Addr>)
    requires |Labels(qname)| >= 2 && ctx.info(LastTwo(qname)) == Stored(records)
    requires i < |records| && j < |records| && GluedAt(records, LastTwo(qname), a, i, j)
    ensures Response(ctx, qname, qtype) == ctx.ask(qname, qtype, servers)
    ensures forall x :: multiset(servers)[x] == |Pairs(records, LastTwo(qname), x, |records|)|
  {
    hide Labels, Servers, Hosts, Pairs;
    var top := LastTwo(qname);
    servers := Servers(records, Hosts(records), top);
    forall x
      ensures multiset(servers)[x] == |Pairs(records, top, x, |records|)|
    {
      ServersExactly(records, top, x);
    }
    PairFound(records, top, a, i, j);
    assert multiset(servers)[a] > 0;
  }

  lemma PairFound(records: seq<DnsRecord>, top: Text, a: Addr, i: nat, j: nat)
    requires i < |records| && j < |records| && GluedAt(records, top, a, i, j)
    ensures |Pairs(records, top, a, |records|)| > 0
  {
    hide GluedAt;
    assert (i, j) in Pairs(records, top, a, |records|);
  }

  /** Otherwise the stored records answer: with the zone's server beside the answers there are, and with its SOA
      record if there are none; then the code says whether the name exists, being the domain itself or the owner of
      some stored record, by name or by wildcard. */
  lemma StoredAnswers(ctx: Context, qname: Text, qtype: QueryType, records: seq<DnsRecord>)
    requires |Labels(qname)| >= 2 && ctx.info(LastTwo(qname)) == Stored(records)
    requires forall a, i, j | 0 <= i < |records| && 0 <= j < |records| :: !GluedAt(records, LastTwo(qname), a, i, j)
    ensures Response(ctx, qname, qtype).Some?
    ensures var ls := Labels(qname);
      var (m, sub) := (Response(ctx, qname, qtype).value, Join(ls[..|ls| - 2]));
      var answers := Answers(records, sub, qname, qtype);
      if answers != [] then Reply(m, qname, qtype, Zone(qname), answers)
      else Denial(m, qname, qtype, Zone(qname), ctx.serial,
             if sub == [] || exists r | r in records :: !r.OPT? && (r.domain == sub || r.domain == [0x2A])
             then NOERROR else NXDOMAIN)
  {
    hide Labels, Servers, Hosts, Answers, Join;
    var ls := Labels(qname);
    var sub := Join(ls[..|ls| - 2]);
    NoServers(records, LastTwo(qname));
    PacketIs(ctx, qname, qtype, Zone(qname), Answers(records, sub, qname, qtype));
    KnownIs(records, sub);
    hide Packet, Known;
  }

  lemma KnownIs(records: seq<DnsRecord>, sub: Text)
    ensures Known(records, sub) <==> exists r | r in records :: !r.OPT? && (r.domain == sub || r.domain == [0x2A])
  {
  }

  lemma NoServers(records: seq<DnsRecord>, top: Text)
    requires forall a, i, j | 0 <= i < |records| && 0 <= j < |records| :: !GluedAt(records, top, a, i, j)
    ensures Servers(records, Hosts(records), top) == []
  {
    hide Servers, Hosts;
    var servers := Servers(records, Hosts(records), top);
    forall a
      ensures multiset(servers)[a] == 0
    {
      ServersExactly(records, top, a);
      assert Pairs(records, top, a, |records|) == {};
    }
    assert servers != [] ==> multiset(servers)[servers[0]] > 0;
  }
}
