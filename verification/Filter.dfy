/** The name answer logic as the program runs it: records renamed in place, answers gathered. */
module Filter {
  import opened Data
  import opened Names
  import opened Records
  import opened Packets
  import opened Messages
  import opened FilterSpec

  /** What the first pass leaves of a record: renamed if it answers under the subdomain. */
  function AfterPass(rec: DnsRecord, sub: Text, qname: Text, qtype: QueryType): DnsRecord {
    if (rec.GetQuerytype() == qtype || rec.CNAME?) && Renames(rec)
       && ((rec.domain == AT && sub == []) || rec.domain == sub)
    then Renamed(rec, qname) else rec
  }

  /** The first pass looks at the renamed record; it sees what was stored about the name. */
  lemma SeenAfterPass(rec: DnsRecord, sub: Text, qname: Text, qtype: QueryType)
    requires rec.GetQuerytype() == qtype || rec.CNAME?
    ensures var r := AfterPass(rec, sub, qname, qtype);
      && (Owned(rec, sub, qname) <==> r.GetDomain() == Some(qname) || r.GetDomain() == Some(sub))
      && (Owned(rec, sub, qname) ==> r == Renamed(rec, qname))
      && (r.CNAME? <==> rec.CNAME?)
  {
  }

  /** If the first pass found nothing, it renamed nothing: the second sees the records as stored. */
  lemma {:induction false} NothingRenamed(records: seq<DnsRecord>, sub: Text, qname: Text, qtype: QueryType, i: nat)
    requires Direct(records, sub, qname, qtype) == [] && LastAlias(records, sub, qname).None? && i < |records|
    ensures AfterPass(records[i], sub, qname, qtype) == records[i]
    decreases |records|
  {
    hide Renamed;
    var n := |records| - 1;
    if i < n {
      NothingRenamed(records[..n], sub, qname, qtype, i);
    }
  }

  lemma DirectStep(records: seq<DnsRecord>, i: nat, sub: Text, qname: Text, qtype: QueryType)
    requires i < |records|
    ensures Direct(records[..i + 1], sub, qname, qtype) ==
      Direct(records[..i], sub, qname, qtype) +
        if records[i].GetQuerytype() == qtype && !records[i].CNAME? && Owned(records[i], sub, qname)
        then [Renamed(records[i], qname)] else []
    ensures LastAlias(records[..i + 1], sub, qname) ==
      if records[i].CNAME? && Owned(records[i], sub, qname) then Some(Renamed(records[i], qname))
      else LastAlias(records[..i], sub, qname)
  {
    hide Renamed, Owned;
    assert records[..i + 1][..i] == records[..i];
  }

  lemma WildcardsStep(records: seq<DnsRecord>, i: nat, qname: Text, qtype: QueryType)
    requires i < |records|
    ensures Wildcards(records[..i + 1], qname, qtype) ==
      Wildcards(records[..i], qname, qtype) +
        if records[i].GetQuerytype() == qtype && records[i].GetDomain() == Some(STAR)
        then [Renamed(records[i], qname)] else []
  {
    hide Renamed;
    assert records[..i + 1][..i] == records[..i];
  }

  /** The pass over the records that are about the name, renaming them where they stand. */
  method CollectDirect(records: array<DnsRecord>, sub: Text, qname: Text, qtype: QueryType)
    returns (answers: seq<DnsRecord>, cname: Option<DnsRecord>)
    modifies records
    ensures answers == Direct(old(records[..]), sub, qname, qtype)
    ensures cname == LastAlias(old(records[..]), sub, qname)
    ensures forall k | 0 <= k < records.Length :: records[k] == AfterPass(old(records[k]), sub, qname, qtype)
  {
    hide Renamed, Owned, Direct, LastAlias;
    ghost var was := records[..];
    answers, cname := [], None;
    DirectNone(sub, qname, qtype);
    assert was[..0] == [];
    for i := 0 to records.Length
      invariant forall k | 0 <= k < i :: records[k] == AfterPass(was[k], sub, qname, qtype)
      invariant forall k | i <= k < records.Length :: records[k] == was[k]
      invariant answers == Direct(was[..i], sub, qname, qtype) && cname == LastAlias(was[..i], sub, qname)
    {
      DirectStep(was, i, sub, qname, qtype);
      if records[i].GetQuerytype() == qtype || records[i].CNAME? {
        SeenAfterPass(was[i], sub, qname, qtype);
        if Renames(records[i]) && ((records[i].domain == AT && sub == []) || records[i].domain == sub) {
          records[i] := Renamed(records[i], qname);
        }
        match records[i].GetDomain()
        case None =>
        case Some(domain) =>
          if domain == qname || domain == sub {
            if records[i].CNAME? {
              cname := Some(records[i]);
            } else {
              answers := answers + [records[i]];
            }
          }
      }
    }
    assert was[..records.Length] == was;
  }

  lemma DirectNone(sub: Text, qname: Text, qtype: QueryType)
    ensures Direct([], sub, qname, qtype) == [] && LastAlias([], sub, qname) == None
  {
  }

  /** Some record has, as its name's text, the subdomain or the wildcard. */
  predicate Mentions(records: seq<DnsRecord>, sub: Text) {
    exists i | 0 <= i < |records| :: DomainText(records[i]) == sub || DomainText(records[i]) == STAR
  }

  lemma MentionsStep(records: seq<DnsRecord>, i: nat, sub: Text)
    requires i < |records|
    ensures Mentions(records[..i + 1], sub) <==>
      Mentions(records[..i], sub) || DomainText(records[i]) == sub || DomainText(records[i]) == STAR
  {
    var (a, b) := (records[..i + 1], records[..i]);
    assert a[i] == records[i] && forall j | 0 <= j < i :: a[j] == b[j];
  }

  /** The second pass: wildcards, and whether the name is known at all. */
  method CollectWildcards(records: array<DnsRecord>, sub: Text, qname: Text, qtype: QueryType, known: bool)
    returns (answers: seq<DnsRecord>, domainExists: bool)
    ensures answers == Wildcards(records[..], qname, qtype)
    ensures domainExists <==> known || Mentions(records[..], sub)
  {
    hide Renamed, Mentions;
    answers, domainExists := [], known;
    MentionsNone(sub);
    assert records[..][..0] == [];
    for i := 0 to records.Length
      invariant answers == Wildcards(records[..][..i], qname, qtype)
      invariant domainExists <==> known || Mentions(records[..i], sub)
    {
      WildcardsStep(records[..], i, qname, qtype);
      MentionsStep(records[..], i, sub);
      assert records[..][..i] == records[..i] && records[..][..i + 1] == records[..i + 1];
      var record := records[i];
      var recordDomain := DomainText(record);
      if record.GetQuerytype() == qtype && recordDomain == STAR {
        if Renames(record) {
          record := Renamed(record, qname);
        } else {
          KeepsName(record, qname);
        }
        answers := answers + [record];
      }
      if !domainExists && (recordDomain == sub || recordDomain == STAR) {
        domainExists := true;
      }
    }
    assert records[..][..records.Length] == records[..];
  }

  lemma MentionsNone(sub: Text)
    ensures !Mentions([], sub)
  {
  }

  lemma KeepsName(rec: DnsRecord, qname: Text)
    requires !Renames(rec)
    ensures Renamed(rec, qname) == rec
  {
  }

  /** get_domain, with the empty text for a record that has none. */
  function DomainText(rec: DnsRecord): Text {
    if rec.OPT? then [] else rec.domain
  }

  /** create_packet, with the correction of its code. */
  method CreatePacket(
      ctx: Context, qname: Text, qtype: QueryType, zone: Text, answers: seq<DnsRecord>, domainExists: bool)
    returns (m: Message)
    ensures var p := Packet(ctx, qname, qtype, zone, answers);
      m == if domainExists && answers == [] then p.(header := p.header.(rescode := NOERROR)) else p
  {
    m := Packet(ctx, qname, qtype, zone, answers);
    if domainExists && m.answers == [] {
      m := m.(header := m.header.(rescode := NOERROR));
    }
  }

  /** The answer from stored records. The renaming of the first pass cannot mislead the second. */
  method AnswerFrom(ctx: Context, qname: Text, qtype: QueryType, zone: Text, sub: Text, records: array<DnsRecord>)
    returns (m: Message)
    modifies records
    ensures m == FromRecords(ctx, qname, qtype, zone, sub, old(records[..]))
  {
    hide Renamed, Owned, Direct, LastAlias, Wildcards, Packet, AfterPass, Mentions, Known;
    ghost var was := records[..];
    var answers, cname := CollectDirect(records, sub, qname, qtype);
    if answers == [] && cname.Some? {
      answers := answers + [cname.value];
      assert answers == [cname.value];
    }
    var domainExists := answers != [] || sub == [];
    if answers == [] {
      forall i | 0 <= i < |was|
        ensures records[i] == was[i]
      {
        NothingRenamed(was, sub, qname, qtype, i);
      }
      assert records[..] == was;
      answers, domainExists := CollectWildcards(records, sub, qname, qtype, domainExists);
      if sub != [] {
        KnownText(was, sub);
      }
    }
    m := CreatePacket(ctx, qname, qtype, zone, answers, domainExists);
  }

  /** A record without a name is never taken for the subdomain, which is not empty where it counts. */
  lemma KnownText(records: seq<DnsRecord>, sub: Text)
    requires sub != []
    ensures Known(records, sub) <==> Mentions(records, sub)
  {
  }

  /** resolve_by_ns: the servers to ask, if the domain names servers and glues addresses to them. */
  method FindServers(records: array<DnsRecord>, top: Text) returns (servers: seq<Addr>)
    ensures servers == Servers(records[..], Hosts(records[..]), top)
  {
    hide Servers, Hosts, Times;
    var hosts: seq<Text> := [];
    HostsNone(top);
    assert records[..][..0] == [];
    for i := 0 to records.Length
      invariant hosts == Hosts(records[..][..i])
    {
      HostsStep(records[..], i, [], top);
      if records[i].NS? && records[i].domain == AT {
        hosts := hosts + [records[i].host];
      }
    }
    assert records[..][..records.Length] == records[..];
    servers := [];
    if hosts == [] {
      NoServers(records[..], top);
      return;
    }
    for i := 0 to records.Length
      invariant servers == Servers(records[..][..i], hosts, top)
    {
      HostsStep(records[..], i, hosts, top);
      var addr := AddrOf(records[i]);
      if addr.Some? {
        var domain := records[i].domain + [DOT] + top;
        ghost var before := servers;
        TimesNone(domain);
        assert before + Repeat(addr.value, 0) == before && hosts[..0] == [];
        for h := 0 to |hosts|
          invariant servers == before + Repeat(addr.value, Times(hosts[..h], domain))
        {
          TimesStep(hosts, h, domain);
          if domain == hosts[h] {
            RepeatMore(before, addr.value, Times(hosts[..h], domain));
            servers := servers + [addr.value];
          }
        }
        assert hosts[..|hosts|] == hosts;
      }
    }
  }

  lemma HostsNone(top: Text)
    ensures Hosts([]) == [] && forall hosts :: Servers([], hosts, top) == []
  {
  }

  lemma HostsStep(records: seq<DnsRecord>, i: nat, hosts: seq<Text>, top: Text)
    requires i < |records|
    ensures Hosts(records[..i + 1]) ==
      Hosts(records[..i]) + if records[i].NS? && records[i].domain == AT then [records[i].host] else []
    ensures Servers(records[..i + 1], hosts, top) ==
      Servers(records[..i], hosts, top) +
        if AddrOf(records[i]).Some?
        then Repeat(AddrOf(records[i]).value, Times(hosts, records[i].domain + [DOT] + top)) else []
  {
    hide Times, Repeat;
    assert records[..i + 1][..i] == records[..i];
  }

  lemma TimesNone(name: Text)
    ensures Times([], name) == 0
  {
  }

  lemma TimesStep(hosts: seq<Text>, h: nat, name: Text)
    requires h < |hosts|
    ensures Times(hosts[..h + 1], name) == Times(hosts[..h], name) + if hosts[h] == name then 1 else 0
  {
    assert hosts[..h + 1][..h] == hosts[..h];
  }

  lemma RepeatMore<T>(before: seq<T>, x: T, n: nat)
    ensures before + Repeat(x, n) + [x] == before + Repeat(x, n + 1)
  {
  }

  /** No listed host, no server. */
  lemma {:induction false} NoServers(records: seq<DnsRecord>, top: Text)
    ensures Servers(records, [], top) == []
  {
    if records != [] {
      NoServers(records[..|records| - 1], top);
    }
  }

  /** lookup */
  method Lookup(ctx: Context, qname: Text, qtype: QueryType) returns (r: Option<Message>)
    ensures r == Response(ctx, qname, qtype)
  {
    hide Labels, Join, Servers, Hosts, FromRecords, Packet;
    var parts := Labels(qname);
    var zone := parts[|parts| - 1];
    if |parts| == 1 {
      if zone in ctx.zones {
        return Some(Message(EMPTY_HEADER, [], [], [Soa(zone, ctx.serial)], []));
      }
      return None;
    }
    var top := TopDomain(parts);
    var sub := Subdomain(parts);
    match ctx.info(top)
    case Absent =>
      r := if zone in ctx.zones then Some(Packet(ctx, qname, qtype, zone, [])) else None;
    case Unreadable =>
      r := None;
    case Stored(stored) =>
      var records := new DnsRecord[|stored|](i requires 0 <= i < |stored| => stored[i]);
      assert records[..] == stored;
      var servers := FindServers(records, top);
      if servers != [] {
        return ctx.ask(qname, qtype, servers);
      }
      var m := AnswerFrom(ctx, qname, qtype, zone, sub, records);
      r := Some(m);
  }
}
