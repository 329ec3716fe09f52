/** The resolver's cache: one entry per name, updated in place, beside a ghost log of what was done. */
module Caches {
  import opened Data
  import opened Names
  import opened Records
  import opened Packets
  import opened Messages
  import opened PacketIO
  import opened CacheSpec

  /** A sequence lists a set, each element once. */
  ghost predicate Lists<T>(xs: seq<T>, s: set<T>) {
    |xs| == |s| && (forall x | x in xs :: x in s) && (forall x | x in s :: x in xs)
  }

  lemma ListsNone<T>()
    ensures Lists<T>([], {})
  {
  }

  lemma ListsMore<T>(xs: seq<T>, s: set<T>, todo: set<T>, x: T)
    requires Lists(xs, s - todo) && x in todo
    ensures Lists(if x in s then xs + [x] else xs, s - (todo - {x}))
  {
    assert s - (todo - {x}) == if x in s then s - todo + {x} else s - todo;
  }

  /** HashSet::insert, which keeps an equal entry it already has. */
  function Insert<K, V>(m: map<K, V>, k: K, v: V): map<K, V> {
    if k in m then m else m[k := v]
  }

  class DomainEntry {
    const domain: Text
    var recordTypes: RecordTypes
    var hits: u32
    var updates: u32

    constructor (domain: Text)
      ensures this.domain == domain && recordTypes == map[] && hits == updates == 0
    {
      this.domain, recordTypes, hits, updates := domain, map[], 0, 0;
    }

    method StoreNxdomain(qtype: QueryType, ttl: u32, now: int)
      modifies this
      ensures recordTypes == old(recordTypes)[qtype := NoRecords(ttl, now)]
      ensures updates == (old(updates) + 1) % 0x1_0000_0000 && hits == old(hits)
    {
      updates := (updates + 1) % 0x1_0000_0000;
      recordTypes := recordTypes[qtype := NoRecords(ttl, now)];
    }

    /** Storing a record again replaces its entry, and with it the time it was stored. */
    method StoreRecord(rec: DnsRecord, now: int)
      modifies this
      ensures recordTypes == WithRecord(old(recordTypes), rec, now)
      ensures updates == (old(updates) + 1) % 0x1_0000_0000 && hits == old(hits)
    {
      updates := (updates + 1) % 0x1_0000_0000;
      var q := rec.GetQuerytype();
      if q in recordTypes && recordTypes[q].Records? {
        var records := recordTypes[q].records;
        if rec in records {
          records := records - {rec};
        }
        records := Insert(records, rec, now);
        assert records == recordTypes[q].records[rec := now];
        recordTypes := recordTypes[q := Records(records)];
        return;
      }
      recordTypes := recordTypes[q := Records(Insert(map[], rec, now))];
    }

    method GetCacheState(qtype: QueryType, now: int) returns (state: CacheState)
      ensures state == StateIn(recordTypes, qtype, now)
    {
      if qtype !in recordTypes {
        return NotCached;
      }
      match recordTypes[qtype]
      case Records(records) =>
        var validCount := 0;
        var todo := records.Keys;
        while todo != {}
          invariant todo <= records.Keys
          invariant validCount > 0 <==>
            exists rec | rec in records.Keys - todo :: rec in LiveIn(recordTypes, qtype, now)
          invariant validCount >= 0
          decreases |todo|
        {
          var rec :| rec in todo;
          ghost var was := todo;
          todo := todo - {rec};
          assert forall r :: r in records.Keys - todo <==> r in records.Keys - was || r == rec;
          var expires := records[rec] + rec.GetTtl() * SECOND;
          if expires < now {
            continue;
          }
          if rec.GetQuerytype() == qtype {
            validCount := validCount + 1;
            assert rec in LiveIn(recordTypes, qtype, now);
          }
        }
        state := if validCount > 0 then PositiveCache else NotCached;
      case NoRecords(ttl, timestamp) =>
        var expires := timestamp + ttl * SECOND;
        state := if expires < now then NotCached else NegativeCache;
    }

    /** Appends the unexpired records, in whatever order the set yields them. */
    method FillQueryresult(qtype: QueryType, resultVec: seq<DnsRecord>, now: int) returns (result: seq<DnsRecord>)
      ensures resultVec <= result && Lists(result[|resultVec|..], LiveIn(recordTypes, qtype, now))
    {
      hide Lists;
      result := resultVec;
      ghost var added := [];
      ListsNone<DnsRecord>();
      assert result[|resultVec|..] == [];
      if qtype !in recordTypes {
        return;
      }
      if recordTypes[qtype].Records? {
        var records := recordTypes[qtype].records;
        var todo := records.Keys;
        ghost var live := LiveIn(recordTypes, qtype, now);
        assert live - todo == {};
        while todo != {}
          invariant todo <= records.Keys
          invariant result == resultVec + added && Lists(added, live - todo)
          decreases |todo|
        {
          var rec :| rec in todo;
          ListsMore(added, live, todo, rec);
          todo := todo - {rec};
          var expires := records[rec] + rec.GetTtl() * SECOND;
          if expires < now {
            continue;
          }
          if rec.GetQuerytype() == qtype {
            result := result + [rec];
            added := added + [rec];
          }
        }
        assert live - {} == live && result[|resultVec|..] == added;
      }
    }
  }

  predicate Unshared(entries: map<Text, DomainEntry>) {
    forall a, b | a in entries && b in entries && a != b :: entries[a] != entries[b]
  }

  /** The operations a call of `store` makes, each record at its own time. */
  function Stores(records: seq<DnsRecord>, clock: nat -> int): seq<Op> {
    seq(|records|, i requires 0 <= i < |records| => Stored(records[i], clock(i)))
  }

  class Cache {
    var domainEntries: map<Text, DomainEntry>
    ghost var log: seq<Op>

    constructor ()
      ensures Valid() && log == [] && domainEntries == map[]
    {
      domainEntries, log := map[], [];
    }

    ghost function Tables(): map<Text, RecordTypes>
      reads this, domainEntries.Values
    {
      map name | name in domainEntries :: domainEntries[name].recordTypes
    }

    /** No entry is shared, and the entries hold what the log leads to. */
    ghost predicate Valid()
      reads this, domainEntries.Values
    {
      Unshared(domainEntries) && Tables() == Replay(log)
    }

    method GetCacheState(qname: Text, qtype: QueryType, now: int) returns (state: CacheState)
      requires Valid()
      ensures state == StateIn(TypesOf(Tables(), qname), qtype, now)
    {
      if qname in domainEntries {
        state := domainEntries[qname].GetCacheState(qtype, now);
      } else {
        state := NotCached;
      }
    }

    method FillQueryresult(qname: Text, qtype: QueryType, resultVec: seq<DnsRecord>, incrementStats: bool, now: int)
      returns (result: seq<DnsRecord>)
      requires Valid()
      modifies domainEntries.Values`hits
      ensures Valid() && Tables() == old(Tables())
      ensures resultVec <= result && Lists(result[|resultVec|..], LiveIn(TypesOf(Tables(), qname), qtype, now))
    {
      result := resultVec;
      if qname in domainEntries {
        var entry := domainEntries[qname];
        if incrementStats {
          entry.hits := (entry.hits + 1) % 0x1_0000_0000;
        }
        assert Tables() == old(Tables());
        result := entry.FillQueryresult(qtype, resultVec, now);
      }
    }

    /** A question's answer. The clock is read three times: for the state of the cache, for the
        answers and for the authorities. */
    method Lookup(qname: Text, qtype: QueryType, now: int, answersAt: int, authoritiesAt: int)
      returns (r: Option<DnsPacket>)
      requires Valid()
      modifies domainEntries.Values`hits
      ensures Valid()
      ensures r.Some? ==> fresh(r.value)
      ensures r.None? <==> !Stands(log, qname, qtype, now) && Live(log, qname, qtype, now) == {}
      ensures Stands(log, qname, qtype, now) ==>
        r.Some? && r.value.View() == Message(EMPTY_HEADER.(rescode := NXDOMAIN), [], [], [], [])
      ensures r.Some? && !Stands(log, qname, qtype, now) ==>
        && r.value.View() == Message(EMPTY_HEADER, [], r.value.answers, r.value.authorities, [])
        && Lists(r.value.answers, Live(log, qname, qtype, answersAt))
        && Lists(r.value.authorities, Live(log, qname, QueryType.NS, authoritiesAt))
    {
      hide Live, Replay, LastOp, StateIn, LiveIn, Stands, Lists, TypesOf;
      TablesRefineLog(log, qname, qtype, now);
      TablesRefineLog(log, qname, qtype, answersAt);
      TablesRefineLog(log, qname, QueryType.NS, authoritiesAt);
      var state := GetCacheState(qname, qtype, now);
      match state
      case PositiveCache =>
        var answers := FillQueryresult(qname, qtype, [], true, answersAt);
        var authorities := FillQueryresult(qname, QueryType.NS, [], false, authoritiesAt);
        assert answers[0..] == answers && authorities[0..] == authorities;
        var qr := new DnsPacket();
        qr.answers, qr.authorities := answers, authorities;
        r := Some(qr);
      case NegativeCache =>
        var qr := new DnsPacket();
        qr.header := qr.header.(rescode := NXDOMAIN);
        r := Some(qr);
      case NotCached =>
        r := None;
    }

    method Store(records: seq<DnsRecord>, clock: nat -> int)
      requires Valid()
      modifies this, domainEntries.Values
      ensures Valid() && log == old(log) + Stores(records, clock)
      ensures fresh(domainEntries.Values - old(domainEntries.Values))
    {
      for i := 0 to |records|
        invariant Valid() && log == old(log) + Stores(records, clock)[..i]
        invariant fresh(domainEntries.Values - old(domainEntries.Values))
      {
        StoreOne(records[i], clock(i));
      }
    }

    /** One turn of the loop of `store`. */
    method StoreOne(rec: DnsRecord, now: int)
      requires Valid()
      modifies this, domainEntries.Values
      ensures Valid() && log == old(log) + [Stored(rec, now)]
      ensures fresh(domainEntries.Values - old(domainEntries.Values))
    {
      hide Replay, Apply, WithRecord, TypesOf, Unshared;
      ghost var tables := Tables();
      ReplayStored(log, rec, now);
      if rec.GetDomain().None? {
        log := log + [Stored(rec, now)];
        assert Tables() == tables;
        return;
      }
      var name := rec.GetDomain().value;
      if name in domainEntries {
        OneEntry(name);
        domainEntries[name].StoreRecord(rec, now);
      } else {
        NewEntry(name);
        var entry := new DomainEntry(name);
        entry.StoreRecord(rec, now);
        AddedUnshared(domainEntries, name, entry);
        domainEntries := domainEntries[name := entry];
      }
      log := log + [Stored(rec, now)];
      assert Tables() == tables[name := WithRecord(TypesOf(tables, name), rec, now)];
    }

    method StoreNxdomain(qname: Text, qtype: QueryType, ttl: u32, now: int)
      requires Valid()
      modifies this, domainEntries.Values
      ensures Valid() && log == old(log) + [Denied(qname, qtype, ttl, now)]
      ensures fresh(domainEntries.Values - old(domainEntries.Values))
    {
      hide Replay, Apply, TypesOf, Unshared;
      ghost var tables := Tables();
      ReplayDenied(log, qname, qtype, ttl, now);
      if qname in domainEntries {
        OneEntry(qname);
        domainEntries[qname].StoreNxdomain(qtype, ttl, now);
      } else {
        NewEntry(qname);
        var entry := new DomainEntry(qname);
        entry.StoreNxdomain(qtype, ttl, now);
        AddedUnshared(domainEntries, qname, entry);
        domainEntries := domainEntries[qname := entry];
      }
      log := log + [Denied(qname, qtype, ttl, now)];
      assert Tables() == tables[qname := TypesOf(tables, qname)[qtype := NoRecords(ttl, now)]];
    }

    /** Changing the entry of one name changes no other. */
    lemma OneEntry(name: Text)
      requires Unshared(domainEntries) && name in domainEntries
      ensures forall n | n in domainEntries && n != name :: domainEntries[n] != domainEntries[name]
      ensures TypesOf(Tables(), name) == domainEntries[name].recordTypes
    {
    }

    lemma NewEntry(name: Text)
      requires name !in domainEntries
      ensures TypesOf(Tables(), name) == map[]
    {
    }
  }

  lemma AddedUnshared(entries: map<Text, DomainEntry>, name: Text, entry: DomainEntry)
    requires Unshared(entries) && entry !in entries.Values
    ensures Unshared(entries[name := entry])
  {
  }

  lemma ReplayStored(log: seq<Op>, rec: DnsRecord, now: int)
    ensures var tables := Replay(log);
      Replay(log + [Stored(rec, now)]) ==
        if rec.OPT? then tables else tables[rec.domain := WithRecord(TypesOf(tables, rec.domain), rec, now)]
  {
    assert (log + [Stored(rec, now)])[..|log|] == log;
  }

  lemma ReplayDenied(log: seq<Op>, name: Text, q: QueryType, ttl: u32, now: int)
    ensures var tables := Replay(log);
      Replay(log + [Denied(name, q, ttl, now)]) == tables[name := TypesOf(tables, name)[q := NoRecords(ttl, now)]]
  {
    assert (log + [Denied(name, q, ttl, now)])[..|log|] == log;
  }
}
