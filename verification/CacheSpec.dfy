/** What the resolver's cache should answer, as a function of the operations made on it. Times are
    in nanoseconds. */
module CacheSpec {
  import opened Data
  import opened Names
  import opened Records

  const SECOND := 1_000_000_000

  datatype Op =
    | Stored(rec: DnsRecord, at: int)
    | Denied(name: Text, qtype: QueryType, ttl: u32, at: int)

  /** A stored record answers questions for its name and type; OPT records have no name. */
  predicate About(op: Op, name: Text, q: QueryType) {
    match op
    case Stored(rec, _) => rec.GetDomain() == Some(name) && rec.GetQuerytype() == q
    case Denied(n, qtype, _, _) => n == name && qtype == q
  }

  /** The last operation on a name and type. */
  function LastOp(log: seq<Op>, name: Text, q: QueryType): (r: Option<Op>)
    ensures r.Some? ==> About(r.value, name, q)
  {
    if log == [] then None
    else
      var op := log[|log| - 1];
      if About(op, name, q) then Some(op) else LastOp(log[..|log| - 1], name, q)
  }

  /** When a record was last stored, unless its name and type were denied since. */
  function LatestStore(log: seq<Op>, rec: DnsRecord): Option<int> {
    if log == [] || rec.OPT? then None
    else
      var op := log[|log| - 1];
      if op.Stored? && op.rec == rec then Some(op.at)
      else if op.Denied? && About(op, rec.domain, rec.GetQuerytype()) then None
      else LatestStore(log[..|log| - 1], rec)
  }

  predicate Fresh(ttl: u32, at: int, now: int) {
    at + ttl * SECOND >= now
  }

  /** The records a question should be answered with: those stored since the last denial whose
      latest store is no more than their time to live ago. */
  function Live(log: seq<Op>, name: Text, q: QueryType, now: int): set<DnsRecord> {
    set i | 0 <= i < |log| && log[i].Stored? && About(log[i], name, q) && IsLive(log, log[i].rec, now) :: log[i].rec
  }

  predicate IsLive(log: seq<Op>, rec: DnsRecord, now: int) {
    LatestStore(log, rec).Some? && Fresh(rec.GetTtl(), LatestStore(log, rec).value, now)
  }

  /** A denial stands when it is the last operation and has not expired. */
  predicate Stands(log: seq<Op>, name: Text, q: QueryType, now: int) {
    var op := LastOp(log, name, q);
    op.Some? && op.value.Denied? && Fresh(op.value.ttl, op.value.at, now)
  }

  /** The latest store time, in terms of the log's positions. */
  lemma {:induction false} LatestStoreMeans(log: seq<Op>, rec: DnsRecord, t: int)
    requires !rec.OPT?
    ensures LatestStore(log, rec) == Some(t) <==>
      exists i | 0 <= i < |log| :: log[i] == Stored(rec, t) && Undisturbed(log, rec, i)
    decreases |log|
  {
    if log != [] {
      var n := |log| - 1;
      LatestStoreMeans(log[..n], rec, t);
      if log[n].Stored? && log[n].rec == rec {
        assert Undisturbed(log, rec, n);
      } else if !(log[n].Denied? && About(log[n], rec.domain, rec.GetQuerytype())) {
        Earlier(log, rec, t);
      }
    }
  }

  /** No later operation stores the record again or denies its name and type. */
  predicate Undisturbed(log: seq<Op>, rec: DnsRecord, i: nat)
    requires !rec.OPT?
  {
    forall j | i < j < |log| ::
      !(log[j].Stored? && log[j].rec == rec) && !(log[j].Denied? && About(log[j], rec.domain, rec.GetQuerytype()))
  }

  lemma Earlier(log: seq<Op>, rec: DnsRecord, t: int)
    requires !rec.OPT? && log != [] && var op := log[|log| - 1];
      !(op.Stored? && op.rec == rec) && !(op.Denied? && About(op, rec.domain, rec.GetQuerytype()))
    ensures var log' := log[..|log| - 1];
      (exists i | 0 <= i < |log| :: log[i] == Stored(rec, t) && Undisturbed(log, rec, i)) <==>
      (exists i | 0 <= i < |log'| :: log'[i] == Stored(rec, t) && Undisturbed(log', rec, i))
  {
    var n := |log| - 1;
    var log' := log[..n];
    if i :| 0 <= i < |log| && log[i] == Stored(rec, t) && Undisturbed(log, rec, i) {
      assert i < n && log'[i] == log[i];
      assert Undisturbed(log', rec, i);
    }
    if i :| 0 <= i < |log'| && log'[i] == Stored(rec, t) && Undisturbed(log', rec, i) {
      forall j | i < j < |log|
        ensures !(log[j].Stored? && log[j].rec == rec)
        ensures !(log[j].Denied? && About(log[j], rec.domain, rec.GetQuerytype()))
      {
        if j < n {
          assert log'[j] == log[j];
        }
      }
      assert log[i] == Stored(rec, t) && Undisturbed(log, rec, i);
    }
  }

  // ---------------------------------------------------------------------------
  // The tables
  // ---------------------------------------------------------------------------

  /** The records of a set are told apart by everything but their time of storage. */
  datatype RecordSet = NoRecords(ttl: u32, timestamp: int) | Records(records: map<DnsRecord, int>)

  type RecordTypes = map<QueryType, RecordSet>

  datatype CacheState = PositiveCache | NegativeCache | NotCached

  function WithRecord(types: RecordTypes, rec: DnsRecord, at: int): RecordTypes {
    var q := rec.GetQuerytype();
    types[q := Records(if q in types && types[q].Records? then types[q].records[rec := at] else map[rec := at])]
  }

  function TypesOf(tables: map<Text, RecordTypes>, name: Text): RecordTypes {
    if name in tables then tables[name] else map[]
  }

  function Apply(tables: map<Text, RecordTypes>, op: Op): map<Text, RecordTypes> {
    match op
    case Stored(rec, at) =>
      if rec.OPT? then tables else tables[rec.domain := WithRecord(TypesOf(tables, rec.domain), rec, at)]
    case Denied(name, q, ttl, at) => tables[name := TypesOf(tables, name)[q := NoRecords(ttl, at)]]
  }

  function Replay(log: seq<Op>): map<Text, RecordTypes> {
    if log == [] then map[] else Apply(Replay(log[..|log| - 1]), log[|log| - 1])
  }

  /** The records of a set that have not expired. */
  function LiveIn(types: RecordTypes, q: QueryType, now: int): set<DnsRecord> {
    if q in types && types[q].Records? then
      set rec | rec in types[q].records && Fresh(rec.GetTtl(), types[q].records[rec], now) && rec.GetQuerytype() == q
    else {}
  }

  function StateIn(types: RecordTypes, q: QueryType, now: int): CacheState {
    if q !in types then NotCached
    else if types[q].Records? then (if LiveIn(types, q, now) != {} then PositiveCache else NotCached)
    else if Fresh(types[q].ttl, types[q].timestamp, now) then NegativeCache
    else NotCached
  }

  /** The tables hold, for a name and type, what the log says. */
  ghost predicate Agrees(types: RecordTypes, log: seq<Op>, name: Text, q: QueryType) {
    var op := LastOp(log, name, q);
    if op.None? then q !in types
    else if op.value.Denied? then q in types && types[q] == NoRecords(op.value.ttl, op.value.at)
    else
      && q in types && types[q].Records?
      && forall rec :: Held(types[q].records, log, name, q, rec)
  }

  ghost predicate Held(records: map<DnsRecord, int>, log: seq<Op>, name: Text, q: QueryType, rec: DnsRecord) {
    && (rec in records <==> rec.GetDomain() == Some(name) && rec.GetQuerytype() == q && LatestStore(log, rec).Some?)
    && (rec in records ==> LatestStore(log, rec) == Some(records[rec]))
  }

  lemma {:induction false} ReplayAgrees(log: seq<Op>, name: Text, q: QueryType)
    ensures Agrees(TypesOf(Replay(log), name), log, name, q)
    decreases |log|
  {
    hide Agrees, Apply;
    if log == [] {
      NothingAgrees(name, q);
    } else {
      var n := |log| - 1;
      ReplayAgrees(log[..n], name, q);
      ApplyAgrees(Replay(log[..n]), log, name, q);
    }
  }

  lemma NothingAgrees(name: Text, q: QueryType)
    ensures Agrees(map[], [], name, q)
  {
  }

  lemma ApplyAgrees(tables: map<Text, RecordTypes>, log: seq<Op>, name: Text, q: QueryType)
    requires log != [] && Agrees(TypesOf(tables, name), log[..|log| - 1], name, q)
    ensures Agrees(TypesOf(Apply(tables, log[|log| - 1]), name), log, name, q)
  {
    var op := log[|log| - 1];
    if !About(op, name, q) {
      hide Agrees;
      OtherAgrees(TypesOf(tables, name), log, name, q);
      AgreesLocal(TypesOf(tables, name), TypesOf(Apply(tables, op), name), log, name, q);
    } else if op.Denied? {
    } else {
      StoredAgrees(TypesOf(tables, name), log, name, q);
    }
  }

  lemma AgreesLocal(types: RecordTypes, types': RecordTypes, log: seq<Op>, name: Text, q: QueryType)
    requires (q in types <==> q in types') && (q in types ==> types[q] == types'[q])
    requires Agrees(types, log, name, q)
    ensures Agrees(types', log, name, q)
  {
  }

  /** An operation on another name or type changes nothing for this one. */
  lemma OtherAgrees(types: RecordTypes, log: seq<Op>, name: Text, q: QueryType)
    requires log != [] && !About(log[|log| - 1], name, q) && Agrees(types, log[..|log| - 1], name, q)
    ensures Agrees(types, log, name, q)
  {
    var log' := log[..|log| - 1];
    assert LastOp(log, name, q) == LastOp(log', name, q);
    if q in types && types[q].Records? {
      forall rec
        ensures Held(types[q].records, log, name, q, rec)
      {
        assert Held(types[q].records, log', name, q, rec);
      }
    }
  }

  lemma StoredAgrees(types: RecordTypes, log: seq<Op>, name: Text, q: QueryType)
    requires log != [] && Agrees(types, log[..|log| - 1], name, q)
    requires log[|log| - 1].Stored? && About(log[|log| - 1], name, q)
    ensures Agrees(WithRecord(types, log[|log| - 1].rec, log[|log| - 1].at), log, name, q)
  {
    var log', op := log[..|log| - 1], log[|log| - 1];
    var records := WithRecord(types, op.rec, op.at)[q].records;
    forall rec
      ensures Held(records, log, name, q, rec)
    {
      if LastOp(log', name, q).Some? && LastOp(log', name, q).value.Stored? {
        assert Held(types[q].records, log', name, q, rec);
      } else if rec.GetDomain() == Some(name) && rec.GetQuerytype() == q {
        NotStored(log', rec);
      }
    }
  }

  /** A record whose name and type were last denied, or never mentioned, has no latest store. */
  lemma {:induction false} NotStored(log: seq<Op>, rec: DnsRecord)
    requires !rec.OPT?
    requires var op := LastOp(log, rec.domain, rec.GetQuerytype()); op.None? || op.value.Denied?
    ensures LatestStore(log, rec).None?
    decreases |log|
  {
    if log != [] {
      if !About(log[|log| - 1], rec.domain, rec.GetQuerytype()) {
        NotStored(log[..|log| - 1], rec);
      }
    }
  }

  // ---------------------------------------------------------------------------
  // The refinement
  // ---------------------------------------------------------------------------

  lemma {:induction false} StoredInLog(log: seq<Op>, rec: DnsRecord)
    requires LatestStore(log, rec).Some?
    ensures exists i :: 0 <= i < |log| && log[i].Stored? && log[i].rec == rec
    decreases |log|
  {
    var n := |log| - 1;
    if !(log[n].Stored? && log[n].rec == rec) {
      StoredInLog(log[..n], rec);
    }
  }

  lemma LiveMeans(log: seq<Op>, name: Text, q: QueryType, now: int, rec: DnsRecord)
    ensures rec in Live(log, name, q, now) <==>
      rec.GetDomain() == Some(name) && rec.GetQuerytype() == q && IsLive(log, rec, now)
  {
    if LatestStore(log, rec).Some? {
      StoredInLog(log, rec);
    }
  }

  /** The tables answer as the log of operations does: with exactly the live records, with a denial
      exactly when one stands, and with nothing otherwise. */
  lemma TablesRefineLog(log: seq<Op>, name: Text, q: QueryType, now: int)
    ensures LiveIn(TypesOf(Replay(log), name), q, now) == Live(log, name, q, now)
    ensures StateIn(TypesOf(Replay(log), name), q, now) ==
      if Stands(log, name, q, now) then NegativeCache
      else if Live(log, name, q, now) != {} then PositiveCache
      else NotCached
    ensures Stands(log, name, q, now) ==> Live(log, name, q, now) == {}
  {
    hide Live, LatestStore;
    var types := TypesOf(Replay(log), name);
    ReplayAgrees(log, name, q);
    forall rec
      ensures rec in LiveIn(types, q, now) <==> rec in Live(log, name, q, now)
    {
      LiveMeans(log, name, q, now, rec);
      if q in types && types[q].Records? {
        assert Held(types[q].records, log, name, q, rec);
      } else if rec.GetDomain() == Some(name) && rec.GetQuerytype() == q {
        NotStored(log, rec);
      }
    }
  }
}
