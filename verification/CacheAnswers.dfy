/** When a cached record or denial is answered, by the operations made on the cache and their times. */
module CacheAnswers {
  import opened Data
  import opened Records
  import opened CacheSpec

  /** An operation stores this very record, or denies its name and type. */
  predicate Supersedes(op: Op, rec: DnsRecord)
    requires !rec.OPT?
  {
    match op
    case Stored(r, _) => r == rec
    case Denied(name, q, _, _) => name == rec.domain && q == rec.GetQuerytype()
  }

  /** An operation stores some record of a name and type, or denies it. */
  predicate Mentions(op: Op, name: Text, q: QueryType) {
    match op
    case Stored(r, _) => !r.OPT? && r.domain == name && r.GetQuerytype() == q
    case Denied(n, t, _, _) => n == name && t == q
  }

  /** The record was stored at this place, its time to live has not run out, in nanoseconds, and it was neither
      stored again nor denied since. */
  predicate Lasts(log: seq<Op>, rec: DnsRecord, i: nat, now: int)
    requires i < |log| && !rec.OPT?
  {
    && log[i].Stored? && log[i].rec == rec
    && log[i].at + rec.ttl as int * 1_000_000_000 >= now
    && forall j | i < j < |log| :: !Supersedes(log[j], rec)
  }

  /** The name and type were denied at this place, the denial has not run out, and nothing was said of them since. */
  predicate Denies(log: seq<Op>, name: Text, q: QueryType, i: nat, now: int)
    requires i < |log|
  {
    && log[i].Denied? && log[i].name == name && log[i].qtype == q
    && log[i].at + log[i].ttl as int * 1_000_000_000 >= now
    && forall j | i < j < |log| :: !Mentions(log[j], name, q)
  }

  lemma UndisturbedIs(log: seq<Op>, rec: DnsRecord, i: nat)
    requires !rec.OPT?
    ensures Undisturbed(log, rec, i) <==> forall j | i < j < |log| :: !Supersedes(log[j], rec)
  {
    assert forall op: Op :: Supersedes(op, rec) <==>
      (op.Stored? && op.rec == rec) || (op.Denied? && About(op, rec.domain, rec.GetQuerytype()));
  }

  /** A question is answered with exactly the records of its name and type that last. */
  lemma LiveExactly(log: seq<Op>, name: Text, q: QueryType, now: int, rec: DnsRecord)
    ensures rec in Live(log, name, q, now) <==>
      && !rec.OPT? && rec.domain == name && rec.GetQuerytype() == q
      && exists i | 0 <= i < |log| :: Lasts(log, rec, i, now)
  {
    hide LatestStore, Undisturbed, Live;
    LiveMeans(log, name, q, now, rec);
    if !rec.OPT? {
      if i :| 0 <= i < |log| && Lasts(log, rec, i, now) {
        UndisturbedIs(log, rec, i);
        LatestStoreMeans(log, rec, log[i].at);
      }
      if IsLive(log, rec, now) {
        var t := LatestStore(log, rec).value;
        LatestStoreMeans(log, rec, t);
        var i :| 0 <= i < |log| && log[i] == Stored(rec, t) && Undisturbed(log, rec, i);
        UndisturbedIs(log, rec, i);
        assert Lasts(log, rec, i, now);
      }
    }
  }

  lemma {:induction false} LastOpMeans(log: seq<Op>, name: Text, q: QueryType)
    ensures var r := LastOp(log, name, q);
      if r.None? then forall i | 0 <= i < |log| :: !Mentions(log[i], name, q)
      else exists i | 0 <= i < |log| ::
        log[i] == r.value && Mentions(log[i], name, q) && forall j | i < j < |log| :: !Mentions(log[j], name, q)
    decreases |log|
  {
    if log != [] {
      var n := |log| - 1;
      LastOpMeans(log[..n], name, q);
      assert About(log[n], name, q) <==> Mentions(log[n], name, q);
      assert forall i | 0 <= i < n :: log[..n][i] == log[i];
    }
  }

  /** A denial is answered exactly while one lasts. */
  lemma StandsExactly(log: seq<Op>, name: Text, q: QueryType, now: int)
    ensures Stands(log, name, q, now) <==> exists i | 0 <= i < |log| :: Denies(log, name, q, i, now)
  {
    hide LastOp;
    LastOpMeans(log, name, q);
    if Stands(log, name, q, now) {
      var i :| 0 <= i < |log| && log[i] == LastOp(log, name, q).value && Mentions(log[i], name, q)
               && forall j | i < j < |log| :: !Mentions(log[j], name, q);
      assert Denies(log, name, q, i, now);
    }
    if i :| 0 <= i < |log| && Denies(log, name, q, i, now) {
      assert Mentions(log[i], name, q);
    }
  }
}
