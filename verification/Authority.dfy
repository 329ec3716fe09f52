/** Local zones, saved to files as a printer and loaded back as a parser over packet buffers. */
module Authority {
  import opened Data
  import opened Names
  import opened NameCodec
  import opened Layout
  import opened PacketBuffers
  import opened Records
  import opened RecordIO
  import opened Packets
  import opened Messages
  import opened PacketIO

  datatype Zone = Zone(
    domain: Text, mName: Text, rName: Text,
    serial: u32, refresh: u32, retry: u32, expire: u32, minimum: u32,
    records: set<DnsRecord>)

  /** The fixed part of a zone file, up to and including the record count. */
  function ZonePieces(z: Zone, count: u32): Pieces {
    Dom(z.domain, Dom(z.mName, Dom(z.rName,
      Int32(z.serial, Int32(z.refresh, Int32(z.retry, Int32(z.expire, Int32(z.minimum, Int32(count, End)))))))))
  }

  /** The file written for a zone whose records are visited in the given order. */
  function ZoneFile(z: Zone, order: seq<DnsRecord>): seq<byte> {
    var f := Encode(map[], 0, ZonePieces(z, |order| % 0x1_0000_0000));
    f.chunk + EncRecords(f.table, |f.chunk|, order).chunk
  }

  /** One zone read back from a file. */
  function ReadZone(b: seq<byte>): Parse<Zone> {
    var (domain, at) :- ReadName(b, 0);
    var (mName, at) :- ReadName(b, at);
    var (rName, at) :- ReadName(b, at);
    var (serial, at) :- ReadU32(b, at);
    var (refresh, at) :- ReadU32(b, at);
    var (retry, at) :- ReadU32(b, at);
    var (expire, at) :- ReadU32(b, at);
    var (minimum, at) :- ReadU32(b, at);
    var (count, at) :- ReadU32(b, at);
    var (rs, at) :- ReadRecords(b, at, count);
    Done(Zone(domain, mName, rName, serial, refresh, retry, expire, minimum, set r | r in rs), at)
  }

  /** `order` visits every record of the zone once. */
  ghost predicate Visits(order: seq<DnsRecord>, records: set<DnsRecord>) {
    && (set r | r in order) == records
    && |order| == |records|
  }

  method WriteFixedPart(buffer: PacketBuffer, z: Zone, count: u32)
    requires buffer.Writable()
    modifies buffer`buffer, buffer`pos, buffer`labelLookup
    ensures buffer.Wrote(Encode(old(buffer.labelLookup), |old(buffer.buffer)|, ZonePieces(z, count)))
  {
    hide EncName, U32Bytes, Left, Encode;
    ghost var whole := Start(buffer, ZonePieces(z, count));
    LeftSteps();
    buffer.WriteQname(z.domain);
    buffer.WriteQname(z.mName);
    buffer.WriteQname(z.rName);
    buffer.WriteU32(z.serial);
    buffer.WriteU32(z.refresh);
    buffer.WriteU32(z.retry);
    buffer.WriteU32(z.expire);
    buffer.WriteU32(z.minimum);
    buffer.WriteU32(count);
  }

  /** Writes every record of the set once. The set's own order is left open. */
  method WriteSet(buffer: PacketBuffer, records: set<DnsRecord>) returns (ghost order: seq<DnsRecord>)
    requires buffer.Writable()
    modifies buffer`buffer, buffer`pos, buffer`labelLookup
    ensures Visits(order, records)
    ensures buffer.Wrote(EncRecords(old(buffer.labelLookup), |old(buffer.buffer)|, order))
  {
    hide EncRecords, EncRecord, Visits;
    ghost var front, table := buffer.buffer, buffer.labelLookup;
    order := [];
    NoneVisited(records);
    NoRecords(table, |front|, []);
    NothingMore(front);
    var left := records;
    while left != {}
      invariant buffer.Writable() && left <= records
      invariant Visits(order, records - left)
      invariant var e := EncRecords(table, |front|, order);
        buffer.buffer == front + e.chunk && buffer.labelLookup == e.table
      decreases left
    {
      var rec :| rec in left;
      SnocRecord(table, front, order, rec);
      var _ := WriteRecord(buffer, rec);
      VisitOne(order, records, left, rec);
      left := left - {rec};
      order := order + [rec];
    }
    assert records - {} == records;
  }

  /** The file is one that saving the zone can produce: its records in some order. */
  ghost predicate SavedAs(z: Zone, file: seq<byte>) {
    exists order :: Visits(order, z.records) && file == ZoneFile(z, order)
  }

  lemma VisitSaves(z: Zone, file: seq<byte>, order: seq<DnsRecord>)
    requires Visits(order, z.records) && file == ZoneFile(z, order)
    ensures SavedAs(z, file)
  {
  }

  /** Every pointer in the file leads where a pointer can lead. */
  predicate ZoneInReach(z: Zone, order: seq<DnsRecord>) {
    var p := ZonePieces(z, |order| % 0x1_0000_0000);
    var f := Encode(map[], 0, p);
    InReach(map[], 0, p) && RecordsInReach(f.table, |f.chunk|, order)
  }

  ghost predicate SavedInReach(z: Zone, file: seq<byte>) {
    exists order :: Visits(order, z.records) && file == ZoneFile(z, order) && ZoneInReach(z, order)
  }

  /** A saved file of no more than 0x4000 bytes is in reach. */
  lemma SmallFileInReach(z: Zone, file: seq<byte>)
    requires SavedAs(z, file) && |file| <= 0x4000
    ensures SavedInReach(z, file)
  {
    hide Encode, InReach, EncRecords, RecordsInReach, ZonePieces;
    var order :| Visits(order, z.records) && file == ZoneFile(z, order);
    var p := ZonePieces(z, |order| % 0x1_0000_0000);
    var f := Encode(map[], 0, p);
    PiecesInReach(map[], 0, p);
    RecordsWithin(f.table, |f.chunk|, order);
    assert ZoneInReach(z, order);
  }

  /** The part of `Zones::save` that writes one zone. */
  method SaveZone(z: Zone) returns (file: seq<byte>)
    ensures SavedAs(z, file)
  {
    hide Encode, EncRecords, ZonePieces, SavedAs;
    var buffer := new PacketBuffer();
    WriteFixedPart(buffer, z, |z.records| % 0x1_0000_0000);
    NothingBefore(Encode(map[], 0, ZonePieces(z, |z.records| % 0x1_0000_0000)).chunk);
    ghost var order := WriteSet(buffer, z.records);
    file := buffer.buffer[0..buffer.pos];
    VisitSaves(z, file, order);
  }

  lemma NothingBefore(b: seq<byte>)
    ensures [] + b == b
  {
  }

  lemma NoneVisited(records: set<DnsRecord>)
    ensures Visits([], records - records)
  {
    assert records - records == {};
  }

  lemma VisitOne(order: seq<DnsRecord>, records: set<DnsRecord>, left: set<DnsRecord>, rec: DnsRecord)
    requires Visits(order, records - left) && rec in left && left <= records
    ensures Visits(order + [rec], records - (left - {rec}))
  {
    assert (set r | r in order + [rec]) == (set r | r in order) + {rec};
    assert records - (left - {rec}) == (records - left) + {rec};
  }

  lemma {:induction false} SnocRecords(table: Table, at: nat, rs: seq<DnsRecord>, rec: DnsRecord, mid: nat)
    requires mid == at + |EncRecords(table, at, rs).chunk|
    ensures var e := EncRecords(table, at, rs); var f := EncRecord(e.table, mid, rec);
      EncRecords(table, at, rs + [rec]) == Enc(e.chunk + f.chunk, f.table)
    decreases |rs|
  {
    hide EncRecord;
    if rs == [] {
      var f := EncRecord(table, at, rec);
      assert (rs + [rec])[1..] == [];
      NothingMore(f.chunk);
      NothingBefore(f.chunk);
    } else {
      var e := EncRecord(table, at, rs[0]);
      var r := EncRecords(e.table, at + |e.chunk|, rs[1..]);
      assert (rs + [rec])[1..] == rs[1..] + [rec];
      SnocRecords(e.table, at + |e.chunk|, rs[1..], rec, mid);
      Assoc(e.chunk, r.chunk, EncRecord(r.table, mid, rec).chunk);
    }
  }

  lemma SnocRecord(table: Table, front: seq<byte>, rs: seq<DnsRecord>, rec: DnsRecord)
    ensures var e := EncRecords(table, |front|, rs); var f := EncRecord(e.table, |front + e.chunk|, rec);
      var g := EncRecords(table, |front|, rs + [rec]);
      front + g.chunk == front + e.chunk + f.chunk && g.table == f.table
  {
    hide EncRecords, EncRecord;
    var e := EncRecords(table, |front|, rs);
    SnocRecords(table, |front|, rs, rec, |front + e.chunk|);
    Assoc(front, e.chunk, EncRecord(e.table, |front + e.chunk|, rec).chunk);
  }

  /** The part of `Zones::load` that reads one zone, through a buffer filled from the file on demand. */
  method LoadZone(file: seq<byte>) returns (r: Result<Zone>)
    requires !ReadZone(file).Diverges?
    ensures match ReadZone(file)
      case Done(z, _) => r == Ok(z)
      case Fault => r.EndOfBuffer?
      case Diverges => true
  {
    hide ReadName, ReadU32, ReadRecord;
    var buffer := new PacketBuffer.FromStream(file);
    var domain: Text :- buffer.ReadQname();
    var mName: Text :- buffer.ReadQname();
    var rName: Text :- buffer.ReadQname();
    var serial: u32 :- buffer.ReadInt32();
    var refresh: u32 :- buffer.ReadInt32();
    var retry: u32 :- buffer.ReadInt32();
    var expire: u32 :- buffer.ReadInt32();
    var minimum: u32 :- buffer.ReadInt32();
    var count: u32 :- buffer.ReadInt32();
    var records: set<DnsRecord> := {};
    ghost var rs, all := [], ReadRecords(file, buffer.pos, count);
    AfterNone(all);
    for i := 0 to count
      invariant fresh(buffer) && buffer.Bytes() == file
      invariant all == After(rs, ReadRecords(file, buffer.pos, count - i))
      invariant records == set x | x in rs
    {
      AfterOne(rs, file, buffer.pos, count - i);
      var rec: DnsRecord :- ReadRecordFrom(buffer);
      records := records + {rec};
      rs := rs + [rec];
    }
    assert rs + [] == rs;
    r := Ok(Zone(domain, mName, rName, serial, refresh, retry, expire, minimum, records));
  }

  predicate GoodZone(z: Zone) {
    && GoodName(z.domain) && GoodName(z.mName) && GoodName(z.rName)
    && forall r | r in z.records :: GoodRecord(r)
  }

  function ReadbackZone(z: Zone): Zone {
    Zone(Lower(z.domain), Lower(z.mName), Lower(z.rName), z.serial, z.refresh, z.retry, z.expire, z.minimum,
      set r | r in z.records :: Readback(r))
  }

  lemma FixedPartReads(c: seq<byte>, z: Zone, count: u32, end: nat)
    requires Reads(c, 0, ZonePieces(z, count), end)
    ensures ReadZone(c) == match ReadRecords(c, end, count)
      case Done(rs, at) => Done(Zone(Lower(z.domain), Lower(z.mName), Lower(z.rName), z.serial, z.refresh, z.retry,
                                  z.expire, z.minimum, set r | r in rs), at)
      case Fault => Fault
      case Diverges => Diverges
  {
    hide Reads, ReadName, ReadU32, Lower, ReadRecords;
    var t5 := Int32(count, End);
    var t4 := Int32(z.minimum, t5);
    var t3 := Int32(z.expire, t4);
    var t2 := Int32(z.retry, t3);
    var t1 := Int32(z.refresh, t2);
    var t0 := Int32(z.serial, t1);
    var p := DomReads(c, 0, z.domain, Dom(z.mName, Dom(z.rName, t0)), end);
    var q := DomReads(c, p, z.mName, Dom(z.rName, t0), end);
    var s := DomReads(c, q, z.rName, t0, end);
    ReadsInt32(c, s, z.serial, t1, end);
    ReadsInt32(c, s + 4, z.refresh, t2, end);
    ReadsInt32(c, s + 8, z.retry, t3, end);
    ReadsInt32(c, s + 12, z.expire, t4, end);
    ReadsInt32(c, s + 16, z.minimum, t5, end);
    ReadsInt32(c, s + 20, count, End, end);
    EndReads(c, s + 24, end);
  }

  lemma {:induction false} ReadbackSet(rs: seq<DnsRecord>)
    ensures (set r | r in ReadbackAll(rs)) == (set r | r in rs :: Readback(r))
  {
    hide Readback;
    if rs != [] {
      ReadbackSet(rs[1..]);
      assert (set r | r in ReadbackAll(rs)) == {Readback(rs[0])} + set r | r in ReadbackAll(rs[1..]);
      assert (set r | r in rs :: Readback(r)) == {Readback(rs[0])} + set r | r in rs[1..] :: Readback(r);
    }
  }

  /** A zone written to a file and loaded back through the lazily filled buffer is the same zone,
      names lower-cased and TXT data as the reader sees it, whatever order its records were written
      in; and it loads exactly when it holds no UNKNOWN record. */
  lemma ZoneRoundTrip(z: Zone, order: seq<DnsRecord>)
    requires GoodZone(z) && Visits(order, z.records) && ZoneInReach(z, order)
    requires |order| < 0x1_0000_0000
    ensures var file := ZoneFile(z, order);
      if forall r | r in z.records :: !r.UNKNOWN? then ReadZone(file) == Done(ReadbackZone(z), |file|)
      else ReadZone(file) == Fault
  {
    hide Encode, Reads, ReadRecords, EncRecords, ReadbackAll, Readback, GoodRecord, GoodName, TableOk, Emitted,
      ReadZone, Lower, ZonePieces, InReach, RecordsInReach;
    var file := ZoneFile(z, order);
    var f := Encode(map[], 0, ZonePieces(z, |order|));
    var r := EncRecords(f.table, |f.chunk|, order);
    EmptyTable();
    ZonePiecesGood(z, |order|);
    RoundTrip([], map[], ZonePieces(z, |order|), r.chunk);
    NothingBefore(f.chunk);
    FixedPartReads(file, z, |order|, |f.chunk|);
    assert forall x | x in order :: x in set y | y in order;
    RecordsRoundTrip(f.chunk, f.table, order, []);
    NothingMore(file);
    EmittedAll(order);
    UnknownsIn(order, z.records);
    var w := |Emitted(order)|;
    if w < |order| {
      ReadRecordsSplit(file, |f.chunk|, w, |order| - w);
      PastTheEnd(file, |order| - w);
    } else {
      ReadbackSet(order);
      assert (set x | x in order :: Readback(x)) == (set x | x in z.records :: Readback(x));
    }
  }

  lemma ZonePiecesGood(z: Zone, count: u32)
    requires GoodZone(z)
    ensures GoodNames(ZonePieces(z, count))
  {
    hide GoodName, U32Bytes;
    var t3 := Int32(z.expire, Int32(z.minimum, Int32(count, End)));
    assert GoodNames(Int32(count, End));
    assert GoodNames(Int32(z.minimum, Int32(count, End)));
    assert GoodNames(t3);
    var t1 := Int32(z.refresh, Int32(z.retry, t3));
    assert GoodNames(t1);
    assert GoodNames(Dom(z.rName, Int32(z.serial, t1)));
  }

  lemma UnknownsIn(order: seq<DnsRecord>, records: set<DnsRecord>)
    requires Visits(order, records)
    ensures (forall i | 0 <= i < |order| :: !order[i].UNKNOWN?) <==> (forall r | r in records :: !r.UNKNOWN?)
  {
    assert forall i | 0 <= i < |order| :: order[i] in (set r | r in order);
    assert forall r | r in records :: r in (set x | x in order);
  }

  // ---------------------------------------------------------------------------
  // The directory of zones
  // ---------------------------------------------------------------------------

  /** What loading some files in turn makes of a collection of zones: it stops at the first file
      that cannot be read, keeping what it has. */
  function Loaded(zones: map<Text, Zone>, files: seq<seq<byte>>): map<Text, Zone>
    decreases |files|
  {
    if files == [] || !ReadZone(files[0]).Done? then zones
    else
      var z := ReadZone(files[0]).value;
      Loaded(zones[z.domain := z], files[1..])
  }

  class Zones {
    var zones: map<Text, Zone>

    constructor ()
      ensures zones == map[]
    {
      zones := map[];
    }

    /** Zones::load, over the contents of the files in the zones directory. */
    method Load(files: seq<seq<byte>>) returns (r: Result<()>)
      requires forall f | f in files :: !ReadZone(f).Diverges?
      modifies this
      ensures zones == Loaded(old(zones), files)
      ensures r.Ok? <==> forall f | f in files :: ReadZone(f).Done?
    {
      hide ReadZone;
      assert files[0..] == files;
      for i := 0 to |files|
        invariant Loaded(old(zones), files) == Loaded(zones, files[i..])
        invariant forall f | f in files[..i] :: ReadZone(f).Done?
      {
        assert files[i] in files && files[i..][1..] == files[i + 1..];
        var z: Zone :- LoadZone(files[i]);
        zones := zones[z.domain := z];
      }
      assert files[..|files|] == files;
      r := Ok(());
    }

    /** Zones::save: one file per zone, named after its domain. */
    method Save() returns (files: map<Text, seq<byte>>)
      requires forall k | k in zones :: zones[k].domain == k
      ensures files.Keys == zones.Keys
      ensures forall k | k in zones :: SavedAs(zones[k], files[k])
    {
      hide SavedAs;
      files := map[];
      var left := zones.Keys;
      while left != {}
        invariant left <= zones.Keys && files.Keys == zones.Keys - left
        invariant forall k | k in files :: SavedAs(zones[k], files[k])
        decreases left
      {
        var k :| k in left;
        var file := SaveZone(zones[k]);
        files := files[zones[k].domain := file];
        left := left - {k};
      }
    }
  }

  /** A zone that a trip through a file does not change. */
  predicate PlainZone(z: Zone) {
    && GoodZone(z)
    && Lower(z.domain) == z.domain && Lower(z.mName) == z.mName && Lower(z.rName) == z.rName
    && forall r | r in z.records :: LowerCase(r) && IsText(r) && !r.TXT? && !r.UNKNOWN?
  }

  lemma PlainZoneReadsBack(z: Zone)
    requires PlainZone(z)
    ensures ReadbackZone(z) == z
  {
    hide Lower, LowerCase, IsText, Readback, GoodZone;
    forall r | r in z.records
      ensures Readback(r) == r
    {
      ReadbackIsExact(r);
    }
  }

  /** The files of some zones, in the order the directory lists them. */
  function FilesOf(files: map<Text, seq<byte>>, names: seq<Text>): seq<seq<byte>>
    requires forall n | n in names :: n in files
  {
    if names == [] then [] else [files[names[0]]] + FilesOf(files, names[1..])
  }

  function Named(zones: map<Text, Zone>, names: seq<Text>): map<Text, Zone> {
    map n | n in names && n in zones :: zones[n]
  }

  /** Saving the zones and loading the files, in any order, gives back the zones. */
  lemma {:induction false} ZonesRoundTrip(
      before: map<Text, Zone>, zones: map<Text, Zone>, files: map<Text, seq<byte>>, names: seq<Text>)
    requires zones.Keys == files.Keys && forall n | n in names :: n in zones
    requires forall k | k in zones :: zones[k].domain == k && PlainZone(zones[k]) && SavedInReach(zones[k], files[k])
    requires forall k | k in zones :: |zones[k].records| < 0x1_0000_0000
    ensures Loaded(before, FilesOf(files, names)) == before + Named(zones, names)
    decreases |names|
  {
    hide PlainZone, SavedInReach, ReadZone, Loaded;
    if names == [] {
      NoFiles(before);
      assert before + Named(zones, names) == before;
    } else {
      var n := names[0];
      assert n in names;
      PlainZoneLoads(zones[n], files[n]);
      ZonesRoundTrip(before[n := zones[n]], zones, files, names[1..]);
      LoadedStep(before, files[n], FilesOf(files, names[1..]), zones[n]);
      NamedStep(before, zones, names);
    }
  }

  lemma NoFiles(before: map<Text, Zone>)
    ensures Loaded(before, []) == before
  {
  }

  lemma LoadedStep(before: map<Text, Zone>, file: seq<byte>, rest: seq<seq<byte>>, z: Zone)
    requires ReadZone(file).Done? && ReadZone(file).value == z
    ensures Loaded(before, [file] + rest) == Loaded(before[z.domain := z], rest)
  {
    hide ReadZone;
    assert ([file] + rest)[1..] == rest;
  }

  lemma NamedStep(before: map<Text, Zone>, zones: map<Text, Zone>, names: seq<Text>)
    requires names != [] && names[0] in zones
    ensures before[names[0] := zones[names[0]]] + Named(zones, names[1..]) == before + Named(zones, names)
  {
  }

  lemma PlainZoneLoads(z: Zone, file: seq<byte>)
    requires PlainZone(z) && SavedInReach(z, file) && |z.records| < 0x1_0000_0000
    ensures ReadZone(file).Done? && ReadZone(file).value == z
  {
    hide ZoneFile, ReadZone, ReadbackZone, GoodZone, LowerCase, IsText, Lower, ZoneInReach;
    var order :| Visits(order, z.records) && file == ZoneFile(z, order) && ZoneInReach(z, order);
    ZoneRoundTrip(z, order);
    PlainZoneReadsBack(z);
  }
}
