/** Messages as sequences of names and plain bytes. Everything the program writes into a packet
    buffer is one of these; compression acts on the names only. */
module Layout {
  import opened Data
  import opened Names
  import opened NameCodec

  datatype Pieces =
    | End
    | Dom(name: Text, rest: Pieces)
    | Raw(bytes: seq<byte>, rest: Pieces)

  function Append(p: Pieces, q: Pieces): Pieces
  {
    match p
    case End => q
    case Dom(s, rest) => Dom(s, Append(rest, q))
    case Raw(x, rest) => Raw(x, Append(rest, q))
  }

  predicate GoodNames(p: Pieces)
  {
    match p
    case End => true
    case Dom(s, rest) => GoodName(s) && GoodNames(rest)
    case Raw(_, rest) => GoodNames(rest)
  }

  /** The bytes appended by writing the pieces in turn, and the lookup table left behind. */
  function Encode(table: Table, at: nat, p: Pieces): Enc
    decreases p
  {
    match p
    case End => Enc([], table)
    case Dom(s, rest) =>
      var e := EncName(table, at, s);
      var r := Encode(e.table, at + |e.chunk|, rest);
      Enc(e.chunk + r.chunk, r.table)
    case Raw(x, rest) =>
      var r := Encode(table, at + |x|, rest);
      Enc(x + r.chunk, r.table)
  }

  /** Every pointer written leads where a pointer can lead. */
  predicate InReach(table: Table, at: nat, p: Pieces)
    decreases p
  {
    match p
    case End => true
    case Dom(s, rest) =>
      var e := EncName(table, at, s);
      NameInReach(table, at, s) && InReach(e.table, at + |e.chunk|, rest)
    case Raw(x, rest) => InReach(table, at + |x|, rest)
  }

  /** Reading from `at`, each name reads back lower-cased where the previous piece stopped, each
      run of plain bytes stands there unchanged, and the last piece stops at `end`. */
  ghost predicate Reads(c: seq<byte>, at: nat, p: Pieces, end: nat)
    decreases p
  {
    match p
    case End => at == end
    case Dom(s, rest) =>
      ReadName(c, at).Done? && ReadName(c, at).value == Lower(s) && Reads(c, ReadName(c, at).next, rest, end)
    case Raw(x, rest) =>
      at + |x| <= |c| && c[at..at + |x|] == x && Reads(c, at + |x|, rest, end)
  }

  lemma Assoc<T>(a: seq<T>, b: seq<T>, c: seq<T>)
    ensures a + (b + c) == a + b + c
  {
  }

  lemma EncodeDom(table: Table, at: nat, s: Text, rest: Pieces)
    ensures var e := EncName(table, at, s); var r := Encode(e.table, at + |e.chunk|, rest);
      Encode(table, at, Dom(s, rest)) == Enc(e.chunk + r.chunk, r.table)
  {
    hide EncName, Encode;
    EncodeStep(table, at, Dom(s, rest));
  }

  lemma EncodeStep(table: Table, at: nat, p: Pieces)
    requires p.Dom?
    ensures var e := EncName(table, at, p.name); var r := Encode(e.table, at + |e.chunk|, p.rest);
      Encode(table, at, p) == Enc(e.chunk + r.chunk, r.table)
  {
    hide EncName;
  }

  lemma EncodeRaw(table: Table, at: nat, x: seq<byte>, rest: Pieces)
    ensures var r := Encode(table, at + |x|, rest);
      Encode(table, at, Raw(x, rest)) == Enc(x + r.chunk, r.table)
  {
  }

  /** Writing one sequence of pieces and then another is writing both at once. */
  lemma {:induction false} EncodeAppend(table: Table, at: nat, p: Pieces, q: Pieces, mid: nat)
    requires mid == at + |Encode(table, at, p).chunk|
    ensures var e := Encode(table, at, p); var f := Encode(e.table, mid, q);
      Encode(table, at, Append(p, q)) == Enc(e.chunk + f.chunk, f.table)
    decreases p
  {
    hide EncName, Encode;
    match p
    case End =>
      EncodeEnd(table, at);
      assert [] + Encode(table, at, q).chunk == Encode(table, at, q).chunk;
    case Dom(s, rest) =>
      var e := EncName(table, at, s);
      var r := Encode(e.table, at + |e.chunk|, rest);
      EncodeDom(table, at, s, rest);
      EncodeDom(table, at, s, Append(rest, q));
      EncodeAppend(e.table, at + |e.chunk|, rest, q, mid);
      Assoc(e.chunk, r.chunk, Encode(r.table, mid, q).chunk);
    case Raw(x, rest) =>
      var r := Encode(table, at + |x|, rest);
      EncodeRaw(table, at, x, rest);
      EncodeRaw(table, at, x, Append(rest, q));
      EncodeAppend(table, at + |x|, rest, q, mid);
      Assoc(x, r.chunk, Encode(r.table, mid, q).chunk);
  }

  lemma EncodeEnd(table: Table, at: nat)
    ensures Encode(table, at, End) == Enc([], table)
  {
  }

  lemma {:induction false} GoodAppend(p: Pieces, q: Pieces)
    ensures GoodNames(Append(p, q)) <==> GoodNames(p) && GoodNames(q)
    decreases p
  {
    match p
    case End =>
    case Dom(_, rest) => GoodAppend(rest, q);
    case Raw(_, rest) => GoodAppend(rest, q);
  }

  /** Any sequence of names written with compression, interleaved with other bytes, into a buffer of
      any size, as long as no pointer has to lead beyond its fourteen bits: every name reads back at
      its own start, the reader stops just after it, and every saved suffix stays readable. The
      pointers followed go strictly backwards (TableOk is about ReadBackward). */
  lemma {:induction false} RoundTrip(b: seq<byte>, table: Table, p: Pieces, more: seq<byte>)
    requires GoodNames(p) && TableOk(b, table)
    requires InReach(table, |b|, p)
    ensures var e := Encode(table, |b|, p);
      && TableOk(b + e.chunk, e.table)
      && Reads(b + e.chunk + more, |b|, p, |b| + |e.chunk|)
    decreases p
  {
    hide EncName, ReadName, Lower, GoodName, TableOk, Encode, NameInReach;
    match p
    case End =>
      EncodeEnd(table, |b|);
      assert b + [] == b;
    case Dom(s, rest) =>
      var n := EncName(table, |b|, s);
      var r := Encode(n.table, |b| + |n.chunk|, rest);
      EncodeDom(table, |b|, s, rest);
      NameRoundTrip(b, table, s, r.chunk + more);
      RoundTrip(b + n.chunk, n.table, rest, more);
      Assoc(b, n.chunk, r.chunk);
      Assoc(b + n.chunk, r.chunk, more);
    case Raw(x, rest) =>
      var r := Encode(table, |b| + |x|, rest);
      EncodeRaw(table, |b|, x, rest);
      TableStable(b, x, table);
      RoundTrip(b + x, table, rest, more);
      Assoc(b, x, r.chunk);
      Assoc(b + x, r.chunk, more);
      Middle(b, x, r.chunk + more);
  }

  /** In a buffer of no more than 0x4000 bytes every pointer is in reach. */
  lemma {:induction false} PiecesInReach(table: Table, at: nat, p: Pieces)
    requires SavedBelow(table, at) && at + |Encode(table, at, p).chunk| <= 0x4000
    ensures InReach(table, at, p)
    ensures SavedBelow(Encode(table, at, p).table, at + |Encode(table, at, p).chunk|)
    decreases p
  {
    hide EncName, NameInReach;
    match p
    case End =>
    case Dom(s, rest) =>
      var e := EncName(table, at, s);
      ReachWithin(table, at, s);
      PiecesInReach(e.table, at + |e.chunk|, rest);
    case Raw(x, rest) =>
      PiecesInReach(table, at + |x|, rest);
  }

  lemma Middle(b: seq<byte>, x: seq<byte>, c: seq<byte>)
    ensures (b + x + c)[|b|..|b| + |x|] == x
  {
  }

  /** Written `d` positions later with a table `d` positions later, the pieces take as many bytes. */
  lemma {:induction false} EncodeShift(table: Table, table': Table, at: nat, at': nat, p: Pieces, d: nat)
    requires Shifted(table, table', d) && at' == at + d
    ensures var e, e' := Encode(table, at, p), Encode(table', at', p);
      |e'.chunk| == |e.chunk| && Shifted(e.table, e'.table, d)
    decreases p
  {
    hide EncName, Shifted;
    match p
    case End =>
    case Dom(s, rest) =>
      NameShift(table, table', at, at', s, d);
      var e, e' := EncName(table, at, s), EncName(table', at', s);
      EncodeShift(e.table, e'.table, at + |e.chunk|, at' + |e'.chunk|, rest, d);
    case Raw(x, rest) =>
      EncodeShift(table, table', at + |x|, at' + |x|, rest, d);
  }

  // ---------------------------------------------------------------------------
  // Writing piece by piece
  // ---------------------------------------------------------------------------

  /** With `todo` still to write into a buffer holding `b`, the end result will be `whole`. */
  ghost predicate Left(whole: Enc, b: seq<byte>, table: Table, todo: Pieces) {
    whole == Enc(b + Encode(table, |b|, todo).chunk, Encode(table, |b|, todo).table)
  }

  lemma LeftEnd(whole: Enc, b: seq<byte>, table: Table)
    requires Left(whole, b, table, End)
    ensures whole == Enc(b, table)
  {
    assert b + [] == b;
  }

  lemma LeftDom(whole: Enc, b: seq<byte>, table: Table, s: Text, rest: Pieces)
    requires Left(whole, b, table, Dom(s, rest))
    ensures var e := EncName(table, |b|, s); Left(whole, b + e.chunk, e.table, rest)
  {
    hide EncName, Encode;
    var e := EncName(table, |b|, s);
    EncodeDom(table, |b|, s, rest);
    Assoc(b, e.chunk, Encode(e.table, |b| + |e.chunk|, rest).chunk);
  }

  lemma LeftRaw(whole: Enc, b: seq<byte>, table: Table, x: seq<byte>, rest: Pieces)
    requires Left(whole, b, table, Raw(x, rest))
    ensures Left(whole, b + x, table, rest)
  {
    hide Encode;
    EncodeRaw(table, |b|, x, rest);
    Assoc(b, x, Encode(table, |b| + |x|, rest).chunk);
  }

  /** The three steps for every buffer at once: following a writer through its steps. */
  lemma LeftSteps()
    ensures forall whole, b, table, x, rest ::
      Left(whole, b, table, Raw(x, rest)) ==> Left(whole, b + x, table, rest)
    ensures forall whole, b, table, s, rest ::
      Left(whole, b, table, Dom(s, rest)) ==>
        Left(whole, b + EncName(table, |b|, s).chunk, EncName(table, |b|, s).table, rest)
    ensures forall whole, b, table :: Left(whole, b, table, End) ==> whole == Enc(b, table)
  {
    hide Left, EncName;
    forall whole, b, table, x, rest | Left(whole, b, table, Raw(x, rest))
      ensures Left(whole, b + x, table, rest)
    {
      LeftRaw(whole, b, table, x, rest);
    }
    forall whole, b, table, s, rest | Left(whole, b, table, Dom(s, rest))
      ensures Left(whole, b + EncName(table, |b|, s).chunk, EncName(table, |b|, s).table, rest)
    {
      LeftDom(whole, b, table, s, rest);
    }
    forall whole, b, table | Left(whole, b, table, End)
      ensures whole == Enc(b, table)
    {
      LeftEnd(whole, b, table);
    }
  }
}
