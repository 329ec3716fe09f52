/** Where the round trip of names and the termination of their reader end. */
module NameLimits {
  import opened Data
  import opened Names
  import opened NameCodec
  import opened Layout

  // ---------------------------------------------------------------------------
  // Names that cannot be written
  // ---------------------------------------------------------------------------

  /** A name written in full begins with the length of its first label, cut to a byte, and the label. */
  lemma FirstByte(table: Table, at: nat, s: Text)
    requires s !in table
    ensures var i := FirstDot(s); var e := EncName(table, at, s).chunk;
      |e| >= i + 2 && e[0] == i % 256 && e[1..i + 1] == s[..i]
  {
    var i := FirstDot(s);
    if i == |s| {
      EncNameLast(table, at, s);
      assert s[..i] == s;
    } else {
      EncNameInner(table, at, s, s[..i], s[i + 1..]);
    }
  }

  lemma {:induction false} FreshInReach(table: Table, at: nat, s: Text)
    requires forall k | k in table :: |k| > |s|
    ensures NameInReach(table, at, s)
    decreases |s|
  {
    var i := FirstDot(s);
    if i < |s| {
      FreshInReach(table[s := at], at + 1 + i, s[i + 1..]);
    }
  }

  /** Joining labels puts a dot after the first, or nothing. */
  lemma JoinFirst(x: Text, rest: seq<Text>)
    ensures var j := Join([x] + rest);
      if rest == [] then j == x else j == x + [DOT] + Join(rest)
  {
    assert rest != [] ==> ([x] + rest)[1..] == rest;
  }

  /** A reader that takes only part of a label puts a dot, or the end, where the label has neither. */
  lemma CutLabel(s: Text, m: nat, rest: seq<Text>)
    requires m < FirstDot(s)
    ensures Join([Lower(s[..m])] + rest) != Lower(s)
  {
    var j := Join([Lower(s[..m])] + rest);
    JoinFirst(Lower(s[..m]), rest);
    if rest != [] {
      assert j[m] == DOT;
      assert Lower(s)[m] == LowerByte(s[m]) != DOT;
    }
  }

  /** If the whole comes out right, so does what follows the first label. */
  lemma RestComesOut(s: Text, rest: seq<Text>)
    requires FirstDot(s) < |s| && Join([Lower(s[..FirstDot(s)])] + rest) == Lower(s)
    ensures Join(rest) == Lower(s[FirstDot(s) + 1..])
  {
    var i := FirstDot(s);
    var l, s1 := s[..i], s[i + 1..];
    JoinFirst(Lower(l), rest);
    assert |Lower(s)| > i;
    assert s == l + [DOT] + s1;
    LowerConcat(l, [DOT] + s1);
    LowerConcat([DOT], s1);
    assert Lower(s) == Lower(l) + [DOT] + Lower(s1);
    assert Lower(s)[i + 1..] == Lower(s1);
    assert (Lower(l) + [DOT] + Join(rest))[i + 1..] == Join(rest);
  }

  /** A bad first label already sends the reader astray: it stops after one byte, or takes two bytes
      for a pointer, or takes only part of the label. */
  lemma BadLabelMisreads(b: seq<byte>, table: Table, s: Text, n: nat)
    requires s !in table && var i := FirstDot(s); i == 0 || i > 63
    ensures Misread(b, table, s, n)
  {
    hide EncName, FirstDot, Lower, Join, Labels;
    var c := b + EncName(table, |b|, s).chunk;
    var i := FirstDot(s);
    FirstByte(table, |b|, s);
    var m := i % 256;
    assert c[|b|] == m;
    if n > 0 && 1 <= m < 64 {
      LabelPart(b, EncName(table, |b|, s).chunk, s, i, m);
      var w := Walk(c, |b| + 1 + m, n - 1);
      if w.Settled? {
        CutLabel(s, m, w.labels);
      }
    }
  }

  lemma LabelPart(b: seq<byte>, e: seq<byte>, s: Text, i: nat, m: nat)
    requires m <= i <= |s| && |e| >= i + 2 && e[1..i + 1] == s[..i]
    ensures (b + e)[|b| + 1..|b| + 1 + m] == s[..m]
  {
    assert (b + e)[|b| + 1..|b| + 1 + m] == e[1..m + 1];
    assert e[1..m + 1] == e[1..i + 1][..m];
    assert s[..i][..m] == s[..m];
  }

  /** One whole label, and on. */
  lemma WalkLabel(c: seq<byte>, at: nat, n: nat, l: Text)
    requires n > 0 && 1 <= |l| <= 63 && at + 1 + |l| <= |c| && c[at] == |l| && c[at + 1..at + 1 + |l|] == l
    ensures Walk(c, at, n) == match Walk(c, at + 1 + |l|, n - 1)
      case Settled(ls, next) => Settled([Lower(l)] + ls, next)
      case other => other
  {
    hide Lower;
  }

  /** The reader does not give the name back from where it was written, or does not stop at its end. */
  ghost predicate Misread(b: seq<byte>, table: Table, s: Text, n: nat) {
    var c := b + EncName(table, |b|, s).chunk;
    var w := Walk(c, |b|, n);
    !(w.Settled? && Join(w.labels) == Lower(s) && w.next == |c|)
  }

  /** Written where nothing shorter was saved, a name with a bad label never reads back. */
  lemma {:induction false} BadNameMisreads(b: seq<byte>, table: Table, s: Text, n: nat)
    requires !GoodName(s) && forall k | k in table :: |k| > |s|
    ensures Misread(b, table, s, n)
    decreases |s|
  {
    hide EncName, FirstDot, LabelBytes, Labels, GoodName, LowerAll, Misread;
    var i := FirstDot(s);
    BadSplit(s);
    if i == 0 || i > 63 {
      BadLabelMisreads(b, table, s, n);
    } else {
      var l, s1 := s[..i], s[i + 1..];
      var b1 := b + LabelBytes(l);
      EncNameInner(table, |b|, s, l, s1);
      BadNameMisreads(b1, table[s := |b|], s1, if n > 0 then n - 1 else 0);
      GoodLabelPassesOn(b, b1, table, s, n);
    }
  }

  lemma GoodLabelPassesOn(b: seq<byte>, b1: seq<byte>, table: Table, s: Text, n: nat)
    requires var i := FirstDot(s);
      && s !in table && 1 <= i <= 63 && i < |s| && b1 == b + LabelBytes(s[..i])
      && Misread(b1, table[s := |b|], s[i + 1..], if n > 0 then n - 1 else 0)
    ensures Misread(b, table, s, n)
  {
    hide EncName, FirstDot, LabelBytes, Labels, LowerAll, Lower, Join, Walk;
    var i := FirstDot(s);
    var l, s1 := s[..i], s[i + 1..];
    var rest := EncName(table[s := |b|], |b1|, s1).chunk;
    EncNameInner(table, |b|, s, l, s1);
    assert b + (LabelBytes(l) + rest) == b1 + rest;
    LabelStands(b, l, rest);
    if n == 0 {
      NoSteps(b + EncName(table, |b|, s).chunk, |b|);
    } else {
      WalkLabel(b1 + rest, |b|, n, l);
      var w := Walk(b1 + rest, |b1|, n - 1);
      if w.Settled? && Join([Lower(l)] + w.labels) == Lower(s) {
        RestComesOut(s, w.labels);
      }
    }
  }

  lemma NoSteps(c: seq<byte>, at: nat)
    ensures Walk(c, at, 0).Endless?
  {
  }

  /** Into an empty buffer any name reads back, and is consumed entirely, exactly when its labels
      have 1 to 63 bytes each. */
  lemma FreshNameReadsBack(s: Text)
    ensures var b := EncName(map[], 0, s).chunk;
      ReadName(b, 0) == Done(Lower(s), |b|) <==> GoodName(s)
  {
    hide ReadName, EncName, GoodName, Lower, Misread, NameInReach, TableOk;
    var b := EncName(map[], 0, s).chunk;
    assert [] + b == b && b + [] == b;
    if GoodName(s) {
      FreshInReach(map[], 0, s);
      EmptyTable();
      NameRoundTrip([], map[], s, []);
    } else {
      BadNameMisreads([], map[], s, |b| + 1);
      MisreadMeans(s);
    }
  }

  lemma MisreadMeans(s: Text)
    requires Misread([], map[], s, |EncName(map[], 0, s).chunk| + 1)
    ensures var b := EncName(map[], 0, s).chunk; ReadName(b, 0) != Done(Lower(s), |b|)
  {
    hide EncName, Walk, Lower, Join;
    var b := EncName(map[], 0, s).chunk;
    assert [] + b == b;
  }

  /** A label of 64 bytes is the shortest that is too long: its length reads as a pointer. */
  lemma LongLabelIsAPointer(s: Text)
    requires |s| == 64 && FirstDot(s) == 64
    ensures EncName(map[], 0, s).chunk[0] == 64 && ReadName(EncName(map[], 0, s).chunk, 0) != Done(Lower(s), 66)
  {
    FreshNameReadsBack(s);
    FirstByte(map[], 0, s);
    EncNameLast(map[], 0, s);
    assert Labels(s)[0] == s;
  }

  /** An empty label is written as a zero byte, which the reader takes for the end of the name. */
  lemma {:induction false} EmptyLabelStops(b: seq<byte>, table: Table, s: Text, start: nat)
    requires start <= |b| && (forall k | k in table :: |k| > |s|)
    requires (forall l | l in Labels(s) :: |l| <= 63) && !GoodName(s)
    ensures var c := b + EncName(table, |b|, s).chunk;
      ReadBackward(c, start, |b|).Backward? && ReadBackward(c, start, |b|).next < |c|
    decreases |s|
  {
    hide ReadBackward, LowerAll, EncName, LabelBytes, Labels, FirstDot, GoodName;
    var i := FirstDot(s);
    var l := s[..i];
    BadSplit(s);
    LabelsOf(s);
    if i == 0 {
      EmptyFirstLabel(table, |b|, s);
      ZeroByteStops(b + EncName(table, |b|, s).chunk, start, |b|);
    } else {
      var s1 := s[i + 1..];
      var b1 := b + LabelBytes(l);
      EncNameInner(table, |b|, s, l, s1);
      EmptyLabelStops(b1, table[s := |b|], s1, start);
      LabelThenStop(b, b1, l, EncName(table, |b|, s).chunk, EncName(table[s := |b|], |b1|, s1).chunk, start);
    }
  }

  lemma LabelsOf(s: Text)
    ensures var i := FirstDot(s);
      s[..i] in Labels(s) && (i < |s| ==> forall x | x in Labels(s[i + 1..]) :: x in Labels(s))
  {
    hide Labels, FirstDot;
    SplitLabels(s);
    assert s[..|s|] == s;
  }

  lemma EmptyFirstLabel(table: Table, at: nat, s: Text)
    requires s !in table && FirstDot(s) == 0
    ensures EncName(table, at, s).chunk[0] == 0
  {
  }

  lemma ZeroByteStops(c: seq<byte>, start: nat, at: nat)
    requires at < |c| && c[at] == 0
    ensures ReadBackward(c, start, at) == Backward([], at + 1)
  {
  }

  lemma LabelThenStop(b: seq<byte>, b1: seq<byte>, l: Text, chunk: seq<byte>, rest: seq<byte>, start: nat)
    requires start <= |b| && 1 <= |l| <= 63 && b1 == b + LabelBytes(l) && chunk == LabelBytes(l) + rest
    requires ReadBackward(b1 + rest, start, |b1|).Backward? && ReadBackward(b1 + rest, start, |b1|).next < |b1 + rest|
    ensures ReadBackward(b + chunk, start, |b|).Backward? && ReadBackward(b + chunk, start, |b|).next < |b + chunk|
  {
    hide ReadBackward, LabelBytes;
    assert b + chunk == b1 + rest;
    LabelStands(b, l, rest);
    ReadLabel(b1 + rest, start, |b|, l);
  }

  /** The root name is the smallest victim: two zero bytes, of which the reader takes one. */
  lemma RootNameLosesAByte()
    ensures EncName(map[], 0, []).chunk == [0, 0]
    ensures ReadName([0, 0], 0) == Done([], 1)
  {
    assert Walk([0, 0], 0, 3) == Settled([], 1);
  }

  // ---------------------------------------------------------------------------
  // Readers that never return
  // ---------------------------------------------------------------------------

  /** Where the reader goes from a position, if it does not stop there. */
  function Next(b: seq<byte>, at: nat): Option<nat> {
    if at >= |b| || b[at] == 0 then None
    else if b[at] >= 64 then (if at + 1 >= |b| then None else Some(Target(b[at], b[at + 1])))
    else if at + 1 + b[at] > |b| then None
    else Some(at + 1 + b[at])
  }

  /** The position the reader has come to after so many labels and jumps. */
  function Place(b: seq<byte>, at: nat, steps: nat): Option<nat>
    decreases steps
  {
    if steps == 0 then Some(at)
    else match Next(b, at)
      case None => None
      case Some(p) => Place(b, p, steps - 1)
  }

  lemma {:induction false} PlaceTwice(b: seq<byte>, at: nat, n: nat, m: nat)
    ensures Place(b, at, n + m) == match Place(b, at, n) case None => None case Some(p) => Place(b, p, m)
    decreases n
  {
    if n > 0 && Next(b, at).Some? {
      PlaceTwice(b, Next(b, at).value, n - 1, m);
    }
  }

  lemma {:induction false} EndlessHasPlace(b: seq<byte>, at: nat, n: nat)
    ensures Walk(b, at, n).Endless? <==> Place(b, at, n).Some?
    decreases n
  {
    if n > 0 && Next(b, at).Some? {
      EndlessHasPlace(b, Next(b, at).value, n - 1);
    }
  }

  lemma EarlierPlace(b: seq<byte>, at: nat, k: nat, n: nat)
    requires k <= n && Place(b, at, n).Some?
    ensures Place(b, at, k).Some? && (k < n ==> Place(b, at, k).value < |b|)
  {
    PlaceTwice(b, at, k, n - k);
  }

  lemma {:induction false} Circle(b: seq<byte>, p: nat, d: nat, rounds: nat)
    requires Place(b, p, d) == Some(p)
    ensures Place(b, p, rounds * d) == Some(p)
    decreases rounds
  {
    if rounds > 0 {
      Circle(b, p, d, rounds - 1);
      PlaceTwice(b, p, d, (rounds - 1) * d);
      assert d + (rounds - 1) * d == rounds * d;
    }
  }

  /** The reader comes twice to one position. */
  ghost predicate Revisits(b: seq<byte>, at: nat) {
    exists i: nat, j: nat | i < j :: Place(b, at, i).Some? && Place(b, at, i) == Place(b, at, j)
  }

  /** Reading a name never ends exactly when the reader comes twice to one position. */
  lemma DivergesMeansRevisits(b: seq<byte>, at: nat)
    ensures ReadName(b, at).Diverges? <==> Revisits(b, at)
  {
    hide Walk, Place;
    var n := |b| + 1;
    EndlessHasPlace(b, at, n);
    if Revisits(b, at) {
      var i: nat, j: nat :| i < j && Place(b, at, i).Some? && Place(b, at, i) == Place(b, at, j);
      ComesBack(b, at, i, j, n);
    } else if Place(b, at, n).Some? {
      forall k | 0 <= k < n
        ensures Place(b, at, k).Some? && Place(b, at, k).value < |b|
      {
        EarlierPlace(b, at, k, n);
      }
      var t := seq(n, k requires 0 <= k < n => Place(b, at, k).value);
      forall i, j | 0 <= i < j < |t|
        ensures t[i] != t[j]
      {
        assert Place(b, at, i) != Place(b, at, j);
      }
      DistinctIn(t, Below(|b|));
    }
  }

  lemma ComesBack(b: seq<byte>, at: nat, i: nat, j: nat, n: nat)
    requires i < j && Place(b, at, i).Some? && Place(b, at, i) == Place(b, at, j)
    ensures Place(b, at, n).Some?
  {
    hide Place;
    var p, d := Place(b, at, i).value, j - i;
    PlaceTwice(b, at, i, d);
    Circle(b, p, d, n);
    PlaceTwice(b, at, i, n * d);
    assert n * d >= n;
    EarlierPlace(b, at, n, i + n * d);
  }

  // ---------------------------------------------------------------------------
  // Pointers out of reach
  // ---------------------------------------------------------------------------

  /** The suffix a name ends in a pointer to, if it does. */
  function Hit(table: Table, s: Text): (k: Option<Text>)
    ensures k.Some? ==> k.value in table && |k.value| <= |s|
    decreases |s|
  {
    if s in table then Some(s)
    else
      var i := FirstDot(s);
      if i == |s| then None else Hit(table, s[i + 1..])
  }

  lemma {:induction false} HitIgnoresLonger(table: Table, s: Text, long: Text, at: nat)
    requires |long| > |s|
    ensures Hit(table[long := at], s) == Hit(table, s)
    decreases |s|
  {
    var i := FirstDot(s);
    if s !in table && i < |s| {
      HitIgnoresLonger(table, s[i + 1..], long, at);
    }
  }

  /** A name is in reach exactly when the suffix it points to, if any, was saved below 0x4000. */
  lemma {:induction false} ReachIsHit(table: Table, at: nat, s: Text)
    ensures NameInReach(table, at, s) <==> Hit(table, s).None? || table[Hit(table, s).value] < 0x4000
    decreases |s|
  {
    var i := FirstDot(s);
    if s !in table && i < |s| {
      ReachIsHit(table[s := at], at + 1 + i, s[i + 1..]);
      HitIgnoresLonger(table, s[i + 1..], s, at);
    }
  }

  /** What the reader makes of the bytes from a position. */
  function Whole(c: seq<byte>, at: nat): Walked {
    Walk(c, at, |c| + 1)
  }

  /** Reading goes on with what stands where it goes next. */
  lemma ReadsOn(c: seq<byte>, at: nat)
    requires Next(c, at).Some?
    ensures Whole(c, at) == match Whole(c, Next(c, at).value)
      case Settled(ls, n) =>
        if c[at] >= 64 then Settled(ls, at + 2) else Settled([Lower(c[at + 1..at + 1 + c[at]])] + ls, n)
      case other => other
  {
    var next := Next(c, at).value;
    if !Walk(c, next, |c|).Endless? {
      MoreSteps(c, next, |c|, |c| + 1);
    } else if !Walk(c, next, |c| + 1).Endless? {
      SettlesEarly(c, at, |c| + 2);
    }
  }

  /** The bytes from a position read as a name that ends there. */
  ghost predicate ReadsAs(c: seq<byte>, at: nat, s: Text, end: nat) {
    var w := Whole(c, at);
    w.Settled? && Join(w.labels) == Lower(s) && w.next == end
  }

  ghost predicate Spells(c: seq<byte>, at: nat, s: Text) {
    var w := Whole(c, at);
    w.Settled? && Join(w.labels) == Lower(s)
  }

  lemma TargetOf(prev: nat)
    ensures PointerBytes(prev)[0] >= 192 && Target(PointerBytes(prev)[0], PointerBytes(prev)[1]) == prev % 0x4000
  {
    var v := 0xC000 + prev % 0x4000;
    assert v / 256 >= 192;
    assert (v / 256 - 192) * 256 + v % 256 == prev % 0x4000;
  }

  /** A pointer reads as what stands where its fourteen bits lead. */
  lemma PointerReads(b: seq<byte>, prev: nat, s: Text, more: seq<byte>)
    ensures var c := b + PointerBytes(prev) + more;
      ReadsAs(c, |b|, s, |b| + 2) <==> Spells(c, prev % 0x4000, s)
  {
    hide Walk, Lower, Join;
    var c := b + PointerBytes(prev) + more;
    TargetOf(prev);
    assert c[|b|] == PointerBytes(prev)[0] && c[|b| + 1] == PointerBytes(prev)[1];
    hide PointerBytes, Target;
    ReadsOn(c, |b|);
  }

  /** The last label, and its terminator. */
  lemma LastReads(b: seq<byte>, l: Text, more: seq<byte>)
    requires 1 <= |l| <= 63
    ensures var c := b + LabelBytes(l) + [0] + more; ReadsAs(c, |b|, l, |b| + |l| + 2)
  {
    hide Walk, Lower;
    var c := b + LabelBytes(l) + [0] + more;
    assert c == b + LabelBytes(l) + ([0] + more);
    LabelStands(b, l, [0] + more);
    assert c[|b| + 1 + |l|] == c[|b| + 1 + |l|..][0] == 0;
    ReadsOn(c, |b|);
    ZeroReads(c, |b| + 1 + |l|);
    assert [Lower(l)] + [] == [Lower(l)];
  }

  lemma ZeroReads(c: seq<byte>, at: nat)
    requires at < |c| && c[at] == 0
    ensures Whole(c, at) == Settled([], at + 1)
  {
  }

  lemma LabelGoesOn(c: seq<byte>, at: nat, len: nat)
    requires 1 <= len <= 63 && at + 1 + len <= |c| && c[at] == len
    ensures Next(c, at) == Some(at + 1 + len)
  {
  }

  lemma InnerWhole(b: seq<byte>, l: Text, rest: seq<byte>)
    requires 1 <= |l| <= 63
    ensures var c := b + LabelBytes(l) + rest;
      Whole(c, |b|) == match Whole(c, |b| + 1 + |l|)
        case Settled(ls, n) => Settled([Lower(l)] + ls, n)
        case other => other
  {
    hide Whole, Lower, LabelBytes, Next;
    var c := b + LabelBytes(l) + rest;
    LabelStands(b, l, rest);
    LabelGoesOn(c, |b|, |l|);
    ReadsOn(c, |b|);
  }

  /** A label reads right with a rest exactly when the rest does. */
  lemma InnerReads(b: seq<byte>, s: Text, rest: seq<byte>, end: nat)
    requires var i := FirstDot(s); 1 <= i <= 63 && i + 1 < |s|
    ensures var i := FirstDot(s); var c := b + LabelBytes(s[..i]) + rest;
      ReadsAs(c, |b|, s, end) <==> ReadsAs(c, |b| + 1 + i, s[i + 1..], end)
  {
    hide Whole, Lower, Join, FirstDot, LabelBytes;
    var i := FirstDot(s);
    var l, s1 := s[..i], s[i + 1..];
    var c := b + LabelBytes(l) + rest;
    InnerWhole(b, l, rest);
    var w := Whole(c, |b| + 1 + i);
    if w.Settled? {
      FirstAndRest(s, w.labels);
    }
  }

  lemma FirstAndRest(s: Text, rest: seq<Text>)
    requires FirstDot(s) + 1 < |s|
    ensures Join([Lower(s[..FirstDot(s)])] + rest) == Lower(s) <==> Join(rest) == Lower(s[FirstDot(s) + 1..])
  {
    hide FirstDot, Join;
    var i := FirstDot(s);
    var l, s1 := s[..i], s[i + 1..];
    if Join([Lower(l)] + rest) == Lower(s) {
      RestComesOut(s, rest);
    }
    if Join(rest) == Lower(s1) {
      JoinNothing();
      JoinFirst(Lower(l), rest);
      assert s == l + [DOT] + s1;
      LowerConcat(l + [DOT], s1);
      LowerConcat(l, [DOT]);
      assert Lower([DOT]) == [DOT];
    }
  }

  lemma JoinNothing()
    ensures Join([]) == []
  {
  }

  /** In a buffer of any size and with any table, a name that is written reads back exactly when it
      ends in no pointer, or the fourteen bits of its pointer lead to where its suffix is spelt. */
  lemma {:induction false} NameReadsExactly(b: seq<byte>, table: Table, s: Text, more: seq<byte>)
    requires GoodName(s)
    ensures var e := EncName(table, |b|, s).chunk; var c := b + e + more;
      ReadsAs(c, |b|, s, |b| + |e|) <==>
        Hit(table, s).None? || Spells(c, table[Hit(table, s).value] % 0x4000, Hit(table, s).value)
    decreases |s|
  {
    hide EncName, Walk, Join, Lower, Labels, FirstDot, GoodName, LowerAll, LabelBytes, PointerBytes,
      ReadsAs, Spells, Hit;
    var i := FirstDot(s);
    var e := EncName(table, |b|, s).chunk;
    FirstLabel(s);
    if s in table {
      HitEnds(table, s);
      EncNameHits(table, |b|, s);
      PointerReads(b, table[s], s, more);
    } else if i == |s| {
      HitEnds(table, s);
      EncNameLast(table, |b|, s);
      LastReads(b, s, more);
      assert b + (LabelBytes(s) + [0]) + more == b + LabelBytes(s) + [0] + more;
    } else {
      var l, s1 := s[..i], s[i + 1..];
      var b1 := b + LabelBytes(l);
      var rest := EncName(table[s := |b|], |b1|, s1).chunk;
      GoodNotEmpty(s1);
      HitRest(table, s, s1);
      EncNameInner(table, |b|, s, l, s1);
      NameReadsExactly(b1, table[s := |b|], s1, more);
      HitIgnoresLonger(table, s1, s, |b|);
      assert b + (LabelBytes(l) + rest) + more == b + LabelBytes(l) + (rest + more) == b1 + rest + more;
      InnerReads(b, s, rest + more, |b| + |e|);
    }
  }

  lemma GoodNotEmpty(s: Text)
    requires GoodName(s)
    ensures s != []
  {
    FirstLabel(s);
  }

  lemma EncNameHits(table: Table, at: nat, s: Text)
    requires s in table
    ensures EncName(table, at, s).chunk == PointerBytes(table[s])
  {
  }

  lemma HitEnds(table: Table, s: Text)
    requires s in table || FirstDot(s) == |s|
    ensures Hit(table, s) == if s in table then Some(s) else None
  {
    hide FirstDot;
  }

  lemma HitRest(table: Table, s: Text, s1: Text)
    requires s !in table && FirstDot(s) < |s| && s1 == s[FirstDot(s) + 1..]
    ensures Hit(table, s) == Hit(table, s1)
  {
    hide FirstDot;
  }

  /** The same, of `read_qname` itself. */
  lemma NameReadsBackExactly(b: seq<byte>, table: Table, s: Text, more: seq<byte>)
    requires GoodName(s)
    ensures var e := EncName(table, |b|, s).chunk; var c := b + e + more; var k := Hit(table, s);
      ReadName(c, |b|) == Done(Lower(s), |b| + |e|) <==>
        k.None? ||
        var r := ReadName(c, table[k.value] % 0x4000); r.Done? && r.value == Lower(k.value)
  {
    hide EncName, Walk, Join, Lower, GoodName, Hit;
    NameReadsExactly(b, table, s, more);
  }

  /** Plain bytes, and one name written twice: the second time as a pointer to 0x4000, of which only
      zero bits are left. It reads as the empty name at the start. */
  function FarPieces(): Pieces {
    Raw(seq(0x4000, _ => 0), Dom([0x61], Dom([0x61], End)))
  }

  lemma FarBytes()
    ensures var c := Encode(map[], 0, FarPieces()).chunk;
      |c| == 0x4005 && c[0] == 0 && c[0x4003] == 0xC0 && c[0x4004] == 0
    ensures GoodNames(FarPieces()) && !InReach(map[], 0, FarPieces())
  {
    hide LabelBytes, PointerBytes;
    var zeros: seq<byte>, a: Text := seq(0x4000, _ => 0), [0x61];
    var t: Table := map[a := 0x4000];
    FarChunks();
    assert Labels(a) == [a];
    hide EncName;
    var p2 := Dom(a, End);
    assert Encode(t, 0x4003, p2) == Enc([0xC0, 0] + [], t);
    var p1 := Dom(a, p2);
    assert Encode(map[], 0x4000, p1) == Enc([1, 0x61, 0] + ([0xC0, 0] + []), t);
    assert Encode(map[], 0, FarPieces()).chunk == zeros + [1, 0x61, 0, 0xC0, 0];
  }

  lemma FarChunks()
    ensures var a: Text := [0x61]; var t: Table := map[a := 0x4000];
      EncName(map[], 0x4000, a) == Enc([1, 0x61, 0], t) && EncName(t, 0x4003, a) == Enc([0xC0, 0], t)
  {
    var a: Text := [0x61];
    assert LabelBytes(a) + [0] == [1, 0x61, 0];
    assert PointerBytes(0x4000) == [0xC0, 0];
  }

  lemma FarNameMisreads()
    ensures GoodNames(FarPieces()) && !InReach(map[], 0, FarPieces())
    ensures var c := Encode(map[], 0, FarPieces()).chunk; ReadName(c, 0x4003) == Done([], 0x4005)
  {
    hide Walk, Encode, InReach, GoodNames;
    FarBytes();
    var c := Encode(map[], 0, FarPieces()).chunk;
    assert Target(0xC0, 0) == 0;
    ReadsOn(c, 0x4003);
    ZeroReads(c, 0);
    JoinNothing();
  }
}
