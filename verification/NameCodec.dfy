/** Name compression (section 4.1.4 of RFC 1035): the meaning of bytes read as a name, and the
    bytes `write_qname` appends. */
module NameCodec {
  import opened Data
  import opened Names

  // ---------------------------------------------------------------------------
  // Reading
  // ---------------------------------------------------------------------------

  /** Where the two bytes of a compression pointer lead: `((len ^ 0xC0) << 8) | b2`.
      The reader jumps when either of the two top bits is set. */
  function Target(hi: byte, lo: byte): nat
    requires hi >= 64
  {
    (if hi >= 192 then hi - 192 else if hi >= 128 then hi - 64 else hi + 64) * 256 + lo as int
  }

  datatype Walked = Settled(labels: seq<Text>, next: nat) | OutOfBounds | Endless

  /** What the reader does from position `at` within `steps` labels and jumps. `next` is the
      position it leaves behind: after the terminator, or after the first pointer followed. */
  function Walk(b: seq<byte>, at: nat, steps: nat): Walked
    decreases steps
  {
    if steps == 0 then Endless
    else if at >= |b| then OutOfBounds
    else if b[at] >= 64 then
      if at + 1 >= |b| then OutOfBounds
      else match Walk(b, Target(b[at], b[at + 1]), steps - 1)
        case Settled(ls, _) => Settled(ls, at + 2)
        case other => other
    else if b[at] == 0 then Settled([], at + 1)
    else if at + 1 + b[at] > |b| then OutOfBounds
    else match Walk(b, at + 1 + b[at], steps - 1)
      case Settled(ls, n) => Settled([Lower(b[at + 1..at + 1 + b[at]])] + ls, n)
      case other => other
  }

  /** Result of parsing something at a position: a value and the position after it, running off
      the end of the bytes, or a name whose pointers never settle. */
  datatype Parse<+T> = Done(value: T, next: nat) | Fault | Diverges {
    predicate IsFailure() {
      !Done?
    }

    function PropagateFailure<U>(): Parse<U>
      requires IsFailure()
    {
      if Fault? then Fault else Diverges
    }

    function Extract(): (T, nat)
      requires !IsFailure()
    {
      (value, next)
    }
  }

  function NameOf(w: Walked): Parse<Text> {
    match w
    case Settled(ls, n) => Done(Join(ls), n)
    case OutOfBounds => Fault
    case Endless => Diverges
  }

  /** `read_qname` on arbitrary bytes. SettlesEarly justifies the bound on the number of steps. */
  function ReadName(b: seq<byte>, at: nat): Parse<Text> {
    NameOf(Walk(b, at, |b| + 1))
  }

  lemma {:induction false} MoreSteps(b: seq<byte>, at: nat, n: nat, m: nat)
    requires n <= m && !Walk(b, at, n).Endless?
    ensures Walk(b, at, m) == Walk(b, at, n)
    decreases n
  {
    if at < |b| {
      if b[at] >= 64 {
        if at + 1 < |b| {
          MoreSteps(b, Target(b[at], b[at + 1]), n - 1, m - 1);
        }
      } else if b[at] != 0 && at + 1 + b[at] <= |b| {
        MoreSteps(b, at + 1 + b[at], n - 1, m - 1);
      }
    }
  }

  /** A walk from `at` settles in exactly `n` steps and no fewer. */
  ghost predicate Exactly(b: seq<byte>, at: nat, n: nat)
  {
    n > 0 && !Walk(b, at, n).Endless? && Walk(b, at, n - 1).Endless?
  }

  /** The positions such a walk passes through before its last step. */
  ghost function Trail(b: seq<byte>, at: nat, n: nat): (t: seq<nat>)
    requires Exactly(b, at, n)
    ensures |t| == n - 1
    ensures forall i | 0 <= i < n - 1 :: t[i] < |b| && Exactly(b, t[i], n - i)
    decreases n
  {
    if n == 1 then []
    else
      var next := if b[at] >= 64 then Target(b[at], b[at + 1]) else at + 1 + b[at];
      var rest := Trail(b, next, n - 1);
      assert forall i | 1 <= i < n - 1 :: ([at] + rest)[i] == rest[i - 1];
      [at] + rest
  }

  ghost function Below(bound: nat): (r: set<int>)
    ensures |r| == bound
    ensures forall k :: k in r <==> 0 <= k < bound
  {
    if bound == 0 then {} else Below(bound - 1) + {bound - 1}
  }

  lemma {:induction false} DistinctIn(t: seq<nat>, all: set<int>)
    requires forall i, j | 0 <= i < j < |t| :: t[i] != t[j]
    requires forall i | 0 <= i < |t| :: t[i] in all
    ensures |t| <= |all|
  {
    if t != [] {
      DistinctIn(t[1..], all - {t[0]});
    }
  }

  /** If the reader settles at all, it settles within |b| + 1 steps: a walk that passes through the
      same position twice never ends. So ReadName says Diverges exactly when `read_qname` loops. */
  lemma SettlesEarly(b: seq<byte>, at: nat, n: nat)
    requires !Walk(b, at, n).Endless?
    ensures Walk(b, at, |b| + 1) == Walk(b, at, n)
  {
    var k := n;
    while Walk(b, at, k - 1) != Endless
      invariant 0 < k <= n && Walk(b, at, k) == Walk(b, at, n)
      decreases k
    {
      MoreSteps(b, at, k - 1, k);
      k := k - 1;
    }
    var t := Trail(b, at, k);
    forall i, j | 0 <= i < j < |t|
      ensures t[i] != t[j]
    {
      if t[i] == t[j] {
        MoreSteps(b, t[i], k - j, k - i - 1);
      }
    }
    DistinctIn(t, Below(|b|));
    MoreSteps(b, at, k, |b| + 1);
  }

  /** The two faces of divergence: no number of steps settles, or one of them does. */
  lemma DivergesMeansEndless(b: seq<byte>, at: nat)
    ensures ReadName(b, at).Diverges? <==> forall n: nat :: Walk(b, at, n).Endless?
  {
    if ReadName(b, at).Diverges? {
      forall n: nat
        ensures Walk(b, at, n).Endless?
      {
        if !Walk(b, at, n).Endless? {
          SettlesEarly(b, at, n);
        }
      }
    } else {
      assert !Walk(b, at, |b| + 1).Endless?;
    }
  }

  /** Two bytes are enough to make the reader loop: a pointer to itself. */
  lemma SelfPointerDiverges()
    ensures ReadName([0xC0, 0], 0).Diverges?
  {
    var b: seq<byte> := [0xC0, 0];
    assert Target(b[0], b[1]) == 0;
    assert Walk(b, 0, 1) == Endless;
    assert Walk(b, 0, 2) == Endless;
    assert Walk(b, 0, 3) == Endless;
  }

  // ---------------------------------------------------------------------------
  // Names whose pointers go strictly backwards
  // ---------------------------------------------------------------------------

  datatype Strict = Backward(labels: seq<Text>, next: nat) | NotBackward

  /** A reader that follows a pointer only to a position below the start of the run of labels it
      is in. It needs no bound on its steps: (start, bytes left) decreases at every step. */
  function ReadBackward(b: seq<byte>, start: nat, at: nat): Strict
    decreases start, |b| - at
  {
    if at >= |b| then NotBackward
    else if b[at] >= 64 then
      if at + 1 >= |b| then NotBackward
      else
        var target := Target(b[at], b[at + 1]);
        if target >= start then NotBackward
        else match ReadBackward(b, target, target)
          case Backward(ls, _) => Backward(ls, at + 2)
          case NotBackward => NotBackward
    else if b[at] == 0 then Backward([], at + 1)
    else if at + 1 + b[at] > |b| then NotBackward
    else match ReadBackward(b, start, at + 1 + b[at])
      case Backward(ls, n) => Backward([Lower(b[at + 1..at + 1 + b[at]])] + ls, n)
      case NotBackward => NotBackward
  }

  lemma {:induction false} BackwardSteps(b: seq<byte>, start: nat, at: nat) returns (n: nat)
    requires ReadBackward(b, start, at).Backward?
    ensures Walk(b, at, n) == Settled(ReadBackward(b, start, at).labels, ReadBackward(b, start, at).next)
    decreases start, |b| - at
  {
    if b[at] >= 64 {
      var target := Target(b[at], b[at + 1]);
      n := BackwardSteps(b, target, target);
      n := n + 1;
    } else if b[at] == 0 {
      n := 1;
    } else {
      n := BackwardSteps(b, start, at + 1 + b[at]);
      n := n + 1;
    }
  }

  /** Wherever pointers go backwards the program's reader terminates, with the same answer. */
  lemma BackwardSettles(b: seq<byte>, start: nat, at: nat)
    requires ReadBackward(b, start, at).Backward?
    ensures ReadName(b, at) == Done(Join(ReadBackward(b, start, at).labels), ReadBackward(b, start, at).next)
  {
    var n := BackwardSteps(b, start, at);
    SettlesEarly(b, at, n);
  }

  /** Appending bytes, and allowing later targets, changes nothing that already reads. */
  lemma {:induction false} BackwardStable(b: seq<byte>, more: seq<byte>, start: nat, start': nat, at: nat)
    requires start <= start'
    requires ReadBackward(b, start, at).Backward?
    ensures ReadBackward(b + more, start', at) == ReadBackward(b, start, at)
    decreases start, |b| - at
  {
    var c := b + more;
    assert c[at] == b[at];
    if b[at] >= 64 {
      assert c[at + 1] == b[at + 1];
      var target := Target(b[at], b[at + 1]);
      BackwardStable(b, more, target, target, target);
    } else if b[at] != 0 {
      BackwardStable(b, more, start, start', at + 1 + b[at]);
      assert c[at + 1..at + 1 + b[at]] == b[at + 1..at + 1 + b[at]];
    }
  }

  // ---------------------------------------------------------------------------
  // Writing
  // ---------------------------------------------------------------------------

  /** `label_lookup`: name suffixes already written, and where. */
  type Table = map<Text, nat>

  datatype Enc = Enc(chunk: seq<byte>, table: Table)

  /** `(prev_pos as u16) | 0xC000`: only fourteen bits of the position survive. */
  function PointerBytes(prev: nat): (r: seq<byte>)
    ensures |r| == 2
  {
    U16Bytes(0xC000 + prev % 0x4000)
  }

  /** A pointer leads back to the saved position exactly when that position fits in fourteen bits. */
  lemma PointerTarget(prev: nat)
    ensures PointerBytes(prev)[0] >= 192
    ensures Target(PointerBytes(prev)[0], PointerBytes(prev)[1]) == prev <==> prev < 0x4000
  {
    var v := 0xC000 + prev % 0x4000;
    assert v / 256 >= 192;
    assert (v / 256 - 192) * 256 + v % 256 == prev % 0x4000;
  }

  /** A label on the wire: its length in one byte (`label.len() as u8`), then its bytes. */
  function LabelBytes(l: Text): (r: seq<byte>)
    ensures |r| == 1 + |l|
  {
    [|l| % 256] + l
  }

  /** The bytes `write_qname` appends when the buffer holds `at` bytes, and the lookup table it
      leaves: label after label, until a suffix is found in the table or the name ends. */
  function EncName(table: Table, at: nat, s: Text): (e: Enc)
    ensures |e.chunk| >= 2
    decreases |s|
  {
    if s in table then Enc(PointerBytes(table[s]), table)
    else
      var i := FirstDot(s);
      var l := LabelBytes(s[..i]);
      var table' := table[s := at];
      if i == |s| then Enc(l + [0], table')
      else
        var rest := EncName(table', at + |l|, s[i + 1..]);
        Enc(l + rest.chunk, rest.table)
  }

  /** The suffix the name ends in a pointer to, if it does, was saved where a pointer can lead. */
  predicate NameInReach(table: Table, at: nat, s: Text)
    decreases |s|
  {
    if s in table then table[s] < 0x4000
    else
      var i := FirstDot(s);
      i == |s| || NameInReach(table[s := at], at + 1 + i, s[i + 1..])
  }

  /** A table entry that reads back as its key, through pointers that go strictly backwards. */
  ghost predicate Entry(b: seq<byte>, key: Text, at: nat)
  {
    && ReadBackward(b, at, at).Backward?
    && ReadBackward(b, at, at).labels == LowerAll(Labels(key))
  }

  /** The heap-style invariant of the writer: every saved suffix can be read where it was saved. */
  ghost predicate TableOk(b: seq<byte>, table: Table)
  {
    forall k | k in table :: table[k] < |b| && Entry(b, k, table[k])
  }

  lemma EmptyTable()
    ensures TableOk([], map[])
  {
  }

  lemma EntryStable(b: seq<byte>, more: seq<byte>, key: Text, at: nat)
    requires Entry(b, key, at)
    ensures Entry(b + more, key, at)
  {
    BackwardStable(b, more, at, at, at);
  }

  lemma TableStable(b: seq<byte>, more: seq<byte>, table: Table)
    requires TableOk(b, table)
    ensures TableOk(b + more, table)
  {
    forall k | k in table
      ensures table[k] < |b + more| && Entry(b + more, k, table[k])
    {
      EntryStable(b, more, k, table[k]);
    }
  }

  /** From `table` to `table'` entries only get added, all at `lo` or later, and they read back. */
  ghost predicate Grown(b: seq<byte>, table: Table, table': Table, lo: nat)
  {
    && (forall k | k in table :: k in table' && table'[k] == table[k])
    && (forall k | k in table' && k !in table :: lo <= table'[k] < |b| && Entry(b, k, table'[k]))
  }

  lemma GrownStep(b: seq<byte>, table: Table, table': Table, s: Text, at: nat, lo: nat)
    requires s !in table && at < |b| && at <= lo && Entry(b, s, at)
    requires Grown(b, table[s := at], table', lo)
    ensures Grown(b, table, table', at)
  {
    assert s in table[s := at];
    forall k | k in table' && k !in table
      ensures at <= table'[k] < |b| && Entry(b, k, table'[k])
    {
      if k != s {
        assert k !in table[s := at];
      }
    }
    forall k | k in table
      ensures k in table' && table'[k] == table[k]
    {
      assert k in table[s := at];
    }
  }

  /** What writing the suffix `s` at the end of `b` achieves, in a run of labels begun at `start`:
      the suffix reads back from there, old entries stay, and new ones read back too. */
  ghost predicate Written(b: seq<byte>, table: Table, s: Text, start: nat)
    requires start <= |b|
  {
    var e := EncName(table, |b|, s);
    && ReadBackward(b + e.chunk, start, |b|) == Backward(LowerAll(Labels(s)), |b| + |e.chunk|)
    && Grown(b + e.chunk, table, e.table, |b|)
  }

  lemma ReadLabel(c: seq<byte>, start: nat, at: nat, l: Text)
    requires 1 <= |l| <= 63 && at + 1 + |l| <= |c|
    requires c[at] == |l| && c[at + 1..at + 1 + |l|] == l
    ensures ReadBackward(c, start, at) == match ReadBackward(c, start, at + 1 + |l|)
      case Backward(ls, n) => Backward([Lower(l)] + ls, n)
      case NotBackward => NotBackward
  {
  }

  lemma PointerWritten(b: seq<byte>, table: Table, s: Text, start: nat)
    requires start <= |b| && s in table && table[s] < start && Entry(b, s, table[s])
    requires NameInReach(table, |b|, s)
    ensures Written(b, table, s, start)
  {
    var p := PointerBytes(table[s]);
    var c := b + p;
    PointerTarget(table[s]);
    assert c[|b|] == p[0] && c[|b| + 1] == p[1];
    BackwardStable(b, p, table[s], table[s], table[s]);
  }

  /** One label, as it stands in the buffer: the length byte and then the label itself. */
  lemma LabelStands(b: seq<byte>, l: Text, rest: seq<byte>)
    requires 1 <= |l| <= 63
    ensures var c := b + LabelBytes(l) + rest;
      && c[|b|] == |l|
      && c[|b| + 1..|b| + 1 + |l|] == l
      && c[|b| + 1 + |l|..] == rest
  {
  }

  lemma LastLabelReads(b: seq<byte>, l: Text, start: nat)
    requires start <= |b| && 1 <= |l| <= 63
    ensures var c := b + LabelBytes(l) + [0];
      ReadBackward(c, start, |b|) == Backward([Lower(l)], |c|)
  {
    var c := b + LabelBytes(l) + [0];
    LabelStands(b, l, [0]);
    assert ReadBackward(c, start, |b| + 1 + |l|) == Backward([], |c|) by {
      assert c[|b| + 1 + |l|] == c[|b| + 1 + |l|..][0] == 0;
    }
    ReadLabel(c, start, |b|, l);
  }

  lemma InnerLabelReads(b: seq<byte>, b1: seq<byte>, l: Text, rest: seq<byte>, start: nat, tail: seq<Text>)
    requires start <= |b| && 1 <= |l| <= 63 && b1 == b + LabelBytes(l)
    requires ReadBackward(b1 + rest, start, |b1|) == Backward(tail, |b1 + rest|)
    ensures ReadBackward(b1 + rest, start, |b|) == Backward([Lower(l)] + tail, |b1 + rest|)
  {
    LabelStands(b, l, rest);
    ReadLabel(b1 + rest, start, |b|, l);
  }

  /** A suffix that reads back from where it was written makes its own table entry good. */
  lemma OwnEntry(c: seq<byte>, s: Text, start: nat, at: nat)
    requires start <= at
    requires ReadBackward(c, start, at) == Backward(LowerAll(Labels(s)), |c|)
    ensures Entry(c, s, at)
  {
    BackwardStable(c, [], start, at, at);
    assert c + [] == c;
  }

  lemma EncNameLast(table: Table, at: nat, s: Text)
    requires s !in table && FirstDot(s) == |s|
    ensures EncName(table, at, s) == Enc(LabelBytes(s) + [0], table[s := at])
  {
    assert s[..|s|] == s;
  }

  lemma LastLabelWritten(b: seq<byte>, table: Table, s: Text, start: nat)
    requires start <= |b| && s !in table
    requires Labels(s) == [s] && FirstDot(s) == |s| && 1 <= |s| <= 63
    ensures Written(b, table, s, start)
  {
    hide ReadBackward, EncName, Labels, FirstDot, LabelBytes, Entry;
    var c := b + LabelBytes(s) + [0];
    EncNameLast(table, |b|, s);
    assert b + (LabelBytes(s) + [0]) == c;
    assert LowerAll([s]) == [Lower(s)];
    LastLabelReads(b, s, start);
    OwnEntry(c, s, start, |b|);
    GrownStep(c, table, table[s := |b|], s, |b|, |b|);
  }

  lemma EncNameInner(table: Table, at: nat, s: Text, l: Text, s1: Text)
    requires s !in table && FirstDot(s) == |l| < |s| && s[..|l|] == l && s[|l| + 1..] == s1
    ensures var rest := EncName(table[s := at], at + |LabelBytes(l)|, s1);
      EncName(table, at, s) == Enc(LabelBytes(l) + rest.chunk, rest.table)
    ensures LowerAll(Labels(s)) == [Lower(l)] + LowerAll(Labels(s1))
  {
    assert Labels(s)[0] == l && Labels(s)[1..] == Labels(s1);
  }

  lemma InnerLabelWritten(b: seq<byte>, b1: seq<byte>, table: Table, s: Text, l: Text, s1: Text, start: nat)
    requires start <= |b| && s !in table && 1 <= |l| <= 63 && b1 == b + LabelBytes(l)
    requires var rest := EncName(table[s := |b|], |b1|, s1);
      EncName(table, |b|, s) == Enc(LabelBytes(l) + rest.chunk, rest.table)
    requires LowerAll(Labels(s)) == [Lower(l)] + LowerAll(Labels(s1))
    requires Written(b1, table[s := |b|], s1, start)
    ensures Written(b, table, s, start)
  {
    hide ReadBackward, EncName, LowerAll, Labels, Entry;
    var rest := EncName(table[s := |b|], |b1|, s1);
    var c := b1 + rest.chunk;
    InnerLabelReads(b, b1, l, rest.chunk, start, LowerAll(Labels(s1)));
    assert b + (LabelBytes(l) + rest.chunk) == c;
    OwnEntry(c, s, start, |b|);
    GrownStep(c, table, rest.table, s, |b|, |b1|);
  }

  /** The entries a suffix of at most `len` bytes can hit lie below `start` and read back. */
  ghost predicate Hittable(b: seq<byte>, table: Table, len: nat, start: nat)
  {
    forall k | k in table && |k| <= len :: table[k] < start && Entry(b, k, table[k])
  }

  lemma HittableAfter(b: seq<byte>, more: seq<byte>, table: Table, s: Text, at: nat, len: nat, start: nat)
    requires Hittable(b, table, |s|, start) && len < |s|
    ensures Hittable(b + more, table[s := at], len, start)
  {
    forall k | k in table[s := at] && |k| <= len
      ensures table[s := at][k] < start && Entry(b + more, k, table[s := at][k])
    {
      EntryStable(b, more, k, table[k]);
    }
  }

  /** The inductive core. While a name is being written the table already holds longer suffixes
      that cannot be read yet; only the keys no longer than what remains can still be hit. */
  lemma {:induction false} EncNameReads(b: seq<byte>, table: Table, s: Text, start: nat)
    requires GoodName(s) && start <= |b|
    requires NameInReach(table, |b|, s)
    requires Hittable(b, table, |s|, start)
    ensures Written(b, table, s, start)
    decreases |s|
  {
    hide ReadBackward, EncName, Labels, FirstDot, GoodName, LowerAll, LabelBytes, Written, Entry, NameInReach;
    if s in table {
      PointerWritten(b, table, s, start);
    } else {
      var i := FirstDot(s);
      var l := s[..i];
      FirstLabel(s);
      if i == |s| {
        LastLabelWritten(b, table, s, start);
      } else {
        var s1 := s[i + 1..];
        EncNameInner(table, |b|, s, l, s1);
        ReachInner(table, |b|, s);
        var b1 := b + LabelBytes(l);
        HittableAfter(b, LabelBytes(l), table, s, |b|, |s1|, start);
        EncNameReads(b1, table[s := |b|], s1, start);
        InnerLabelWritten(b, b1, table, s, l, s1, start);
      }
    }
  }

  lemma ReachInner(table: Table, at: nat, s: Text)
    requires s !in table && FirstDot(s) < |s|
    ensures var i := FirstDot(s);
      NameInReach(table, at, s) <==> NameInReach(table[s := at], at + |LabelBytes(s[..i])|, s[i + 1..])
  {
    hide FirstDot, LabelBytes;
    var i := FirstDot(s);
    assert at + |LabelBytes(s[..i])| == at + 1 + i;
  }

  lemma ReachEnds(table: Table, at: nat, s: Text)
    ensures s in table ==> (NameInReach(table, at, s) <==> table[s] < 0x4000)
    ensures s !in table && FirstDot(s) == |s| ==> NameInReach(table, at, s)
  {
  }

  /** Writing a name keeps the table readable, and the name reads back, lower-cased, from where it
      was written, whatever is appended afterwards. The reader stops just after it. */
  lemma NameRoundTrip(b: seq<byte>, table: Table, s: Text, more: seq<byte>)
    requires GoodName(s) && TableOk(b, table)
    requires NameInReach(table, |b|, s)
    ensures var e := EncName(table, |b|, s);
      && TableOk(b + e.chunk, e.table)
      && ReadName(b + e.chunk + more, |b|) == Done(Lower(s), |b| + |e.chunk|)
  {
    hide ReadBackward, EncName, Labels, LowerAll, Entry, NameInReach;
    var e := EncName(table, |b|, s);
    EncNameReads(b, table, s, |b|);
    TableStable(b, e.chunk, table);
    BackwardStable(b + e.chunk, more, |b|, |b|, |b|);
    BackwardSettles(b + e.chunk + more, |b|, |b|);
    JoinLower(Labels(s));
    JoinLabels(s);
  }

  /** Every saved position lies below a bound. */
  predicate SavedBelow(table: Table, bound: nat) {
    forall k | k in table :: table[k] < bound
  }

  /** In a buffer of no more than 0x4000 bytes every pointer is in reach. */
  lemma {:induction false} ReachWithin(table: Table, at: nat, s: Text)
    requires SavedBelow(table, at) && at + |EncName(table, at, s).chunk| <= 0x4000
    ensures NameInReach(table, at, s)
    ensures SavedBelow(EncName(table, at, s).table, at + |EncName(table, at, s).chunk|)
    decreases |s|
  {
    hide LabelBytes, Labels, LowerAll, EncName, FirstDot, NameInReach;
    var i := FirstDot(s);
    if s in table || i == |s| {
      EncNameEnds(table, at, s);
      ReachEnds(table, at, s);
    } else {
      var l := s[..i];
      EncNameInner(table, at, s, l, s[i + 1..]);
      ReachInner(table, at, s);
      ReachWithin(table[s := at], at + |LabelBytes(l)|, s[i + 1..]);
    }
  }

  // ---------------------------------------------------------------------------
  // Length, and writing the same name at two different offsets
  // ---------------------------------------------------------------------------

  /** Compression never makes a name longer than its labels, lengths and terminator. */
  lemma {:induction false} NameLength(table: Table, at: nat, s: Text)
    ensures |EncName(table, at, s).chunk| <= |s| + 2
    decreases |s|
  {
    if s !in table {
      var i := FirstDot(s);
      if i < |s| {
        var l, s1 := s[..i], s[i + 1..];
        EncNameInner(table, at, s, l, s1);
        hide EncName, FirstDot, Labels, LowerAll;
        NameLength(table[s := at], at + |LabelBytes(l)|, s1);
      }
    }
  }

  /** The tables of two buffers that hold the same names, in one of them `d` positions later. */
  ghost predicate Shifted(table: Table, table': Table, d: nat)
  {
    table'.Keys == table.Keys && forall k | k in table :: table'[k] == table[k] + d
  }

  /** Compression decides alike in both: the same lengths, and tables still `d` apart. */
  lemma {:induction false} NameShift(table: Table, table': Table, at: nat, at': nat, s: Text, d: nat)
    requires Shifted(table, table', d) && at' == at + d
    ensures var e, e' := EncName(table, at, s), EncName(table', at', s);
      |e'.chunk| == |e.chunk| && Shifted(e.table, e'.table, d)
    decreases |s|
  {
    hide EncName, LabelBytes, FirstDot, Labels, LowerAll, Shifted;
    ShiftedInsert(table, table', at, at', s, d);
    var i := FirstDot(s);
    if s in table || i == |s| {
      EncNameEnds(table, at, s);
      EncNameEnds(table', at', s);
    } else {
      var l, s1 := s[..i], s[i + 1..];
      EncNameInner(table, at, s, l, s1);
      EncNameInner(table', at', s, l, s1);
      NameShift(table[s := at], table'[s := at'], at + |LabelBytes(l)|, at' + |LabelBytes(l)|, s1, d);
    }
  }

  lemma EncNameEnds(table: Table, at: nat, s: Text)
    requires s in table || FirstDot(s) == |s|
    ensures var e := EncName(table, at, s);
      if s in table then |e.chunk| == 2 && e.table == table
      else |e.chunk| == |s| + 2 && e.table == table[s := at]
  {
  }

  lemma ShiftedInsert(table: Table, table': Table, at: nat, at': nat, s: Text, d: nat)
    requires Shifted(table, table', d) && at' == at + d
    ensures s in table <==> s in table'
    ensures Shifted(table[s := at], table'[s := at'], d)
  {
  }
}
