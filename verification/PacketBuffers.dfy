/** The packet buffers. One class stands for both implementations: VectorPacketBuffer is the case
    where nothing is left in the stream, StreamPacketBuffer the one where bytes are pulled out of a
    stream on demand. The reading methods are the trait's default methods over `Read`, `Get`,
    `GetRange`, `Seek` and `Step`. */
module PacketBuffers {
  import opened Data
  import opened Names
  import opened NameCodec
  import opened Layout

  /** Integers read at a position, or a fault if the bytes end first. */
  function ReadU8(b: seq<byte>, at: nat): Parse<byte> {
    if at < |b| then Done(b[at], at + 1) else Fault
  }

  function ReadU16(b: seq<byte>, at: nat): Parse<u16> {
    if at + 2 <= |b| then Done(U16At(b, at), at + 2) else Fault
  }

  function ReadU32(b: seq<byte>, at: nat): Parse<u32> {
    if at + 4 <= |b| then Done(U32At(b, at), at + 4) else Fault
  }

  function ReadRange(b: seq<byte>, at: nat, len: nat): Parse<seq<byte>> {
    if at + len <= |b| then Done(b[at..at + len], at + len) else Fault
  }

  /** A method's result and final position report what parsing the bytes gives. */
  ghost predicate Reports<T(!new)>(p: Parse<T>, r: Result<T>, pos: nat) {
    match p
    case Done(v, n) => r == Ok(v) && pos == n
    case Fault => r.EndOfBuffer?
    case Diverges => true
  }

  /** Part-way through a name: `labels` have been read, and `w` is what the rest of the walk gives. */
  ghost predicate Midway(whole: Walked, w: Walked, labels: seq<Text>, jumped: bool, pos: nat) {
    whole == match w
      case Settled(ls, n) => Settled(labels + ls, if jumped then pos else n)
      case other => other
  }

  lemma NameStarts(b: seq<byte>, at: nat)
    ensures Midway(Walk(b, at, |b| + 1), Walk(b, at, |b| + 1), [], false, at)
    ensures ReadName(b, at) == NameOf(Walk(b, at, |b| + 1))
    ensures Join([]) == []
  {
    var w := Walk(b, at, |b| + 1);
    if w.Settled? {
      assert [] + w.labels == w.labels;
    }
  }

  lemma JumpStep(whole: Walked, b: seq<byte>, at: nat, steps: nat, labels: seq<Text>, jumped: bool, pos: nat)
    requires Midway(whole, Walk(b, at, steps), labels, jumped, pos) && !whole.Endless?
    requires at + 1 < |b| && b[at] >= 64
    ensures steps > 0
    ensures Midway(whole, Walk(b, Target(b[at], b[at + 1]), steps - 1), labels, true, if jumped then pos else at + 2)
  {
  }

  lemma LabelStep(whole: Walked, b: seq<byte>, at: nat, steps: nat, labels: seq<Text>, jumped: bool, pos: nat)
    requires Midway(whole, Walk(b, at, steps), labels, jumped, pos) && !whole.Endless?
    requires at < |b| && 1 <= b[at] < 64 && at + 1 + b[at] <= |b|
    ensures steps > 0
    ensures var l := Lower(b[at + 1..at + 1 + b[at]]);
      Midway(whole, Walk(b, at + 1 + b[at], steps - 1), labels + [l], jumped, pos)
  {
    var l := Lower(b[at + 1..at + 1 + b[at]]);
    var w := Walk(b, at + 1 + b[at], steps - 1);
    if w.Settled? {
      Assoc(labels, [l], w.labels);
    }
  }

  lemma NameEnds(whole: Walked, b: seq<byte>, at: nat, steps: nat, labels: seq<Text>, jumped: bool, pos: nat)
    requires Midway(whole, Walk(b, at, steps), labels, jumped, pos) && !whole.Endless?
    ensures at >= |b| ==> whole.OutOfBounds?
    ensures at < |b| && b[at] >= 64 && at + 1 >= |b| ==> whole.OutOfBounds?
    ensures at < |b| && 1 <= b[at] < 64 && at + 1 + b[at] > |b| ==> whole.OutOfBounds?
    ensures at < |b| && b[at] == 0 ==> whole == Settled(labels, if jumped then pos else at + 1)
  {
    assert labels + [] == labels;
  }

  /** Part-way through writing a name: what is there and what the suffix still gives make the whole. */
  ghost predicate Remaining(whole: seq<byte>, final: Table, b: seq<byte>, table: Table, suffix: Text) {
    whole == b + EncName(table, |b|, suffix).chunk && final == EncName(table, |b|, suffix).table
  }

  lemma HitEnds(table: Table, at: nat, s: Text)
    requires s in table
    ensures EncName(table, at, s) == Enc(U16Bytes(0xC000 + table[s] % 0x4000), table)
  {
  }

  lemma LabelBytesAre(l: Text, b: seq<byte>)
    ensures b + LabelBytes(l) == b + [|l| % 256] + l
  {
  }

  lemma SuffixWritten(whole: seq<byte>, final: Table, b: seq<byte>, table: Table, suffix: Text)
    requires Remaining(whole, final, b, table, suffix) && suffix !in table
    ensures var i := FirstDot(suffix);
      var b', table' := b + LabelBytes(suffix[..i]), table[suffix := |b|];
      if i == |suffix| then
        Labels(suffix) == [suffix[..i]] && whole == b' + [0] && final == table'
      else
        Labels(suffix) == [suffix[..i]] + Labels(suffix[i + 1..])
        && Remaining(whole, final, b', table', suffix[i + 1..])
  {
    hide EncName, Labels, FirstDot, LabelBytes;
    var i := FirstDot(suffix);
    var l := suffix[..i];
    SplitLabels(suffix);
    if i < |suffix| {
      var s1 := suffix[i + 1..];
      EncNameInner(table, |b|, suffix, l, s1);
      Assoc(b, LabelBytes(l), EncName(table[suffix := |b|], |b| + |LabelBytes(l)|, s1).chunk);
    } else {
      assert l == suffix;
      EncNameLast(table, |b|, suffix);
      Assoc(b, LabelBytes(l), [0]);
    }
  }

  class PacketBuffer {
    var buffer: seq<byte>
    var pos: nat
    var labelLookup: Table
    var stream: seq<byte>

    /** VectorPacketBuffer::new() */
    constructor ()
      ensures Writable() && buffer == [] && labelLookup == map[]
    {
      buffer, pos, labelLookup, stream := [], 0, map[], [];
    }

    /** StreamPacketBuffer::new(stream) */
    constructor FromStream(source: seq<byte>)
      ensures Bytes() == source && pos == 0 && buffer == []
    {
      buffer, pos, labelLookup, stream := [], 0, map[], source;
    }

    /** Every byte a reader can reach: those already pulled in, then those still in the stream.
        Reading never changes this, so the lazy buffer is always a prefix of the whole. */
    function Bytes(): seq<byte>
      reads this
    {
      buffer + stream
    }

    /** `write` pushes at the end whatever `pos` is; writers are used with `pos` at the end.
        A stream buffer cannot be written at all. */
    ghost predicate Writable()
      reads this
    {
      stream == [] && pos == |buffer|
    }

    // -------------------------------------------------------------------------
    // Reading
    // -------------------------------------------------------------------------

    /** Pulls bytes in until `len` of them are there, or the stream ends. */
    method Fill(len: nat) returns (ok: bool)
      modifies this`buffer, this`stream
      ensures Bytes() == old(Bytes())
      ensures ok <==> len <= |Bytes()|
      ensures ok ==> len <= |buffer|
    {
      while len > |buffer|
        invariant Bytes() == old(Bytes())
        decreases |stream|
      {
        if stream == [] {
          return false;
        }
        buffer, stream := buffer + [stream[0]], stream[1..];
      }
      return true;
    }

    method Read() returns (r: Result<byte>)
      modifies this`buffer, this`stream, this`pos
      ensures Bytes() == old(Bytes())
      ensures Reports(ReadU8(Bytes(), old(pos)), r, pos)
    {
      var ok := Fill(pos + 1);
      if !ok {
        return EndOfBuffer;
      }
      r := Ok(buffer[pos]);
      pos := pos + 1;
    }

    method Get(at: nat) returns (r: Result<byte>)
      modifies this`buffer, this`stream
      ensures Bytes() == old(Bytes())
      ensures r == if at < |Bytes()| then Ok(Bytes()[at]) else EndOfBuffer
    {
      var ok := Fill(at + 1);
      if !ok {
        return EndOfBuffer;
      }
      r := Ok(buffer[at]);
    }

    method GetRange(start: nat, len: nat) returns (r: Result<seq<byte>>)
      modifies this`buffer, this`stream
      ensures Bytes() == old(Bytes())
      ensures r == if start + len <= |Bytes()| then Ok(Bytes()[start..start + len]) else EndOfBuffer
    {
      var ok := Fill(start + len);
      if !ok {
        return EndOfBuffer;
      }
      assert Bytes()[start..start + len] == buffer[start..start + len];
      r := Ok(buffer[start..start + len]);
    }

    method Seek(at: nat)
      modifies this`pos
      ensures pos == at
    {
      pos := at;
    }

    method Step(steps: nat)
      modifies this`pos
      ensures pos == old(pos) + steps
    {
      pos := pos + steps;
    }

    method ReadInt16() returns (r: Result<u16>)
      modifies this`buffer, this`stream, this`pos
      ensures Bytes() == old(Bytes())
      ensures Reports(ReadU16(Bytes(), old(pos)), r, pos)
    {
      var hi: byte :- Read();
      var lo: byte :- Read();
      r := Ok(hi as int * 256 + lo as int);
    }

    method ReadInt32() returns (r: Result<u32>)
      modifies this`buffer, this`stream, this`pos
      ensures Bytes() == old(Bytes())
      ensures Reports(ReadU32(Bytes(), old(pos)), r, pos)
    {
      var b0: byte :- Read();
      var b1: byte :- Read();
      var b2: byte :- Read();
      var b3: byte :- Read();
      r := Ok(((b0 as int * 256 + b1 as int) * 256 + b2 as int) * 256 + b3 as int);
    }

    /** Reads `len` bytes and steps over them, as TXT, OPT and TLSA data are read. */
    method ReadBytes(len: nat) returns (r: Result<seq<byte>>)
      modifies this`buffer, this`stream, this`pos
      ensures Bytes() == old(Bytes())
      ensures Reports(ReadRange(Bytes(), old(pos), len), r, pos)
    {
      var data: seq<byte> :- GetRange(pos, len);
      Step(len);
      r := Ok(data);
    }

    /** `read_qname`. The only inputs excluded are those on which it never returns. */
    method ReadQname() returns (r: Result<Text>)
      requires !ReadName(Bytes(), pos).Diverges?
      modifies this`buffer, this`stream, this`pos
      ensures Bytes() == old(Bytes())
      ensures Reports(ReadName(Bytes(), old(pos)), r, pos)
    {
      hide Walk, Join, Lower, ReadName, Midway;
      var at: nat, jumped := pos, false;
      var out: Text, delim: Text := [], [];
      ghost var b := Bytes();
      ghost var whole := Walk(b, at, |b| + 1);
      ghost var steps: nat, labels: seq<Text> := |b| + 1, [];
      NameStarts(b, at);
      while true
        invariant Bytes() == b && !whole.Endless?
        invariant out == Join(labels) && delim == (if labels == [] then [] else [DOT])
        invariant Midway(whole, Walk(b, at, steps), labels, jumped, pos)
        invariant ReadName(b, old(pos)) == NameOf(whole)
        decreases steps
      {
        NameEnds(whole, b, at, steps, labels, jumped, pos);
        var len: byte :- Get(at);
        if len >= 64 {
          ghost var before := pos;
          if !jumped {
            Seek(at + 2);
          }
          var b2: byte :- Get(at + 1);
          JumpStep(whole, b, at, steps, labels, jumped, before);
          at := Target(len, b2);
          jumped := true;
        } else {
          at := at + 1;
          if len == 0 {
            break;
          }
          out := out + delim;
          var str: seq<byte> :- GetRange(at, len);
          LabelStep(whole, b, at - 1, steps, labels, jumped, pos);
          JoinAppend(labels, Lower(str));
          out := out + Lower(str);
          labels := labels + [Lower(str)];
          delim := [DOT];
          at := at + len;
        }
        steps := steps - 1;
      }
      if !jumped {
        Seek(at);
      }
      r := Ok(out);
    }

    // -------------------------------------------------------------------------
    // Writing
    // -------------------------------------------------------------------------

    /** The buffer has grown by exactly what writing gives. */
    twostate predicate Wrote(e: Enc)
      reads this
    {
      Writable() && buffer == old(buffer) + e.chunk && labelLookup == e.table
    }

    method Write(val: byte)
      requires Writable()
      modifies this`buffer, this`pos
      ensures Wrote(Enc([val], old(labelLookup)))
    {
      buffer := buffer + [val];
      pos := pos + 1;
    }

    /** `set_u16`: overwrites two bytes that are already there. */
    method SetU16(at: nat, val: u16)
      requires at + 2 <= |buffer|
      modifies this`buffer
      ensures buffer == old(buffer)[..at] + U16Bytes(val) + old(buffer)[at + 2..]
    {
      buffer := buffer[at := val / 256];
      buffer := buffer[at + 1 := val % 256];
    }

    method WriteU16(val: u16)
      requires Writable()
      modifies this`buffer, this`pos
      ensures Wrote(Enc(U16Bytes(val), old(labelLookup)))
    {
      Write(val / 256);
      Write(val % 256);
    }

    method WriteU32(val: u32)
      requires Writable()
      modifies this`buffer, this`pos
      ensures Wrote(Enc(U32Bytes(val), old(labelLookup)))
    {
      Write(val / 256 / 256 / 256);
      Write(val / 256 / 256 % 256);
      Write(val / 256 % 256);
      Write(val % 256);
    }

    method WriteBytes(bytes: seq<byte>)
      requires Writable()
      modifies this`buffer, this`pos
      ensures Wrote(Enc(bytes, old(labelLookup)))
    {
      for i := 0 to |bytes|
        invariant Writable() && buffer == old(buffer) + bytes[..i]
      {
        Write(bytes[i]);
      }
      assert bytes[..|bytes|] == bytes;
    }

    /** `write_qname` */
    method WriteQname(qname: Text)
      requires Writable()
      modifies this`buffer, this`pos, this`labelLookup
      ensures Wrote(EncName(old(labelLookup), |old(buffer)|, qname))
    {
      hide EncName, Labels, Join, FirstDot, LabelBytes;
      var splitStr := Labels(qname);
      var jumpPerformed := false;
      ghost var whole, final := buffer + EncName(labelLookup, |buffer|, qname).chunk,
                                EncName(labelLookup, |buffer|, qname).table;
      ghost var suffix := qname;
      assert splitStr[0..] == splitStr;
      for i := 0 to |splitStr|
        invariant Writable()
        invariant i < |splitStr| ==> Labels(suffix) == splitStr[i..]
        invariant i < |splitStr| ==> Remaining(whole, final, buffer, labelLookup, suffix)
        invariant i == |splitStr| ==> whole == buffer + [0] && final == labelLookup
      {
        JoinLabels(suffix);
        var search := Join(splitStr[i..]);
        if search in labelLookup {
          HitEnds(labelLookup, |buffer|, search);
          WriteU16(0xC000 + labelLookup[search] % 0x4000);
          jumpPerformed := true;
          break;
        }
        SuffixWritten(whole, final, buffer, labelLookup, suffix);
        labelLookup := labelLookup[search := pos];
        LabelBytesAre(splitStr[i], buffer);
        Write(|splitStr[i]| % 256);
        WriteBytes(splitStr[i]);
        assert splitStr[i..][1..] == splitStr[i + 1..];
        suffix := suffix[if FirstDot(suffix) < |suffix| then FirstDot(suffix) + 1 else 0..];
      }
      if !jumpPerformed {
        Write(0);
      }
    }
  }
}
