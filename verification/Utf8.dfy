/** `String::from_utf8_lossy`: bytes as text, every ill-formed stretch replaced by U+FFFD (section
    3.9 of the Unicode standard, "U+FFFD Substitution of Maximal Subparts"). */
module Utf8 {
  import opened Data

  /** U+FFFD, as text is kept here: by its UTF-8 bytes. */
  const REPLACEMENT: Text := [0xEF, 0xBF, 0xBD]

  predicate Continues(b: byte) {
    0x80 <= b < 0xC0
  }

  /** How many bytes a character that starts so has; none if none does. */
  function Length(b: byte): nat {
    if b < 0x80 then 1
    else if 0xC2 <= b < 0xE0 then 2
    else if 0xE0 <= b < 0xF0 then 3
    else if 0xF0 <= b < 0xF5 then 4
    else 0
  }

  /** Whether a second byte fits the first: no overlong form, no surrogate, nothing past U+10FFFF. */
  predicate Seconds(b0: byte, b1: byte) {
    if b0 == 0xE0 then 0xA0 <= b1 < 0xC0
    else if b0 == 0xED then 0x80 <= b1 < 0xA0
    else if b0 == 0xF0 then 0x90 <= b1 < 0xC0
    else if b0 == 0xF4 then 0x80 <= b1 < 0x90
    else Continues(b1)
  }

  /** The first stretch of some bytes: a character, or as much of one as there is. */
  datatype Stretch = Stretch(ok: bool, n: nat)

  function First(b: seq<byte>): (s: Stretch)
    requires b != []
    ensures 1 <= s.n <= |b|
  {
    var n := Length(b[0]);
    if n <= 1 then Stretch(n == 1, 1)
    else if |b| < 2 || !Seconds(b[0], b[1]) then Stretch(false, 1)
    else if n == 2 then Stretch(true, 2)
    else if |b| < 3 || !Continues(b[2]) then Stretch(false, 2)
    else if n == 3 then Stretch(true, 3)
    else if |b| < 4 || !Continues(b[3]) then Stretch(false, 3)
    else Stretch(true, 4)
  }

  function Lossy(b: seq<byte>): Text {
    if b == [] then []
    else
      var s := First(b);
      (if s.ok then b[..s.n] else REPLACEMENT) + Lossy(b[s.n..])
  }

  /** The bytes are text: every Rust `String` is. */
  predicate IsUtf8(b: seq<byte>) {
    b == [] || (First(b).ok && IsUtf8(b[First(b).n..]))
  }

  /** A character is known by its own bytes, whatever follows. */
  lemma FirstLocal(c: seq<byte>, more: seq<byte>)
    requires c != [] && First(c).ok && First(c).n == |c|
    ensures First(c + more) == First(c)
  {
    forall i | 0 <= i < |c|
      ensures (c + more)[i] == c[i]
    {
    }
  }

  lemma FirstAlone(b: seq<byte>)
    requires b != [] && First(b).ok
    ensures First(b[..First(b).n]) == First(b)
  {
  }

  lemma {:induction false} LossyIsUtf8(b: seq<byte>)
    ensures IsUtf8(Lossy(b))
  {
    hide First;
    if b != [] {
      var s := First(b);
      var c := if s.ok then b[..s.n] else REPLACEMENT;
      LossyIsUtf8(b[s.n..]);
      if s.ok {
        FirstAlone(b);
      } else {
        ReplacementIsText();
      }
      FirstLocal(c, Lossy(b[s.n..]));
      assert (c + Lossy(b[s.n..]))[|c|..] == Lossy(b[s.n..]);
    }
  }

  lemma ReplacementIsText()
    ensures First(REPLACEMENT) == Stretch(true, 3)
  {
  }

  lemma {:induction false} TextIsKept(b: seq<byte>)
    requires IsUtf8(b)
    ensures Lossy(b) == b
  {
    hide First;
    if b != [] {
      TextIsKept(b[First(b).n..]);
      assert b[..First(b).n] + b[First(b).n..] == b;
    }
  }

  /** Bytes come back as they were exactly when they are text. */
  lemma LossyIsExact(b: seq<byte>)
    ensures Lossy(b) == b <==> IsUtf8(b)
  {
    LossyIsUtf8(b);
    if IsUtf8(b) {
      TextIsKept(b);
    }
  }

  /** Text does not begin in the middle of a character. */
  lemma NoContinuationFirst(b: seq<byte>)
    requires IsUtf8(b) && b != []
    ensures !Continues(b[0])
  {
  }

  /** A byte put in front of text: an ASCII one stays, any other is replaced, since no character that
      it could begin goes on with the beginning of text. */
  lemma ByteBeforeText(x: byte, b: seq<byte>)
    requires IsUtf8(b)
    ensures Lossy([x] + b) == (if x < 0x80 then [x] else REPLACEMENT) + b
  {
    TextIsKept(b);
    assert ([x] + b)[1..] == b && ([x] + b)[..1] == [x];
    if b != [] {
      NoContinuationFirst(b);
      assert ([x] + b)[1] == b[0];
    }
    hide Lossy, IsUtf8;
    LossyStep([x] + b);
  }

  lemma LossyStep(b: seq<byte>)
    requires b != []
    ensures Lossy(b) == (if First(b).ok then b[..First(b).n] else REPLACEMENT) + Lossy(b[First(b).n..])
  {
  }
}
