/** Text as a sequence of characters: the encoding of section 3 of RFC 3629, against the byte-wise reader. */
module Utf8Scalars {
  import opened Data
  import opened Utf8

  /** The numbers of characters: all up to U+10FFFF but the surrogates. */
  predicate Scalar(c: nat) {
    c < 0xD800 || 0xE000 <= c < 0x11_0000
  }

  /** Six bits at a time, from the top. */
  function Encoded(c: nat): seq<byte>
    requires Scalar(c)
  {
    if c < 0x80 then [c]
    else if c < 0x800 then [0xC0 + c / 0x40, 0x80 + c % 0x40]
    else if c < 0x1_0000 then [0xE0 + c / 0x1000, 0x80 + c / 0x40 % 0x40, 0x80 + c % 0x40]
    else [0xF0 + c / 0x4_0000, 0x80 + c / 0x1000 % 0x40, 0x80 + c / 0x40 % 0x40, 0x80 + c % 0x40]
  }

  /** What the reader asks of the bytes of one character. */
  predicate Shape(e: seq<byte>) {
    && 1 <= |e| <= 4 && Length(e[0]) == |e|
    && (|e| >= 2 ==> Seconds(e[0], e[1]))
    && (|e| >= 3 ==> Continues(e[2]))
    && (|e| >= 4 ==> Continues(e[3]))
  }

  lemma EncodedShape(c: nat)
    requires Scalar(c)
    ensures Shape(Encoded(c))
  {
    if 0x800 <= c < 0x1_0000 {
      assert c / 0x1000 == c / 0x40 / 0x40;
    } else if c >= 0x1_0000 {
      assert c / 0x4_0000 == c / 0x1000 / 0x40;
    }
  }

  function Decoded(e: seq<byte>): nat
    requires Shape(e)
  {
    var x := e[0] as int;
    if |e| == 1 then x
    else if |e| == 2 then (x - 0xC0) * 0x40 + Low(e[1])
    else if |e| == 3 then ((x - 0xE0) * 0x40 + Low(e[1])) * 0x40 + Low(e[2])
    else (((x - 0xF0) * 0x40 + Low(e[1])) * 0x40 + Low(e[2])) * 0x40 + Low(e[3])
  }

  /** The low six bits of a continuation byte. */
  function Low(b: byte): nat
    requires 0x80 <= b < 0xC0
  {
    b as int - 0x80
  }

  lemma Base64(q: nat, r: nat)
    requires r < 0x40
    ensures (q * 0x40 + r) / 0x40 == q && (q * 0x40 + r) % 0x40 == r
  {
  }

  /** Bytes of that shape are the encoding of a character. */
  lemma ShapeEncodes(e: seq<byte>)
    requires Shape(e)
    ensures Scalar(Decoded(e)) && Encoded(Decoded(e)) == e
  {
    if |e| == 2 {
      Base64(e[0] as int - 0xC0, Low(e[1]));
    } else if |e| == 3 {
      ThreeEncode(e);
    } else if |e| == 4 {
      FourEncode(e);
    }
  }

  lemma ThreeEncode(e: seq<byte>)
    requires Shape(e) && |e| == 3
    ensures Scalar(Decoded(e)) && Encoded(Decoded(e)) == e
  {
    var x := e[0] as int - 0xE0;
    var q := x * 0x40 + Low(e[1]);
    Base64(x, Low(e[1]));
    Base64(q, Low(e[2]));
    assert Decoded(e) / 0x1000 == q / 0x40;
  }

  lemma FourEncode(e: seq<byte>)
    requires Shape(e) && |e| == 4
    ensures Scalar(Decoded(e)) && Encoded(Decoded(e)) == e
  {
    var x := e[0] as int - 0xF0;
    var q := x * 0x40 + Low(e[1]);
    var r := q * 0x40 + Low(e[2]);
    Base64(x, Low(e[1]));
    Base64(q, Low(e[2]));
    Base64(r, Low(e[3]));
    Nested(Decoded(e));
    assert 0x400 <= q * 0x40 && 0x10 <= q < 0x110;
    assert Decoded(e) / 0x40 == r && r / 0x40 == q && q / 0x40 == x;
    assert 0x1_0000 <= Decoded(e) < 0x11_0000;
  }

  lemma Nested(c: nat)
    ensures c / 0x1000 == c / 0x40 / 0x40 && c / 0x4_0000 == c / 0x40 / 0x40 / 0x40
  {
  }

  /** Some bytes begin as a character does. */
  ghost predicate Begins(b: seq<byte>, n: nat) {
    exists c :: Scalar(c) && n <= |b| && n <= |Encoded(c)| && Encoded(c)[..n] == b[..n]
  }

  /** The reader takes a whole character wherever one stands, and otherwise the longest part of one there is, but at
      least one byte. */
  lemma FirstExactly(b: seq<byte>)
    requires b != []
    ensures First(b).ok <==> exists c :: Scalar(c) && Encoded(c) <= b
    ensures First(b).ok ==> exists c :: Scalar(c) && Encoded(c) == b[..First(b).n]
    ensures !First(b).ok ==>
      && (First(b).n == 1 || Begins(b, First(b).n))
      && !Begins(b, First(b).n + 1)
  {
    hide Encoded, Scalar;
    if First(b).ok {
      FirstHasShape(b);
      ShapeEncodes(b[..First(b).n]);
    }
    forall c | Scalar(c) && Encoded(c) <= b
      ensures First(b).ok
    {
      EncodedShape(c);
      ShapeIsFirst(b, |Encoded(c)|);
    }
    if !First(b).ok {
      PartBegins(b);
      NoMore(b);
    }
  }

  lemma FirstHasShape(b: seq<byte>)
    requires b != [] && First(b).ok
    ensures Shape(b[..First(b).n])
  {
  }

  lemma ShapeIsFirst(b: seq<byte>, n: nat)
    requires n <= |b| && Shape(b[..n])
    ensures First(b) == Stretch(true, n)
  {
  }

  /** What is left of a character is completed by the smallest bytes that fit. */
  lemma PartBegins(b: seq<byte>)
    requires b != [] && !First(b).ok
    ensures First(b).n == 1 || Begins(b, First(b).n)
  {
    hide Encoded, Scalar;
    var n := First(b).n;
    if n > 1 {
      var e := b[..n] + seq(Length(b[0]) - n, _ => 0x80);
      assert Shape(e);
      ShapeEncodes(e);
      assert e[..n] == b[..n];
    }
  }

  lemma NoMore(b: seq<byte>)
    requires b != [] && !First(b).ok
    ensures !Begins(b, First(b).n + 1)
  {
    hide Encoded, Scalar;
    var n := First(b).n;
    forall c | Scalar(c) && n + 1 <= |b| && n + 1 <= |Encoded(c)| && Encoded(c)[..n + 1] == b[..n + 1]
      ensures false
    {
      EncodedShape(c);
      var e := Encoded(c);
      assert forall i | 0 <= i < n + 1 :: e[i] == e[..n + 1][i] == b[..n + 1][i] == b[i];
    }
  }

  /** Every stretch that is no character is replaced by one U+FFFD. */
  lemma LossyExactly(b: seq<byte>)
    requires b != []
    ensures var n := First(b).n; Lossy(b) == (if First(b).ok then b[..n] else Encoded(0xFFFD)) + Lossy(b[n..])
  {
    hide First;
    LossyStep(b);
  }

  function InBytes(cs: seq<nat>): seq<byte>
    requires forall c | c in cs :: Scalar(c)
  {
    if cs == [] then [] else Encoded(cs[0]) + InBytes(cs[1..])
  }

  /** Bytes are text exactly when they are characters in a row. */
  lemma {:induction false} TextExactly(b: seq<byte>)
    ensures IsUtf8(b) <==> exists cs: seq<nat> :: (forall c | c in cs :: Scalar(c)) && InBytes(cs) == b
  {
    if IsUtf8(b) {
      var cs := Characters(b);
    }
    if cs: seq<nat> :| (forall c | c in cs :: Scalar(c)) && InBytes(cs) == b {
      TextIsUtf8(cs);
    }
  }

  lemma {:induction false} Characters(b: seq<byte>) returns (cs: seq<nat>)
    requires IsUtf8(b)
    ensures (forall c | c in cs :: Scalar(c)) && InBytes(cs) == b
  {
    hide First, Encoded, Scalar;
    if b == [] {
      cs := [];
    } else {
      var n := First(b).n;
      FirstHasShape(b);
      ShapeEncodes(b[..n]);
      var rest := Characters(b[n..]);
      cs := [Decoded(b[..n])] + rest;
      assert cs[1..] == rest && b[..n] + b[n..] == b;
    }
  }

  lemma {:induction false} TextIsUtf8(cs: seq<nat>)
    requires forall c | c in cs :: Scalar(c)
    ensures IsUtf8(InBytes(cs))
  {
    hide First, Encoded, Scalar;
    if cs != [] {
      var e, rest := Encoded(cs[0]), InBytes(cs[1..]);
      TextIsUtf8(cs[1..]);
      EncodedShape(cs[0]);
      assert (e + rest)[..|e|] == e && (e + rest)[|e|..] == rest;
      ShapeIsFirst(e + rest, |e|);
    }
  }
}
