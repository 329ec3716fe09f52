/** Machine integers, text and the option/result shapes shared by every module.
    Text stands for a Rust `String` or `&str`: the bytes of its UTF-8 encoding. */
module Data {

  type byte = x: int | 0 <= x < 0x100
  type u16 = x: int | 0 <= x < 0x1_0000
  type u32 = x: int | 0 <= x < 0x1_0000_0000

  type u64 = x: int | 0 <= x < 0x1_0000_0000_0000_0000

  type Text = seq<byte>

  const DOT: byte := 46

  datatype Option<+T> = None | Some(value: T)

  /** What a fallible buffer operation returns. Running past the end of the bytes is the only
      error: an indexing panic in the in-memory buffer, an I/O error in the stream buffer. */
  datatype Result<+T> = Ok(value: T) | EndOfBuffer {
    predicate IsFailure() {
      EndOfBuffer?
    }

    function PropagateFailure<U>(): Result<U>
      requires EndOfBuffer?
    {
      EndOfBuffer
    }

    function Extract(): T
      requires Ok?
    {
      value
    }
  }

  // Big-endian integers, the byte order of every field on the wire.

  function U16Bytes(v: u16): (r: seq<byte>)
    ensures |r| == 2
  {
    [v / 256, v % 256]
  }

  function U32Bytes(v: u32): (r: seq<byte>)
    ensures |r| == 4
  {
    [v / 256 / 256 / 256, v / 256 / 256 % 256, v / 256 % 256, v % 256]
  }

  function U16At(b: seq<byte>, at: nat): u16
    requires at + 2 <= |b|
  {
    b[at] as int * 256 + b[at + 1] as int
  }

  function U32At(b: seq<byte>, at: nat): u32
    requires at + 4 <= |b|
  {
    ((b[at] as int * 256 + b[at + 1] as int) * 256 + b[at + 2] as int) * 256 + b[at + 3] as int
  }

  /** Both integer widths read back from wherever their bytes stand. */
  lemma IntegersReadBack(b: seq<byte>, at: nat, v: u16, w: u32)
    ensures at + 2 <= |b| && b[at..at + 2] == U16Bytes(v) ==> U16At(b, at) == v
    ensures at + 4 <= |b| && b[at..at + 4] == U32Bytes(w) ==> U32At(b, at) == w
  {
    if at + 2 <= |b| && b[at..at + 2] == U16Bytes(v) {
      assert b[at] == U16Bytes(v)[0] && b[at + 1] == U16Bytes(v)[1];
    }
    if at + 4 <= |b| && b[at..at + 4] == U32Bytes(w) {
      var x := U32Bytes(w);
      assert b[at] == x[0] && b[at + 1] == x[1] && b[at + 2] == x[2] && b[at + 3] == x[3];
    }
  }

  lemma Byte256(q: nat, r: byte)
    ensures (q * 256 + r) / 256 == q && (q * 256 + r) % 256 == r
  {
  }

  /** The four bytes of an integer determine it, and it determines them. */
  lemma U32BytesAt(b: seq<byte>, at: nat)
    requires at + 4 <= |b|
    ensures U32Bytes(U32At(b, at)) == b[at..at + 4]
  {
    var q1 := b[at] as int;
    var q2 := q1 * 256 + b[at + 1];
    var q3 := q2 * 256 + b[at + 2];
    Byte256(q1, b[at + 1]);
    Byte256(q2, b[at + 2]);
    Byte256(q3, b[at + 3]);
  }
}
