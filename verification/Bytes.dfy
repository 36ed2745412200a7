/** Byte strings, as the storage providers and the wire codecs handle them. */
module Bytes {
  newtype byte = x: int | 0 <= x < 256
  type bytes = seq<byte>

  /** The code of an ASCII character. */
  function Code(c: char): byte {
    if c < 128 as char then c as byte else 0
  }

  /** The bytes of an ASCII literal. */
  function Ascii(s: string): (b: bytes)
    ensures |b| == |s|
    ensures forall i | 0 <= i < |s| :: b[i] == Code(s[i])
  {
    seq(|s|, i requires 0 <= i < |s| => Code(s[i]))
  }

  predicate StartsWith(s: bytes, prefix: bytes) {
    |prefix| <= |s| && s[..|prefix|] == prefix
  }

  lemma ConcatSplit(a: bytes, b: bytes)
    ensures (a + b)[|a|..] == b && (a + b)[..|a|] == a
  {
  }

  lemma CancelLeft(a: bytes, b: bytes, c: bytes)
    requires a + b == a + c
    ensures b == c
  {
    ConcatSplit(a, b);
    ConcatSplit(a, c);
  }

  lemma CancelRight(a: bytes, b: bytes, c: bytes)
    requires a + c == b + c
    ensures a == b
  {
    assert |a + c| == |b + c|;
    ConcatSplit(a, c);
    ConcatSplit(b, c);
  }
}

module Wrappers {
  datatype Option<+T> = None | Some(value: T)
  datatype Result<+T, +E> = Ok(value: T) | Err(error: E)
}
