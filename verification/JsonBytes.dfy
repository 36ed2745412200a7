/** The typed JSON shapes the memory store keeps: byte vectors, lists of byte
    vectors, and pairs of byte vectors. */
module JsonBytes {
  import opened Bytes
  import opened Wrappers
  import opened JsonText

  function ByteNums(b: bytes): (items: seq<Json>)
    ensures |items| == |b|
    ensures forall i | 0 <= i < |b| :: items[i] == Num(b[i] as int)
  {
    seq(|b|, i requires 0 <= i < |b| => Num(b[i] as int))
  }

  predicate IsByteNum(j: Json) {
    j.Num? && j.n < 256
  }

  /** A `Vec<u8>`: an array of numbers below 256. */
  function OfBytes(b: bytes): Json {
    Arr(ByteNums(b))
  }

  function ToBytes(j: Json): Option<bytes> {
    if j.Arr? && forall i | 0 <= i < |j.items| :: IsByteNum(j.items[i]) then
      Some(seq(|j.items|, i requires 0 <= i < |j.items| => j.items[i].n as byte))
    else None
  }

  lemma ToBytesOfBytes(b: bytes)
    ensures ToBytes(OfBytes(b)) == Some(b)
  {
    var j := OfBytes(b);
    assert forall i | 0 <= i < |b| :: IsByteNum(j.items[i]);
    assert ToBytes(j).value == b;
  }

  /** A `Vec<Vec<u8>>`. */
  function OfList(l: seq<bytes>): Json {
    Arr(seq(|l|, i requires 0 <= i < |l| => OfBytes(l[i])))
  }

  function ToList(j: Json): Option<seq<bytes>> {
    if j.Arr? && forall i | 0 <= i < |j.items| :: ToBytes(j.items[i]).Some? then
      Some(seq(|j.items|, i requires 0 <= i < |j.items| => ToBytes(j.items[i]).value))
    else None
  }

  lemma ToListOfList(l: seq<bytes>)
    ensures ToList(OfList(l)) == Some(l)
  {
    var j := OfList(l);
    forall i | 0 <= i < |l|
      ensures ToBytes(j.items[i]) == Some(l[i])
    {
      ToBytesOfBytes(l[i]);
    }
    assert ToList(j).value == l;
  }

  /** A `(Vec<u8>, Vec<u8>)`. */
  function OfPair(a: bytes, b: bytes): Json {
    Arr([OfBytes(a), OfBytes(b)])
  }

  function ToPair(j: Json): Option<(bytes, bytes)> {
    if j.Arr? && |j.items| == 2 && ToBytes(j.items[0]).Some? && ToBytes(j.items[1]).Some? then
      Some((ToBytes(j.items[0]).value, ToBytes(j.items[1]).value))
    else None
  }

  lemma ToPairOfPair(a: bytes, b: bytes)
    ensures ToPair(OfPair(a, b)) == Some((a, b))
  {
    ToBytesOfBytes(a);
    ToBytesOfBytes(b);
  }
}
