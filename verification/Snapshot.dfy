/** Writing the memory store to a byte vector and reading it back. */
module Snapshot {
  import opened Bytes
  import opened Wrappers
  import opened Rows

  type Values = map<bytes, bytes>

  function Pow256(k: nat): (p: nat)
    ensures p > 0
  {
    if k == 0 then 1 else 256 * Pow256(k - 1)
  }

  /** `to_be_bytes` of a `k`-byte unsigned integer. */
  function ToBe(n: nat, k: nat): (s: bytes)
    ensures |s| == k
  {
    if k == 0 then [] else ToBe(n / 256, k - 1) + [(n % 256) as byte]
  }

  function FromBe(s: bytes): nat {
    if s == [] then 0 else 256 * FromBe(s[..|s| - 1]) + s[|s| - 1] as int
  }

  lemma {:induction false} FromToBe(n: nat, k: nat)
    requires n < Pow256(k)
    ensures FromBe(ToBe(n, k)) == n
  {
    if k > 0 {
      FromToBe(n / 256, k - 1);
      var s := ToBe(n / 256, k - 1);
      assert (s + [(n % 256) as byte])[..k - 1] == s;
    }
  }

  const U64 := 8

  /** Lengths are `usize`, so they fit the eight bytes they are written in. */
  predicate FitsU64(n: nat) {
    n < Pow256(U64)
  }

  ghost predicate Addressable(values: Values) {
    FitsU64(|values|) && forall k | k in values :: FitsU64(|k|) && FitsU64(|values[k]|)
  }

  function Record(k: bytes, v: bytes): bytes {
    ToBe(|k|, U64) + (ToBe(|v|, U64) + (k + v))
  }

  /** The records of the listed keys, one after the other. */
  function Records(values: Values, order: seq<bytes>): bytes
    requires forall k | k in order :: k in values
  {
    if order == [] then []
    else Records(values, order[..|order| - 1]) + Record(order[|order| - 1], values[order[|order| - 1]])
  }

  ghost predicate Enumerates(order: seq<bytes>, values: Values) {
    Distinct(order) && Elements(order) == values.Keys
  }

  function Encoded(values: Values, order: seq<bytes>): bytes
    requires forall k | k in order :: k in values
  {
    ToBe(|values|, U64) + Records(values, order)
  }

  lemma OneMoreRecord(values: Values, order: seq<bytes>, k: bytes)
    requires k in values && forall o | o in order :: o in values
    ensures Encoded(values, order + [k]) == Encoded(values, order) + Record(k, values[k])
  {
    hide Record, ToBe;
    assert (order + [k])[..|order|] == order;
  }

  lemma EncodedNothing(values: Values)
    ensures Encoded(values, []) == ToBe(|values|, U64)
  {
  }

  /** The map's iteration order is arbitrary; `order` is the one that was used. */
  method Serialize(values: Values, w: bytes) returns (out: bytes, written: nat, ghost order: seq<bytes>)
    ensures Enumerates(order, values)
    ensures out == w + Encoded(values, order) && written == |Encoded(values, order)|
  {
    hide ToBe, Encoded;
    written := 8;
    out := w + ToBe(|values|, U64);
    order := [];
    EncodedNothing(values);
    var todo := values.Keys;
    while todo != {}
      invariant todo <= values.Keys && Distinct(order) && Elements(order) == values.Keys - todo
      invariant forall k | k in order :: k in values
      invariant out == w + Encoded(values, order) && written == |Encoded(values, order)|
      decreases todo
    {
      var k :| k in todo;
      var v := values[k];
      ghost var order' := order + [k];
      OneMoreRecord(values, order, k);
      assert k !in Elements(order);
      assert Elements(order') == Elements(order) + {k};
      out := out + ToBe(|k|, U64) + ToBe(|v|, U64) + k + v;
      assert out == w + (Encoded(values, order) + Record(k, v));
      written := written + (8 + 8 + |k| + |v|);
      todo := todo - {k};
      order := order';
    }
  }

  // ----------------------------------------------------------------- reading

  datatype IoError = UnexpectedEof

  /** What is left to read, or the error of a short read. */
  function ReadExact(s: bytes, len: nat): Option<(bytes, bytes)> {
    if len <= |s| then Some((s[..len], s[len..])) else None
  }

  function ReadU64(s: bytes): Option<(nat, bytes)> {
    match ReadExact(s, U64)
    case None => None
    case Some((b, rest)) => Some((FromBe(b), rest))
  }

  /** One record: both lengths, the key and the value. */
  function ReadRecord(s: bytes): Option<((bytes, bytes), bytes)> {
    match ReadU64(s)
    case None => None
    case Some((kLen, s1)) =>
      match ReadU64(s1)
      case None => None
      case Some((vLen, s2)) =>
        match ReadExact(s2, kLen)
        case None => None
        case Some((k, s3)) =>
          match ReadExact(s3, vLen)
          case None => None
          case Some((v, s4)) => Some(((k, v), s4))
  }

  /** The map read from `count` records, starting from `map`. */
  function ReadRecords(s: bytes, count: nat, m: Values): Option<(Values, bytes)> {
    if count == 0 then Some((m, s))
    else
      match ReadRecord(s)
      case None => None
      case Some(((k, v), rest)) => ReadRecords(rest, count - 1, m[k := v])
  }

  function Decoded(s: bytes): Option<(Values, bytes)> {
    match ReadU64(s)
    case None => None
    case Some((count, rest)) => ReadRecords(rest, count, map[])
  }

  method Deserialize(r: bytes) returns (res: Result<Values, IoError>, rest: bytes)
    ensures match Decoded(r)
            case Some((m, left)) => res == Ok(m) && rest == left
            case None => res == Err(UnexpectedEof)
  {
    rest := r;
    var header := ReadU64(rest);
    if header.None? {
      return Err(UnexpectedEof), rest;
    }
    var count := header.value.0;
    rest := header.value.1;
    var m: Values := map[];
    while count > 0
      invariant Decoded(r) == ReadRecords(rest, count, m)
    {
      var record := ReadRecord(rest);
      if record.None? {
        return Err(UnexpectedEof), rest;
      }
      var ((k, v), left) := record.value;
      rest := left;
      m := m[k := v];
      count := count - 1;
    }
    res := Ok(m);
  }

  // -------------------------------------------------------------- round trip

  lemma ReadU64Written(n: nat, rest: bytes)
    requires FitsU64(n)
    ensures ReadU64(ToBe(n, U64) + rest) == Some((n, rest))
  {
    hide FromBe, ToBe;
    FromToBe(n, U64);
    ConcatSplit(ToBe(n, U64), rest);
  }

  lemma ReadRecordWritten(k: bytes, v: bytes, rest: bytes)
    requires FitsU64(|k|) && FitsU64(|v|)
    ensures ReadRecord(Record(k, v) + rest) == Some(((k, v), rest))
  {
    hide ReadU64, ToBe, FitsU64;
    var s1 := ToBe(|v|, U64) + (k + (v + rest));
    assert Record(k, v) + rest == ToBe(|k|, U64) + s1;
    ReadU64Written(|k|, s1);
    ReadU64Written(|v|, k + (v + rest));
    ConcatSplit(k, v + rest);
    ConcatSplit(v, rest);
  }

  /** The part of the map the listed keys make up. */
  function Part(values: Values, order: seq<bytes>): Values
    requires forall k | k in order :: k in values
  {
    map k | k in order :: values[k]
  }

  lemma ReadStep(s: bytes, count: nat, m: Values, k: bytes, v: bytes, rest: bytes)
    requires ReadRecord(s) == Some(((k, v), rest))
    ensures ReadRecords(s, count + 1, m) == ReadRecords(rest, count, m[k := v])
  {
    hide ReadRecord;
  }

  /** Reading the listed records and going on with what follows them. */
  lemma {:induction false} ReadRecordsWritten(values: Values, order: seq<bytes>, more: bytes, extra: nat)
    requires Addressable(values) && forall k | k in order :: k in values
    ensures ReadRecords(Records(values, order) + more, |order| + extra, map[])
            == ReadRecords(more, extra, Part(values, order))
  {
    hide ReadRecords, ReadRecord, Record, FitsU64;
    if order == [] {
      assert Records(values, order) + more == more;
      assert Part(values, order) == map[];
    } else {
      var before, k := order[..|order| - 1], order[|order| - 1];
      var v := values[k];
      var more' := Record(k, v) + more;
      assert Records(values, order) + more == Records(values, before) + more';
      ReadRecordsWritten(values, before, more', extra + 1);
      assert FitsU64(|k|) && FitsU64(|values[k]|);
      ReadRecordWritten(k, v, more);
      assert order == before + [k];
      assert Part(values, order) == Part(values, before)[k := v];
      ReadStep(more', extra, Part(values, before), k, v, more);
    }
  }

  lemma {:induction false} EnumerationLength(order: seq<bytes>)
    requires Distinct(order)
    ensures |Elements(order)| == |order|
  {
    if order != [] {
      var before, k := order[..|order| - 1], order[|order| - 1];
      EnumerationLength(before);
      assert order == before + [k];
      assert Elements(order) == Elements(before) + {k} && k !in Elements(before);
    }
  }

  /** Whatever the iteration order and whatever bytes follow, reading a written
      store gives the same store and consumes exactly the bytes written. */
  lemma SnapshotRoundTrip(values: Values, order: seq<bytes>, tail: bytes)
    requires Addressable(values) && Enumerates(order, values)
    ensures forall k | k in order :: k in values
    ensures Decoded(Encoded(values, order) + tail) == Some((values, tail))
  {
    hide ReadRecords, Records, ToBe, ReadU64, FitsU64;
    forall k | k in order
      ensures k in values
    {
      assert k in Elements(order);
    }
    EnumerationLength(order);
    assert |values.Keys| == |values|;
    assert Encoded(values, order) + tail == ToBe(|values|, U64) + (Records(values, order) + tail);
    ReadU64Written(|values|, Records(values, order) + tail);
    ReadRecordsWritten(values, order, tail, 0);
    assert Part(values, order) == values by {
      forall k | k in values
        ensures k in order
      {
        assert k in Elements(order);
      }
    }
    NoRecords(tail, values);
  }

  lemma NoRecords(s: bytes, m: Values)
    ensures ReadRecords(s, 0, m) == Some((m, s))
  {
  }

  // ------------------------------------------------------------- the layout

  /** Byte `i` from the end is the `i`-th base-256 digit: the highest comes first. */
  lemma {:induction false} ToBeDigits(n: nat, k: nat, i: nat)
    requires i < k
    ensures ToBe(n, k)[k - 1 - i] as int == n / Pow256(i) % 256
  {
    if i > 0 {
      ToBeDigits(n / 256, k - 1, i - 1);
      DivDiv(n, Pow256(i - 1));
      assert ToBe(n, k)[k - 1 - i] == ToBe(n / 256, k - 1)[k - 1 - i];
    }
  }

  lemma MulMonotone(a: nat, b: nat, p: nat)
    requires a <= b
    ensures a * p <= b * p
  {
  }

  lemma DivUnique(d: nat, p: nat, q: nat, r: nat)
    requires d == q * p + r && r < p
    ensures d / p == q
  {
    if d / p > q {
      MulMonotone(q + 1, d / p, p);
    } else if d / p < q {
      MulMonotone(d / p + 1, q, p);
    }
  }

  lemma DivDiv(n: nat, p: nat)
    requires p > 0
    ensures n / 256 / p == n / (256 * p)
  {
    var q, r := n / (256 * p), n % (256 * p);
    assert q * (256 * p) == 256 * (q * p);
    assert n / 256 == q * p + r / 256;
    DivUnique(n / 256, p, q, r / 256);
  }

  /** A record is eight bytes of key length, eight bytes of value length, the key
      and the value. */
  lemma RecordLayout(k: bytes, v: bytes)
    ensures var r := Record(k, v);
            && |r| == 16 + |k| + |v|
            && r[..8] == ToBe(|k|, 8) && r[8..16] == ToBe(|v|, 8)
            && r[16..16 + |k|] == k && r[16 + |k|..] == v
  {
    hide ToBe;
  }

  /** A snapshot is eight bytes of entry count and then the records. */
  lemma EncodedLayout(values: Values, order: seq<bytes>)
    requires order != [] && forall k | k in order :: k in values
    ensures Encoded(values, order[..1])[..8] == ToBe(|values|, 8)
    ensures Encoded(values, order[..1])[8..] == Record(order[0], values[order[0]])
    ensures Encoded(values, order)
            == Encoded(values, order[..|order| - 1]) + Record(order[|order| - 1], values[order[|order| - 1]])
  {
    hide ToBe, Record;
    var n := |order| - 1;
    assert order[..1][..0] == [] && order[..1][0] == order[0];
    assert order[..n] + [order[n]] == order;
    OneMoreRecord(values, order[..n], order[n]);
    OneMoreRecord(values, [], order[0]);
    EncodedNothing(values);
    assert [] + [order[0]] == order[..1];
  }
}
