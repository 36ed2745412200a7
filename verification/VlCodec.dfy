/** Variable-size vectors of section 2.1.2 of RFC 9420, the delivery service's
    set codec on top of them, and the input of RefHash. */
module VlCodec {
  import opened Bytes
  import opened Wrappers
  import opened Rows

  // --------------------------------------------------------- length headers

  const MAX1 := 0x40
  const MAX2 := 0x4000
  const MAX4 := 0x4000_0000

  /** A length in the fewest bytes, its size in the top two bits; longer vectors
      cannot be encoded. */
  function Header(n: nat): Option<bytes> {
    if n < MAX1 then Some([n as byte])
    else if n < MAX2 then Some([(0x40 + n / 0x100) as byte, (n % 0x100) as byte])
    else if n < MAX4 then
      Some([(0x80 + n / 0x100_0000) as byte, (n / 0x1_0000 % 0x100) as byte, (n / 0x100 % 0x100) as byte,
            (n % 0x100) as byte])
    else None
  }

  function HeaderSize(n: nat): nat {
    if n < MAX1 then 1 else if n < MAX2 then 2 else if n < MAX4 then 4 else 8
  }

  /** A length and the bytes after it. The prefix 11 and lengths written in more
      bytes than needed are rejected. */
  function ReadHeader(s: bytes): (r: Option<(nat, bytes)>)
    ensures r.Some? ==> |r.value.1| < |s|
  {
    if s == [] then None
    else if s[0] < 0x40 then Some((s[0] as int, s[1..]))
    else if s[0] < 0x80 then
      if |s| < 2 then None
      else
        var n := (s[0] as int - 0x40) * 0x100 + s[1] as int;
        if n < MAX1 then None else Some((n, s[2..]))
    else if s[0] < 0xC0 then
      if |s| < 4 then None
      else
        var n := (s[0] as int - 0x80) * 0x100_0000 + s[1] as int * 0x1_0000 + s[2] as int * 0x100 + s[3] as int;
        if n < MAX2 then None else Some((n, s[4..]))
    else None
  }

  lemma FourDigits(n: nat)
    ensures n == n / 0x100_0000 * 0x100_0000 + n / 0x1_0000 % 0x100 * 0x1_0000 + n / 0x100 % 0x100 * 0x100 + n % 0x100
  {
    var q := n / 0x100;
    var q2 := q / 0x100;
    assert n / 0x1_0000 == q2;
    assert n / 0x100_0000 == q2 / 0x100;
  }

  lemma ReadHeaderWritten(n: nat, rest: bytes)
    requires n < MAX4
    ensures ReadHeader(Header(n).value + rest) == Some((n, rest))
    ensures |Header(n).value| == HeaderSize(n)
  {
    var h := Header(n).value;
    var s := h + rest;
    assert s[|h|..] == rest;
    if MAX2 <= n {
      FourDigits(n);
      LongHeader(n / 0x100_0000, n / 0x1_0000 % 0x100, n / 0x100 % 0x100, n % 0x100, n, rest);
    }
  }

  lemma LongHeader(a: nat, b: nat, c: nat, d: nat, n: nat, rest: bytes)
    requires a < 0x40 && b < 0x100 && c < 0x100 && d < 0x100
    requires n == a * 0x100_0000 + b * 0x1_0000 + c * 0x100 + d && MAX2 <= n
    ensures ReadHeader([(0x80 + a) as byte, b as byte, c as byte, d as byte] + rest) == Some((n, rest))
  {
    var s := [(0x80 + a) as byte, b as byte, c as byte, d as byte] + rest;
    assert s[4..] == rest;
  }

  /** Only the minimal header of a length is read as that length. */
  lemma HeaderUnique(s: bytes)
    requires ReadHeader(s).Some?
    ensures var (n, rest) := ReadHeader(s).value;
            n < MAX4 && s == Header(n).value + rest
  {
    var (n, rest) := ReadHeader(s).value;
    if s[0] < 0x40 {
    } else if s[0] < 0x80 {
      assert s == s[..2] + rest;
      assert n / 0x100 == s[0] as int - 0x40 && n % 0x100 == s[1] as int;
    } else {
      assert s == s[..4] + rest;
      FourBytes(s[0] as int - 0x80, s[1] as int, s[2] as int, s[3] as int, n);
    }
  }

  lemma FourBytes(a: nat, b: nat, c: nat, d: nat, n: nat)
    requires a < 0x40 && b < 0x100 && c < 0x100 && d < 0x100
    requires n == a * 0x100_0000 + b * 0x1_0000 + c * 0x100 + d
    ensures n / 0x100_0000 == a && n / 0x1_0000 % 0x100 == b && n / 0x100 % 0x100 == c && n % 0x100 == d
    ensures n < MAX4
  {
    assert n / 0x1_0000 == a * 0x100 + b;
    assert n / 0x100 == a * 0x1_0000 + b * 0x100 + c;
  }

  // ------------------------------------------------------------ byte vectors

  /** `opaque x<V>`. */
  function Opaque(x: bytes): Option<bytes> {
    match Header(|x|)
    case None => None
    case Some(h) => Some(h + x)
  }

  function ReadOpaque(s: bytes): (r: Option<(bytes, bytes)>)
    ensures r.Some? ==> |r.value.1| < |s|
  {
    match ReadHeader(s)
    case None => None
    case Some((n, rest)) => if n <= |rest| then Some((rest[..n], rest[n..])) else None
  }

  lemma ReadOpaqueWritten(x: bytes, rest: bytes)
    requires |x| < MAX4
    ensures Opaque(x).Some? && |Opaque(x).value| == HeaderSize(|x|) + |x|
    ensures ReadOpaque(Opaque(x).value + rest) == Some((x, rest))
  {
    hide ReadHeader;
    ReadHeaderWritten(|x|, x + rest);
    assert Opaque(x).value + rest == Header(|x|).value + (x + rest);
    ConcatSplit(x, rest);
  }

  // ---------------------------------------------------------- sets of bytes

  predicate Encodable(order: seq<bytes>) {
    forall i | 0 <= i < |order| :: |order[i]| < MAX4
  }

  function Content(order: seq<bytes>): bytes
    requires Encodable(order)
  {
    if order == [] then [] else Opaque(order[0]).value + Content(order[1..])
  }

  /** The set as a vector of byte vectors, in the set's iteration order. */
  function SerializeSet(order: seq<bytes>): Option<bytes> {
    if !Encodable(order) || |Content(order)| >= MAX4 then None
    else Some(Header(|Content(order)|).value + Content(order))
  }

  /** Elements as long as the vector's length is not used up. */
  function ReadItems(s: bytes, left: int): Option<(seq<bytes>, bytes)>
    decreases |s|
  {
    if left <= 0 then Some(([], s))
    else
      match ReadOpaque(s)
      case None => None
      case Some((x, rest)) =>
        match ReadItems(rest, left - (HeaderSize(|x|) + |x|))
        case None => None
        case Some((xs, rest')) => Some(([x] + xs, rest'))
  }

  function DeserializeSet(s: bytes): Option<(set<bytes>, bytes)> {
    match ReadHeader(s)
    case None => None
    case Some((n, rest)) =>
      match ReadItems(rest, n)
      case None => None
      case Some((xs, rest')) => Some((Elements(xs), rest'))
  }

  /** `hashset_codec::tls_serialized_len`: it counts the elements, not their
      bytes. */
  function ReportedLen(count: nat): nat {
    count + HeaderSize(count)
  }

  lemma ReadItemsStep(x: bytes, s: bytes, left: int, xs: seq<bytes>, rest: bytes)
    requires |x| < MAX4 && left > 0
    requires ReadItems(s, left - (HeaderSize(|x|) + |x|)) == Some((xs, rest))
    ensures ReadItems(Opaque(x).value + s, left) == Some(([x] + xs, rest))
  {
    hide Opaque, ReadOpaque, HeaderSize;
    ReadOpaqueWritten(x, s);
  }

  lemma {:induction false} ReadItemsWritten(order: seq<bytes>, tail: bytes)
    requires Encodable(order)
    ensures ReadItems(Content(order) + tail, |Content(order)|) == Some((order, tail))
  {
    hide Opaque, HeaderSize, ReadItems;
    if order == [] {
      assert Content(order) + tail == tail;
      NoItems(tail);
    } else {
      var x, more := order[0], order[1..];
      ReadOpaqueWritten(x, []);
      assert |Opaque(x).value| > 0 by { HeaderNotEmpty(|x|); }
      assert Content(order) + tail == Opaque(x).value + (Content(more) + tail);
      ReadItemsWritten(more, tail);
      ReadItemsStep(x, Content(more) + tail, |Content(order)|, more, tail);
      assert [x] + more == order;
    }
  }

  lemma NoItems(s: bytes)
    ensures ReadItems(s, 0) == Some(([], s))
  {
  }

  lemma HeaderNotEmpty(n: nat)
    ensures HeaderSize(n) > 0
  {
  }

  /** Any set comes back whole, in whatever order it was written and whatever
      follows it. */
  lemma SetRoundTrip(values: set<bytes>, order: seq<bytes>, tail: bytes)
    requires Elements(order) == values && SerializeSet(order).Some?
    ensures DeserializeSet(SerializeSet(order).value + tail) == Some((values, tail))
  {
    hide ReadHeader, ReadItems, Content;
    var content := Content(order);
    assert SerializeSet(order).value + tail == Header(|content|).value + (content + tail);
    ReadHeaderWritten(|content|, content + tail);
    ReadItemsWritten(order, tail);
  }

  lemma {:induction false} ContentLength(order: seq<bytes>)
    requires Encodable(order)
    ensures |Content(order)| >= |order|
    ensures |Content(order)| == |order| <==> forall i | 0 <= i < |order| :: order[i] == []
  {
    hide Opaque;
    if order != [] {
      var x, more := order[0], order[1..];
      ReadOpaqueWritten(x, []);
      ContentLength(more);
      assert forall i | 0 <= i < |more| :: more[i] == order[i + 1];
      assert forall i | 1 <= i < |order| :: order[i] == more[i - 1];
    }
  }

  /** The reported length never exceeds what is written, and is right exactly for
      the empty set and the set of the empty byte string. */
  lemma ReportedLenExact(values: set<bytes>, order: seq<bytes>)
    requires Distinct(order) && Elements(order) == values && SerializeSet(order).Some?
    ensures ReportedLen(|order|) <= |SerializeSet(order).value|
    ensures ReportedLen(|order|) == |SerializeSet(order).value| <==> values <= {[]}
  {
    hide Content, Header;
    ContentLength(order);
    ReadHeaderWritten(|Content(order)|, []);
    if values <= {[]} {
      forall i | 0 <= i < |order|
        ensures order[i] == []
      {
        assert order[i] in Elements(order);
      }
    }
    if forall i | 0 <= i < |order| :: order[i] == [] {
      forall x | x in values
        ensures x == []
      {
        assert x in order;
      }
    }
  }

  // ----------------------------------------------------------------- RefHash

  /** `HashReferenceInput`: a label and a value, each a byte vector. */
  function RefHashInput(tag: bytes, value: bytes): Option<bytes> {
    match (Opaque(tag), Opaque(value))
    case (Some(l), Some(v)) => Some(l + v)
    case _ => None
  }

  const KEY_PACKAGE_REF_LABEL: bytes := Ascii("MLS 1.0 KeyPackage Reference")
  const PROPOSAL_REF_LABEL: bytes := Ascii("MLS 1.0 Proposal Reference")

  /** The hashed input determines the label and the value. */
  lemma RefHashInputInjective(l: bytes, v: bytes, l': bytes, v': bytes)
    requires RefHashInput(l, v).Some? && RefHashInput(l, v) == RefHashInput(l', v')
    ensures l == l' && v == v'
  {
    ReadOpaqueWritten(l, Opaque(v).value);
    ReadOpaqueWritten(l', Opaque(v').value);
    ReadOpaqueWritten(v, []);
    ReadOpaqueWritten(v', []);
    assert Opaque(v).value + [] == Opaque(v).value && Opaque(v').value + [] == Opaque(v').value;
  }

  /** A KeyPackage reference and a Proposal reference never hash the same input. */
  lemma ReferenceKindsDisjoint(keyPackage: bytes, proposal: bytes)
    requires |keyPackage| < MAX4 || |proposal| < MAX4
    ensures RefHashInput(KEY_PACKAGE_REF_LABEL, keyPackage) != RefHashInput(PROPOSAL_REF_LABEL, proposal)
  {
    if RefHashInput(KEY_PACKAGE_REF_LABEL, keyPackage) == RefHashInput(PROPOSAL_REF_LABEL, proposal) {
      RefHashInputInjective(KEY_PACKAGE_REF_LABEL, keyPackage, PROPOSAL_REF_LABEL, proposal);
    }
  }

  /** The input is the label and then the value, each read back as a byte vector. */
  lemma RefHashLayout(tag: bytes, value: bytes)
    requires RefHashInput(tag, value).Some?
    ensures var s := RefHashInput(tag, value).value;
            && ReadOpaque(s).Some? && ReadOpaque(s).value.0 == tag
            && ReadOpaque(ReadOpaque(s).value.1) == Some((value, []))
  {
    hide ReadHeader, ReadOpaque;
    ReadOpaqueWritten(tag, Opaque(value).value);
    ReadOpaqueWritten(value, []);
    assert Opaque(value).value + [] == Opaque(value).value;
  }

  // ------------------------------------------------------------- the layout

  /** One, two or four bytes; the top two bits of the first say which, and the other
      bits are the length, the highest first. */
  lemma HeaderLayout(n: nat)
    requires n < 0x4000_0000
    ensures var h := Header(n).value;
            if n < 0x40 then h == [n as byte]
            else if n < 0x4000 then
              |h| == 2 && h[0] as int / 64 == 1 && (h[0] as int % 64) * 0x100 + h[1] as int == n
            else
              && |h| == 4 && h[0] as int / 64 == 2
              && (h[0] as int % 64) * 0x100_0000 + h[1] as int * 0x1_0000 + h[2] as int * 0x100 + h[3] as int == n
  {
    FourDigits(n);
  }

  /** A set is one byte vector that holds its elements as byte vectors, in the order
      they were written. */
  lemma SetLayout(order: seq<bytes>, tail: bytes)
    requires SerializeSet(order).Some?
    ensures var r := ReadOpaque(SerializeSet(order).value + tail);
            && r.Some? && r.value.1 == tail
            && ReadItems(r.value.0, |r.value.0|) == Some((order, []))
  {
    hide ReadHeader, ReadItems, Content, HeaderSize;
    var content := Content(order);
    assert SerializeSet(order).value + tail == Header(|content|).value + (content + tail);
    ReadHeaderWritten(|content|, content + tail);
    ConcatSplit(content, tail);
    ReadItemsWritten(order, []);
    assert content + [] == content;
  }

  /** The length reported for a set of so many elements is that of a byte vector of
      so many bytes. */
  lemma ReportedLenIs(x: bytes)
    requires |x| < MAX4
    ensures ReportedLen(|x|) == |Opaque(x).value|
  {
    hide Opaque;
    ReadOpaqueWritten(x, []);
  }
}
