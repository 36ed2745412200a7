/** JSON as serde_json writes it (compact) and reads it back. Numbers are the
    unsigned integers the stored types consist of. */
module JsonText {
  import opened Bytes
  import opened Decimals
  import opened Wrappers

  datatype Json =
    | Null
    | Bool(b: bool)
    | Num(n: nat)
    | Str(s: bytes)
    | Arr(items: seq<Json>)
    | Obj(fields: seq<Field>)
  datatype Field = Field(name: bytes, value: Json)

  /** A value whose text shows where it ends, whatever follows. */
  predicate SelfDelimiting(v: Json) {
    !v.Num?
  }

  const QUOTE: byte := '\"' as byte
  const BACKSLASH: byte := '\\' as byte
  const COMMA: byte := ',' as byte
  const COLON: byte := ':' as byte
  const OPEN_ARR: byte := '[' as byte
  const CLOSE_ARR: byte := ']' as byte
  const OPEN_OBJ: byte := '{' as byte
  const CLOSE_OBJ: byte := '}' as byte

  // ---------------------------------------------------------------- printing

  function Hex(n: nat): byte
    requires n < 16
  {
    if n < 10 then (48 + n) as byte else (87 + n) as byte
  }

  /** One byte of a string body; control characters, the quote and the
      backslash are escaped. */
  function Escape(b: byte): (e: bytes)
    ensures |e| > 0
  {
    if b == QUOTE || b == BACKSLASH then [BACKSLASH, b]
    else if b == 8 then [BACKSLASH, 'b' as byte]
    else if b == 9 then [BACKSLASH, 't' as byte]
    else if b == 10 then [BACKSLASH, 'n' as byte]
    else if b == 12 then [BACKSLASH, 'f' as byte]
    else if b == 13 then [BACKSLASH, 'r' as byte]
    else if b < 32 then
      [BACKSLASH, 'u' as byte, ZERO, ZERO, Hex(b as int / 16), Hex(b as int % 16)]
    else [b]
  }

  function PrintStr(s: bytes): bytes {
    if s == [] then [QUOTE] else Escape(s[0]) + PrintStr(s[1..])
  }

  function Print(v: Json): bytes
    decreases v, 1
  {
    match v
    case Null => Ascii("null")
    case Bool(b) => if b then Ascii("true") else Ascii("false")
    case Num(n) => Decimal(n)
    case Str(s) => [QUOTE] + PrintStr(s)
    case Arr(items) =>
      if items == [] then [OPEN_ARR, CLOSE_ARR]
      else [OPEN_ARR] + (Print(items[0]) + PrintItems(items[1..]))
    case Obj(fields) =>
      if fields == [] then [OPEN_OBJ, CLOSE_OBJ]
      else [OPEN_OBJ] + (PrintField(fields[0]) + PrintFields(fields[1..]))
  }

  /** The items after the first, and the closing bracket. */
  function PrintItems(items: seq<Json>): bytes
    decreases items, 0
  {
    if items == [] then [CLOSE_ARR]
    else [COMMA] + (Print(items[0]) + PrintItems(items[1..]))
  }

  function PrintField(f: Field): bytes
    decreases f, 2
  {
    [QUOTE] + (PrintStr(f.name) + ([COLON] + Print(f.value)))
  }

  function PrintFields(fields: seq<Field>): bytes
    decreases fields, 0
  {
    if fields == [] then [CLOSE_OBJ]
    else [COMMA] + (PrintField(fields[0]) + PrintFields(fields[1..]))
  }

  // ----------------------------------------------------------------- parsing

  /** A parsed prefix and the bytes after it. */
  datatype Parsed<+T> = Parsed(value: T, rest: bytes)

  function Unhex(b: byte): Option<nat> {
    if IsDigit(b) then Some(b as int - 48)
    else if 'a' as byte <= b <= 'f' as byte then Some(b as int - 87)
    else if 'A' as byte <= b <= 'F' as byte then Some(b as int - 55)
    else None
  }

  /** The first byte of a string body, unescaped. */
  function ParseChar(s: bytes): (p: Option<Parsed<byte>>)
    requires s != [] && s[0] != QUOTE
    ensures p.Some? ==> |p.value.rest| < |s|
  {
    if s[0] < 32 then None
    else if s[0] != BACKSLASH then Some(Parsed(s[0], s[1..]))
    else if |s| < 2 then None
    else if s[1] == QUOTE || s[1] == BACKSLASH || s[1] == '/' as byte then Some(Parsed(s[1], s[2..]))
    else if s[1] == 'b' as byte then Some(Parsed(8, s[2..]))
    else if s[1] == 't' as byte then Some(Parsed(9, s[2..]))
    else if s[1] == 'n' as byte then Some(Parsed(10, s[2..]))
    else if s[1] == 'f' as byte then Some(Parsed(12, s[2..]))
    else if s[1] == 'r' as byte then Some(Parsed(13, s[2..]))
    else if s[1] == 'u' as byte && |s| >= 6 && s[2] == ZERO && s[3] == ZERO then
      var hi, lo := Unhex(s[4]), Unhex(s[5]);
      if hi.Some? && lo.Some? && hi.value < 8 then Some(Parsed((16 * hi.value + lo.value) as byte, s[6..]))
      else None
    else None
  }

  function ParseStr(s: bytes): (p: Option<Parsed<bytes>>)
    ensures p.Some? ==> |p.value.rest| < |s|
    decreases |s|
  {
    if s == [] then None
    else if s[0] == QUOTE then Some(Parsed([], s[1..]))
    else
      match ParseChar(s)
      case None => None
      case Some(c) =>
        match ParseStr(c.rest)
        case None => None
        case Some(t) => Some(Parsed([c.value] + t.value, t.rest))
  }

  function ParseWord(s: bytes, word: bytes, v: Json): (p: Option<Parsed<Json>>)
    requires word != []
    ensures p.Some? ==> |p.value.rest| < |s|
  {
    if StartsWith(s, word) then Some(Parsed(v, s[|word|..])) else None
  }

  function ParseNum(s: bytes): (p: Option<Parsed<Json>>)
    ensures p.Some? ==> |p.value.rest| < |s|
  {
    var k := DigitRun(s);
    if Canonical(s[..k]) then Some(Parsed(Num(Value(s[..k])), s[k..])) else None
  }

  function Parse(s: bytes): (p: Option<Parsed<Json>>)
    ensures p.Some? ==> |p.value.rest| < |s|
    decreases |s|, 1
  {
    if s == [] then None
    else if s[0] == 'n' as byte then ParseWord(s, Ascii("null"), Null)
    else if s[0] == 't' as byte then ParseWord(s, Ascii("true"), Bool(true))
    else if s[0] == 'f' as byte then ParseWord(s, Ascii("false"), Bool(false))
    else if IsDigit(s[0]) then ParseNum(s)
    else if s[0] == QUOTE then
      match ParseStr(s[1..])
      case None => None
      case Some(t) => Some(Parsed(Str(t.value), t.rest))
    else if s[0] == OPEN_ARR then
      if |s| >= 2 && s[1] == CLOSE_ARR then Some(Parsed(Arr([]), s[2..]))
      else
        (match Parse(s[1..])
         case None => None
         case Some(h) =>
           match ParseItems(h.rest)
           case None => None
           case Some(t) => Some(Parsed(Arr([h.value] + t.value), t.rest)))
    else if s[0] == OPEN_OBJ then
      if |s| >= 2 && s[1] == CLOSE_OBJ then Some(Parsed(Obj([]), s[2..]))
      else
        (match ParseField(s[1..])
         case None => None
         case Some(h) =>
           match ParseFields(h.rest)
           case None => None
           case Some(t) => Some(Parsed(Obj([h.value] + t.value), t.rest)))
    else None
  }

  function ParseItems(s: bytes): (p: Option<Parsed<seq<Json>>>)
    ensures p.Some? ==> |p.value.rest| < |s|
    decreases |s|, 0
  {
    if s == [] then None
    else if s[0] == CLOSE_ARR then Some(Parsed([], s[1..]))
    else if s[0] == COMMA then
      match Parse(s[1..])
      case None => None
      case Some(h) =>
        match ParseItems(h.rest)
        case None => None
        case Some(t) => Some(Parsed([h.value] + t.value, t.rest))
    else None
  }

  function ParseField(s: bytes): (p: Option<Parsed<Field>>)
    ensures p.Some? ==> |p.value.rest| < |s|
    decreases |s|, 0
  {
    if s == [] || s[0] != QUOTE then None
    else
      match ParseStr(s[1..])
      case None => None
      case Some(k) =>
        if k.rest == [] || k.rest[0] != COLON then None
        else
          match Parse(k.rest[1..])
          case None => None
          case Some(v) => Some(Parsed(Field(k.value, v.value), v.rest))
  }

  function ParseFields(s: bytes): (p: Option<Parsed<seq<Field>>>)
    ensures p.Some? ==> |p.value.rest| < |s|
    decreases |s|, 0
  {
    if s == [] then None
    else if s[0] == CLOSE_OBJ then Some(Parsed([], s[1..]))
    else if s[0] == COMMA then
      match ParseField(s[1..])
      case None => None
      case Some(h) =>
        match ParseFields(h.rest)
        case None => None
        case Some(t) => Some(Parsed([h.value] + t.value, t.rest))
    else None
  }

  /** `serde_json::from_slice`: one value and nothing after it. */
  function FromSlice(s: bytes): Option<Json> {
    match Parse(s)
    case Some(p) => if p.rest == [] then Some(p.value) else None
    case None => None
  }

  // -------------------------------------------------------------- round trip

  lemma ParseEscaped(b: byte, rest: bytes)
    ensures Escape(b)[0] != QUOTE
    ensures ParseChar(Escape(b) + rest) == Some(Parsed(b, rest))
  {
    var e := Escape(b);
    var s := e + rest;
    assert s[|e|..] == rest;
    if b < 32 && |e| == 6 {
      var hi, lo := b as int / 16, b as int % 16;
      assert Unhex(Hex(hi)) == Some(hi) && Unhex(Hex(lo)) == Some(lo);
      assert s[4] == Hex(hi) && s[5] == Hex(lo);
      assert 16 * hi + lo == b as int;
    }
  }

  lemma {:induction false} ParsePrintedStr(s: bytes, rest: bytes)
    ensures ParseStr(PrintStr(s) + rest) == Some(Parsed(s, rest))
  {
    if s == [] {
      assert ([QUOTE] + rest)[1..] == rest;
    } else {
      var tail := PrintStr(s[1..]) + rest;
      assert PrintStr(s) + rest == Escape(s[0]) + tail;
      ParseEscaped(s[0], tail);
      ParsePrintedStr(s[1..], rest);
      assert [s[0]] + s[1..] == s;
    }
  }

  /** After a number the text must not go on with a digit. */
  predicate Bounded(v: Json, rest: bytes) {
    SelfDelimiting(v) || rest == [] || !IsDigit(rest[0])
  }

  lemma FirstByte(v: Json)
    ensures Print(v) != [] && Print(v)[0] != CLOSE_ARR
  {
    if v.Num? {
      assert IsDigit(Decimal(v.n)[0]);
    }
  }

  /** Reading what was printed gives back the value and stops exactly where it
      ended. */
  lemma {:induction false} ParsePrinted(v: Json, rest: bytes)
    requires Bounded(v, rest)
    ensures Parse(Print(v) + rest) == Some(Parsed(v, rest))
    decreases v, 1
  {
    match v
    case Null => ParsePrintedWord(v, rest);
    case Bool(b) => ParsePrintedWord(v, rest);
    case Num(n) => ParsePrintedNum(n, rest);
    case Str(t) => ParsePrintedQuoted(t, rest);
    case Arr(items) => ParsePrintedArr(items, rest);
    case Obj(fields) => ParsePrintedObj(fields, rest);
  }

  lemma ParsePrintedWord(v: Json, rest: bytes)
    requires v.Null? || v.Bool?
    ensures Parse(Print(v) + rest) == Some(Parsed(v, rest))
  {
    var s := Print(v) + rest;
    assert s[..|Print(v)|] == Print(v) && s[|Print(v)|..] == rest;
    assert s[0] == Print(v)[0];
  }

  lemma ParsePrintedQuoted(t: bytes, rest: bytes)
    ensures Parse(Print(Str(t)) + rest) == Some(Parsed(Str(t), rest))
  {
    var s := Print(Str(t)) + rest;
    assert s[0] == QUOTE && s[1..] == PrintStr(t) + rest;
    ParsePrintedStr(t, rest);
  }

  lemma ParsePrintedNum(n: nat, rest: bytes)
    requires Bounded(Num(n), rest)
    ensures Parse(Print(Num(n)) + rest) == Some(Parsed(Num(n), rest))
  {
    var d := Decimal(n);
    var s := d + rest;
    assert IsDigit(d[0]) && s[0] == d[0];
    DigitRunOfConcat(d, rest);
    assert s[..|d|] == d && s[|d|..] == rest;
    ValueOfDecimal(n);
  }

  lemma {:induction false} ParsePrintedArr(items: seq<Json>, rest: bytes)
    ensures Parse(Print(Arr(items)) + rest) == Some(Parsed(Arr(items), rest))
    decreases items, 1
  {
    var s := Print(Arr(items)) + rest;
    if items == [] {
      assert s[2..] == rest;
    } else {
      ParsePrintedHead(items[0], PrintItems(items[1..]), rest, s, OPEN_ARR);
      ParsePrinted(items[0], PrintItems(items[1..]) + rest);
      ParsePrintedItems(items[1..], rest);
      assert [items[0]] + items[1..] == items;
    }
  }

  lemma {:induction false} ParsePrintedObj(fields: seq<Field>, rest: bytes)
    ensures Parse(Print(Obj(fields)) + rest) == Some(Parsed(Obj(fields), rest))
    decreases fields, 1
  {
    var s := Print(Obj(fields)) + rest;
    if fields == [] {
      assert s[2..] == rest;
    } else {
      var more := PrintFields(fields[1..]) + rest;
      Regroup([OPEN_OBJ], PrintField(fields[0]), PrintFields(fields[1..]), rest);
      assert s[1..] == PrintField(fields[0]) + more;
      assert s[1] == QUOTE;
      ParsePrintedField(fields[0], more);
      ParsePrintedFields(fields[1..], rest);
      assert [fields[0]] + fields[1..] == fields;
    }
  }

  lemma Regroup(a: bytes, b: bytes, c: bytes, d: bytes)
    ensures (a + (b + c)) + d == a + (b + (c + d))
  {
  }

  lemma ParsePrintedHead(v: Json, tail: bytes, rest: bytes, s: bytes, open: byte)
    requires s == ([open] + (Print(v) + tail)) + rest
    ensures s[0] == open && s[1..] == Print(v) + (tail + rest)
    ensures |s| >= 2 && s[1] != CLOSE_ARR
  {
    FirstByte(v);
    assert s[1] == Print(v)[0];
  }

  lemma {:induction false} ParsePrintedItems(items: seq<Json>, rest: bytes)
    ensures ParseItems(PrintItems(items) + rest) == Some(Parsed(items, rest))
    decreases items, 0
  {
    var s := PrintItems(items) + rest;
    if items == [] {
      assert s[1..] == rest;
    } else {
      ParsePrintedHead(items[0], PrintItems(items[1..]), rest, s, COMMA);
      ParsePrinted(items[0], PrintItems(items[1..]) + rest);
      ParsePrintedItems(items[1..], rest);
      assert [items[0]] + items[1..] == items;
    }
  }

  lemma {:induction false} ParsePrintedField(f: Field, rest: bytes)
    requires rest == [] || !IsDigit(rest[0])
    ensures ParseField(PrintField(f) + rest) == Some(Parsed(f, rest))
    decreases f, 2
  {
    var tail := [COLON] + (Print(f.value) + rest);
    assert PrintField(f) + rest == [QUOTE] + (PrintStr(f.name) + tail) by {
      Regroup([QUOTE], PrintStr(f.name), [COLON] + Print(f.value), rest);
      assert ([COLON] + Print(f.value)) + rest == tail;
    }
    ParsePrintedStr(f.name, tail);
    ParsePrinted(f.value, rest);
    ParseFieldParts(f, PrintStr(f.name) + tail, tail, rest);
  }

  lemma ParseFieldParts(f: Field, body: bytes, tail: bytes, rest: bytes)
    requires ParseStr(body) == Some(Parsed(f.name, tail))
    requires tail != [] && tail[0] == COLON
    requires Parse(tail[1..]) == Some(Parsed(f.value, rest))
    ensures ParseField([QUOTE] + body) == Some(Parsed(f, rest))
  {
    assert ([QUOTE] + body)[1..] == body;
  }

  lemma {:induction false} ParsePrintedFields(fields: seq<Field>, rest: bytes)
    ensures ParseFields(PrintFields(fields) + rest) == Some(Parsed(fields, rest))
    decreases fields, 0
  {
    var s := PrintFields(fields) + rest;
    if fields == [] {
      assert s[1..] == rest;
    } else {
      var more := PrintFields(fields[1..]) + rest;
      Regroup([COMMA], PrintField(fields[0]), PrintFields(fields[1..]), rest);
      assert s[1..] == PrintField(fields[0]) + more;
      ParsePrintedField(fields[0], more);
      ParsePrintedFields(fields[1..], rest);
      assert [fields[0]] + fields[1..] == fields;
    }
  }

  lemma FromSlicePrinted(v: Json)
    ensures FromSlice(Print(v)) == Some(v)
  {
    ParsePrinted(v, []);
    assert Print(v) + [] == Print(v);
  }

  lemma PrintInjective(a: Json, b: Json)
    requires Print(a) == Print(b)
    ensures a == b
  {
    FromSlicePrinted(a);
    FromSlicePrinted(b);
  }

  /** The printed form of a self-delimiting value is never the start of another
      one's: both the value and what follows it can be read off. */
  lemma UniqueSplit(a: Json, b: Json, x: bytes, y: bytes)
    requires SelfDelimiting(a) && SelfDelimiting(b)
    requires Print(a) + x == Print(b) + y
    ensures a == b && x == y
  {
    ParsePrinted(a, x);
    ParsePrinted(b, y);
  }

  // ------------------------------------------------------------ what is written

  /** Words as they are written. */
  lemma PrintWords()
    ensures Print(Null) == Ascii("null") && Print(Bool(true)) == Ascii("true") && Print(Bool(false)) == Ascii("false")
    ensures Print(Arr([])) == Ascii("[]") && Print(Obj([])) == Ascii("{}")
  {
  }

  lemma ArrayStep(items: seq<Json>)
    requires items != []
    ensures Print(Arr(items)) == [OPEN_ARR] + (Print(items[0]) + PrintItems(items[1..]))
    ensures PrintItems(items) == [COMMA] + (Print(items[0]) + PrintItems(items[1..]))
    ensures PrintItems([]) == [CLOSE_ARR]
  {
  }

  /** Arrays as they are written: brackets and commas without white space. */
  lemma PrintArrays(a: Json, b: Json)
    ensures Print(Arr([a])) == Ascii("[") + Print(a) + Ascii("]")
    ensures Print(Arr([a, b])) == Ascii("[") + Print(a) + Ascii(",") + Print(b) + Ascii("]")
  {
    hide Print, PrintItems;
    ArrayStep([a]);
    ArrayStep([a, b]);
    ArrayStep([b]);
    assert [a][1..] == [] && [a, b][1..] == [b] && [b][1..] == [];
    assert Ascii("[") == [OPEN_ARR] && Ascii("]") == [CLOSE_ARR] && Ascii(",") == [COMMA];
  }

  lemma PrintFieldIs(f: Field)
    ensures PrintField(f) == Print(Str(f.name)) + Ascii(":") + Print(f.value)
  {
    hide PrintStr;
    assert Ascii(":") == [COLON];
  }

  /** Objects as they are written: braces, colons and commas without white space. */
  lemma PrintObjects(f: Field, g: Field)
    ensures PrintField(f) == Print(Str(f.name)) + Ascii(":") + Print(f.value)
    ensures Print(Obj([f])) == Ascii("{") + PrintField(f) + Ascii("}")
    ensures Print(Obj([f, g])) == Ascii("{") + PrintField(f) + Ascii(",") + PrintField(g) + Ascii("}")
  {
    hide PrintField;
    PrintFieldIs(f);
    assert [f][1..] == [] && [f, g][1..] == [g] && [g][1..] == [];
    var x, y := PrintField(f), PrintField(g);
    assert PrintFields([]) == [CLOSE_OBJ];
    assert PrintFields([g]) == [COMMA] + (y + [CLOSE_OBJ]);
    assert Print(Obj([f])) == [OPEN_OBJ] + (x + [CLOSE_OBJ]);
    assert Print(Obj([f, g])) == [OPEN_OBJ] + (x + ([COMMA] + (y + [CLOSE_OBJ])));
    assert Ascii("{") == [OPEN_OBJ] && Ascii("}") == [CLOSE_OBJ] && Ascii(",") == [COMMA];
  }

  /** Text without quotes, backslashes and control characters stands for itself. */
  lemma {:induction false} PlainStr(s: bytes)
    requires forall i | 0 <= i < |s| :: s[i] >= 32 && s[i] != QUOTE && s[i] != BACKSLASH
    ensures PrintStr(s) == s + Ascii("\"")
    ensures Print(Str(s)) == Ascii("\"") + s + Ascii("\"")
  {
    hide PrintStr;
    assert Ascii("\"") == [QUOTE];
    PlainStep(s);
    if s != [] {
      PlainStr(s[1..]);
      assert s == [s[0]] + s[1..];
      assert [s[0]] + (s[1..] + [QUOTE]) == ([s[0]] + s[1..]) + [QUOTE];
    }
  }

  lemma PlainStep(s: bytes)
    requires s != [] ==> s[0] >= 32 && s[0] != QUOTE && s[0] != BACKSLASH
    ensures PrintStr(s) == if s == [] then [QUOTE] else [s[0]] + PrintStr(s[1..])
  {
  }

  /** The other bytes are escaped: quotes and backslashes by a backslash, five
      control characters by a letter, the rest by four hexadecimal digits. */
  lemma EscapeExactly()
    ensures Escape(34) == Ascii("\\\"") && Escape(92) == Ascii("\\\\")
    ensures Escape(8) == Ascii("\\b") && Escape(9) == Ascii("\\t") && Escape(10) == Ascii("\\n")
    ensures Escape(12) == Ascii("\\f") && Escape(13) == Ascii("\\r")
    ensures Escape(0) == Ascii("\\u0000") && Escape(11) == Ascii("\\u000b") && Escape(31) == Ascii("\\u001f")
  {
  }

  /** Numbers are written in decimal digits, the highest first. */
  lemma PrintNum(n: nat, d: nat)
    requires n > 0 && d < 10
    ensures Print(Num(d)) == [(48 + d) as byte]
    ensures Print(Num(10 * n + d)) == Print(Num(n)) + [(48 + d) as byte]
  {
  }
}
