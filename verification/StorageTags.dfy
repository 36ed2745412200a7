/** The derive macros that give an enum its storage tags, and the encoders and
    decoders they generate. A decoder accepts a variant by its tag (postcard) or
    by its name (JSON). */
module StorageTags {
  import opened Bytes
  import opened Wrappers
  import opened JsonText
  import opened JsonBytes

  // ------------------------------------------------------- enum definitions

  datatype Expr = IntLit(n: nat) | OtherExpr
  datatype Meta = NameValue(ident: string, value: Expr) | OtherMeta
  datatype Fields = Unit | Unnamed(count: nat) | Named
  datatype Variant = Variant(name: bytes, attrs: seq<Meta>, fields: Fields)
  type EnumDef = seq<Variant>

  const U32_LIMIT := 0x1_0000_0000

  datatype TagError = TagNotProvided | InvalidTag

  predicate IsTagAttr(m: Meta) {
    m.NameValue? && m.ident == "storage_tag"
  }

  /** The first `storage_tag = ...` attribute decides; it must be an integer that
      fits a `u32`. */
  function ExtractTag(attrs: seq<Meta>): (r: Result<nat, TagError>)
    ensures r == Err(TagNotProvided) <==> forall i | 0 <= i < |attrs| :: !IsTagAttr(attrs[i])
    ensures r.Ok? ==> r.value < U32_LIMIT && NameValue("storage_tag", IntLit(r.value)) in attrs
  {
    if attrs == [] then Err(TagNotProvided)
    else if !IsTagAttr(attrs[0]) then ExtractTag(attrs[1..])
    else if attrs[0].value.IntLit? && attrs[0].value.n < U32_LIMIT then Ok(attrs[0].value.n)
    else Err(InvalidTag)
  }

  /** Attribute `i` is the first tag attribute, and it is the number `n`. */
  predicate TagIsAt(attrs: seq<Meta>, n: nat, i: nat) {
    && i < |attrs| && attrs[i] == NameValue("storage_tag", IntLit(n)) && n < 0x1_0000_0000
    && forall j | 0 <= j < i :: !(attrs[j].NameValue? && attrs[j].ident == "storage_tag")
  }

  ghost predicate HasTag(attrs: seq<Meta>, n: nat) {
    exists i: nat :: TagIsAt(attrs, n, i)
  }

  /** The tag is the number of the first tag attribute, if that is a number below
      2 to the power of 32. */
  lemma {:induction false} ExtractTagExactly(attrs: seq<Meta>, n: nat)
    ensures ExtractTag(attrs) == Ok(n) <==> HasTag(attrs, n)
  {
    if attrs != [] {
      ExtractTagExactly(attrs[1..], n);
      if i: nat :| TagIsAt(attrs[1..], n, i) && !IsTagAttr(attrs[0]) {
        forall j | 0 <= j < i + 1
          ensures !IsTagAttr(attrs[j])
        {
          assert j > 0 ==> attrs[j] == attrs[1..][j - 1];
        }
        assert TagIsAt(attrs, n, i + 1);
      }
      if ExtractTag(attrs) == Ok(n) && IsTagAttr(attrs[0]) {
        assert TagIsAt(attrs, n, 0);
      }
      if i: nat :| TagIsAt(attrs, n, i) {
        if i > 0 {
          assert !IsTagAttr(attrs[0]);
          forall j | 0 <= j < i - 1
            ensures !IsTagAttr(attrs[1..][j])
          {
            assert attrs[1..][j] == attrs[j + 1];
          }
          assert TagIsAt(attrs[1..], n, i - 1);
        }
      }
    }
  }

  predicate Supported(f: Fields) {
    f.Unit? || (f.Unnamed? && (f.count == 1 || f.count == 2))
  }

  function Arity(f: Fields): nat
    requires Supported(f)
  {
    if f.Unit? then 0 else f.count
  }

  /** One generated match arm. */
  datatype Arm = Arm(name: bytes, tag: nat, arity: nat)

  predicate Usable(v: Variant) {
    ExtractTag(v.attrs).Ok? && Supported(v.fields)
  }

  function ArmOf(v: Variant): Arm
    requires Usable(v)
  {
    Arm(v.name, ExtractTag(v.attrs).value, Arity(v.fields))
  }

  /** The definitions the macros accept: every variant has a valid tag and a
      supported shape, and no two share a tag. */
  predicate Accepted(def: EnumDef) {
    && (forall i | 0 <= i < |def| :: Usable(def[i]))
    && forall i, j | 0 <= i < j < |def| :: ExtractTag(def[i].attrs) != ExtractTag(def[j].attrs)
  }

  function Arms(def: EnumDef): (arms: seq<Arm>)
    requires forall i | 0 <= i < |def| :: Usable(def[i])
    ensures |arms| == |def|
    ensures forall i | 0 <= i < |def| :: arms[i] == ArmOf(def[i])
  {
    seq(|def|, i requires 0 <= i < |def| => ArmOf(def[i]))
  }

  datatype MacroPanic = NoStorageTag | DuplicateTags | FieldsNotSupported

  /** Variant `n` is the first that is refused: it has no valid tag, or it repeats
      the tag of an earlier variant, or only its shape is not supported. */
  predicate RefusedAt(def: EnumDef, n: nat, e: MacroPanic) {
    && n < |def| && Accepted(def[..n])
    && var tag := ExtractTag(def[n].attrs);
    var repeated := exists i | 0 <= i < n :: ExtractTag(def[i].attrs) == tag;
    match e
    case NoStorageTag => tag.Err?
    case DuplicateTags => tag.Ok? && repeated
    case FieldsNotSupported => tag.Ok? && !repeated && !Supported(def[n].fields)
  }

  lemma RefusedNotAccepted(def: EnumDef, n: nat, e: MacroPanic)
    requires RefusedAt(def, n, e)
    ensures !Accepted(def)
  {
    hide ExtractTag, Supported;
    if e == DuplicateTags {
      var i :| 0 <= i < n && ExtractTag(def[i].attrs) == ExtractTag(def[n].attrs);
    } else {
      assert !Usable(def[n]);
    }
  }

  lemma AcceptedNext(def: EnumDef, n: nat)
    requires n < |def| && Accepted(def[..n]) && Usable(def[n])
    requires forall i | 0 <= i < n :: ExtractTag(def[i].attrs) != ExtractTag(def[n].attrs)
    ensures Accepted(def[..n + 1]) && Arms(def[..n + 1]) == Arms(def[..n]) + [ArmOf(def[n])]
  {
    hide ExtractTag, Supported, Arity;
    assert def[..n + 1] == def[..n] + [def[n]];
  }

  /** The generator loop: tags collected in a set, one arm per variant. */
  method Generate(def: EnumDef) returns (r: Result<seq<Arm>, MacroPanic>)
    ensures r.Ok? <==> Accepted(def)
    ensures r.Ok? ==> r.value == Arms(def)
    ensures r.Err? ==> exists n: nat :: RefusedAt(def, n, r.error)
  {
    hide ExtractTag, Supported, Arity;
    var storageTags: set<nat> := {};
    var arms: seq<Arm> := [];
    for n := 0 to |def|
      invariant Accepted(def[..n]) && arms == Arms(def[..n])
      invariant storageTags == set i | 0 <= i < n :: arms[i].tag
    {
      var v := def[n];
      var tag := ExtractTag(v.attrs);
      if tag.Err? {
        RefusedNotAccepted(def, n, NoStorageTag);
        return Err(NoStorageTag);
      }
      assert forall i | 0 <= i < n :: ExtractTag(def[i].attrs) == Ok(arms[i].tag);
      if tag.value in storageTags {
        RefusedNotAccepted(def, n, DuplicateTags);
        return Err(DuplicateTags);
      }
      assert forall i | 0 <= i < n :: arms[i].tag in storageTags;
      storageTags := storageTags + {tag.value};
      if !Supported(v.fields) {
        RefusedNotAccepted(def, n, FieldsNotSupported);
        return Err(FieldsNotSupported);
      }
      AcceptedNext(def, n);
      arms := arms + [ArmOf(v)];
    }
    assert def[..|def|] == def;
    r := Ok(arms);
  }

  /** Unit, one unnamed field or two. */
  predicate PlainShape(f: Fields, arity: nat) {
    (f == Unit && arity == 0) || (f == Unnamed(1) && arity == 1) || (f == Unnamed(2) && arity == 2)
  }

  ghost predicate TaggedAndPlain(v: Variant) {
    (exists n: nat :: HasTag(v.attrs, n)) && exists a: nat :: PlainShape(v.fields, a)
  }

  ghost predicate SameTag(v: Variant, w: Variant) {
    exists n: nat :: HasTag(v.attrs, n) && HasTag(w.attrs, n)
  }

  lemma UsableExactly(v: Variant)
    ensures Usable(v) <==> TaggedAndPlain(v)
    ensures Usable(v) ==> HasTag(v.attrs, ArmOf(v).tag) && PlainShape(v.fields, ArmOf(v).arity)
  {
    hide ExtractTag, HasTag;
    if Usable(v) {
      ExtractTagExactly(v.attrs, ExtractTag(v.attrs).value);
      assert PlainShape(v.fields, Arity(v.fields));
    }
    if n: nat :| HasTag(v.attrs, n) {
      ExtractTagExactly(v.attrs, n);
    }
  }

  lemma SameTagExactly(v: Variant, w: Variant)
    requires Usable(v) && Usable(w)
    ensures ExtractTag(v.attrs) == ExtractTag(w.attrs) <==> SameTag(v, w)
  {
    hide ExtractTag, HasTag;
    var n := ExtractTag(v.attrs).value;
    ExtractTagExactly(v.attrs, n);
    ExtractTagExactly(w.attrs, n);
    if m: nat :| HasTag(v.attrs, m) && HasTag(w.attrs, m) {
      ExtractTagExactly(v.attrs, m);
      ExtractTagExactly(w.attrs, m);
    }
  }

  /** The generator in terms of the attributes and shapes: it accepts exactly if
      every variant has a tag and a supported shape and no two have the same tag,
      and then the arm of a variant has its name, its tag and its field count. */
  lemma AcceptedExactly(def: EnumDef)
    ensures Accepted(def) <==>
            && (forall i | 0 <= i < |def| :: TaggedAndPlain(def[i]))
            && (forall i, j | 0 <= i < j < |def| :: !SameTag(def[i], def[j]))
    ensures Accepted(def) ==>
              forall i | 0 <= i < |def| ::
                && Arms(def)[i].name == def[i].name
                && HasTag(def[i].attrs, Arms(def)[i].tag)
                && PlainShape(def[i].fields, Arms(def)[i].arity)
  {
    hide ExtractTag, HasTag, TaggedAndPlain, SameTag, PlainShape, Supported;
    forall i | 0 <= i < |def|
      ensures Usable(def[i]) <==> TaggedAndPlain(def[i])
      ensures Usable(def[i]) ==>
                HasTag(def[i].attrs, ArmOf(def[i]).tag) && PlainShape(def[i].fields, ArmOf(def[i]).arity)
    {
      UsableExactly(def[i]);
    }
    forall i, j | 0 <= i < j < |def| && Usable(def[i]) && Usable(def[j])
      ensures ExtractTag(def[i].attrs) == ExtractTag(def[j].attrs) <==> SameTag(def[i], def[j])
    {
      SameTagExactly(def[i], def[j]);
    }
  }

  // ------------------------------------------------------ generated encoder

  /** A value of the enum: its variant and its fields, each serialized. */
  datatype EnumValue = EnumValue(name: bytes, fields: seq<bytes>)

  predicate IsValue(arms: seq<Arm>, v: EnumValue) {
    exists i | 0 <= i < |arms| :: arms[i].name == v.name && arms[i].arity == |v.fields|
  }

  /** What the compiler guarantees: variant names differ. */
  predicate NamesDiffer(arms: seq<Arm>) {
    forall i, j | 0 <= i < j < |arms| :: arms[i].name != arms[j].name
  }

  predicate TagsDiffer(arms: seq<Arm>) {
    forall i, j | 0 <= i < j < |arms| :: arms[i].tag != arms[j].tag
  }

  /** Arms as the macros generate them for an enum that compiles. */
  predicate Generated(arms: seq<Arm>) {
    NamesDiffer(arms) && TagsDiffer(arms) && forall i | 0 <= i < |arms| :: arms[i].arity <= 2 && arms[i].tag < U32_LIMIT
  }

  lemma GeneratedArms(def: EnumDef)
    requires Accepted(def) && forall i, j | 0 <= i < j < |def| :: def[i].name != def[j].name
    ensures Generated(Arms(def))
  {
    forall i, j | 0 <= i < j < |def|
      ensures Arms(def)[i].tag != Arms(def)[j].tag
    {
      assert ExtractTag(def[i].attrs) != ExtractTag(def[j].attrs);
    }
  }

  function ByName(arms: seq<Arm>, name: bytes): (r: Option<Arm>)
    ensures r.Some? ==> r.value in arms && r.value.name == name
  {
    if arms == [] then None
    else if arms[0].name == name then Some(arms[0])
    else ByName(arms[1..], name)
  }

  function ByTag(arms: seq<Arm>, tag: nat): (r: Option<Arm>)
    ensures r.Some? ==> r.value in arms && r.value.tag == tag
  {
    if arms == [] then None
    else if arms[0].tag == tag then Some(arms[0])
    else ByTag(arms[1..], tag)
  }

  lemma {:induction false} ByNameFinds(arms: seq<Arm>, a: Arm)
    requires NamesDiffer(arms) && a in arms
    ensures ByName(arms, a.name) == Some(a)
  {
    if arms[0] != a {
      var i :| 0 <= i < |arms| && arms[i] == a;
      assert arms[1..][i - 1] == a;
      ByNameFinds(arms[1..], a);
    }
  }

  lemma {:induction false} ByTagFinds(arms: seq<Arm>, a: Arm)
    requires TagsDiffer(arms) && a in arms
    ensures ByTag(arms, a.tag) == Some(a)
  {
    if arms[0] != a {
      var i :| 0 <= i < |arms| && arms[i] == a;
      assert arms[1..][i - 1] == a;
      ByTagFinds(arms[1..], a);
    }
  }

  /** The call the encoder makes on its serializer: `serialize_unit_variant`,
      `serialize_newtype_variant` or `serialize_tuple_variant` by field count. */
  datatype VariantCall = VariantCall(tag: nat, name: bytes, fields: seq<bytes>)

  function Serialize(arms: seq<Arm>, v: EnumValue): VariantCall
    requires Generated(arms) && IsValue(arms, v)
  {
    VariantCall(ArmFor(arms, v).tag, v.name, v.fields)
  }

  /** The arm of a value's variant. */
  function ArmFor(arms: seq<Arm>, v: EnumValue): (a: Arm)
    requires NamesDiffer(arms) && IsValue(arms, v)
    ensures a in arms && a.name == v.name && a.arity == |v.fields|
  {
    var i :| 0 <= i < |arms| && arms[i].name == v.name && arms[i].arity == |v.fields|;
    ByNameFinds(arms, arms[i]);
    ByName(arms, v.name).value
  }

  // --------------------------------------------- tag form, as postcard does

  /** Little-endian base-128 integers. */
  function Varint(n: nat): (s: bytes)
    ensures s != []
  {
    if n < 128 then [n as byte] else [(128 + n % 128) as byte] + Varint(n / 128)
  }

  function ReadVarint(s: bytes): (r: Option<(nat, bytes)>)
    ensures r.Some? ==> |r.value.1| < |s|
  {
    if s == [] then None
    else if s[0] < 128 then Some((s[0] as int, s[1..]))
    else
      match ReadVarint(s[1..])
      case None => None
      case Some((n, rest)) => Some((128 * n + (s[0] as int - 128), rest))
  }

  lemma {:induction false} ReadVarintWritten(n: nat, rest: bytes)
    ensures ReadVarint(Varint(n) + rest) == Some((n, rest))
  {
    var s := Varint(n) + rest;
    if n < 128 {
      assert s[1..] == rest;
    } else {
      assert s[1..] == Varint(n / 128) + rest;
      ReadVarintWritten(n / 128, rest);
    }
  }

  function WriteFields(fields: seq<bytes>): bytes {
    if fields == [] then [] else Varint(|fields[0]|) + fields[0] + WriteFields(fields[1..])
  }

  function ReadFields(s: bytes, count: nat): Option<(seq<bytes>, bytes)>
    decreases count
  {
    if count == 0 then Some(([], s))
    else
      match ReadVarint(s)
      case None => None
      case Some((n, rest)) =>
        if n > |rest| then None
        else
          match ReadFields(rest[n..], count - 1)
          case None => None
          case Some((more, rest')) => Some(([rest[..n]] + more, rest'))
  }

  lemma {:induction false} ReadFieldsWritten(fields: seq<bytes>, rest: bytes)
    ensures ReadFields(WriteFields(fields) + rest, |fields|) == Some((fields, rest))
  {
    hide Varint, ReadVarint;
    if fields == [] {
      assert WriteFields(fields) + rest == rest;
    } else {
      var f, more := fields[0], WriteFields(fields[1..]) + rest;
      assert WriteFields(fields) + rest == Varint(|f|) + (f + more);
      ReadVarintWritten(|f|, f + more);
      ConcatSplit(f, more);
      ReadFieldsWritten(fields[1..], rest);
      assert [f] + fields[1..] == fields;
    }
  }

  function ToPostcard(c: VariantCall): bytes {
    Varint(c.tag) + WriteFields(c.fields)
  }

  /** The variant id the visitor makes of what the format hands it. */
  datatype VariantId = Tag(tag: nat) | Name(name: bytes)

  function VisitInteger(v: int): Option<VariantId> {
    if 0 <= v < U32_LIMIT then Some(Tag(v)) else None
  }

  function VisitStr(v: bytes): VariantId {
    Name(v)
  }

  /** The generated match: by tag or by name, as the id says. */
  function ArmById(arms: seq<Arm>, id: VariantId): Option<Arm> {
    match id
    case Tag(tag) => ByTag(arms, tag)
    case Name(name) => ByName(arms, name)
  }

  /** The generated decoder on a numeric variant id. */
  function FromPostcard(arms: seq<Arm>, s: bytes): Option<(EnumValue, bytes)> {
    match ReadVarint(s)
    case None => None
    case Some((n, rest)) =>
      match VisitInteger(n)
      case None => None
      case Some(id) =>
        match ArmById(arms, id)
        case None => None
        case Some(a) =>
          match ReadFields(rest, a.arity)
          case None => None
          case Some((fields, rest')) => Some((EnumValue(a.name, fields), rest'))
  }

  // ------------------------------------------------- name form, as JSON does

  function ToJson(c: VariantCall): Json
    requires |c.fields| <= 2
  {
    if |c.fields| == 0 then Str(c.name)
    else if |c.fields| == 1 then Obj([Field(c.name, OfBytes(c.fields[0]))])
    else Obj([Field(c.name, OfPair(c.fields[0], c.fields[1]))])
  }

  function JsonFields(j: Json, arity: nat): Option<seq<bytes>> {
    if arity == 0 then (if j.Null? then Some([]) else None)
    else if arity == 1 then
      (match ToBytes(j)
       case None => None
       case Some(b) => Some([b]))
    else
      match ToPair(j)
      case None => None
      case Some((a, b)) => Some([a, b])
  }

  /** The generated decoder on a variant name. A bare string is a unit variant; an
      object with one entry names the variant and holds its fields. */
  function FromJson(arms: seq<Arm>, j: Json): Option<EnumValue> {
    if j.Str? then
      match ArmById(arms, VisitStr(j.s))
      case None => None
      case Some(a) => if a.arity == 0 then Some(EnumValue(a.name, [])) else None
    else if j.Obj? && |j.fields| == 1 then
      match ArmById(arms, VisitStr(j.fields[0].name))
      case None => None
      case Some(a) =>
        match JsonFields(j.fields[0].value, a.arity)
        case None => None
        case Some(fields) => Some(EnumValue(a.name, fields))
    else None
  }

  // ----------------------------------------------- round trips and evolution

  /** Bytes in tag form written under one definition, read under another: the
      same value comes back exactly if the reader has an arm with that tag, that
      name and that many fields. */
  lemma TagFormRead(arms: seq<Arm>, arms': seq<Arm>, v: EnumValue, rest: bytes)
    requires Generated(arms) && Generated(arms') && IsValue(arms, v)
    ensures FromPostcard(arms', ToPostcard(Serialize(arms, v)) + rest) == Some((v, rest))
       <==> ArmFor(arms, v) in arms'
  {
    hide Varint, ReadVarint, WriteFields, ReadFields, ByTag, ByName;
    var c := Serialize(arms, v);
    var a := ArmFor(arms, v);
    assert ToPostcard(c) + rest == Varint(c.tag) + (WriteFields(c.fields) + rest);
    ReadVarintWritten(c.tag, WriteFields(c.fields) + rest);
    ReadFieldsWritten(v.fields, rest);
    if a in arms' {
      ByTagFinds(arms', a);
    }
    if FromPostcard(arms', ToPostcard(c) + rest) == Some((v, rest)) {
      var b := ByTag(arms', c.tag).value;
      FieldCount(WriteFields(c.fields) + rest, b.arity);
      assert b == a;
    }
  }

  lemma {:induction false} FieldCount(s: bytes, count: nat)
    ensures ReadFields(s, count).Some? ==> |ReadFields(s, count).value.0| == count
    decreases count
  {
    hide ReadVarint;
    if count > 0 && ReadVarint(s).Some? {
      var (n, rest) := ReadVarint(s).value;
      if n <= |rest| {
        FieldCount(rest[n..], count - 1);
      }
    }
  }

  /** The same for the name form: the reader's tag does not matter. */
  lemma NameFormRead(arms: seq<Arm>, arms': seq<Arm>, v: EnumValue)
    requires Generated(arms) && Generated(arms') && IsValue(arms, v)
    ensures FromJson(arms', ToJson(Serialize(arms, v))) == Some(v) <==> IsValue(arms', v)
  {
    hide ByName;
    var j := ToJson(Serialize(arms, v));
    if IsValue(arms', v) {
      var b := ArmFor(arms', v);
      ByNameFinds(arms', b);
      if |v.fields| == 1 {
        ToBytesOfBytes(v.fields[0]);
        assert v.fields == [v.fields[0]];
      } else if |v.fields| == 2 {
        ToPairOfPair(v.fields[0], v.fields[1]);
        assert v.fields == [v.fields[0], v.fields[1]];
      }
    }
    if FromJson(arms', j) == Some(v) {
      var b := ByName(arms', v.name).value;
      assert b in arms' && b.arity == |v.fields|;
      var i :| 0 <= i < |arms'| && arms'[i] == b;
    }
  }

  /** Under its own definition every value survives both forms, down to the
      bytes. */
  lemma RoundTrip(arms: seq<Arm>, v: EnumValue, rest: bytes)
    requires Generated(arms) && IsValue(arms, v)
    ensures FromPostcard(arms, ToPostcard(Serialize(arms, v)) + rest) == Some((v, rest))
    ensures FromSlice(Print(ToJson(Serialize(arms, v)))) == Some(ToJson(Serialize(arms, v)))
    ensures FromJson(arms, ToJson(Serialize(arms, v))) == Some(v)
  {
    TagFormRead(arms, arms, v, rest);
    NameFormRead(arms, arms, v);
    FromSlicePrinted(ToJson(Serialize(arms, v)));
  }

  ghost predicate TagFormReadable(arms: seq<Arm>, arms': seq<Arm>)
    requires Generated(arms) && Generated(arms')
  {
    forall v: EnumValue, rest: bytes | IsValue(arms, v) ::
      FromPostcard(arms', ToPostcard(Serialize(arms, v)) + rest) == Some((v, rest))
  }

  ghost predicate NameFormReadable(arms: seq<Arm>, arms': seq<Arm>)
    requires Generated(arms) && Generated(arms')
  {
    forall v: EnumValue | IsValue(arms, v) :: FromJson(arms', ToJson(Serialize(arms, v))) == Some(v)
  }

  /** Some value of an arm's variant. */
  function Sample(a: Arm): EnumValue {
    EnumValue(a.name, seq(a.arity, _ => []))
  }

  lemma SampleOf(arms: seq<Arm>, a: Arm)
    requires Generated(arms) && a in arms
    ensures IsValue(arms, Sample(a)) && ArmFor(arms, Sample(a)) == a
  {
    var i :| 0 <= i < |arms| && arms[i] == a;
    assert arms[i].name == Sample(a).name && arms[i].arity == |Sample(a).fields|;
    var b := ArmFor(arms, Sample(a));
    var j :| 0 <= j < |arms| && arms[j] == b;
  }

  /** A new definition reads everything stored in tag form under the old one
      exactly if it keeps every old variant's tag, name and shape; order and
      additions do not matter. */
  lemma TagFormEvolution(arms: seq<Arm>, arms': seq<Arm>)
    requires Generated(arms) && Generated(arms')
    ensures TagFormReadable(arms, arms') <==> forall a | a in arms :: a in arms'
  {
    hide FromPostcard, ToPostcard, Serialize, Generated, IsValue;
    if forall a | a in arms :: a in arms' {
      forall v: EnumValue, rest: bytes | IsValue(arms, v)
        ensures FromPostcard(arms', ToPostcard(Serialize(arms, v)) + rest) == Some((v, rest))
      {
        TagFormRead(arms, arms', v, rest);
      }
    }
    if TagFormReadable(arms, arms') {
      forall a | a in arms
        ensures a in arms'
      {
        SampleOf(arms, a);
        TagFormRead(arms, arms', Sample(a), []);
        assert FromPostcard(arms', ToPostcard(Serialize(arms, Sample(a))) + []) == Some((Sample(a), []));
      }
    }
  }

  /** In name form it is enough to keep every old variant's name and shape. */
  lemma NameFormEvolution(arms: seq<Arm>, arms': seq<Arm>)
    requires Generated(arms) && Generated(arms')
    ensures NameFormReadable(arms, arms') <==> forall a | a in arms :: IsValue(arms', Sample(a))
  {
    hide FromJson, ByName;
    if forall a | a in arms :: IsValue(arms', Sample(a)) {
      forall v: EnumValue | IsValue(arms, v)
        ensures FromJson(arms', ToJson(Serialize(arms, v))) == Some(v)
      {
        assert IsValue(arms', Sample(ArmFor(arms, v)));
        assert IsValue(arms', v);
        NameFormRead(arms, arms', v);
      }
    }
    if NameFormReadable(arms, arms') {
      forall a | a in arms
        ensures IsValue(arms', Sample(a))
      {
        SampleOf(arms, a);
        NameFormRead(arms, arms', Sample(a));
      }
    }
  }

  // -------------------------------------------- reading the tags off a value

  datatype Tags = Tags(selfDescribing: bytes, nonSelfDescribing: nat)

  /** What a value's `Serialize` does at the top level. */
  datatype Serialized = EnumVariant(call: VariantCall) | Scalar | Compound

  datatype TagCheckError = AlreadyRetrieved | NotAnEnum | NoTag

  /** A serializer that only notes the tags of the variant it is handed. */
  class TagSerializer {
    var tags: Option<Tags>

    constructor ()
      ensures tags == None
    {
      tags := None;
    }

    method UpdateTags(t: Tags) returns (r: Result<(), TagCheckError>)
      modifies this
      ensures old(tags).None? ==> r == Ok(()) && tags == Some(t)
      ensures old(tags).Some? ==> r == Err(AlreadyRetrieved) && tags == old(tags)
    {
      if tags.Some? {
        return Err(AlreadyRetrieved);
      }
      tags := Some(t);
      r := Ok(());
    }
  }

  /** The tags of an enum value; anything else is an error. */
  method ForEnumVariant(value: Serialized) returns (r: Result<Tags, TagCheckError>)
    ensures match value
            case EnumVariant(c) => r == Ok(Tags(c.name, c.tag))
            case Scalar => r == Err(NoTag)
            case Compound => r == Err(NotAnEnum)
  {
    var c := new TagSerializer();
    match value {
      case EnumVariant(call) =>
        var done := c.UpdateTags(Tags(call.name, call.tag));
        if done.Err? {
          return Err(AlreadyRetrieved);
        }
      case Scalar =>
      case Compound => return Err(NotAnEnum);
    }
    if c.tags.None? {
      return Err(NoTag);
    }
    r := Ok(c.tags.value);
  }

  /** The reported tag and name are the ones stored values start with: the tag
      form begins with that tag, and both lead the decoder back to the variant. */
  lemma ReportedTagsDecode(arms: seq<Arm>, v: EnumValue)
    requires Generated(arms) && IsValue(arms, v)
    ensures var c := Serialize(arms, v);
            && StartsWith(ToPostcard(c), Varint(c.tag))
            && ByTag(arms, c.tag) == Some(ArmFor(arms, v))
            && ByName(arms, c.name) == Some(ArmFor(arms, v))
  {
    hide ByTag, ByName, Varint;
    var a := ArmFor(arms, v);
    ByTagFinds(arms, a);
    ByNameFinds(arms, a);
    ConcatSplit(Varint(a.tag), WriteFields(v.fields));
  }

  // ------------------------------------------------------------- the layout

  function Pow128(k: nat): nat {
    if k == 0 then 1 else 128 * Pow128(k - 1)
  }

  /** The low seven bits of each byte, the lowest first. */
  function LittleEndian(s: bytes): nat {
    if s == [] then 0
    else LittleEndian(s[..|s| - 1]) + (s[|s| - 1] as int % 128) * Pow128(|s| - 1)
  }

  lemma {:induction false} LittleEndianCons(b: byte, s: bytes)
    ensures LittleEndian([b] + s) == b as int % 128 + 128 * LittleEndian(s)
  {
    var t := [b] + s;
    if s == [] {
      assert t == [b] && t[..0] == [];
    } else {
      var n := |s| - 1;
      assert t[..n + 1] == [b] + s[..n] && t[n + 1] == s[n];
      LittleEndianCons(b, s[..n]);
      var d, p := s[n] as int % 128, Pow128(n);
      assert d * (128 * p) == 128 * (d * p);
    }
  }

  /** A tag is written seven bits to the byte, the lowest first, and every byte but
      the last has its top bit set. */
  lemma {:induction false} VarintLayout(n: nat)
    ensures LittleEndian(Varint(n)) == n
    ensures forall i | 0 <= i < |Varint(n)| :: Varint(n)[i] >= 128 <==> i < |Varint(n)| - 1
  {
    if n < 128 {
      assert [n as byte][..0] == [];
    } else {
      VarintLayout(n / 128);
      var b := (128 + n % 128) as byte;
      LittleEndianCons(b, Varint(n / 128));
      assert Varint(n) == [b] + Varint(n / 128);
    }
  }

  /** The JSON text of a variant without fields, with one and with two. */
  lemma NameFormText(tag: nat, name: bytes, a: bytes, b: bytes)
    ensures Print(ToJson(VariantCall(tag, name, []))) == Print(Str(name))
    ensures Print(ToJson(VariantCall(tag, name, [a])))
            == Ascii("{") + Print(Str(name)) + Ascii(":") + Print(OfBytes(a)) + Ascii("}")
    ensures Print(ToJson(VariantCall(tag, name, [a, b])))
            == Ascii("{") + Print(Str(name)) + Ascii(":")
               + (Ascii("[") + Print(OfBytes(a)) + Ascii(",") + Print(OfBytes(b)) + Ascii("]")) + Ascii("}")
  {
    hide Print, OfBytes;
    PrintArrays(OfBytes(a), OfBytes(b));
    PrintObjects(Field(name, OfBytes(a)), Field(name, OfPair(a, b)));
    PrintObjects(Field(name, OfPair(a, b)), Field(name, Null));
  }
}
