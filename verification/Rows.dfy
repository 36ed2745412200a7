/** The memory store as a table of typed rows, and how its flat byte map holds
    them. */
module Rows {
  import opened Bytes
  import opened Wrappers
  import opened JsonText
  import opened JsonBytes
  import opened RowKeys

  /** What a row holds: an entity, an entity next to the derivation epoch it
      names, or a list of entities. */
  datatype RowVal =
    | Entity(j: Json)
    | Tagged(epoch: Json, j: Json)
    | List(items: seq<Json>)

  type Rows = map<RowKey, RowVal>

  function PrintAll(items: seq<Json>): (l: seq<bytes>)
    ensures |l| == |items|
    ensures forall i | 0 <= i < |items| :: l[i] == Print(items[i])
  {
    seq(|items|, i requires 0 <= i < |items| => Print(items[i]))
  }

  /** `epoch_tagged_value`. */
  function TaggedBytes(epoch: bytes, entity: bytes): bytes {
    Print(OfPair(epoch, entity))
  }

  /** `decode_epoch_tagged_value`. */
  function UntagBytes(value: bytes): Option<(bytes, bytes)> {
    match FromSlice(value)
    case None => None
    case Some(j) => ToPair(j)
  }

  lemma UntagTagged(epoch: bytes, entity: bytes)
    ensures UntagBytes(TaggedBytes(epoch, entity)) == Some((epoch, entity))
  {
    FromSlicePrinted(OfPair(epoch, entity));
    ToPairOfPair(epoch, entity);
  }

  function ListBytes(l: seq<bytes>): bytes {
    Print(OfList(l))
  }

  function UnlistBytes(value: bytes): Option<seq<bytes>> {
    match FromSlice(value)
    case None => None
    case Some(j) => ToList(j)
  }

  lemma UnlistList(l: seq<bytes>)
    ensures UnlistBytes(ListBytes(l)) == Some(l)
  {
    FromSlicePrinted(OfList(l));
    ToListOfList(l);
  }

  function ValBytes(v: RowVal): bytes {
    match v
    case Entity(j) => Print(j)
    case Tagged(e, j) => TaggedBytes(Print(e), Print(j))
    case List(items) => ListBytes(PrintAll(items))
  }

  /** The kind of value each table holds. A log entry names its own epoch. */
  predicate Typed(r: RowKey, v: RowVal) {
    match r
    case Binding(_, _) => v.Tagged?
    case LogEntry(_, e) => v.Tagged? && v.epoch == e
    case ProposalRefs(_) => v.List?
    case Plain(t, _) => if t == OwnLeafNodes then v.List? else v.Entity?
    case _ => v.Entity?
  }

  ghost predicate WellTyped(rows: Rows) {
    forall r | r in rows :: Typed(r, rows[r])
  }

  /** The flat map holds these rows and nothing else. */
  ghost predicate Represents(values: map<bytes, bytes>, rows: Rows) {
    && (forall r | r in rows :: KeyBytes(r) in values && values[KeyBytes(r)] == ValBytes(rows[r]))
    && (forall k | k in values :: exists r :: r in rows && KeyBytes(r) == k)
  }

  lemma PutRow(values: map<bytes, bytes>, rows: Rows, r: RowKey, v: RowVal)
    requires Represents(values, rows)
    ensures Represents(values[KeyBytes(r) := ValBytes(v)], rows[r := v])
  {
    hide KeyBytes, ValBytes;
    var rows' := rows[r := v];
    forall r' | r' in rows'
      ensures r' != r ==> KeyBytes(r') != KeyBytes(r)
    {
      KeyBytesInjective(r', r);
    }
    forall k | k in values && k != KeyBytes(r)
      ensures exists r' :: r' in rows' && KeyBytes(r') == k
    {
      var r' :| r' in rows && KeyBytes(r') == k;
      assert r' in rows';
    }
    assert r in rows';
  }

  lemma DropRow(values: map<bytes, bytes>, rows: Rows, r: RowKey)
    requires Represents(values, rows)
    ensures Represents(values - {KeyBytes(r)}, rows - {r})
  {
    hide KeyBytes, ValBytes;
    var rows' := rows - {r};
    forall r' | r' in rows'
      ensures KeyBytes(r') != KeyBytes(r)
    {
      KeyBytesInjective(r', r);
    }
    forall k | k in values - {KeyBytes(r)}
      ensures exists r' :: r' in rows' && KeyBytes(r') == k
    {
      var r' :| r' in rows && KeyBytes(r') == k;
      assert r' in rows';
    }
  }

  /** Dropping keys by prefix drops exactly that group's rows. */
  lemma RetainRows(values: map<bytes, bytes>, rows: Rows, t: Table, g: GroupId)
    requires Represents(values, rows) && (t == VcBindings || t == VcLogEntries)
    ensures Represents(map k | k in values && !StartsWith(k, Label(t) + Print(g)) :: values[k], DropGroup(rows, t, g))
  {
    hide KeyBytes, ValBytes, Label, Print, StartsWith;
    var values' := map k | k in values && !StartsWith(k, Label(t) + Print(g)) :: values[k];
    var rows' := DropGroup(rows, t, g);
    forall r | r in rows
      ensures StartsWith(KeyBytes(r), Label(t) + Print(g)) <==> InGroup(r, t, g)
    {
      GroupScanExact(r, t, g);
    }
    forall k | k in values'
      ensures exists r :: r in rows' && KeyBytes(r) == k
    {
      var r :| r in rows && KeyBytes(r) == k;
      assert r in rows';
    }
  }

  /** A point read sees the row, and only that row. */
  lemma GetRow(values: map<bytes, bytes>, rows: Rows, r: RowKey)
    requires Represents(values, rows)
    ensures KeyBytes(r) in values <==> r in rows
    ensures r in rows ==> values[KeyBytes(r)] == ValBytes(rows[r])
  {
    if KeyBytes(r) in values {
      var r' :| r' in rows && KeyBytes(r') == KeyBytes(r);
      KeyBytesInjective(r', r);
    }
  }

  // ------------------------------------------------------- row operations

  function EntityOf(rows: Rows, r: RowKey): Option<Json> {
    if r in rows && !rows[r].List? then Some(rows[r].j) else None
  }

  function ListOf(rows: Rows, r: RowKey): seq<Json> {
    if r in rows && rows[r].List? then rows[r].items else []
  }

  function RemoveFirst<T(==)>(s: seq<T>, x: T): seq<T> {
    if s == [] then []
    else if s[0] == x then s[1..]
    else [s[0]] + RemoveFirst(s[1..], x)
  }

  function Appended(rows: Rows, r: RowKey, x: Json): Rows {
    rows[r := List(ListOf(rows, r) + [x])]
  }

  function Removed(rows: Rows, r: RowKey, x: Json): Rows {
    rows[r := List(RemoveFirst(ListOf(rows, r), x))]
  }

  /** The rows left after dropping those of one group from a table. */
  function DropGroup(rows: Rows, t: Table, g: GroupId): Rows {
    map r | r in rows && !InGroup(r, t, g) :: rows[r]
  }

  function ProposalKeys(g: GroupId, refs: seq<Json>): set<RowKey> {
    set p | p in refs :: Proposal(g, p)
  }

  /** What a scan of one group should bring back. */
  function GroupEntities(rows: Rows, t: Table, g: GroupId): map<RowKey, Json> {
    map r | r in rows && InGroup(r, t, g) && rows[r].Tagged? :: rows[r].j
  }

  function BindingKeys(g: GroupId, epochs: seq<nat>): set<RowKey> {
    set n | n in epochs :: Binding(g, n)
  }

  function LogKeys(g: GroupId, epochs: seq<Json>): set<RowKey> {
    set e | e in epochs :: LogEntry(g, e)
  }

  /** Retained material for each reference, tagged with the epoch. */
  function PutMaterials(rows: Rows, e: Json, materials: seq<(Json, Json)>): Rows {
    if materials == [] then rows
    else
      var (k, record) := materials[|materials| - 1];
      PutMaterials(rows, e, materials[..|materials| - 1])[Material(k) := Entity(record)][MaterialEpoch(k) := Entity(e)]
  }

  // ------------------------------------------------------------- the sweep

  predicate IsEpochRow(r: RowKey) {
    r.State? || r.OpTree?
  }

  /** A row that keeps derivation epoch `e` alive. */
  predicate Names(r: RowKey, v: RowVal, e: Json) {
    || (r.MaterialEpoch? && v == Entity(e))
    || (r.LogEntry? && v.Tagged? && v.epoch == e)
    || (r.Binding? && v.Tagged? && v.epoch == e)
  }

  predicate Referenced(rows: Rows, e: Json) {
    exists r | r in rows :: Names(r, rows[r], e)
  }

  /** A tagged row of table `t` whose serialized epoch id is `id`. */
  predicate IsTaggedRow(r: RowKey, v: RowVal, t: Table, id: bytes) {
    TableOf(r) == t && v.Tagged? && Print(v.epoch) == id
  }

  predicate AnyTaggedRow(rows: Rows, t: Table, id: bytes) {
    exists r | r in rows :: IsTaggedRow(r, rows[r], t, id)
  }

  /** Every epoch with a state or a tree row. */
  function Candidates(rows: Rows): set<Json> {
    set r | r in rows && IsEpochRow(r) :: r.epoch
  }

  /** The candidates that nothing references. */
  function Unreferenced(rows: Rows): set<Json> {
    set e | e in Candidates(rows) && !Referenced(rows, e)
  }

  function DropEpochs(rows: Rows, epochs: set<Json>): Rows {
    map r | r in rows && !(IsEpochRow(r) && r.epoch in epochs) :: rows[r]
  }

  function Swept(rows: Rows): Rows {
    DropEpochs(rows, Unreferenced(rows))
  }

  /** The sweep's own deletions never change what is referenced. */
  lemma DropKeepsReferences(rows: Rows, epochs: set<Json>, e: Json)
    ensures Referenced(DropEpochs(rows, epochs), e) <==> Referenced(rows, e)
  {
    var rows' := DropEpochs(rows, epochs);
    if Referenced(rows, e) {
      var r :| r in rows && Names(r, rows[r], e);
      assert r in rows' && Names(r, rows'[r], e);
    }
    if Referenced(rows', e) {
      var r :| r in rows' && Names(r, rows'[r], e);
      assert r in rows && Names(r, rows[r], e);
    }
  }

  function Elements<T>(s: seq<T>): set<T> {
    set x | x in s
  }

  predicate Distinct<T(==)>(s: seq<T>) {
    forall i, j | 0 <= i < j < |s| :: s[i] != s[j]
  }

  /** A value with an epoch tag is a pair: the bytes of the epoch, then the bytes of
      the entity. */
  lemma TaggedLayout(e: Json, j: Json)
    ensures ValBytes(Tagged(e, j))
            == Ascii("[") + Print(OfBytes(Print(e))) + Ascii(",") + Print(OfBytes(Print(j))) + Ascii("]")
  {
    hide Print, OfBytes;
    PrintArrays(OfBytes(Print(e)), OfBytes(Print(j)));
  }

  /** A list is an array of byte arrays, in order. */
  lemma ListLayout(a: Json, b: Json)
    ensures ValBytes(List([a, b]))
            == Ascii("[") + Print(OfBytes(Print(a))) + Ascii(",") + Print(OfBytes(Print(b))) + Ascii("]")
  {
    hide Print, OfBytes;
    var l := PrintAll([a, b]);
    assert l == [Print(a), Print(b)];
    assert OfList(l).items == [OfBytes(Print(a)), OfBytes(Print(b))];
    PrintArrays(OfBytes(Print(a)), OfBytes(Print(b)));
  }
}
