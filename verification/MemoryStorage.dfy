/** The in-memory storage provider: one flat map from bytes to bytes behind a
    lock. Each helper below is one lock section. */
module MemoryStore {
  import opened Bytes
  import opened Wrappers
  import opened JsonText
  import opened JsonBytes
  import opened RowKeys
  import opened Rows
  import opened Bags
  import Ops = VirtualClientOps

  /** `Panicked` stands for an `unwrap` on a missing or malformed row. */
  datatype StorageError = SerializationError | Panicked

  const EMPTY_LIST: bytes := Ascii("[]")

  lemma EmptyListReads()
    ensures UnlistBytes(EMPTY_LIST) == Some([])
  {
    assert OfList([]).items == [];
    assert EMPTY_LIST == ListBytes([]);
    UnlistList([]);
  }

  /** The list stored under `k`, empty if there is none. */
  function StoredList(values: map<bytes, bytes>, k: bytes): Option<seq<bytes>> {
    if k in values then UnlistBytes(values[k]) else Some([])
  }

  /** Each item of a stored list, decoded. */
  function DecodeAll(l: seq<bytes>): Option<seq<Json>> {
    if forall i | 0 <= i < |l| :: FromSlice(l[i]).Some? then
      Some(seq(|l|, i requires 0 <= i < |l| => FromSlice(l[i]).value))
    else None
  }

  lemma DecodeAllPrinted(items: seq<Json>)
    ensures DecodeAll(PrintAll(items)) == Some(items)
  {
    var l := PrintAll(items);
    forall i | 0 <= i < |l|
      ensures FromSlice(l[i]) == Some(items[i])
    {
      FromSlicePrinted(items[i]);
    }
    assert DecodeAll(l).value == items;
  }

  /** Comparing serialized items finds the same item as comparing the items. */
  lemma {:induction false} RemoveFirstPrinted(items: seq<Json>, x: Json)
    ensures RemoveFirst(PrintAll(items), Print(x)) == PrintAll(RemoveFirst(items, x))
  {
    if items != [] {
      var l := PrintAll(items);
      assert l[1..] == PrintAll(items[1..]);
      if items[0] == x {
      } else {
        if l[0] == Print(x) {
          PrintInjective(items[0], x);
        }
        RemoveFirstPrinted(items[1..], x);
        assert PrintAll([items[0]] + RemoveFirst(items[1..], x))
            == [l[0]] + PrintAll(RemoveFirst(items[1..], x));
      }
    }
  }

  /** The epoch id in a key of table `t`, if it is one. */
  function CandidateId(k: bytes, t: Table): Option<bytes> {
    if StartsWith(k, Label(t)) && |k| > |Label(t)| + |VERSION| then
      Some(k[|Label(t)|..|k| - |VERSION|])
    else None
  }

  lemma CandidateKey(r: RowKey, t: Table)
    requires t == VcEpochStates || t == VcOperationTrees
    ensures CandidateId(KeyBytes(r), t) == if TableOf(r) == t then Some(Body(r)) else None
  {
    hide Label, Print;
    LabelScanExact(r, t);
    if TableOf(r) == t {
      FirstByte(r.epoch);
      assert KeyBytes(r)[|Label(t)|..|KeyBytes(r)| - |VERSION|] == Body(r);
    }
  }

  function PrintSet(s: set<Json>): set<bytes> {
    set e | e in s :: Print(e)
  }

  /** `any_entry_under_label`. */
  predicate AnyEntry(values: map<bytes, bytes>, t: Table, value: bytes) {
    exists k | k in values :: StartsWith(k, Label(t)) && values[k] == value
  }

  lemma AnyEntryIsTag(values: map<bytes, bytes>, rows: Rows, epoch: Json)
    requires Represents(values, rows) && WellTyped(rows)
    ensures AnyEntry(values, RetainedEpochs, Print(epoch))
            <==> exists r :: r in rows && r.MaterialEpoch? && rows[r] == Entity(epoch)
  {
    hide KeyBytes, Label, Print, StartsWith;
    forall r
      ensures StartsWith(KeyBytes(r), Label(RetainedEpochs)) <==> r.MaterialEpoch?
    {
      LabelScanExact(r, RetainedEpochs);
    }
    if AnyEntry(values, RetainedEpochs, Print(epoch)) {
      var k :| k in values && StartsWith(k, Label(RetainedEpochs)) && values[k] == Print(epoch);
      var r :| r in rows && KeyBytes(r) == k;
      PrintInjective(rows[r].j, epoch);
      assert r in rows && r.MaterialEpoch? && rows[r] == Entity(epoch);
    }
    if r :| r in rows && r.MaterialEpoch? && rows[r] == Entity(epoch) {
      assert KeyBytes(r) in values;
    }
  }

  /** The three reference checks together say what `Referenced` says. */
  lemma ReferencedBySource(values: map<bytes, bytes>, rows: Rows, epoch: Json)
    requires Represents(values, rows) && WellTyped(rows)
    ensures Referenced(rows, epoch) <==>
            || AnyEntry(values, RetainedEpochs, Print(epoch))
            || AnyTaggedRow(rows, VcLogEntries, Print(epoch))
            || AnyTaggedRow(rows, VcBindings, Print(epoch))
  {
    hide Represents, KeyBytes, Label, Print, AnyEntry;
    AnyEntryIsTag(values, rows, epoch);
    SamePrintSameEpoch(epoch);
    if Referenced(rows, epoch) {
      var r :| r in rows && Names(r, rows[r], epoch);
      assert r.LogEntry? ==> IsTaggedRow(r, rows[r], VcLogEntries, Print(epoch));
      assert r.Binding? ==> IsTaggedRow(r, rows[r], VcBindings, Print(epoch));
    }
    if r :| && r in rows
            && (|| IsTaggedRow(r, rows[r], VcLogEntries, Print(epoch))
                || IsTaggedRow(r, rows[r], VcBindings, Print(epoch))) {
      assert Names(r, rows[r], epoch);
    }
    if r :| r in rows && r.MaterialEpoch? && rows[r] == Entity(epoch) {
      assert Names(r, rows[r], epoch);
    }
  }

  lemma SamePrintSameEpoch(epoch: Json)
    ensures forall e | Print(e) == Print(epoch) :: e == epoch
  {
    forall e | Print(e) == Print(epoch)
      ensures e == epoch
    {
      PrintInjective(e, epoch);
    }
  }

  /** The entities of a group whose keys a scan has yet to visit. */
  ghost function Remaining(rows: Rows, t: Table, g: GroupId, todo: set<bytes>): map<RowKey, Json> {
    map r | r in rows && InGroup(r, t, g) && rows[r].Tagged? && KeyBytes(r) in todo :: rows[r].j
  }

  lemma ScanStep(rows: Rows, t: Table, g: GroupId, todo: set<bytes>, r: RowKey)
    requires r in rows && KeyBytes(r) in todo
    requires forall r' | r' in rows && KeyBytes(r') == KeyBytes(r) :: r' == r
    ensures InGroup(r, t, g) && rows[r].Tagged? ==>
              && r in Remaining(rows, t, g, todo) && Remaining(rows, t, g, todo)[r] == rows[r].j
              && Remaining(rows, t, g, todo - {KeyBytes(r)}) == Remaining(rows, t, g, todo) - {r}
    ensures !InGroup(r, t, g) ==> Remaining(rows, t, g, todo - {KeyBytes(r)}) == Remaining(rows, t, g, todo)
  {
    hide KeyBytes;
  }

  lemma SweepStep(rows: Rows, deleted: seq<Json>, epochs: set<Json>, e: Json)
    requires e in epochs && epochs <= Candidates(rows) && Distinct(deleted)
    requires Elements(deleted) == Unreferenced(rows) - epochs
    ensures Referenced(rows, e) ==> Elements(deleted) == Unreferenced(rows) - (epochs - {e})
    ensures !Referenced(rows, e) ==>
              && Distinct(deleted + [e])
              && Elements(deleted + [e]) == Unreferenced(rows) - (epochs - {e})
              && DropEpochs(rows, Elements(deleted + [e]))
                 == DropEpochs(rows, Elements(deleted)) - {State(e)} - {OpTree(e)}
  {
    hide Referenced;
    assert Elements(deleted + [e]) == Elements(deleted) + {e};
    if !Referenced(rows, e) {
      assert e !in Elements(deleted);
    }
  }

  class MemoryStorage {
    var values: map<bytes, bytes>
    ghost var rows: Rows

    ghost predicate Valid()
      reads this
    {
      WellTyped(rows) && Represents(values, rows)
    }

    constructor ()
      ensures Valid() && rows == map[]
    {
      values := map[];
      rows := map[];
    }

    // ------------------------------------------------------- byte helpers

    method Write(t: Table, key: bytes, value: bytes)
      modifies this`values
      ensures values == old(values)[BuildKey(t, key) := value]
    {
      values := values[BuildKey(t, key) := value];
    }

    method Delete(t: Table, key: bytes)
      modifies this`values
      ensures values == old(values) - {BuildKey(t, key)}
    {
      values := values - {BuildKey(t, key)};
    }

    method Append(t: Table, key: bytes, value: bytes) returns (res: Result<(), StorageError>)
      modifies this`values
      ensures match StoredList(old(values), BuildKey(t, key))
              case Some(l) => res == Ok(()) && values == old(values)[BuildKey(t, key) := ListBytes(l + [value])]
              case None => res == Err(SerializationError) && values == old(values)
    {
      var storageKey := BuildKey(t, key);
      EmptyListReads();
      if storageKey !in values {
        values := values[storageKey := EMPTY_LIST];
      }
      var list := UnlistBytes(values[storageKey]);
      if list.None? {
        return Err(SerializationError);
      }
      values := values[storageKey := ListBytes(list.value + [value])];
      res := Ok(());
    }

    method RemoveItem(t: Table, key: bytes, value: bytes) returns (res: Result<(), StorageError>)
      modifies this`values
      ensures match StoredList(old(values), BuildKey(t, key))
              case Some(l) =>
                res == Ok(()) && values == old(values)[BuildKey(t, key) := ListBytes(RemoveFirst(l, value))]
              case None => res == Err(SerializationError) && values == old(values)
    {
      var storageKey := BuildKey(t, key);
      EmptyListReads();
      if storageKey !in values {
        values := values[storageKey := EMPTY_LIST];
      }
      var list := UnlistBytes(values[storageKey]);
      if list.None? {
        return Err(SerializationError);
      }
      values := values[storageKey := ListBytes(RemoveFirst(list.value, value))];
      res := Ok(());
    }

    method Read(t: Table, key: bytes) returns (res: Result<Option<Json>, StorageError>)
      ensures BuildKey(t, key) !in values ==> res == Ok(None)
      ensures BuildKey(t, key) in values ==>
                match FromSlice(values[BuildKey(t, key)])
                case Some(j) => res == Ok(Some(j))
                case None => res == Err(SerializationError)
    {
      var storageKey := BuildKey(t, key);
      if storageKey in values {
        match FromSlice(values[storageKey])
        case Some(j) => res := Ok(Some(j));
        case None => res := Err(SerializationError);
      } else {
        res := Ok(None);
      }
    }

    method ReadList(t: Table, key: bytes) returns (res: Result<seq<Json>, StorageError>)
      ensures match StoredList(values, BuildKey(t, key))
              case None => res == Err(Panicked)
              case Some(l) =>
                match DecodeAll(l)
                case Some(items) => res == Ok(items)
                case None => res == Err(SerializationError)
    {
      var list := StoredList(values, BuildKey(t, key));
      if list.None? {
        return Err(Panicked);
      }
      match DecodeAll(list.value)
      case Some(items) => res := Ok(items);
      case None => res := Err(SerializationError);
    }

    // --------------------------------------------------------- row sections

    /** Any `write_*` of a single entity. */
    method WriteEntity(r: RowKey, j: Json)
      requires Valid() && Typed(r, Entity(j))
      modifies this
      ensures Valid() && rows == old(rows)[r := Entity(j)]
    {
      Write(TableOf(r), Body(r), Print(j));
      PutRow(old(values), rows, r, Entity(j));
      rows := rows[r := Entity(j)];
    }

    /** Any getter of a single entity that goes through `read`. */
    method ReadEntity(r: RowKey) returns (res: Result<Option<Json>, StorageError>)
      requires Valid() && Typed(r, Entity(Null))
      ensures res == Ok(EntityOf(rows, r))
    {
      GetRow(values, rows, r);
      if r in rows {
        FromSlicePrinted(rows[r].j);
      }
      res := Read(TableOf(r), Body(r));
    }

    /** The getters of states, trees and material: they decode straight into an
        `Option`, so a stored `null` reads as absent. */
    method ReadOptional(r: RowKey) returns (res: Result<Option<Json>, StorageError>)
      requires Valid() && (r.State? || r.OpTree? || r.Material?)
      ensures res == Ok(if EntityOf(rows, r) == Some(Null) then None else EntityOf(rows, r))
    {
      hide Print;
      GetRow(values, rows, r);
      var key := BuildKey(TableOf(r), Body(r));
      if key !in values {
        return Ok(None);
      }
      FromSlicePrinted(rows[r].j);
      var value := FromSlice(values[key]);
      if value.None? {
        return Err(Panicked);
      }
      res := Ok(if value.value == Null then None else value);
    }

    /** Any `delete_*` of a single row. */
    method DeleteRow(r: RowKey)
      requires Valid()
      modifies this
      ensures Valid() && rows == old(rows) - {r}
    {
      Delete(TableOf(r), Body(r));
      DropRow(old(values), rows, r);
      rows := rows - {r};
    }

    lemma KeysPresent()
      requires Valid()
      ensures forall r | r in rows :: KeyBytes(r) in values
    {
      hide KeyBytes, ValBytes;
    }

    /** The row behind a key of the flat map. */
    lemma RowFor(k: bytes) returns (r: RowKey)
      requires Valid() && k in values
      ensures r in rows && KeyBytes(r) == k && values[k] == ValBytes(rows[r]) && Typed(r, rows[r])
      ensures forall r' | r' in rows && KeyBytes(r') == k :: r' == r
    {
      hide KeyBytes, ValBytes;
      r :| r in rows && KeyBytes(r) == k;
      forall r' | r' in rows && KeyBytes(r') == k
        ensures r' == r
      {
        KeyBytesInjective(r', r);
      }
    }

    lemma DecodedAt(r: RowKey)
      requires Valid() && r in rows && rows[r].Tagged?
      ensures KeyBytes(r) in values
      ensures UntagBytes(values[KeyBytes(r)]) == Some((Print(rows[r].epoch), Print(rows[r].j)))
      ensures FromSlice(Print(rows[r].j)) == Some(rows[r].j)
    {
      hide KeyBytes, Print, UntagBytes;
      UntagTagged(Print(rows[r].epoch), Print(rows[r].j));
      FromSlicePrinted(rows[r].j);
    }

    lemma StoredItems(r: RowKey)
      requires Valid() && Typed(r, List([]))
      ensures StoredList(values, KeyBytes(r)) == Some(PrintAll(ListOf(rows, r)))
    {
      GetRow(values, rows, r);
      if r in rows {
        UnlistList(PrintAll(rows[r].items));
      }
    }

    method AppendItem(r: RowKey, x: Json) returns (res: Result<(), StorageError>)
      requires Valid() && Typed(r, List([]))
      modifies this
      ensures Valid() && res == Ok(())
      ensures rows == Appended(old(rows), r, x)
    {
      hide Label, Body, TableOf, Print, ListBytes, Represents, RemoveFirst;
      StoredItems(r);
      res := Append(TableOf(r), Body(r), Print(x));
      ghost var items := ListOf(rows, r);
      assert PrintAll(items) + [Print(x)] == PrintAll(items + [x]);
      PutRow(old(values), rows, r, List(items + [x]));
      rows := Appended(rows, r, x);
    }

    method RemoveListItem(r: RowKey, x: Json) returns (res: Result<(), StorageError>)
      requires Valid() && Typed(r, List([]))
      modifies this
      ensures Valid() && res == Ok(())
      ensures rows == Removed(old(rows), r, x)
    {
      hide Label, Body, TableOf, Print, ListBytes, Represents, RemoveFirst;
      StoredItems(r);
      res := RemoveItem(TableOf(r), Body(r), Print(x));
      ghost var items := ListOf(rows, r);
      RemoveFirstPrinted(items, x);
      PutRow(old(values), rows, r, List(RemoveFirst(items, x)));
      rows := Removed(rows, r, x);
    }

    method ReadItems(r: RowKey) returns (res: Result<seq<Json>, StorageError>)
      requires Valid() && Typed(r, List([]))
      ensures res == Ok(ListOf(rows, r))
    {
      StoredItems(r);
      DecodeAllPrinted(ListOf(rows, r));
      res := ReadList(TableOf(r), Body(r));
    }

    // ------------------------------------------------------ proposal queue

    method QueueProposal(g: GroupId, p: Json, proposal: Json) returns (res: Result<(), StorageError>)
      requires Valid()
      modifies this
      ensures Valid() && res == Ok(())
      ensures rows == Appended(old(rows)[Proposal(g, p) := Entity(proposal)], ProposalRefs(g), p)
    {
      WriteEntity(Proposal(g, p), proposal);
      res := AppendItem(ProposalRefs(g), p);
    }

    method RemoveProposal(g: GroupId, p: Json) returns (res: Result<(), StorageError>)
      requires Valid()
      modifies this
      ensures Valid() && res == Ok(())
      ensures rows == Removed(old(rows), ProposalRefs(g), p) - {Proposal(g, p)}
    {
      res := RemoveListItem(ProposalRefs(g), p);
      DeleteRow(Proposal(g, p));
    }

    /** The refs are read in one lock section and then removed in another. */
    method ClearProposalQueue(g: GroupId) returns (res: Result<(), StorageError>)
      requires Valid()
      modifies this
      ensures Valid() && res == Ok(())
      ensures rows == old(rows) - ProposalKeys(g, ListOf(old(rows), ProposalRefs(g))) - {ProposalRefs(g)}
    {
      var refs := ReadItems(ProposalRefs(g));
      ClearRefs(g, refs.value);
      res := Ok(());
    }

    method ClearRefs(g: GroupId, refs: seq<Json>)
      requires Valid()
      modifies this
      ensures Valid()
      ensures rows == old(rows) - ProposalKeys(g, refs) - {ProposalRefs(g)}
    {
      hide Represents, WellTyped;
      for i := 0 to |refs|
        invariant Valid()
        invariant rows == old(rows) - ProposalKeys(g, refs[..i])
      {
        DeleteRow(Proposal(g, refs[i]));
        assert ProposalKeys(g, refs[..i + 1]) == ProposalKeys(g, refs[..i]) + {Proposal(g, refs[i])};
      }
      assert refs[..|refs|] == refs;
      DeleteRow(ProposalRefs(g));
    }

    /** Each ref with its proposal; a ref without a row makes the `unwrap` panic. */
    method QueuedProposals(g: GroupId) returns (res: Result<seq<(Json, Json)>, StorageError>)
      requires Valid()
      ensures var refs := ListOf(rows, ProposalRefs(g));
              if forall i | 0 <= i < |refs| :: EntityOf(rows, Proposal(g, refs[i])).Some? then
                && res.Ok? && |res.value| == |refs|
                && forall i | 0 <= i < |refs| ::
                     res.value[i].0 == refs[i] && Some(res.value[i].1) == EntityOf(rows, Proposal(g, refs[i]))
              else res == Err(Panicked)
    {
      hide Represents, WellTyped, EntityOf, ListOf;
      var refs := ReadItems(ProposalRefs(g));
      var out: seq<(Json, Json)> := [];
      for i := 0 to |refs.value|
        invariant |out| == i
        invariant forall k | 0 <= k < i ::
            out[k].0 == refs.value[k] && Some(out[k].1) == EntityOf(rows, Proposal(g, refs.value[k]))
      {
        var proposal := ReadEntity(Proposal(g, refs.value[i]));
        if proposal.value.None? {
          return Err(Panicked);
        }
        out := out + [(refs.value[i], proposal.value.value)];
      }
      res := Ok(out);
    }

    // ----------------------------------------------- epoch encryption keys

    method WriteEpochKeyPairs(g: GroupId, epoch: nat, leaf: nat, pairs: Json)
      requires Valid()
      modifies this
      ensures Valid() && rows == old(rows)[EpochKeys(g, EpochKeyDigits(epoch, leaf)) := Entity(pairs)]
    {
      WriteEntity(EpochKeys(g, EpochKeyDigits(epoch, leaf)), pairs);
    }

    method ReadEpochKeyPairs(g: GroupId, epoch: nat, leaf: nat) returns (res: Result<Json, StorageError>)
      requires Valid()
      ensures match EntityOf(rows, EpochKeys(g, EpochKeyDigits(epoch, leaf)))
              case Some(pairs) => res == Ok(pairs)
              case None => res == Ok(Arr([]))
    {
      var row := ReadEntity(EpochKeys(g, EpochKeyDigits(epoch, leaf)));
      res := Ok(if row.value.Some? then row.value.value else Arr([]));
    }

    method DeleteEpochKeyPairs(g: GroupId, epoch: nat, leaf: nat)
      requires Valid()
      modifies this
      ensures Valid() && rows == old(rows) - {EpochKeys(g, EpochKeyDigits(epoch, leaf))}
    {
      DeleteRow(EpochKeys(g, EpochKeyDigits(epoch, leaf)));
    }

    // ----------------------------------------------------- virtual clients

    /** `write_vc_emulation_binding` and `write_vc_derivation_epoch_log_entry`. */
    method WriteTagged(r: RowKey, epoch: Json, entity: Json)
      requires Valid() && Typed(r, Tagged(epoch, entity))
      modifies this
      ensures Valid() && rows == old(rows)[r := Tagged(epoch, entity)]
    {
      Write(TableOf(r), Body(r), TaggedBytes(Print(epoch), Print(entity)));
      PutRow(old(values), rows, r, Tagged(epoch, entity));
      rows := rows[r := Tagged(epoch, entity)];
    }

    method ReadBinding(g: GroupId, groupEpoch: nat) returns (res: Result<Option<Json>, StorageError>)
      requires Valid()
      ensures res == Ok(EntityOf(rows, Binding(g, groupEpoch)))
    {
      var r := Binding(g, groupEpoch);
      GetRow(values, rows, r);
      if KeyBytes(r) !in values {
        return Ok(None);
      }
      UntagTagged(Print(rows[r].epoch), Print(rows[r].j));
      FromSlicePrinted(rows[r].j);
      var pair := UntagBytes(values[KeyBytes(r)]);
      if pair.None? || FromSlice(pair.value.1).None? {
        return Err(SerializationError);
      }
      res := Ok(Some(FromSlice(pair.value.1).value));
    }

    lemma AllRemaining(t: Table, g: GroupId)
      requires Valid()
      ensures Remaining(rows, t, g, values.Keys) == GroupEntities(rows, t, g)
    {
      hide KeyBytes, Represents;
      KeysPresent();
    }

    lemma NoneRemaining(t: Table, g: GroupId)
      ensures Bag(Remaining(rows, t, g, {})) == multiset{}
    {
      assert Remaining(rows, t, g, {}) == map[];
    }

    /** `vc_emulation_bindings` and `vc_derivation_epoch_log_entries`: every
        entity of the group, in no particular order. */
    method ScanGroup(t: Table, g: GroupId) returns (res: Result<seq<Json>, StorageError>)
      requires Valid() && (t == VcBindings || t == VcLogEntries)
      ensures res.Ok? && multiset(res.value) == Bag(GroupEntities(rows, t, g))
    {
      hide Represents, WellTyped, KeyBytes, ValBytes, Label, Print, UntagBytes, StartsWith, Bag, Remaining;
      var prefix := Label(t) + Print(g);
      var todo := values.Keys;
      var out := [];
      AllRemaining(t, g);
      while todo != {}
        invariant todo <= values.Keys
        invariant multiset(out) + Bag(Remaining(rows, t, g, todo)) == Bag(GroupEntities(rows, t, g))
        decreases todo
      {
        var k :| k in todo;
        ghost var left := Remaining(rows, t, g, todo);
        ghost var r := RowFor(k);
        GroupScanExact(r, t, g);
        ScanStep(rows, t, g, todo, r);
        todo := todo - {k};
        if StartsWith(k, prefix) {
          DecodedAt(r);
          var pair := UntagBytes(values[k]);
          if pair.None? || FromSlice(pair.value.1).None? {
            return Err(SerializationError);
          }
          out := out + [FromSlice(pair.value.1).value];
          BagRemove(left, r);
        }
      }
      NoneRemaining(t, g);
      res := Ok(out);
    }

    /** `delete_all_vc_emulation_bindings` and `delete_vc_derivation_epoch_log`. */
    method DeleteGroup(t: Table, g: GroupId)
      requires Valid() && (t == VcBindings || t == VcLogEntries)
      modifies this
      ensures Valid() && rows == DropGroup(old(rows), t, g)
    {
      var prefix := Label(t) + Print(g);
      values := map k | k in values && !StartsWith(k, prefix) :: values[k];
      RetainRows(old(values), rows, t, g);
      rows := DropGroup(rows, t, g);
    }

    method DeleteBindings(g: GroupId, groupEpochs: seq<nat>)
      requires Valid()
      modifies this
      ensures Valid() && rows == old(rows) - BindingKeys(g, groupEpochs)
    {
      hide Represents, WellTyped;
      for i := 0 to |groupEpochs|
        invariant Valid()
        invariant rows == old(rows) - BindingKeys(g, groupEpochs[..i])
      {
        DeleteRow(Binding(g, groupEpochs[i]));
        assert BindingKeys(g, groupEpochs[..i + 1]) == BindingKeys(g, groupEpochs[..i]) + {Binding(g, groupEpochs[i])};
      }
      assert groupEpochs[..|groupEpochs|] == groupEpochs;
    }

    method DeleteLogEntries(g: GroupId, epochs: seq<Json>)
      requires Valid()
      modifies this
      ensures Valid() && rows == old(rows) - LogKeys(g, epochs)
    {
      hide Represents, WellTyped;
      for i := 0 to |epochs|
        invariant Valid()
        invariant rows == old(rows) - LogKeys(g, epochs[..i])
      {
        DeleteRow(LogEntry(g, epochs[i]));
        assert LogKeys(g, epochs[..i + 1]) == LogKeys(g, epochs[..i]) + {LogEntry(g, epochs[i])};
      }
      assert epochs[..|epochs|] == epochs;
    }

    /** The advanced tree and every material, under one lock. */
    method WriteMaterialBatch(epoch: Json, tree: Json, materials: seq<(Json, Json)>)
      requires Valid()
      modifies this
      ensures Valid()
      ensures rows == PutMaterials(old(rows)[OpTree(epoch) := Entity(tree)], epoch, materials)
    {
      WriteEntity(OpTree(epoch), tree);
      ghost var withTree := rows;
      for i := 0 to |materials|
        invariant Valid()
        invariant rows == PutMaterials(withTree, epoch, materials[..i])
      {
        var (k, record) := materials[i];
        WriteEntity(Material(k), record);
        WriteEntity(MaterialEpoch(k), epoch);
        assert materials[..i + 1][..i] == materials[..i];
      }
      assert materials[..|materials|] == materials;
    }

    method DeleteMaterial(keyPackage: Json)
      requires Valid()
      modifies this
      ensures Valid() && rows == old(rows) - {Material(keyPackage)} - {MaterialEpoch(keyPackage)}
    {
      DeleteRow(Material(keyPackage));
      DeleteRow(MaterialEpoch(keyPackage));
    }

    method DeleteKeyPackage(hashRef: Json)
      requires Valid()
      modifies this
      ensures Valid()
      ensures rows == old(rows) - {Material(hashRef)} - {MaterialEpoch(hashRef)} - {Plain(KeyPackages, hashRef)}
    {
      DeleteRow(Material(hashRef));
      DeleteRow(MaterialEpoch(hashRef));
      DeleteRow(Plain(KeyPackages, hashRef));
    }

    // ------------------------------------------------------------ the sweep

    /** The serialized ids of all epochs with a state or tree row. */
    method CandidateIds() returns (ids: set<bytes>)
      requires Valid()
      ensures ids == PrintSet(Candidates(rows))
    {
      hide Represents, WellTyped, KeyBytes, ValBytes, Label, Print, CandidateId;
      ids := {};
      var todo := values.Keys;
      KeysPresent();
      while todo != {}
        invariant todo <= values.Keys
        invariant ids == set r | r in rows && IsEpochRow(r) && KeyBytes(r) !in todo :: Print(r.epoch)
        decreases todo
      {
        var k :| k in todo;
        todo := todo - {k};
        ghost var r := RowFor(k);
        CandidateKey(r, VcEpochStates);
        CandidateKey(r, VcOperationTrees);
        if CandidateId(k, VcEpochStates).Some? {
          ids := ids + {CandidateId(k, VcEpochStates).value};
        }
        if CandidateId(k, VcOperationTrees).Some? {
          ids := ids + {CandidateId(k, VcOperationTrees).value};
        }
      }
    }

    /** `any_epoch_tagged_under_label`. */
    method AnyTagged(t: Table, id: bytes) returns (res: Result<bool, StorageError>)
      requires Valid() && (t == VcBindings || t == VcLogEntries)
      ensures res == Ok(AnyTaggedRow(rows, t, id))
    {
      hide Represents, WellTyped, KeyBytes, ValBytes, Label, Print, UntagBytes, StartsWith;
      var todo := values.Keys;
      KeysPresent();
      while todo != {}
        invariant todo <= values.Keys
        invariant forall r | r in rows && IsTaggedRow(r, rows[r], t, id) :: KeyBytes(r) in todo
        decreases todo
      {
        var k :| k in todo;
        todo := todo - {k};
        ghost var r := RowFor(k);
        LabelScanExact(r, t);
        if StartsWith(k, Label(t)) {
          DecodedAt(r);
          var pair := UntagBytes(values[k]);
          if pair.None? {
            return Err(SerializationError);
          }
          if pair.value.0 == id {
            assert IsTaggedRow(r, rows[r], t, id);
            return Ok(true);
          }
        }
      }
      res := Ok(false);
    }

    /** Whether material, a log entry or a binding names the epoch, tried in
        that order. */
    method IsReferenced(id: bytes, ghost epoch: Json) returns (res: Result<bool, StorageError>)
      requires Valid() && id == Print(epoch)
      ensures res == Ok(Referenced(rows, epoch))
    {
      ReferencedBySource(values, rows, epoch);
      if AnyEntry(values, RetainedEpochs, id) {
        return Ok(true);
      }
      var inLog := AnyTagged(VcLogEntries, id);
      if inLog.Err? || inLog.value {
        return inLog;
      }
      res := AnyTagged(VcBindings, id);
    }

    method DeleteEpochRows(id: bytes, ghost epoch: Json)
      requires Valid() && id == Print(epoch)
      modifies this
      ensures Valid() && rows == old(rows) - {State(epoch)} - {OpTree(epoch)}
    {
      Delete(VcEpochStates, id);
      DropRow(old(values), rows, State(epoch));
      ghost var mid := values;
      Delete(VcOperationTrees, id);
      DropRow(mid, rows - {State(epoch)}, OpTree(epoch));
      rows := rows - {State(epoch)} - {OpTree(epoch)};
    }

    /** `delete_unreferenced_vc_derivation_epoch_states`: the reference checks
        and the deletions under one write lock. */
    method Sweep() returns (res: Result<seq<Json>, StorageError>)
      requires Valid()
      modifies this
      ensures Valid() && rows == Swept(old(rows))
      ensures res.Ok? && Distinct(res.value)
      ensures Elements(res.value) == Unreferenced(old(rows))
    {
      hide Represents, WellTyped, Print, Referenced, Candidates;
      var todo := CandidateIds();
      ghost var epochs := Candidates(rows);
      var deleted: seq<Json> := [];
      while todo != {}
        invariant Valid() && Distinct(deleted)
        invariant epochs <= Candidates(old(rows)) && todo == PrintSet(epochs)
        invariant Elements(deleted) == Unreferenced(old(rows)) - epochs
        invariant rows == DropEpochs(old(rows), Elements(deleted))
        decreases todo
      {
        var id :| id in todo;
        ghost var e :| e in epochs && Print(e) == id;
        SamePrintSameEpoch(e);
        DropKeepsReferences(old(rows), Elements(deleted), e);
        SweepStep(old(rows), deleted, epochs, e);
        var referenced := IsReferenced(id, e);
        if referenced.Err? {
          return Err(SerializationError);
        }
        if !referenced.value {
          DeleteEpochRows(id, e);
          FromSlicePrinted(e);
          deleted := deleted + [FromSlice(id).value];
        }
        todo := todo - {id};
        epochs := epochs - {e};
      }
      assert forall e | e in epochs :: Print(e) in PrintSet(epochs);
      res := Ok(deleted);
    }

    /** One call of the storage interface. */
    method Apply(op: Ops.Op) returns (swept: seq<Json>)
      requires Valid()
      modifies this
      ensures Valid() && rows == Ops.Step(old(rows), op)
      ensures op.Sweep? ==> Distinct(swept) && Elements(swept) == Unreferenced(old(rows))
    {
      hide Represents, WellTyped, Swept, Unreferenced, PutMaterials, BindingKeys, LogKeys;
      swept := [];
      match op
      case WriteState(e, s) => WriteEntity(State(e), s);
      case WriteTree(e, t) => WriteEntity(OpTree(e), t);
      case WriteBinding(g, n, e, b) => WriteTagged(Binding(g, n), e, b);
      case WriteLogEntry(g, e, x) => WriteTagged(LogEntry(g, e), e, x);
      case WriteMaterialBatch(e, t, ms) => WriteMaterialBatch(e, t, ms);
      case WriteKeyPackage(k, p) => WriteEntity(Plain(KeyPackages, k), p);
      case DeleteBindings(g, ns) => DeleteBindings(g, ns);
      case DeleteAllBindings(g) => DeleteGroup(VcBindings, g);
      case DeleteLogEntries(g, es) => DeleteLogEntries(g, es);
      case DeleteLog(g) => DeleteGroup(VcLogEntries, g);
      case DeleteMaterial(k) => DeleteMaterial(k);
      case DeleteKeyPackage(k) => DeleteKeyPackage(k);
      case Sweep =>
        var res := Sweep();
        swept := res.value;
    }
  }
}
