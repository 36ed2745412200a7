/** Runs of `append` and `remove_item` on one list of the flat map. */
module ListRuns {
  import opened Bytes
  import opened Wrappers
  import opened JsonText
  import opened Rows
  import opened MemoryStore

  datatype Edit = Add(x: Json) | Drop(x: Json)

  /** The map after one edit, as the contracts of `Append` and `RemoveItem` say. */
  function ByteStep(values: map<bytes, bytes>, k: bytes, e: Edit): map<bytes, bytes> {
    match StoredList(values, k)
    case None => values
    case Some(l) => values[k := ListBytes(if e.Add? then l + [Print(e.x)] else RemoveFirst(l, Print(e.x)))]
  }

  function ByteRun(values: map<bytes, bytes>, k: bytes, es: seq<Edit>): map<bytes, bytes> {
    if es == [] then values else ByteStep(ByteRun(values, k, es[..|es| - 1]), k, es[|es| - 1])
  }

  /** Append at the end, or remove the first occurrence, from the empty list. */
  function ItemRun(es: seq<Edit>): seq<Json> {
    if es == [] then []
    else
      var before, e := ItemRun(es[..|es| - 1]), es[|es| - 1];
      if e.Add? then before + [e.x] else RemoveFirst(before, e.x)
  }

  lemma StepRefined(values: map<bytes, bytes>, k: bytes, e: Edit, items: seq<Json>)
    requires StoredList(values, k) == Some(PrintAll(items))
    ensures StoredList(ByteStep(values, k, e), k)
            == Some(PrintAll(if e.Add? then items + [e.x] else RemoveFirst(items, e.x)))
  {
    hide ListBytes, Print, RemoveFirst, UnlistBytes;
    if e.Add? {
      UnlistList(PrintAll(items) + [Print(e.x)]);
      assert PrintAll(items) + [Print(e.x)] == PrintAll(items + [e.x]);
    } else {
      RemoveFirstPrinted(items, e.x);
      UnlistList(PrintAll(RemoveFirst(items, e.x)));
    }
  }

  /** After any run of edits on a key that was absent, the stored bytes decode to
      the edited list, and no other key has changed. */
  lemma {:induction false} ListRefined(values: map<bytes, bytes>, k: bytes, es: seq<Edit>)
    requires k !in values
    ensures StoredList(ByteRun(values, k, es), k) == Some(PrintAll(ItemRun(es)))
    ensures DecodeAll(PrintAll(ItemRun(es))) == Some(ItemRun(es))
    ensures ByteRun(values, k, es) - {k} == values
  {
    hide ListBytes, Print, RemoveFirst, UnlistBytes, DecodeAll, StoredList;
    DecodeAllPrinted(ItemRun(es));
    if es == [] {
      NothingStored(values, k);
    } else {
      var before := ByteRun(values, k, es[..|es| - 1]);
      ListRefined(values, k, es[..|es| - 1]);
      StepRefined(before, k, es[|es| - 1], ItemRun(es[..|es| - 1]));
      assert ByteStep(before, k, es[|es| - 1]) - {k} == before - {k};
    }
  }

  lemma NothingStored(values: map<bytes, bytes>, k: bytes)
    requires k !in values
    ensures StoredList(values, k) == Some(PrintAll([])) && values - {k} == values
  {
  }
}
