/** The virtual-client operations of the storage interface, and what each does
    to the memory store's rows. */
module VirtualClientOps {
  import opened Wrappers
  import opened JsonText
  import opened RowKeys
  import opened Rows

  datatype Op =
    | WriteState(epoch: Json, state: Json)
    | WriteTree(epoch: Json, tree: Json)
    | WriteBinding(group: GroupId, groupEpoch: nat, epoch: Json, binding: Json)
    | WriteLogEntry(group: GroupId, epoch: Json, entry: Json)
    | WriteMaterialBatch(epoch: Json, tree: Json, materials: seq<(Json, Json)>)
    | WriteKeyPackage(hashRef: Json, keyPackage: Json)
    | DeleteBindings(group: GroupId, groupEpochs: seq<nat>)
    | DeleteAllBindings(group: GroupId)
    | DeleteLogEntries(group: GroupId, epochs: seq<Json>)
    | DeleteLog(group: GroupId)
    | DeleteMaterial(hashRef: Json)
    | DeleteKeyPackage(hashRef: Json)
    | Sweep

  /** The rows after one operation; each case is the contract of the memory
      store's method of that name. */
  function Step(rows: Rows, op: Op): Rows {
    match op
    case WriteState(e, s) => rows[State(e) := Entity(s)]
    case WriteTree(e, t) => rows[OpTree(e) := Entity(t)]
    case WriteBinding(g, n, e, b) => rows[Binding(g, n) := Tagged(e, b)]
    case WriteLogEntry(g, e, x) => rows[LogEntry(g, e) := Tagged(e, x)]
    case WriteMaterialBatch(e, t, ms) => PutMaterials(rows[OpTree(e) := Entity(t)], e, ms)
    case WriteKeyPackage(k, p) => rows[Plain(KeyPackages, k) := Entity(p)]
    case DeleteBindings(g, ns) => rows - BindingKeys(g, ns)
    case DeleteAllBindings(g) => DropGroup(rows, VcBindings, g)
    case DeleteLogEntries(g, es) => rows - LogKeys(g, es)
    case DeleteLog(g) => DropGroup(rows, VcLogEntries, g)
    case DeleteMaterial(k) => rows - {Material(k)} - {MaterialEpoch(k)}
    case DeleteKeyPackage(k) => rows - {Material(k)} - {MaterialEpoch(k)} - {Plain(KeyPackages, k)}
    case Sweep => Swept(rows)
  }

  /** The rows after a run that starts on an empty store. */
  function Run(ops: seq<Op>): Rows {
    if ops == [] then map[] else Step(Run(ops[..|ops| - 1]), ops[|ops| - 1])
  }

  // --------------------------------------------------------- sweep theorems

  /** A sweep leaves no state or tree that nothing references. */
  lemma SweptIsClean(rows: Rows)
    ensures Unreferenced(Swept(rows)) == {}
  {
    hide Referenced;
    forall e | e in Candidates(Swept(rows))
      ensures Referenced(Swept(rows), e)
    {
      var r :| r in Swept(rows) && IsEpochRow(r) && r.epoch == e;
      assert e in Candidates(rows);
      DropKeepsReferences(rows, Unreferenced(rows), e);
    }
  }

  /** A second sweep deletes nothing. */
  lemma SweepTwice(rows: Rows)
    ensures Swept(Swept(rows)) == Swept(rows)
  {
    SweptIsClean(rows);
  }

  /** The value an operation puts in a state or tree row. */
  function Written(op: Op, r: RowKey): Option<Json> {
    match op
    case WriteState(e, s) => if r == State(e) then Some(s) else None
    case WriteTree(e, t) => if r == OpTree(e) then Some(t) else None
    case WriteMaterialBatch(e, t, _) => if r == OpTree(e) then Some(t) else None
    case _ => None
  }

  lemma {:induction false} MaterialsFrame(rows: Rows, e: Json, ms: seq<(Json, Json)>, r: RowKey)
    requires !r.Material? && !r.MaterialEpoch?
    ensures r in PutMaterials(rows, e, ms) <==> r in rows
    ensures r in rows ==> PutMaterials(rows, e, ms)[r] == rows[r]
  {
    if ms != [] {
      MaterialsFrame(rows, e, ms[..|ms| - 1], r);
    }
  }

  /** Only writes to it and sweeps that find it unreferenced change an epoch row. */
  lemma EpochRowStep(rows: Rows, op: Op, r: RowKey)
    requires IsEpochRow(r)
    ensures EntityOf(Step(rows, op), r) ==
            if Written(op, r).Some? then Written(op, r)
            else if op.Sweep? && !Referenced(rows, r.epoch) then None
            else EntityOf(rows, r)
  {
    hide Referenced;
    if op.WriteMaterialBatch? {
      MaterialsFrame(rows[OpTree(op.epoch) := Entity(op.tree)], op.epoch, op.materials, r);
    }
    if op.Sweep? {
      assert r in rows ==> r.epoch in Candidates(rows);
    }
  }

  /** Since step `i` of the run nothing overwrote row `r`, and every sweep found
      its epoch referenced. */
  ghost predicate KeptSince(ops: seq<Op>, r: RowKey, i: nat)
    requires IsEpochRow(r)
  {
    forall j | i < j < |ops| ::
      && Written(ops[j], r).None?
      && (ops[j].Sweep? ==> Referenced(Run(ops[..j]), r.epoch))
  }

  /** The write that put `j` in row `r`, with nothing after it that took it out. */
  ghost predicate WrittenAndKept(ops: seq<Op>, r: RowKey, j: Json, i: nat)
    requires IsEpochRow(r)
  {
    i < |ops| && Written(ops[i], r) == Some(j) && KeptSince(ops, r, i)
  }

  /** Over every run: a state or tree can be read back exactly if it was the last
      one written for its epoch and the epoch was referenced at every sweep
      since. */
  lemma {:induction false} KeptExactlyWhileReferenced(ops: seq<Op>, r: RowKey, j: Json)
    requires IsEpochRow(r)
    ensures EntityOf(Run(ops), r) == Some(j) <==> exists i: nat :: WrittenAndKept(ops, r, j, i)
  {
    if ops != [] {
      var n := |ops| - 1;
      var before := ops[..n];
      KeptExactlyWhileReferenced(before, r, j);
      EpochRowStep(Run(before), ops[n], r);
      assert forall k | 0 <= k < n :: ops[..k] == before[..k];
      if EntityOf(Run(ops), r) == Some(j) {
        if Written(ops[n], r).Some? {
          assert WrittenAndKept(ops, r, j, n);
        } else {
          var i: nat :| WrittenAndKept(before, r, j, i);
          assert WrittenAndKept(ops, r, j, i);
        }
      }
      if i: nat :| WrittenAndKept(ops, r, j, i) {
        if i < n {
          assert WrittenAndKept(before, r, j, i);
        }
      }
    }
  }
}
