/** The memory store and the SQLite tables hold the same virtual-client data
    after every run. */
module ProvidersAgree {
  import opened Wrappers
  import opened JsonText
  import opened RowKeys
  import opened Rows
  import opened Bags
  import opened VirtualClientOps
  import opened SqliteStore

  predicate IsVcRow(r: RowKey) {
    || r.State? || r.OpTree? || r.Material? || r.MaterialEpoch? || r.Binding? || r.LogEntry?
    || (r.Plain? && r.table == KeyPackages)
  }

  function RowIn(rows: Rows, r: RowKey): Option<RowVal> {
    if r in rows then Some(rows[r]) else None
  }

  /** The same row read off the database's columns. */
  function DbRow(db: Db, r: RowKey): Option<RowVal> {
    match r
    case State(e) => if e in db.states then Some(Entity(db.states[e])) else None
    case OpTree(e) => if e in db.trees then Some(Entity(db.trees[e])) else None
    case Material(k) => if k in db.materials then Some(Entity(db.materials[k].1)) else None
    case MaterialEpoch(k) => if k in db.materials then Some(Entity(db.materials[k].0)) else None
    case Binding(g, n) =>
      if (g, n) in db.bindings then Some(Tagged(db.bindings[(g, n)].0, db.bindings[(g, n)].1)) else None
    case LogEntry(g, e) => if (g, e) in db.log then Some(Tagged(e, db.log[(g, e)])) else None
    case Plain(t, k) => if t == KeyPackages && k in db.keyPackages then Some(Entity(db.keyPackages[k])) else None
    case _ => None
  }

  ghost predicate Agrees(rows: Rows, db: Db) {
    forall r: RowKey | IsVcRow(r) :: RowIn(rows, r) == DbRow(db, r)
  }

  lemma AgreesAt(rows: Rows, db: Db, r: RowKey)
    requires Agrees(rows, db) && IsVcRow(r)
    ensures RowIn(rows, r) == DbRow(db, r)
  {
  }

  lemma ReferencedAgrees(rows: Rows, db: Db, e: Json)
    requires Agrees(rows, db)
    ensures Referenced(rows, e) <==> DbReferenced(db, e)
  {
    if Referenced(rows, e) {
      var r :| r in rows && Names(r, rows[r], e);
      AgreesAt(rows, db, r);
      match r
      case LogEntry(g, _) => assert (g, r.epoch) in db.log;
      case Binding(g, n) => assert (g, n) in db.bindings;
      case MaterialEpoch(k) => assert k in db.materials;
    }
    if k :| k in db.log && k.1 == e {
      var r := LogEntry(k.0, e);
      AgreesAt(rows, db, r);
      assert Names(r, rows[r], e);
    }
    if k :| k in db.bindings && db.bindings[k].0 == e {
      var r := Binding(k.0, k.1);
      AgreesAt(rows, db, r);
      assert Names(r, rows[r], e);
    }
    if k :| k in db.materials && db.materials[k].0 == e {
      var r := MaterialEpoch(k);
      AgreesAt(rows, db, r);
      assert Names(r, rows[r], e);
    }
  }

  /** Both sweeps collect the same epochs. */
  lemma UnreferencedAgrees(rows: Rows, db: Db)
    requires Agrees(rows, db)
    ensures Unreferenced(rows) == DbUnreferenced(db)
  {
    hide Referenced, DbReferenced;
    forall e: Json
      ensures Referenced(rows, e) <==> DbReferenced(db, e)
      ensures e in Candidates(rows) <==> e in db.states.Keys + db.trees.Keys
    {
      ReferencedAgrees(rows, db, e);
      AgreesAt(rows, db, State(e));
      AgreesAt(rows, db, OpTree(e));
      assert State(e) in rows ==> IsEpochRow(State(e)) && State(e).epoch == e;
      assert OpTree(e) in rows ==> IsEpochRow(OpTree(e)) && OpTree(e).epoch == e;
    }
  }

  lemma {:induction false} MaterialsAgree(rows: Rows, db: Db, e: Json, ms: seq<(Json, Json)>, r: RowKey)
    requires Agrees(rows, db) && IsVcRow(r)
    ensures RowIn(PutMaterials(rows, e, ms), r) == DbRow(db.(materials := StoreMaterials(db.materials, e, ms)), r)
  {
    if ms != [] {
      MaterialsAgree(rows, db, e, ms[..|ms| - 1], r);
    }
  }

  lemma TreeWriteAgrees(rows: Rows, db: Db, e: Json, t: Json)
    requires Agrees(rows, db)
    ensures Agrees(rows[OpTree(e) := Entity(t)], db.(trees := db.trees[e := t]))
  {
    forall r: RowKey | IsVcRow(r)
      ensures RowIn(rows[OpTree(e) := Entity(t)], r) == DbRow(db.(trees := db.trees[e := t]), r)
    {
      AgreesAt(rows, db, r);
    }
  }

  lemma DeletesAgree(r: RowKey, g: GroupId, ns: seq<nat>, es: seq<Json>)
    ensures r.Binding? ==> (r in BindingKeys(g, ns) <==> (r.group, r.groupEpoch) in BindingCols(g, ns))
    ensures r.LogEntry? ==> (r in LogKeys(g, es) <==> (r.group, r.epoch) in LogCols(g, es))
  {
  }

  lemma SweepAgreesAt(rows: Rows, db: Db, r: RowKey)
    requires Agrees(rows, db) && IsVcRow(r)
    ensures RowIn(Swept(rows), r) == DbRow(DbStep(db, Sweep), r)
  {
    hide Agrees, Unreferenced, DbUnreferenced;
    AgreesAt(rows, db, r);
    UnreferencedAgrees(rows, db);
  }

  predicate WritesOneRow(op: Op) {
    op.WriteState? || op.WriteTree? || op.WriteBinding? || op.WriteLogEntry? || op.WriteKeyPackage?
  }

  lemma WriteAgreesAt(rows: Rows, db: Db, op: Op, r: RowKey)
    requires Agrees(rows, db) && IsVcRow(r) && WritesOneRow(op)
    ensures RowIn(Step(rows, op), r) == DbRow(DbStep(db, op), r)
  {
    hide Agrees, Swept, DbUnreferenced, PutMaterials, StoreMaterials;
    AgreesAt(rows, db, r);
  }

  lemma DeleteAgreesAt(rows: Rows, db: Db, op: Op, r: RowKey)
    requires Agrees(rows, db) && IsVcRow(r)
    requires op.DeleteAllBindings? || op.DeleteLog? || op.DeleteMaterial? || op.DeleteKeyPackage?
    ensures RowIn(Step(rows, op), r) == DbRow(DbStep(db, op), r)
  {
    hide Agrees, Swept, DbUnreferenced, PutMaterials, StoreMaterials;
    AgreesAt(rows, db, r);
  }

  lemma DeleteListAgreesAt(rows: Rows, db: Db, op: Op, r: RowKey)
    requires Agrees(rows, db) && IsVcRow(r) && (op.DeleteBindings? || op.DeleteLogEntries?)
    ensures RowIn(Step(rows, op), r) == DbRow(DbStep(db, op), r)
  {
    hide Agrees, Swept, DbUnreferenced, PutMaterials, StoreMaterials;
    AgreesAt(rows, db, r);
    match op {
      case DeleteBindings(g, ns) => DeletesAgree(r, g, ns, []);
      case DeleteLogEntries(g, es) => DeletesAgree(r, g, [], es);
    }
  }

  lemma StepAgreesAt(rows: Rows, db: Db, op: Op, r: RowKey)
    requires Agrees(rows, db) && IsVcRow(r)
    ensures RowIn(Step(rows, op), r) == DbRow(DbStep(db, op), r)
  {
    hide Agrees, IsVcRow, Swept, DbUnreferenced, RowIn, DbRow;
    match op
    case WriteMaterialBatch(e, t, ms) =>
      TreeWriteAgrees(rows, db, e, t);
      MaterialsAgree(rows[OpTree(e) := Entity(t)], db.(trees := db.trees[e := t]), e, ms, r);
    case Sweep => SweepAgreesAt(rows, db, r);
    case DeleteBindings(_, _) => DeleteListAgreesAt(rows, db, op, r);
    case DeleteLogEntries(_, _) => DeleteListAgreesAt(rows, db, op, r);
    case _ =>
      if WritesOneRow(op) {
        WriteAgreesAt(rows, db, op, r);
      } else {
        DeleteAgreesAt(rows, db, op, r);
      }
  }

  lemma StepAgrees(rows: Rows, db: Db, op: Op)
    requires Agrees(rows, db)
    ensures Agrees(Step(rows, op), DbStep(db, op))
  {
    forall r: RowKey | IsVcRow(r)
      ensures RowIn(Step(rows, op), r) == DbRow(DbStep(db, op), r)
    {
      StepAgreesAt(rows, db, op, r);
    }
  }

  /** After every run both providers hold the same rows and would sweep the same
      epochs. */
  lemma {:induction false} RunsAgree(ops: seq<Op>)
    ensures Agrees(Run(ops), DbRun(ops))
    ensures Unreferenced(Run(ops)) == DbUnreferenced(DbRun(ops))
  {
    if ops != [] {
      RunsAgree(ops[..|ops| - 1]);
      StepAgrees(Run(ops[..|ops| - 1]), DbRun(ops[..|ops| - 1]), ops[|ops| - 1]);
    }
    UnreferencedAgrees(Run(ops), DbRun(ops));
  }

  // ------------------------------------------------------------------- scans

  lemma BindingScansAgree(rows: Rows, db: Db, g: GroupId)
    requires Agrees(rows, db)
    ensures Bag(GroupEntities(rows, VcBindings, g)) == Bag(SelectBindings(db, g))
  {
    hide Bag;
    var m, n := GroupEntities(rows, VcBindings, g), SelectBindings(db, g);
    var f := (r: RowKey) => if r.Binding? then (r.group, r.groupEpoch) else (g, 0);
    forall r | r in m
      ensures f(r) in n && n[f(r)] == m[r]
    {
      AgreesAt(rows, db, r);
    }
    forall k | k in n
      ensures exists r :: r in m && f(r) == k
    {
      AgreesAt(rows, db, Binding(k.0, k.1));
      assert Binding(k.0, k.1) in m && f(Binding(k.0, k.1)) == k;
    }
    BagRename(m, n, f);
  }

  lemma LogScansAgree(rows: Rows, db: Db, g: GroupId)
    requires Agrees(rows, db)
    ensures Bag(GroupEntities(rows, VcLogEntries, g)) == Bag(SelectLog(db, g))
  {
    hide Bag;
    var m, n := GroupEntities(rows, VcLogEntries, g), SelectLog(db, g);
    var f := (r: RowKey) => if r.LogEntry? then (r.group, r.epoch) else (g, Null);
    forall r | r in m
      ensures f(r) in n && n[f(r)] == m[r]
    {
      AgreesAt(rows, db, r);
    }
    forall k | k in n
      ensures exists r :: r in m && f(r) == k
    {
      AgreesAt(rows, db, LogEntry(k.0, k.1));
      assert LogEntry(k.0, k.1) in m && f(LogEntry(k.0, k.1)) == k;
    }
    BagRename(m, n, f);
  }
}
