/** Whole runs on the stores themselves: the byte map and the SQLite tables side
    by side, the proposal queue, and one list. */
module StoreRuns {
  import opened Bytes
  import opened Wrappers
  import opened JsonText
  import opened RowKeys
  import opened Rows
  import opened Bags
  import opened MemoryStore
  import opened SqliteStore
  import opened ProvidersAgree
  import opened ListRuns
  import Ops = VirtualClientOps
  import Queue = ProposalInterleavings
  import Runs = ProposalRuns

  /** The epochs that the sweeps of a run have to return, sweep by sweep. */
  ghost function SweepsOf(ops: seq<Ops.Op>): seq<set<Json>> {
    if ops == [] then []
    else
      var before := ops[..|ops| - 1];
      SweepsOf(before) + if ops[|ops| - 1].Sweep? then [Unreferenced(Ops.Run(before))] else []
  }

  /** Each sweep returned its epochs, each once, in whatever order. */
  ghost predicate Returned(sweeps: seq<seq<Json>>, epochs: seq<set<Json>>) {
    && |sweeps| == |epochs|
    && forall i | 0 <= i < |sweeps| :: Distinct(sweeps[i]) && Elements(sweeps[i]) == epochs[i]
  }

  /** The same operations on both providers: the byte map holds what the tables
      hold, and every sweep on the way returned the same epochs. */
  method RunBoth(ops: seq<Ops.Op>) returns
      (mem: MemoryStorage, sql: SqliteStorage, memSweeps: seq<seq<Json>>, sqlSweeps: seq<seq<Json>>)
    ensures fresh(mem) && fresh(sql) && mem.Valid()
    ensures mem.rows == Ops.Run(ops) && sql.Tables() == DbRun(ops) && Agrees(mem.rows, sql.Tables())
    ensures Returned(memSweeps, SweepsOf(ops)) && Returned(sqlSweeps, SweepsOf(ops))
  {
    hide Ops.Step, DbStep, Agrees, Unreferenced, DbUnreferenced, Distinct, Elements;
    mem := new MemoryStorage();
    sql := new SqliteStorage();
    memSweeps, sqlSweeps := [], [];
    for i := 0 to |ops|
      invariant fresh(mem) && fresh(sql) && mem.Valid()
      invariant mem.rows == Ops.Run(ops[..i]) && sql.Tables() == DbRun(ops[..i])
      invariant Returned(memSweeps, SweepsOf(ops[..i])) && Returned(sqlSweeps, SweepsOf(ops[..i]))
    {
      assert ops[..i + 1][..i] == ops[..i];
      RunsAgree(ops[..i]);
      var a := mem.Apply(ops[i]);
      var b := sql.Apply(ops[i]);
      if ops[i].Sweep? {
        memSweeps, sqlSweeps := memSweeps + [a], sqlSweeps + [b];
      }
    }
    assert ops[..|ops|] == ops;
    RunsAgree(ops);
  }

  /** Providers that agree return the same bindings and log entries of a group. */
  method ScanBoth(mem: MemoryStorage, sql: SqliteStorage, g: GroupId) returns
      (memBindings: seq<Json>, sqlBindings: seq<Json>, memLog: seq<Json>, sqlLog: seq<Json>)
    requires mem.Valid() && Agrees(mem.rows, sql.Tables())
    ensures multiset(memBindings) == multiset(sqlBindings) && multiset(memLog) == multiset(sqlLog)
  {
    hide Agrees, Bag;
    var bindings := mem.ScanGroup(VcBindings, g);
    var entries := mem.ScanGroup(VcLogEntries, g);
    memBindings, memLog := bindings.value, entries.value;
    sqlBindings := sql.LoadBindings(g);
    sqlLog := sql.LoadLogEntries(g);
    BindingScansAgree(mem.rows, sql.Tables(), g);
    LogScansAgree(mem.rows, sql.Tables(), g);
  }

  /** Point reads of a state, tree or material from stores that agree: the results
      are equal if and only if the stored entity is not `null`. */
  method ReadBoth(mem: MemoryStorage, sql: SqliteStorage, r: RowKey) returns
      (memory: Result<Option<Json>, StorageError>, sqlite: Option<Json>)
    requires mem.Valid() && Agrees(mem.rows, sql.Tables()) && (r.State? || r.OpTree? || r.Material?)
    ensures memory.Ok? && sqlite == EntityOf(mem.rows, r)
    ensures memory.value == sqlite <==> EntityOf(mem.rows, r) != Some(Null)
  {
    hide Agrees;
    memory := mem.ReadOptional(r);
    AgreesAt(mem.rows, sql.Tables(), r);
    match r {
      case State(e) => sqlite := sql.LoadState(e);
      case OpTree(e) => sqlite := sql.LoadTree(e);
      case Material(k) => sqlite := sql.LoadMaterial(k);
    }
  }

  /** Point reads of a binding always agree. */
  method ReadBindingBoth(mem: MemoryStorage, sql: SqliteStorage, g: GroupId, n: nat) returns
      (memory: Result<Option<Json>, StorageError>, sqlite: Option<Json>)
    requires mem.Valid() && Agrees(mem.rows, sql.Tables())
    ensures memory == Ok(sqlite) && sqlite == EntityOf(mem.rows, Binding(g, n))
  {
    hide Agrees;
    memory := mem.ReadBinding(g, n);
    sqlite := sql.LoadBinding(g, n);
    AgreesAt(mem.rows, sql.Tables(), Binding(g, n));
  }

  /** A sequential run on the proposal queue of a store. */
  method RunQueue(calls: seq<Queue.Call>) returns (mem: MemoryStorage)
    ensures fresh(mem) && mem.Valid() && mem.rows == Runs.RowRun(calls)
  {
    hide Runs.RowStep;
    mem := new MemoryStorage();
    for i := 0 to |calls|
      invariant fresh(mem) && mem.Valid() && mem.rows == Runs.RowRun(calls[..i])
    {
      assert calls[..i + 1][..i] == calls[..i];
      WholeCalls(mem.rows, calls[i]);
      match calls[i] {
        case Queue(h, p, x) => var r := mem.QueueProposal(h, p, x);
        case Remove(h, p) => var r := mem.RemoveProposal(h, p);
        case Clear(h) => var r := mem.ClearProposalQueue(h);
      }
    }
    assert calls[..|calls|] == calls;
  }

  lemma WholeCalls(rows: Rows, call: Queue.Call)
    ensures Runs.RowStep(rows, call) ==
            match call
            case Queue(g, p, x) => Appended(rows[Proposal(g, p) := Entity(x)], ProposalRefs(g), p)
            case Remove(g, p) => Removed(rows, ProposalRefs(g), p) - {Proposal(g, p)}
            case Clear(g) => rows - ProposalKeys(g, ListOf(rows, ProposalRefs(g))) - {ProposalRefs(g)}
  {
  }

  /** A sequential run on the proposal queue, and then one read: it panics exactly
      if a listed ref of the group has lost its proposal, and never in a run that
      removes no ref listed more than once. */
  method QueueThenRead(calls: seq<Queue.Call>, g: GroupId) returns (res: Result<seq<(Json, Json)>, StorageError>)
    ensures res == Err(Panicked) <==> !Runs.Readable(Runs.RowRun(calls), g)
    ensures Runs.NeverTakesRepeat(calls) ==> res.Ok?
    ensures res.Ok? ==> |res.value| == |Queue.Refs(Runs.RowRun(calls), g)|
    ensures res.Ok? ==> forall i | 0 <= i < |res.value| ::
              && res.value[i].0 == Queue.Refs(Runs.RowRun(calls), g)[i]
              && Some(res.value[i].1) == EntityOf(Runs.RowRun(calls), Proposal(g, res.value[i].0))
  {
    hide Runs.NeverTakesRepeat, EntityOf, Runs.AllReadable, Runs.Readable, Runs.RowRun, ListOf;
    var mem := RunQueue(calls);
    res := mem.QueuedProposals(g);
    ReadableMeans(mem.rows, g);
    if Runs.NeverTakesRepeat(calls) {
      assert calls[..|calls|] == calls;
      Runs.ReadableUpTo(calls, |calls|);
      AllMeansOne(mem.rows, g);
    }
  }

  lemma AllMeansOne(rows: Rows, g: GroupId)
    requires Runs.AllReadable(rows)
    ensures Runs.Readable(rows, g)
  {
    hide Runs.Readable;
  }

  lemma ReadableMeans(rows: Rows, g: GroupId)
    ensures Runs.Readable(rows, g) <==>
            var refs := ListOf(rows, ProposalRefs(g));
            forall i | 0 <= i < |refs| :: EntityOf(rows, Proposal(g, refs[i])).Some?
  {
    hide Queue.Count, EntityOf, ListOf;
    var refs := ListOf(rows, ProposalRefs(g));
    forall p: Json
      ensures Queue.Count(rows, g, p) > 0 <==> p in refs
    {
      Queue.CountIsMembership(rows, g, p);
    }
    if Runs.Readable(rows, g) {
      assert forall i | 0 <= i < |refs| :: refs[i] in refs;
    }
  }

  /** A run of `append` and `remove_item` on one list of a store. */
  method EditList(mem: MemoryStorage, t: Table, key: bytes, es: seq<Edit>)
    modifies mem`values
    ensures mem.values == ByteRun(old(mem.values), BuildKey(t, key), es)
  {
    hide StoredList, ListBytes, Print, BuildKey, RemoveFirst;
    for i := 0 to |es|
      invariant mem.values == ByteRun(old(mem.values), BuildKey(t, key), es[..i])
    {
      assert es[..i + 1][..i] == es[..i];
      if es[i].Add? {
        var r := mem.Append(t, key, Print(es[i].x));
      } else {
        var r := mem.RemoveItem(t, key, Print(es[i].x));
      }
    }
    assert es[..|es|] == es;
  }
}
