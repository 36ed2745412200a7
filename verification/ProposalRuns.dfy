/** Sequential runs on the proposal queue, next to the SQLite proposals table. */
module ProposalRuns {
  import opened Wrappers
  import opened JsonText
  import opened RowKeys
  import opened Rows
  import opened ProposalInterleavings

  /** `openmls_proposals`, keyed by its primary key. */
  type ProposalTable = map<(GroupId, Json), Json>

  class SqliteProposals {
    var table: ProposalTable

    constructor ()
      ensures table == map[]
    {
      table := map[];
    }

    /** `INSERT OR IGNORE`: an existing row stays as it is. */
    method Store(g: GroupId, p: Json, proposal: Json)
      modifies this
      ensures table == TableStep(old(table), Queue(g, p, proposal))
    {
      if (g, p) !in table {
        table := table[(g, p) := proposal];
      }
    }

    method DeleteProposal(g: GroupId, p: Json)
      modifies this
      ensures table == TableStep(old(table), Remove(g, p))
    {
      table := table - {(g, p)};
    }

    method DeleteAllProposals(g: GroupId)
      modifies this
      ensures table == TableStep(old(table), Clear(g))
    {
      table := map k | k in table && k.0 != g :: table[k];
    }

    method LoadRefs(g: GroupId) returns (refs: seq<Json>)
      ensures Distinct(refs) && forall p :: p in refs <==> (g, p) in table
    {
      var todo := set k | k in table && k.0 == g :: k.1;
      ghost var all := todo;
      refs := [];
      while todo != {}
        invariant todo <= all && Distinct(refs) && Elements(refs) == all - todo
        decreases todo
      {
        var p :| p in todo;
        assert p !in Elements(refs);
        assert Elements(refs + [p]) == Elements(refs) + {p};
        todo := todo - {p};
        refs := refs + [p];
      }
      forall p
        ensures p in refs <==> (g, p) in table
      {
        assert p in Elements(refs) <==> p in refs;
        assert p in all <==> (g, p) in table;
      }
    }
  }

  function TableStep(table: ProposalTable, call: Call): ProposalTable {
    match call
    case Queue(g, p, x) => if (g, p) in table then table else table[(g, p) := x]
    case Remove(g, p) => table - {(g, p)}
    case Clear(g) => map k | k in table && k.0 != g :: table[k]
  }

  function TableRun(calls: seq<Call>): ProposalTable {
    if calls == [] then map[] else TableStep(TableRun(calls[..|calls| - 1]), calls[|calls| - 1])
  }

  /** Both sections of a call with nothing in between. */
  function RowStep(rows: Rows, call: Call): Rows {
    Section(Section(rows, call, Start), call, NextPc(rows, call, Start))
  }

  function RowRun(calls: seq<Call>): Rows {
    if calls == [] then map[] else RowStep(RowRun(calls[..|calls| - 1]), calls[|calls| - 1])
  }

  lemma StepCount(rows: Rows, call: Call, g: GroupId, p: Json)
    ensures Count(RowStep(rows, call), g, p) ==
            if Queues(call, g, p) then Count(rows, g, p) + 1
            else if Removes(call, g, p) && Count(rows, g, p) > 0 then Count(rows, g, p) - 1
            else if Clears(call, g) then 0
            else Count(rows, g, p)
  {
    hide Section, Count;
    SectionCount(rows, call, Start, g, p);
    SectionCount(Section(rows, call, Start), call, NextPc(rows, call, Start), g, p);
  }

  /** The content of a proposal row after a call. */
  lemma StepRow(rows: Rows, call: Call, g: GroupId, p: Json)
    ensures EntityOf(RowStep(rows, call), Proposal(g, p)) ==
            if Queues(call, g, p) then Some(call.proposal)
            else if Removes(call, g, p) then None
            else if Clears(call, g) && Count(rows, g, p) > 0 then None
            else EntityOf(rows, Proposal(g, p))
  {
    CountIsMembership(rows, g, p);
  }

  // ------------------------------------- the same proposals as in SQLite

  function TableEntry(table: ProposalTable, g: GroupId, p: Json): Option<Json> {
    if (g, p) in table then Some(table[(g, p)]) else None
  }

  ghost predicate SameProposals(rows: Rows, table: ProposalTable) {
    forall g: GroupId, p: Json :: EntityOf(rows, Proposal(g, p)) == TableEntry(table, g, p)
  }

  /** A ref that is queued while it is stored carries the stored proposal. */
  predicate Faithful(table: ProposalTable, call: Call) {
    call.Queue? && (call.group, call.ref) in table ==> table[(call.group, call.ref)] == call.proposal
  }

  predicate AlwaysFaithful(calls: seq<Call>) {
    forall i | 0 <= i < |calls| :: Faithful(TableRun(calls[..i]), calls[i])
  }

  /** Every stored proposal is listed, so clearing finds it. */
  ghost predicate RowsListed(rows: Rows) {
    forall g: GroupId, p: Json :: EntityOf(rows, Proposal(g, p)).Some? ==> Count(rows, g, p) > 0
  }

  lemma SameProposalsStep(rows: Rows, table: ProposalTable, call: Call)
    requires SameProposals(rows, table) && RowsListed(rows)
    ensures RowsListed(RowStep(rows, call))
    ensures SameProposals(RowStep(rows, call), TableStep(table, call)) <==> Faithful(table, call)
  {
    hide RowStep, Count, EntityOf;
    forall g: GroupId, p: Json
      ensures EntityOf(RowStep(rows, call), Proposal(g, p)).Some? ==> Count(RowStep(rows, call), g, p) > 0
      ensures Faithful(table, call) ==>
                EntityOf(RowStep(rows, call), Proposal(g, p)) == TableEntry(TableStep(table, call), g, p)
    {
      StepRow(rows, call, g, p);
      StepCount(rows, call, g, p);
      assert EntityOf(rows, Proposal(g, p)) == TableEntry(table, g, p);
    }
    if !Faithful(table, call) {
      StepRow(rows, call, call.group, call.ref);
      assert EntityOf(RowStep(rows, call), Proposal(call.group, call.ref))
          != TableEntry(TableStep(table, call), call.group, call.ref);
    }
  }

  lemma {:induction false} RunRowsListed(calls: seq<Call>)
    ensures RowsListed(RowRun(calls))
    ensures AlwaysFaithful(calls) ==> SameProposals(RowRun(calls), TableRun(calls))
  {
    if calls != [] {
      var n := |calls| - 1;
      var before := calls[..n];
      RunRowsListed(before);
      forall g: GroupId, p: Json
        ensures EntityOf(RowRun(calls), Proposal(g, p)).Some? ==> Count(RowRun(calls), g, p) > 0
      {
        StepRow(RowRun(before), calls[n], g, p);
        StepCount(RowRun(before), calls[n], g, p);
      }
      if AlwaysFaithful(calls) {
        assert forall i | 0 <= i < n :: before[..i] == calls[..i];
        SameProposalsStep(RowRun(before), TableRun(before), calls[n]);
      }
    }
  }

  ghost predicate SameAfterEveryCall(calls: seq<Call>) {
    forall i | 0 <= i <= |calls| :: SameProposals(RowRun(calls[..i]), TableRun(calls[..i]))
  }

  lemma RunStep(calls: seq<Call>, i: nat)
    requires i < |calls|
    ensures RowRun(calls[..i + 1]) == RowStep(RowRun(calls[..i]), calls[i])
    ensures TableRun(calls[..i + 1]) == TableStep(TableRun(calls[..i]), calls[i])
  {
    hide RowStep, TableStep;
    assert calls[..i + 1][..i] == calls[..i];
  }

  /** The memory store holds the proposals of the SQLite table after every call
      exactly if a ref queued again while stored always carries the proposal
      already stored. */
  lemma SameExactlyIfFaithful(calls: seq<Call>)
    ensures SameAfterEveryCall(calls) <==> AlwaysFaithful(calls)
  {
    hide RowRun, TableRun, SameProposals, Faithful;
    if AlwaysFaithful(calls) {
      forall i | 0 <= i <= |calls|
        ensures SameProposals(RowRun(calls[..i]), TableRun(calls[..i]))
      {
        assert forall k | 0 <= k < i :: calls[..i][..k] == calls[..k];
        RunRowsListed(calls[..i]);
      }
    }
    if SameAfterEveryCall(calls) {
      forall i | 0 <= i < |calls|
        ensures Faithful(TableRun(calls[..i]), calls[i])
      {
        RunRowsListed(calls[..i]);
        RunStep(calls, i);
        assert SameProposals(RowRun(calls[..i + 1]), TableRun(calls[..i + 1]));
        SameProposalsStep(RowRun(calls[..i]), TableRun(calls[..i]), calls[i]);
      }
    }
  }

  // -------------------------------------------- one listed ref per proposal

  /** Listed refs and proposal rows are in bijection, group by group. */
  ghost predicate InSync(rows: Rows) {
    forall g: GroupId, p: Json ::
      Count(rows, g, p) == if EntityOf(rows, Proposal(g, p)).Some? then 1 else 0
  }

  ghost predicate InSyncAfterEveryCall(calls: seq<Call>) {
    forall i | 0 <= i <= |calls| :: InSync(RowRun(calls[..i]))
  }

  predicate Requeues(rows: Rows, call: Call) {
    call.Queue? && Count(rows, call.group, call.ref) > 0
  }

  lemma InSyncStep(rows: Rows, call: Call)
    requires InSync(rows)
    ensures InSync(RowStep(rows, call)) <==> !Requeues(rows, call)
  {
    hide RowStep, Count, EntityOf;
    forall g: GroupId, p: Json
      ensures !Requeues(rows, call) ==>
                Count(RowStep(rows, call), g, p) == if EntityOf(RowStep(rows, call), Proposal(g, p)).Some? then 1 else 0
    {
      StepRow(rows, call, g, p);
      StepCount(rows, call, g, p);
      assert Count(rows, g, p) == if EntityOf(rows, Proposal(g, p)).Some? then 1 else 0;
    }
    if Requeues(rows, call) {
      StepCount(rows, call, call.group, call.ref);
    }
  }

  predicate NeverRequeues(calls: seq<Call>) {
    forall i | 0 <= i < |calls| :: !Requeues(RowRun(calls[..i]), calls[i])
  }

  lemma {:induction false} InSyncUpTo(calls: seq<Call>, n: nat)
    requires n <= |calls| && NeverRequeues(calls)
    ensures InSync(RowRun(calls[..n]))
  {
    hide RowStep, InSync, Requeues;
    if n == 0 {
      NothingQueued();
    } else {
      InSyncUpTo(calls, n - 1);
      RunStep(calls, n - 1);
      InSyncStep(RowRun(calls[..n - 1]), calls[n - 1]);
    }
  }

  /** Refs and proposals stay in bijection exactly over the runs that never queue
      a ref already in the queue. */
  lemma InSyncExactlyWithoutRequeue(calls: seq<Call>)
    ensures InSyncAfterEveryCall(calls) <==> NeverRequeues(calls)
  {
    hide RowStep, RowRun, InSync, Requeues;
    if NeverRequeues(calls) {
      forall i | 0 <= i <= |calls|
        ensures InSync(RowRun(calls[..i]))
      {
        InSyncUpTo(calls, i);
      }
    }
    if InSyncAfterEveryCall(calls) {
      forall i | 0 <= i < |calls|
        ensures !Requeues(RowRun(calls[..i]), calls[i])
      {
        RunStep(calls, i);
        assert InSync(RowRun(calls[..i])) && InSync(RowRun(calls[..i + 1]));
        InSyncStep(RowRun(calls[..i]), calls[i]);
      }
    }
  }

  lemma NothingQueued()
    ensures InSync(map[])
  {
  }

  // ------------------------------------- when reading the queue panics

  /** Every ref in the group's list has its proposal, which is what reading the
      queue needs. */
  ghost predicate Readable(rows: Rows, g: GroupId) {
    forall p: Json | Count(rows, g, p) > 0 :: EntityOf(rows, Proposal(g, p)).Some?
  }

  ghost predicate AllReadable(rows: Rows) {
    forall g: GroupId :: Readable(rows, g)
  }

  predicate TakesRepeat(rows: Rows, call: Call) {
    call.Remove? && Count(rows, call.group, call.ref) > 1
  }

  lemma ReadableStep(rows: Rows, call: Call)
    requires AllReadable(rows)
    ensures AllReadable(RowStep(rows, call)) <==> !TakesRepeat(rows, call)
  {
    hide RowStep, Count, EntityOf;
    var rows' := RowStep(rows, call);
    forall g: GroupId, p: Json
      ensures !TakesRepeat(rows, call) && Count(rows', g, p) > 0 ==> EntityOf(rows', Proposal(g, p)).Some?
    {
      StepRow(rows, call, g, p);
      StepCount(rows, call, g, p);
      assert Readable(rows, g);
    }
    if TakesRepeat(rows, call) {
      StepRow(rows, call, call.group, call.ref);
      StepCount(rows, call, call.group, call.ref);
      assert !Readable(rows', call.group);
    }
  }

  predicate NeverTakesRepeat(calls: seq<Call>) {
    forall i | 0 <= i < |calls| :: !TakesRepeat(RowRun(calls[..i]), calls[i])
  }

  lemma {:induction false} ReadableUpTo(calls: seq<Call>, n: nat)
    requires n <= |calls| && NeverTakesRepeat(calls)
    ensures AllReadable(RowRun(calls[..n]))
  {
    hide RowStep, AllReadable, TakesRepeat;
    if n == 0 {
      NothingToRead();
    } else {
      ReadableUpTo(calls, n - 1);
      RunStep(calls, n - 1);
      ReadableStep(RowRun(calls[..n - 1]), calls[n - 1]);
    }
  }

  lemma NothingToRead()
    ensures AllReadable(map[])
  {
  }

  /** Over every sequential run: the queue of every group can be read after every
      call, if and only if no call removes a ref that is listed more than once. */
  lemma ReadableExactlyWithoutRepeatRemoved(calls: seq<Call>)
    ensures (forall i | 0 <= i <= |calls| :: AllReadable(RowRun(calls[..i]))) <==> NeverTakesRepeat(calls)
  {
    hide RowStep, RowRun, AllReadable, TakesRepeat;
    if NeverTakesRepeat(calls) {
      forall i | 0 <= i <= |calls|
        ensures AllReadable(RowRun(calls[..i]))
      {
        ReadableUpTo(calls, i);
      }
    }
    if forall i | 0 <= i <= |calls| :: AllReadable(RowRun(calls[..i])) {
      forall i | 0 <= i < |calls|
        ensures !TakesRepeat(RowRun(calls[..i]), calls[i])
      {
        RunStep(calls, i);
        assert AllReadable(RowRun(calls[..i])) && AllReadable(RowRun(calls[..i + 1]));
        ReadableStep(RowRun(calls[..i]), calls[i]);
      }
    }
  }

  /** Queueing a ref twice and removing it once leaves it listed without a
      proposal. */
  lemma QueueQueueRemove(g: GroupId, p: Json, x: Json, y: Json)
    ensures !Readable(RowRun([Queue(g, p, x), Queue(g, p, y), Remove(g, p)]), g)
  {
    hide RowStep, Count, EntityOf;
    var calls := [Queue(g, p, x), Queue(g, p, y), Remove(g, p)];
    var r0, r1 := RowRun([]), RowStep(RowRun([]), calls[0]);
    var r2 := RowStep(r1, calls[1]);
    assert calls[..2][..1][..0] == [] && calls[..2][..1] == [calls[0]] && calls[..2] == [calls[0], calls[1]];
    assert RowRun(calls[..2][..1]) == r1;
    assert RowRun(calls[..2]) == r2;
    StepCount(r0, calls[0], g, p);
    StepCount(r1, calls[1], g, p);
    StepCount(r2, calls[2], g, p);
    StepRow(r2, calls[2], g, p);
  }

  /** Clearing takes every stored proposal and every listed ref of one group, and
      touches no other group. */
  lemma ClearsOneGroup(calls: seq<Call>, g: GroupId, h: GroupId, p: Json)
    ensures var rows, rows' := RowRun(calls), RowRun(calls + [Clear(g)]);
            if h == g then Count(rows', h, p) == 0 && EntityOf(rows', Proposal(h, p)) == None
            else
              && Count(rows', h, p) == Count(rows, h, p)
              && EntityOf(rows', Proposal(h, p)) == EntityOf(rows, Proposal(h, p))
  {
    hide RowStep, Count, EntityOf;
    assert (calls + [Clear(g)])[..|calls|] == calls;
    RunRowsListed(calls);
    StepRow(RowRun(calls), Clear(g), h, p);
    StepCount(RowRun(calls), Clear(g), h, p);
    assert EntityOf(RowRun(calls), Proposal(h, p)).Some? ==> Count(RowRun(calls), h, p) > 0;
  }
}
