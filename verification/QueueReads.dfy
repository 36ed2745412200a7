/** Reading the proposal queue while other calls run: the list is read under one
    lock and each proposal under its own, so the rows can change in between. */
module QueueReads {
  import opened JsonText
  import opened RowKeys
  import opened Rows
  import opened ProposalInterleavings

  /** The rows after the first `n` steps of the schedule. */
  function At(calls: seq<Call>, rows: Rows, s: seq<nat>, n: nat): World
    requires IsSchedule(calls, s) && n <= |s|
  {
    After(calls, rows, s[..n])
  }

  /** The list a reader sees that reads it after `n` steps. */
  function Seen(calls: seq<Call>, rows: Rows, s: seq<nat>, g: GroupId, n: nat): seq<Json>
    requires IsSchedule(calls, s) && n <= |s|
  {
    Refs(At(calls, rows, s, n).rows, g)
  }

  /** When a reader takes its locks: the list after `at[0]` steps, and the k-th
      proposal after `at[k + 1]`. */
  predicate IsReader(calls: seq<Call>, rows: Rows, s: seq<nat>, g: GroupId, at: seq<nat>) {
    && IsSchedule(calls, s)
    && |at| > 0
    && (forall k | 0 <= k < |at| :: at[k] <= |s|)
    && (forall k | 1 <= k < |at| :: at[k - 1] <= at[k])
    && |at| == |Seen(calls, rows, s, g, at[0])| + 1
  }

  /** Some proposal is gone when it is its turn. */
  predicate Panics(calls: seq<Call>, rows: Rows, s: seq<nat>, g: GroupId, at: seq<nat>)
    requires IsReader(calls, rows, s, g, at)
  {
    var refs := Seen(calls, rows, s, g, at[0]);
    exists k | 0 <= k < |refs| :: Proposal(g, refs[k]) !in At(calls, rows, s, at[k + 1]).rows
  }

  /** Step `m` drops the row of the ref. */
  predicate Drops(calls: seq<Call>, rows: Rows, s: seq<nat>, m: nat, g: GroupId, p: Json)
    requires IsSchedule(calls, s) && m < |s|
  {
    var call, pc := calls[s[m]], At(calls, rows, s, m).pcs[s[m]];
    pc.Mid? && (Removes(call, g, p) || (Clears(call, g) && p in pc.refs))
  }

  /** Step `m` writes it. */
  predicate Writes(calls: seq<Call>, rows: Rows, s: seq<nat>, m: nat, g: GroupId, p: Json)
    requires IsSchedule(calls, s) && m < |s|
  {
    Queues(calls[s[m]], g, p) && At(calls, rows, s, m).pcs[s[m]].Start?
  }

  lemma RowStep(calls: seq<Call>, rows: Rows, s: seq<nat>, m: nat, g: GroupId, p: Json)
    requires IsSchedule(calls, s) && m < |s|
    ensures Proposal(g, p) in At(calls, rows, s, m + 1).rows <==>
            Writes(calls, rows, s, m, g, p)
            || (Proposal(g, p) in At(calls, rows, s, m).rows && !Drops(calls, rows, s, m, g, p))
  {
    hide Section;
    var w := At(calls, rows, s, m);
    AfterStep(calls, rows, s[..m], s[m]);
    assert s[..m] + [s[m]] == s[..m + 1];
    SectionRow(w.rows, calls[s[m]], w.pcs[s[m]], g, p);
  }

  /** Dropped at step `m` and not written again before step `b`. */
  predicate LostAt(calls: seq<Call>, rows: Rows, s: seq<nat>, m: nat, b: nat, g: GroupId, p: Json)
    requires IsSchedule(calls, s) && m < b <= |s|
  {
    && Drops(calls, rows, s, m, g, p)
    && forall n | m < n < b :: !Writes(calls, rows, s, n, g, p)
  }

  predicate LostBetween(calls: seq<Call>, rows: Rows, s: seq<nat>, a: nat, b: nat, g: GroupId, p: Json)
    requires IsSchedule(calls, s) && b <= |s|
  {
    exists m | a <= m < b :: LostAt(calls, rows, s, m, b, g, p)
  }

  /** Some step from `a` on and before `b` writes the row. */
  predicate WrittenBetween(calls: seq<Call>, rows: Rows, s: seq<nat>, a: nat, b: nat, g: GroupId, p: Json)
    requires IsSchedule(calls, s) && b <= |s|
  {
    exists m | a <= m < b :: Writes(calls, rows, s, m, g, p)
  }

  /** A row is missing at `b` exactly if some step since `a` dropped it for good, or
      it was missing at `a` and nothing has written it since. */
  lemma {:induction false} MissingExactly(
      calls: seq<Call>, rows: Rows, s: seq<nat>, a: nat, b: nat, g: GroupId, p: Json)
    requires IsSchedule(calls, s) && a <= b <= |s|
    ensures Proposal(g, p) !in At(calls, rows, s, b).rows <==>
            || LostBetween(calls, rows, s, a, b, g, p)
            || (Proposal(g, p) !in At(calls, rows, s, a).rows && !WrittenBetween(calls, rows, s, a, b, g, p))
    decreases b
  {
    hide At, Drops, Writes, LostAt;
    if a < b {
      var l := b - 1;
      MissingExactly(calls, rows, s, a, l, g, p);
      RowStep(calls, rows, s, l, g, p);
      DropIsNoWrite(calls, rows, s, l, g, p);
      LostStep(calls, rows, s, a, b, g, p);
      WrittenStep(calls, rows, s, a, b, g, p);
    }
  }

  lemma LostAtStep(calls: seq<Call>, rows: Rows, s: seq<nat>, m: nat, b: nat, g: GroupId, p: Json)
    requires IsSchedule(calls, s) && m < b <= |s|
    ensures LostAt(calls, rows, s, m, b, g, p) <==>
            if m == b - 1 then Drops(calls, rows, s, m, g, p)
            else LostAt(calls, rows, s, m, b - 1, g, p) && !Writes(calls, rows, s, b - 1, g, p)
  {
    hide Drops, Writes;
  }

  lemma LostStep(calls: seq<Call>, rows: Rows, s: seq<nat>, a: nat, b: nat, g: GroupId, p: Json)
    requires IsSchedule(calls, s) && a < b <= |s|
    ensures LostBetween(calls, rows, s, a, b, g, p) <==>
            || Drops(calls, rows, s, b - 1, g, p)
            || (LostBetween(calls, rows, s, a, b - 1, g, p) && !Writes(calls, rows, s, b - 1, g, p))
  {
    hide Drops, Writes, LostAt;
    var l := b - 1;
    LostAtStep(calls, rows, s, l, b, g, p);
    if Drops(calls, rows, s, l, g, p) {
      assert LostAt(calls, rows, s, l, b, g, p);
    }
    if m :| a <= m < l && LostAt(calls, rows, s, m, l, g, p) {
      LostAtStep(calls, rows, s, m, b, g, p);
    }
    if m :| a <= m < b && LostAt(calls, rows, s, m, b, g, p) {
      LostAtStep(calls, rows, s, m, b, g, p);
    }
  }

  lemma WrittenStep(calls: seq<Call>, rows: Rows, s: seq<nat>, a: nat, b: nat, g: GroupId, p: Json)
    requires IsSchedule(calls, s) && a < b <= |s|
    ensures WrittenBetween(calls, rows, s, a, b, g, p) <==>
            Writes(calls, rows, s, b - 1, g, p) || WrittenBetween(calls, rows, s, a, b - 1, g, p)
  {
    hide Writes;
  }

  lemma DropIsNoWrite(calls: seq<Call>, rows: Rows, s: seq<nat>, m: nat, g: GroupId, p: Json)
    requires IsSchedule(calls, s) && m < |s|
    ensures !(Drops(calls, rows, s, m, g, p) && Writes(calls, rows, s, m, g, p))
  {
    hide At;
  }

  /** A queueing that has started has written its row. */
  lemma {:induction false} StartedHasWritten(
      calls: seq<Call>, rows: Rows, s: seq<nat>, a: nat, i: nat, g: GroupId, p: Json)
    requires IsSchedule(calls, s) && a <= |s| && i < |calls| && Queues(calls[i], g, p)
    requires !At(calls, rows, s, a).pcs[i].Start?
    ensures WrittenBetween(calls, rows, s, 0, a, g, p)
    decreases a
  {
    hide Section, After;
    if a == 0 {
      NothingStarted(calls, rows, s);
    } else {
      var w := At(calls, rows, s, a - 1);
      AfterStep(calls, rows, s[..a - 1], s[a - 1]);
      assert s[..a - 1] + [s[a - 1]] == s[..a];
      if w.pcs[i].Start? {
        assert Writes(calls, rows, s, a - 1, g, p);
      } else {
        StartedHasWritten(calls, rows, s, a - 1, i, g, p);
      }
    }
  }

  lemma NothingStarted(calls: seq<Call>, rows: Rows, s: seq<nat>)
    requires IsSchedule(calls, s)
    ensures At(calls, rows, s, 0) == Initial(calls, rows)
  {
    assert s[..0] == [];
  }

  /** A ref that is listed was listed from the start, or its row was written on
      the way. */
  lemma {:induction false} ListedWasWritten(calls: seq<Call>, rows: Rows, s: seq<nat>, a: nat, g: GroupId, p: Json)
    requires IsSchedule(calls, s) && a <= |s| && Count(At(calls, rows, s, a).rows, g, p) > 0
    ensures Count(rows, g, p) > 0 || WrittenBetween(calls, rows, s, 0, a, g, p)
    decreases a
  {
    hide Section, After, Count, Writes;
    if a == 0 {
      NothingStarted(calls, rows, s);
    } else {
      var w, t := At(calls, rows, s, a - 1), s[a - 1];
      AfterStep(calls, rows, s[..a - 1], t);
      assert s[..a - 1] + [t] == s[..a];
      SectionCount(w.rows, calls[t], w.pcs[t], g, p);
      if Count(w.rows, g, p) > 0 {
        ListedWasWritten(calls, rows, s, a - 1, g, p);
      } else {
        StartedHasWritten(calls, rows, s, a - 1, t, g, p);
      }
    }
  }

  /** A reader, anywhere along any schedule from a store in which every listed ref
      has its row, panics if and only if some ref it has seen was dropped before
      its turn and not written again in between. The drop may come before the
      list is read. */
  lemma PanicsExactlyIfLost(calls: seq<Call>, rows: Rows, s: seq<nat>, g: GroupId, at: seq<nat>)
    requires IsReader(calls, rows, s, g, at) && Backed(rows)
    ensures var refs := Seen(calls, rows, s, g, at[0]);
            Panics(calls, rows, s, g, at) <==>
            exists k | 0 <= k < |refs| :: LostBetween(calls, rows, s, 0, at[k + 1], g, refs[k])
  {
    hide At, LostBetween, Count, Writes;
    var refs := Seen(calls, rows, s, g, at[0]);
    forall k | 0 <= k < |refs|
      ensures Proposal(g, refs[k]) !in At(calls, rows, s, at[k + 1]).rows <==>
              LostBetween(calls, rows, s, 0, at[k + 1], g, refs[k])
    {
      var p := refs[k];
      Ascending(at, k + 1);
      CountIsMembership(At(calls, rows, s, at[0]).rows, g, p);
      assert p in refs;
      ListedWasWritten(calls, rows, s, at[0], g, p);
      NothingStarted(calls, rows, s);
      assert WrittenBetween(calls, rows, s, 0, at[0], g, p) ==> WrittenBetween(calls, rows, s, 0, at[k + 1], g, p);
      MissingExactly(calls, rows, s, 0, at[k + 1], g, p);
    }
  }

  /** If the list is read when every listed ref has its row, only drops after that
      matter. */
  lemma PanicsAfterBackedList(calls: seq<Call>, rows: Rows, s: seq<nat>, g: GroupId, at: seq<nat>)
    requires IsReader(calls, rows, s, g, at) && Backed(At(calls, rows, s, at[0]).rows)
    ensures var refs := Seen(calls, rows, s, g, at[0]);
            Panics(calls, rows, s, g, at) <==>
            exists k | 0 <= k < |refs| :: LostBetween(calls, rows, s, at[0], at[k + 1], g, refs[k])
  {
    hide At, LostBetween, Count, WrittenBetween;
    var refs := Seen(calls, rows, s, g, at[0]);
    forall k | 0 <= k < |refs|
      ensures Proposal(g, refs[k]) !in At(calls, rows, s, at[k + 1]).rows <==>
              LostBetween(calls, rows, s, at[0], at[k + 1], g, refs[k])
    {
      Ascending(at, k + 1);
      CountIsMembership(At(calls, rows, s, at[0]).rows, g, refs[k]);
      assert refs[k] in refs;
      MissingExactly(calls, rows, s, at[0], at[k + 1], g, refs[k]);
    }
  }

  lemma {:induction false} Ascending(at: seq<nat>, k: nat)
    requires k < |at| && forall k | 1 <= k < |at| :: at[k - 1] <= at[k]
    ensures at[0] <= at[k]
  {
    if k > 0 {
      Ascending(at, k - 1);
    }
  }

  /** A reader that nothing interrupts panics exactly if some listed ref of the
      group has no row at that moment. */
  lemma UninterruptedRead(calls: seq<Call>, rows: Rows, s: seq<nat>, g: GroupId, n: nat, at: seq<nat>)
    requires n <= |s| && IsReader(calls, rows, s, g, at) && forall k | 0 <= k < |at| :: at[k] == n
    ensures var now := At(calls, rows, s, n).rows;
            Panics(calls, rows, s, g, at) <==> exists p: Json :: Count(now, g, p) > 0 && Proposal(g, p) !in now
  {
    hide At, Count;
    var now := At(calls, rows, s, n).rows;
    var refs := Seen(calls, rows, s, g, n);
    if k :| 0 <= k < |refs| && Proposal(g, refs[k]) !in now {
      CountIsMembership(now, g, refs[k]);
      assert refs[k] in refs;
    }
    if p: Json :| Count(now, g, p) > 0 && Proposal(g, p) !in now {
      CountIsMembership(now, g, p);
      var k :| 0 <= k < |refs| && refs[k] == p;
      assert at[k + 1] == n;
    }
  }

  /** So it does not panic anywhere along a schedule without a stranding step. */
  lemma UninterruptedReadIsSafe(calls: seq<Call>, rows: Rows, s: seq<nat>, g: GroupId, n: nat, at: seq<nat>)
    requires n <= |s| && IsReader(calls, rows, s, g, at) && forall k | 0 <= k < |at| :: at[k] == n
    requires Backed(rows) && !Stranding(calls, rows, s)
    ensures !Panics(calls, rows, s, g, at)
  {
    hide After, Count, Panics, Stranding;
    PrefixFree(calls, rows, s, n);
    BackedAndOneMore(calls, rows, s[..n]);
    UninterruptedRead(calls, rows, s, g, n, at);
  }

  lemma RemovedAtOnce(rows: Rows, g: GroupId, p: Json)
    ensures Proposal(g, p) !in After([Remove(g, p)], rows, [0, 0]).rows
  {
    hide Section;
    var calls := [Remove(g, p)];
    AfterStep(calls, rows, [], 0);
    AfterStep(calls, rows, [0], 0);
    assert [] + [0] == [0] && [0] + [0] == [0, 0];
    var w1 := StepWorld(calls, Initial(calls, rows), 0);
    SectionRow(w1.rows, calls[0], w1.pcs[0], g, p);
  }

  /** A remove between the two locks of a reader makes it panic, from any store
      that lists just the one ref. */
  lemma RemoveInsideRead(rows: Rows, g: GroupId, p: Json)
    requires Refs(rows, g) == [p]
    ensures IsReader([Remove(g, p)], rows, [0, 0], g, [0, 2]) && Panics([Remove(g, p)], rows, [0, 0], g, [0, 2])
  {
    hide StepWorld, Refs;
    var calls := [Remove(g, p)];
    var s: seq<nat> := [0, 0];
    assert s[..0] == [] && Seen(calls, rows, s, g, 0) == [p];
    RemovedAtOnce(rows, g, p);
    assert s[..2] == s;
    assert Proposal(g, [p][0]) !in At(calls, rows, s, 2).rows;
  }
}
