/** Concurrent calls on the proposal queue. Queueing, removing and clearing each
    take the store's lock twice, so two calls can interleave between their
    sections. */
module ProposalInterleavings {
  import opened JsonText
  import opened RowKeys
  import opened Rows

  datatype Call =
    | Queue(group: GroupId, ref: Json, proposal: Json)
    | Remove(group: GroupId, ref: Json)
    | Clear(group: GroupId)

  /** How far a call has come; a half-done clear remembers the refs it read. */
  datatype Pc = Start | Mid(refs: seq<Json>) | Done

  datatype World = World(rows: Rows, pcs: seq<Pc>)

  function Refs(rows: Rows, g: GroupId): seq<Json> {
    ListOf(rows, ProposalRefs(g))
  }

  /** The rows after the next lock section of a call. */
  function Section(rows: Rows, call: Call, pc: Pc): Rows {
    match (call, pc)
    case (Queue(g, p, x), Start) => rows[Proposal(g, p) := Entity(x)]
    case (Queue(g, p, x), Mid(_)) => Appended(rows, ProposalRefs(g), p)
    case (Remove(g, p), Start) => Removed(rows, ProposalRefs(g), p)
    case (Remove(g, p), Mid(_)) => rows - {Proposal(g, p)}
    case (Clear(g), Start) => rows
    case (Clear(g), Mid(refs)) => rows - ProposalKeys(g, refs) - {ProposalRefs(g)}
    case (_, Done) => rows
  }

  function NextPc(rows: Rows, call: Call, pc: Pc): Pc {
    if !pc.Start? then Done
    else if call.Clear? then Mid(Refs(rows, call.group))
    else Mid([])
  }

  predicate Fits(calls: seq<Call>, w: World) {
    |w.pcs| == |calls|
  }

  function StepWorld(calls: seq<Call>, w: World, t: nat): (w': World)
    requires Fits(calls, w) && t < |calls|
    ensures Fits(calls, w')
  {
    World(Section(w.rows, calls[t], w.pcs[t]), w.pcs[t := NextPc(w.rows, calls[t], w.pcs[t])])
  }

  predicate IsSchedule(calls: seq<Call>, s: seq<nat>) {
    forall k | 0 <= k < |s| :: s[k] < |calls|
  }

  function Initial(calls: seq<Call>, rows: Rows): (w: World)
    ensures Fits(calls, w)
  {
    World(rows, seq(|calls|, _ => Start))
  }

  /** The world after the calls ran their sections in the order `s` gives. */
  function After(calls: seq<Call>, rows: Rows, s: seq<nat>): (w: World)
    requires IsSchedule(calls, s)
    ensures Fits(calls, w)
  {
    if s == [] then Initial(calls, rows)
    else StepWorld(calls, After(calls, rows, s[..|s| - 1]), s[|s| - 1])
  }

  lemma AfterStep(calls: seq<Call>, rows: Rows, s: seq<nat>, t: nat)
    requires IsSchedule(calls, s) && t < |calls|
    ensures IsSchedule(calls, s + [t])
    ensures After(calls, rows, s + [t]) == StepWorld(calls, After(calls, rows, s), t)
  {
    assert (s + [t])[..|s|] == s;
  }

  /** How often a ref is in its group's list. */
  function Count(rows: Rows, g: GroupId, p: Json): nat {
    multiset(Refs(rows, g))[p]
  }

  /** Every listed ref has its proposal, so a read of the queue that nothing
      interrupts cannot panic. */
  ghost predicate Backed(rows: Rows) {
    forall g: GroupId, p: Json | Count(rows, g, p) > 0 :: Proposal(g, p) in rows
  }

  predicate Queues(call: Call, g: GroupId, p: Json) {
    call.Queue? && call.group == g && call.ref == p
  }

  predicate Removes(call: Call, g: GroupId, p: Json) {
    call.Remove? && call.group == g && call.ref == p
  }

  predicate Clears(call: Call, g: GroupId) {
    call.Clear? && call.group == g
  }

  // ------------------------------------------------------- one schedule

  predicate HalfQueued(calls: seq<Call>, w: World, g: GroupId, p: Json)
    requires Fits(calls, w)
  {
    exists i | 0 <= i < |calls| :: Queues(calls[i], g, p) && w.pcs[i].Mid?
  }

  predicate HalfRemoved(calls: seq<Call>, w: World, g: GroupId, p: Json)
    requires Fits(calls, w)
  {
    exists i | 0 <= i < |calls| :: Removes(calls[i], g, p) && w.pcs[i].Mid?
  }

  /** The next section of call `t` lists a ref whose remove is half done, drops the
      row of a ref whose queueing is half done, or takes one of several listings
      of a ref whose row goes next. */
  predicate Strands(calls: seq<Call>, w: World, t: nat)
    requires Fits(calls, w) && t < |calls|
  {
    match (calls[t], w.pcs[t])
    case (Queue(g, p, _), Mid(_)) => HalfRemoved(calls, w, g, p)
    case (Remove(g, p), Mid(_)) => HalfQueued(calls, w, g, p)
    case (Clear(g), Mid(refs)) => exists p | p in refs :: HalfQueued(calls, w, g, p)
    case (Remove(g, p), Start) => Count(w.rows, g, p) > 1
    case _ => false
  }

  /** Some step of the schedule does so. */
  predicate Stranding(calls: seq<Call>, rows: Rows, s: seq<nat>)
    requires IsSchedule(calls, s)
  {
    exists n | 0 <= n < |s| :: Strands(calls, After(calls, rows, s[..n]), s[n])
  }

  /** Along the schedule, and after any one further section, every listed ref has
      its row. */
  ghost predicate SafeAlong(calls: seq<Call>, rows: Rows, s: seq<nat>)
    requires IsSchedule(calls, s)
  {
    && (forall n | 0 <= n <= |s| :: Backed(After(calls, rows, s[..n]).rows))
    && (forall n, t: nat | 0 <= n <= |s| && t < |calls| ::
          Backed(StepWorld(calls, After(calls, rows, s[..n]), t).rows))
  }

  /** For one ref: it has its row while it is listed and while its queueing is
      half done, and it is not listed while its remove is half done. */
  ghost predicate InvAt(calls: seq<Call>, w: World, g: GroupId, p: Json)
    requires Fits(calls, w)
  {
    && (Count(w.rows, g, p) > 0 ==> Proposal(g, p) in w.rows)
    && (HalfRemoved(calls, w, g, p) ==> Count(w.rows, g, p) == 0)
    && (HalfQueued(calls, w, g, p) ==> Proposal(g, p) in w.rows)
  }

  lemma {:induction false} RemoveFirstBag(s: seq<Json>, x: Json)
    ensures multiset(RemoveFirst(s, x)) == multiset(s) - multiset{x}
  {
    if s != [] {
      assert s == [s[0]] + s[1..];
      if s[0] != x {
        RemoveFirstBag(s[1..], x);
        assert multiset(RemoveFirst(s, x)) == multiset{s[0]} + multiset(RemoveFirst(s[1..], x));
      }
    }
  }

  /** What one section does to the list of a group. */
  lemma SectionRefs(rows: Rows, call: Call, pc: Pc, g: GroupId)
    ensures Refs(Section(rows, call, pc), g) ==
            if g != call.group then Refs(rows, g)
            else if call.Queue? && pc.Mid? then Refs(rows, g) + [call.ref]
            else if call.Remove? && pc.Start? then RemoveFirst(Refs(rows, g), call.ref)
            else if call.Clear? && pc.Mid? then []
            else Refs(rows, g)
  {
  }

  /** What one section does to the count of a ref. */
  lemma SectionCount(rows: Rows, call: Call, pc: Pc, g: GroupId, p: Json)
    ensures Count(Section(rows, call, pc), g, p) ==
            if Queues(call, g, p) && pc.Mid? then Count(rows, g, p) + 1
            else if Removes(call, g, p) && pc.Start? && Count(rows, g, p) > 0 then Count(rows, g, p) - 1
            else if Clears(call, g) && pc.Mid? then 0
            else Count(rows, g, p)
  {
    hide Section, Refs, RemoveFirst;
    SectionRefs(rows, call, pc, g);
    if g == call.group && call.Remove? && pc.Start? {
      RemoveFirstBag(Refs(rows, g), call.ref);
    }
  }

  /** What one section does to the proposal row of a ref. */
  lemma SectionRow(rows: Rows, call: Call, pc: Pc, g: GroupId, p: Json)
    ensures Proposal(g, p) in Section(rows, call, pc) <==>
            if Queues(call, g, p) && pc.Start? then true
            else if Removes(call, g, p) && pc.Mid? then false
            else if Clears(call, g) && pc.Mid? && p in pc.refs then false
            else Proposal(g, p) in rows
  {
  }

  lemma CountIsMembership(rows: Rows, g: GroupId, p: Json)
    ensures Count(rows, g, p) > 0 <==> p in Refs(rows, g)
  {
  }

  /** From the invariant every section leaves every listed ref with its row. */
  lemma StepBacked(calls: seq<Call>, w: World, t: nat, g: GroupId, p: Json)
    requires Fits(calls, w) && t < |calls| && InvAt(calls, w, g, p)
    ensures var rows' := StepWorld(calls, w, t).rows; Count(rows', g, p) > 0 ==> Proposal(g, p) in rows'
  {
    hide Section, Count;
    SectionCount(w.rows, calls[t], w.pcs[t], g, p);
    SectionRow(w.rows, calls[t], w.pcs[t], g, p);
  }

  /** Every section that does not strand a ref keeps the invariant, from any
      world. */
  lemma InvAtStep(calls: seq<Call>, w: World, t: nat, g: GroupId, p: Json)
    requires Fits(calls, w) && t < |calls| && InvAt(calls, w, g, p) && !Strands(calls, w, t)
    ensures InvAt(calls, StepWorld(calls, w, t), g, p)
  {
    hide Section, Count;
    var w' := StepWorld(calls, w, t);
    StepBacked(calls, w, t, g, p);
    SectionCount(w.rows, calls[t], w.pcs[t], g, p);
    SectionRow(w.rows, calls[t], w.pcs[t], g, p);
    if i :| 0 <= i < |calls| && Removes(calls[i], g, p) && w'.pcs[i].Mid? {
      assert i != t ==> HalfRemoved(calls, w, g, p);
    }
    if i :| 0 <= i < |calls| && Queues(calls[i], g, p) && w'.pcs[i].Mid? {
      assert i != t ==> HalfQueued(calls, w, g, p);
    }
  }

  lemma PrefixFree(calls: seq<Call>, rows: Rows, s: seq<nat>, n: nat)
    requires IsSchedule(calls, s) && !Stranding(calls, rows, s) && n <= |s|
    ensures !Stranding(calls, rows, s[..n])
  {
    hide Strands, After;
    forall m | 0 <= m < n
      ensures s[..n][..m] == s[..m] && s[..n][m] == s[m]
    {
    }
  }

  /** A schedule whose steps strand no ref keeps the invariant. */
  lemma {:induction false} KeptWithoutStranding(calls: seq<Call>, rows: Rows, s: seq<nat>, g: GroupId, p: Json)
    requires Backed(rows) && IsSchedule(calls, s) && !Stranding(calls, rows, s)
    ensures InvAt(calls, After(calls, rows, s), g, p)
  {
    hide Strands, StepWorld, Count;
    if s != [] {
      var n := |s| - 1;
      PrefixFree(calls, rows, s, n);
      KeptWithoutStranding(calls, rows, s[..n], g, p);
      InvAtStep(calls, After(calls, rows, s[..n]), s[n], g, p);
    }
  }

  /** One further section turns a stranding step into a listed ref without a row,
      from any world. */
  lemma StrandingBreaks(calls: seq<Call>, w: World, t: nat)
    requires Fits(calls, w) && t < |calls| && Strands(calls, w, t)
    ensures exists i: nat :: i < |calls| && !Backed(StepWorld(calls, StepWorld(calls, w, t), i).rows)
  {
    var g := calls[t].group;
    var p, i := StrandedBy(calls, w, t);
    var w1 := StepWorld(calls, w, t);
    var w2 := StepWorld(calls, w1, i);
    assert Count(w2.rows, g, p) > 0 && Proposal(g, p) !in w2.rows by {
      hide Section, Count;
      SectionCount(w.rows, calls[t], w.pcs[t], g, p);
      SectionRow(w.rows, calls[t], w.pcs[t], g, p);
      SectionCount(w1.rows, calls[i], w1.pcs[i], g, p);
      SectionRow(w1.rows, calls[i], w1.pcs[i], g, p);
    }
  }

  /** The ref that is stranded, and the call whose next section shows it. */
  lemma StrandedBy(calls: seq<Call>, w: World, t: nat) returns (p: Json, i: nat)
    requires Fits(calls, w) && t < |calls| && Strands(calls, w, t)
    ensures i < |calls|
    ensures match (calls[t], w.pcs[t])
            case (Queue(g, q, _), Mid(_)) => p == q && i != t && Removes(calls[i], g, p) && w.pcs[i].Mid?
            case (Remove(g, q), Mid(_)) => p == q && i != t && Queues(calls[i], g, p) && w.pcs[i].Mid?
            case (Clear(g), Mid(refs)) => p in refs && i != t && Queues(calls[i], g, p) && w.pcs[i].Mid?
            case (Remove(g, q), Start) => p == q && i == t && Count(w.rows, g, p) > 1
            case _ => false
  {
    hide Count;
    match (calls[t], w.pcs[t]) {
      case (Queue(g, q, _), Mid(_)) =>
        p := q;
        i :| 0 <= i < |calls| && Removes(calls[i], g, p) && w.pcs[i].Mid?;
      case (Remove(g, q), Mid(_)) =>
        p := q;
        i :| 0 <= i < |calls| && Queues(calls[i], g, p) && w.pcs[i].Mid?;
      case (Clear(g), Mid(refs)) =>
        p :| p in refs && HalfQueued(calls, w, g, p);
        i :| 0 <= i < |calls| && Queues(calls[i], g, p) && w.pcs[i].Mid?;
      case (Remove(g, q), Start) =>
        p, i := q, t;
    }
  }

  lemma BackedAndOneMore(calls: seq<Call>, rows: Rows, s: seq<nat>)
    requires Backed(rows) && IsSchedule(calls, s) && !Stranding(calls, rows, s)
    ensures Backed(After(calls, rows, s).rows)
    ensures forall t: nat | t < |calls| :: Backed(StepWorld(calls, After(calls, rows, s), t).rows)
  {
    hide StepWorld, Stranding, Count, After;
    var w := After(calls, rows, s);
    forall g: GroupId, p: Json
      ensures InvAt(calls, w, g, p)
    {
      KeptWithoutStranding(calls, rows, s, g, p);
    }
    forall t: nat | t < |calls|
      ensures Backed(StepWorld(calls, w, t).rows)
    {
      forall g: GroupId, p: Json | Count(StepWorld(calls, w, t).rows, g, p) > 0
        ensures Proposal(g, p) in StepWorld(calls, w, t).rows
      {
        StepBacked(calls, w, t, g, p);
      }
    }
    assert forall g: GroupId, p: Json :: InvAt(calls, w, g, p) ==> Count(w.rows, g, p) > 0 ==> Proposal(g, p) in w.rows;
  }

  /** The exact condition, schedule by schedule: every listed ref has its row
      along the schedule and after one further section of any call, if and only
      if no step strands a ref. */
  lemma SafeExactlyWithoutStranding(calls: seq<Call>, rows: Rows, s: seq<nat>)
    requires Backed(rows) && IsSchedule(calls, s)
    ensures SafeAlong(calls, rows, s) <==> !Stranding(calls, rows, s)
  {
    hide StepWorld, Strands, Backed;
    if Stranding(calls, rows, s) {
      var n :| 0 <= n < |s| && Strands(calls, After(calls, rows, s[..n]), s[n]);
      StrandingBreaks(calls, After(calls, rows, s[..n]), s[n]);
      AfterStep(calls, rows, s[..n], s[n]);
      assert s[..n] + [s[n]] == s[..n + 1];
    } else {
      forall n | 0 <= n <= |s|
        ensures Backed(After(calls, rows, s[..n]).rows)
        ensures forall t: nat | t < |calls| :: Backed(StepWorld(calls, After(calls, rows, s[..n]), t).rows)
      {
        PrefixFree(calls, rows, s, n);
        BackedAndOneMore(calls, rows, s[..n]);
      }
    }
  }

  // ------------------------------------------------- whole sets of calls

  /** Call `i` queues a ref that call `j` removes, or that call `j` may clear
      away while it is queued again. */
  predicate Clash(calls: seq<Call>, rows: Rows, i: nat, j: nat) {
    && i < |calls| && j < |calls| && calls[i].Queue?
    && var g, p := calls[i].group, calls[i].ref;
    || Removes(calls[j], g, p)
    || (&& Clears(calls[j], g)
        && (Count(rows, g, p) > 0 || exists k | 0 <= k < |calls| :: k != i && Queues(calls[k], g, p)))
  }

  /** Call `j` removes a ref that is listed more than once. */
  predicate RemovesRepeat(calls: seq<Call>, rows: Rows, j: nat) {
    j < |calls| && calls[j].Remove? && Count(rows, calls[j].group, calls[j].ref) > 1
  }

  predicate Clashes(calls: seq<Call>, rows: Rows) {
    || (exists i: nat, j: nat | i < |calls| && j < |calls| :: Clash(calls, rows, i, j))
    || (exists j: nat | j < |calls| :: RemovesRepeat(calls, rows, j))
  }

  ghost predicate SafeInEveryOrder(calls: seq<Call>, rows: Rows) {
    forall s: seq<nat> | IsSchedule(calls, s) :: Backed(After(calls, rows, s).rows)
  }

  predicate SomeoneRemoves(calls: seq<Call>, g: GroupId, p: Json) {
    exists i | 0 <= i < |calls| :: Removes(calls[i], g, p)
  }

  predicate Cleared(calls: seq<Call>, g: GroupId) {
    exists i | 0 <= i < |calls| :: Clears(calls[i], g)
  }

  /** What calls that do not clash keep besides: a ref that somebody removes is
      listed at most once; where a clear is around, a ref is listed, or among the
      refs the clear has read, only after its queueing is done. */
  ghost predicate CalmAt(calls: seq<Call>, w: World, g: GroupId, p: Json)
    requires Fits(calls, w)
  {
    && (SomeoneRemoves(calls, g, p) ==> Count(w.rows, g, p) <= 1)
    && (Cleared(calls, g) && Count(w.rows, g, p) > 0 ==>
          forall i | 0 <= i < |calls| && Queues(calls[i], g, p) :: w.pcs[i].Done?)
    && (forall i, j | 0 <= i < |calls| && 0 <= j < |calls| && Queues(calls[i], g, p) && Clears(calls[j], g)
                      && w.pcs[j].Mid? && p in w.pcs[j].refs :: w.pcs[i].Done?)
  }

  lemma NoClash(calls: seq<Call>, rows: Rows, i: nat, g: GroupId, p: Json)
    requires !Clashes(calls, rows) && i < |calls| && Queues(calls[i], g, p)
    ensures !SomeoneRemoves(calls, g, p)
    ensures Cleared(calls, g) ==> Count(rows, g, p) == 0
    ensures Cleared(calls, g) ==> forall k | 0 <= k < |calls| && k != i :: !Queues(calls[k], g, p)
  {
    forall j: nat | j < |calls|
      ensures !Clash(calls, rows, i, j)
    {
    }
    if j: nat :| j < |calls| && Removes(calls[j], g, p) {
      assert Clash(calls, rows, i, j);
    }
    if j: nat :| j < |calls| && Clears(calls[j], g) {
      assert !Clash(calls, rows, i, j);
    }
  }

  lemma CalmStep(calls: seq<Call>, rows: Rows, w: World, t: nat, g: GroupId, p: Json)
    requires Fits(calls, w) && t < |calls| && !Clashes(calls, rows) && CalmAt(calls, w, g, p)
    ensures CalmAt(calls, StepWorld(calls, w, t), g, p)
  {
    hide Section, Clashes, Count;
    SectionCount(w.rows, calls[t], w.pcs[t], g, p);
    CountIsMembership(w.rows, g, p);
    if i: nat :| i < |calls| && Queues(calls[i], g, p) {
      NoClash(calls, rows, i, g, p);
    }
  }

  lemma NoRepeatRemoved(calls: seq<Call>, rows: Rows, j: nat)
    requires !Clashes(calls, rows) && j < |calls| && calls[j].Remove?
    ensures Count(rows, calls[j].group, calls[j].ref) <= 1
  {
    hide Count, Clash;
    assert !RemovesRepeat(calls, rows, j);
  }

  lemma CalmStart(calls: seq<Call>, w: World, g: GroupId, p: Json)
    requires Fits(calls, w) && !Clashes(calls, w.rows)
    requires forall i | 0 <= i < |calls| :: w.pcs[i] == Start
    ensures CalmAt(calls, w, g, p)
  {
    hide Count, Clashes, SomeoneRemoves, Cleared, Queues, Clears, Removes;
    if SomeoneRemoves(calls, g, p) {
      var j := Remover(calls, g, p);
      NoRepeatRemoved(calls, w.rows, j);
    }
    forall i: nat | i < |calls| && Queues(calls[i], g, p)
      ensures !(Cleared(calls, g) && Count(w.rows, g, p) > 0)
    {
      NoClash(calls, w.rows, i, g, p);
    }
  }

  lemma Remover(calls: seq<Call>, g: GroupId, p: Json) returns (j: nat)
    requires SomeoneRemoves(calls, g, p)
    ensures j < |calls| && Removes(calls[j], g, p)
    ensures calls[j].Remove? && calls[j].group == g && calls[j].ref == p
  {
    j :| j < |calls| && Removes(calls[j], g, p);
  }

  lemma {:induction false} Calm(calls: seq<Call>, rows: Rows, s: seq<nat>, g: GroupId, p: Json)
    requires !Clashes(calls, rows) && IsSchedule(calls, s)
    ensures CalmAt(calls, After(calls, rows, s), g, p)
  {
    hide Clashes, StepWorld;
    if s == [] {
      CalmStart(calls, Initial(calls, rows), g, p);
    } else {
      Calm(calls, rows, s[..|s| - 1], g, p);
      CalmStep(calls, rows, After(calls, rows, s[..|s| - 1]), s[|s| - 1], g, p);
    }
  }

  lemma CalmStrandsNothing(calls: seq<Call>, rows: Rows, w: World, t: nat)
    requires Fits(calls, w) && t < |calls| && !Clashes(calls, rows)
    requires forall g: GroupId, p: Json :: CalmAt(calls, w, g, p)
    ensures !Strands(calls, w, t)
  {
    hide Count, Clashes;
    if Strands(calls, w, t) {
      var g := calls[t].group;
      var p, i := StrandedBy(calls, w, t);
      assert CalmAt(calls, w, g, p);
      if calls[t].Queue? {
        NoClash(calls, rows, t, g, p);
      } else if Queues(calls[i], g, p) {
        NoClash(calls, rows, i, g, p);
      }
    }
  }

  lemma NoClashNoStranding(calls: seq<Call>, rows: Rows, s: seq<nat>)
    requires !Clashes(calls, rows) && IsSchedule(calls, s)
    ensures !Stranding(calls, rows, s)
  {
    hide Strands, Clashes, After, CalmAt;
    forall n | 0 <= n < |s|
      ensures !Strands(calls, After(calls, rows, s[..n]), s[n])
    {
      forall g: GroupId, p: Json
        ensures CalmAt(calls, After(calls, rows, s[..n]), g, p)
      {
        Calm(calls, rows, s[..n], g, p);
      }
      CalmStrandsNothing(calls, rows, After(calls, rows, s[..n]), s[n]);
    }
  }

  // ------------------------------------------------ a clash, then unsafe

  /** From any state: a queue interrupted by a complete remove of its own ref
      leaves the ref listed without a row. */
  lemma RemoveInsideQueue(calls: seq<Call>, rows: Rows, i: nat, j: nat)
    requires i < |calls| && j < |calls| && calls[i].Queue?
    requires Removes(calls[j], calls[i].group, calls[i].ref)
    ensures IsSchedule(calls, [i, j, j, i])
    ensures !Backed(After(calls, rows, [i, j, j, i]).rows)
  {
    var g, p := calls[i].group, calls[i].ref;
    Unroll4(calls, rows, [], i, j, j, i);
    assert [] + [i, j, j, i] == [i, j, j, i];
    var w0 := Initial(calls, rows);
    var w1 := StepWorld(calls, w0, i);
    var w2 := StepWorld(calls, w1, j);
    var w3 := StepWorld(calls, w2, j);
    var w4 := StepWorld(calls, w3, i);
    assert Count(w4.rows, g, p) > 0 && Proposal(g, p) !in w4.rows by {
      hide Section, Count;
      SectionCount(w3.rows, calls[i], w3.pcs[i], g, p);
      SectionRow(w2.rows, calls[j], w2.pcs[j], g, p);
      SectionRow(w3.rows, calls[i], w3.pcs[i], g, p);
    }
  }

  /** A ref that is listed and queued again around a clear ends up listed without
      a row. */
  lemma ClearInsideQueue(calls: seq<Call>, w: World, i: nat, j: nat)
    requires Fits(calls, w) && i < |calls| && j < |calls| && calls[i].Queue?
    requires Clears(calls[j], calls[i].group) && w.pcs[i].Start? && w.pcs[j].Start?
    requires Count(w.rows, calls[i].group, calls[i].ref) > 0
    ensures var w1 := StepWorld(calls, w, j);
            var w2 := StepWorld(calls, w1, i);
            var w3 := StepWorld(calls, w2, j);
            !Backed(StepWorld(calls, w3, i).rows)
  {
    var g, p := calls[i].group, calls[i].ref;
    var w1 := StepWorld(calls, w, j);
    var w2 := StepWorld(calls, w1, i);
    var w3 := StepWorld(calls, w2, j);
    var w4 := StepWorld(calls, w3, i);
    CountIsMembership(w.rows, g, p);
    assert Count(w4.rows, g, p) > 0 && Proposal(g, p) !in w4.rows by {
      hide Section, Count;
      SectionCount(w3.rows, calls[i], w3.pcs[i], g, p);
      SectionRow(w2.rows, calls[j], w2.pcs[j], g, p);
      SectionRow(w3.rows, calls[i], w3.pcs[i], g, p);
    }
  }

  /** Four more sections after a schedule. */
  lemma Unroll4(calls: seq<Call>, rows: Rows, s: seq<nat>, a: nat, b: nat, c: nat, d: nat)
    requires IsSchedule(calls, s) && a < |calls| && b < |calls| && c < |calls| && d < |calls|
    ensures IsSchedule(calls, s + [a, b, c, d])
    ensures var w1 := StepWorld(calls, After(calls, rows, s), a);
            var w2 := StepWorld(calls, w1, b);
            var w3 := StepWorld(calls, w2, c);
            After(calls, rows, s + [a, b, c, d]) == StepWorld(calls, w3, d)
  {
    hide StepWorld, After;
    AfterStep(calls, rows, s, a);
    AfterStep(calls, rows, s + [a], b);
    AfterStep(calls, rows, s + [a] + [b], c);
    AfterStep(calls, rows, s + [a] + [b] + [c], d);
    assert s + [a] + [b] + [c] + [d] == s + [a, b, c, d];
  }

  lemma QueuedTwice(calls: seq<Call>, rows: Rows, i: nat, j: nat, k: nat)
    requires i < |calls| && j < |calls| && k < |calls| && i != k && calls[i].Queue?
    requires Clears(calls[j], calls[i].group) && Queues(calls[k], calls[i].group, calls[i].ref)
    ensures IsSchedule(calls, [k, k] + [j, i, j, i])
    ensures !Backed(After(calls, rows, [k, k] + [j, i, j, i]).rows)
  {
    var g, p := calls[i].group, calls[i].ref;
    var w1 := StepWorld(calls, Initial(calls, rows), k);
    var w2 := StepWorld(calls, w1, k);
    AfterStep(calls, rows, [], k);
    AfterStep(calls, rows, [k], k);
    assert [] + [k] == [k] && [k] + [k] == [k, k];
    SectionCount(w1.rows, calls[k], w1.pcs[k], g, p);
    assert Count(w2.rows, g, p) > 0;
    ClearInsideQueue(calls, w2, i, j);
    Unroll4(calls, rows, [k, k], j, i, j, i);
  }

  lemma ClashUnsafe(calls: seq<Call>, rows: Rows, i: nat, j: nat) returns (s: seq<nat>)
    requires Clash(calls, rows, i, j)
    ensures IsSchedule(calls, s) && !Backed(After(calls, rows, s).rows)
  {
    hide Backed, After, Section;
    var g, p := calls[i].group, calls[i].ref;
    if Removes(calls[j], g, p) {
      RemoveInsideQueue(calls, rows, i, j);
      s := [i, j, j, i];
    } else if Count(rows, g, p) > 0 {
      ListedAndCleared(calls, rows, i, j);
      s := [j, i, j, i];
    } else {
      var k: nat :| k < |calls| && k != i && Queues(calls[k], g, p);
      QueuedTwice(calls, rows, i, j, k);
      s := [k, k] + [j, i, j, i];
    }
  }

  lemma ListedAndCleared(calls: seq<Call>, rows: Rows, i: nat, j: nat)
    requires i < |calls| && j < |calls| && calls[i].Queue? && Clears(calls[j], calls[i].group)
    requires Count(rows, calls[i].group, calls[i].ref) > 0
    ensures IsSchedule(calls, [j, i, j, i])
    ensures !Backed(After(calls, rows, [j, i, j, i]).rows)
  {
    ClearInsideQueue(calls, Initial(calls, rows), i, j);
    Unroll4(calls, rows, [], j, i, j, i);
    assert [] + [j, i, j, i] == [j, i, j, i];
  }

  /** A removal takes one of several listings, and then the row. */
  lemma RepeatRemoved(calls: seq<Call>, rows: Rows, j: nat)
    requires RemovesRepeat(calls, rows, j)
    ensures IsSchedule(calls, [j, j]) && !Backed(After(calls, rows, [j, j]).rows)
  {
    var g, p := calls[j].group, calls[j].ref;
    var w0 := Initial(calls, rows);
    var w1 := StepWorld(calls, w0, j);
    AfterStep(calls, rows, [], j);
    AfterStep(calls, rows, [j], j);
    assert [] + [j] == [j] && [j] + [j] == [j, j];
    var w2 := StepWorld(calls, w1, j);
    assert Count(w2.rows, g, p) > 0 && Proposal(g, p) !in w2.rows by {
      hide Section, Count;
      SectionCount(w0.rows, calls[j], w0.pcs[j], g, p);
      SectionCount(w1.rows, calls[j], w1.pcs[j], g, p);
      SectionRow(w1.rows, calls[j], w1.pcs[j], g, p);
    }
  }

  /** Every interleaving of a set of concurrent calls keeps each listed ref
      backed by its proposal exactly if no call queues a ref that another removes,
      or that another clears while it is, or may come to be, listed, and no call
      removes a ref that is listed more than once. */
  lemma SafeExactlyWithoutClash(calls: seq<Call>, rows: Rows)
    requires Backed(rows)
    ensures SafeInEveryOrder(calls, rows) <==> !Clashes(calls, rows)
  {
    hide Backed, After, Clash, RemovesRepeat, Stranding;
    if i: nat, j: nat :| i < |calls| && j < |calls| && Clash(calls, rows, i, j) {
      var s := ClashUnsafe(calls, rows, i, j);
      assert IsSchedule(calls, s);
    } else if j: nat :| j < |calls| && RemovesRepeat(calls, rows, j) {
      RepeatRemoved(calls, rows, j);
      assert IsSchedule(calls, [j, j]);
    } else {
      forall s: seq<nat> | IsSchedule(calls, s)
        ensures Backed(After(calls, rows, s).rows)
      {
        NoClashNoStranding(calls, rows, s);
        BackedAndOneMore(calls, rows, s);
      }
    }
  }
}
