/** Concurrent calls on the retained KeyPackage material. An upload and a sweep
    take the lock once; a delete drops the material, the epoch tag and the
    KeyPackage in separate lock sections. */
module RetainedInterleavings {
  import opened JsonText
  import opened RowKeys
  import opened Rows
  import Ops = VirtualClientOps

  datatype Call =
    | Upload(epoch: Json, tree: Json, materials: seq<(Json, Json)>)
    | DeleteMaterial(keyPackage: Json)
    | DeleteKeyPackage(keyPackage: Json)
    | Sweep

  /** `next` counts the lock sections of each call that have run; `origin` is the
      epoch each stored material was uploaded for. */
  datatype World = World(rows: Rows, origin: map<Json, Json>, next: seq<nat>)

  function Section(rows: Rows, call: Call, n: nat): Rows {
    match call
    case Upload(e, t, ms) => if n == 0 then PutMaterials(rows[OpTree(e) := Entity(t)], e, ms) else rows
    case DeleteMaterial(k) =>
      if n == 0 then rows - {Material(k)} else if n == 1 then rows - {MaterialEpoch(k)} else rows
    case DeleteKeyPackage(k) =>
      if n == 0 then rows - {Material(k)} else if n == 1 then rows - {MaterialEpoch(k)}
      else if n == 2 then rows - {Plain(KeyPackages, k)} else rows
    case Sweep => if n == 0 then Swept(rows) else rows
  }

  function Origins(origin: map<Json, Json>, e: Json, ms: seq<(Json, Json)>): map<Json, Json> {
    if ms == [] then origin else Origins(origin, e, ms[..|ms| - 1])[ms[|ms| - 1].0 := e]
  }

  predicate Fits(calls: seq<Call>, w: World) {
    |w.next| == |calls|
  }

  function StepWorld(calls: seq<Call>, w: World, t: nat): (w': World)
    requires Fits(calls, w) && t < |calls|
    ensures Fits(calls, w')
  {
    var call, n := calls[t], w.next[t];
    World(Section(w.rows, call, n),
          if call.Upload? && n == 0 then Origins(w.origin, call.epoch, call.materials) else w.origin,
          w.next[t := n + 1])
  }

  predicate IsSchedule(calls: seq<Call>, s: seq<nat>) {
    forall k | 0 <= k < |s| :: s[k] < |calls|
  }

  function Initial(calls: seq<Call>, rows: Rows, origin: map<Json, Json>): (w: World)
    ensures Fits(calls, w)
  {
    World(rows, origin, seq(|calls|, _ => 0))
  }

  function After(calls: seq<Call>, rows: Rows, origin: map<Json, Json>, s: seq<nat>): (w: World)
    requires IsSchedule(calls, s)
    ensures Fits(calls, w)
  {
    if s == [] then Initial(calls, rows, origin)
    else StepWorld(calls, After(calls, rows, origin, s[..|s| - 1]), s[|s| - 1])
  }

  lemma AfterStep(calls: seq<Call>, rows: Rows, origin: map<Json, Json>, s: seq<nat>, t: nat)
    requires IsSchedule(calls, s) && t < |calls|
    ensures IsSchedule(calls, s + [t])
    ensures After(calls, rows, origin, s + [t]) == StepWorld(calls, After(calls, rows, origin, s), t)
  {
    assert (s + [t])[..|s|] == s;
  }

  /** Material that can be read carries the tag of the epoch it belongs to. */
  predicate TaggedAt(w: World, k: Json) {
    Material(k) in w.rows ==>
      k in w.origin && MaterialEpoch(k) in w.rows && w.rows[MaterialEpoch(k)] == Entity(w.origin[k])
  }

  ghost predicate AllTagged(w: World) {
    forall k: Json :: TaggedAt(w, k)
  }

  /** The batch has material for the KeyPackage. */
  predicate Carries(ms: seq<(Json, Json)>, k: Json) {
    exists m | m in ms :: m.0 == k
  }

  predicate Uploads(call: Call, k: Json) {
    call.Upload? && Carries(call.materials, k)
  }

  predicate Deletes(call: Call, k: Json) {
    (call.DeleteMaterial? || call.DeleteKeyPackage?) && call.keyPackage == k
  }

  /** How many sections of each call have run after a schedule. */
  function Progress(calls: seq<Call>, s: seq<nat>): (next: seq<nat>)
    requires IsSchedule(calls, s)
    ensures |next| == |calls|
  {
    if s == [] then seq(|calls|, _ => 0)
    else
      var before, t := Progress(calls, s[..|s| - 1]), s[|s| - 1];
      before[t := before[t] + 1]
  }

  /** Some delete of the KeyPackage has dropped the material but not the tag. */
  predicate HalfDeleted(calls: seq<Call>, next: seq<nat>, k: Json)
    requires |next| == |calls|
  {
    exists i | 0 <= i < |calls| :: Deletes(calls[i], k) && next[i] == 1
  }

  /** The next section of call `t` uploads a KeyPackage whose delete is half done. */
  predicate UploadsHalfDeleted(calls: seq<Call>, next: seq<nat>, t: nat)
    requires |next| == |calls| && t < |calls|
  {
    && calls[t].Upload? && next[t] == 0
    && exists m | m in calls[t].materials :: HalfDeleted(calls, next, m.0)
  }

  /** Some step of the schedule does so. */
  predicate Overlaps(calls: seq<Call>, s: seq<nat>)
    requires IsSchedule(calls, s)
  {
    exists n | 0 <= n < |s| :: UploadsHalfDeleted(calls, Progress(calls, s[..n]), s[n])
  }

  /** Along the schedule, and after any one further section, readable material is
      tagged. */
  ghost predicate SafeAlong(calls: seq<Call>, rows: Rows, origin: map<Json, Json>, s: seq<nat>)
    requires IsSchedule(calls, s)
  {
    && (forall n | 0 <= n <= |s| :: AllTagged(After(calls, rows, origin, s[..n])))
    && (forall n, t: nat | 0 <= n <= |s| && t < |calls| ::
          AllTagged(StepWorld(calls, After(calls, rows, origin, s[..n]), t)))
  }

  /** Call `i` deletes a KeyPackage whose material call `j` uploads. */
  predicate Clash(calls: seq<Call>, i: nat, j: nat) {
    && i < |calls| && j < |calls|
    && (calls[i].DeleteMaterial? || calls[i].DeleteKeyPackage?)
    && Uploads(calls[j], calls[i].keyPackage)
  }

  predicate Clashes(calls: seq<Call>) {
    exists i: nat, j: nat | i < |calls| && j < |calls| :: Clash(calls, i, j)
  }

  ghost predicate SafeInEveryOrder(calls: seq<Call>, rows: Rows, origin: map<Json, Json>) {
    forall s: seq<nat> | IsSchedule(calls, s) :: AllTagged(After(calls, rows, origin, s))
  }

  // ------------------------------------------------------------ one section

  lemma CarriesNothing(k: Json)
    ensures !Carries([], k)
  {
  }

  lemma CarriesStep(ms: seq<(Json, Json)>, k: Json)
    requires ms != []
    ensures Carries(ms, k) <==> Carries(ms[..|ms| - 1], k) || ms[|ms| - 1].0 == k
  {
    assert ms == ms[..|ms| - 1] + [ms[|ms| - 1]];
  }

  lemma {:induction false} BatchEffect(rows: Rows, e: Json, ms: seq<(Json, Json)>, k: Json)
    ensures var rows' := PutMaterials(rows, e, ms);
            if Carries(ms, k) then
              Material(k) in rows' && MaterialEpoch(k) in rows' && rows'[MaterialEpoch(k)] == Entity(e)
            else
              && (Material(k) in rows' <==> Material(k) in rows)
              && (MaterialEpoch(k) in rows' <==> MaterialEpoch(k) in rows)
              && (MaterialEpoch(k) in rows ==> rows'[MaterialEpoch(k)] == rows[MaterialEpoch(k)])
  {
    hide Carries;
    if ms == [] {
      CarriesNothing(k);
    } else {
      BatchEffect(rows, e, ms[..|ms| - 1], k);
      CarriesStep(ms, k);
    }
  }

  lemma {:induction false} OriginEffect(origin: map<Json, Json>, e: Json, ms: seq<(Json, Json)>, k: Json)
    ensures var origin' := Origins(origin, e, ms);
            if Carries(ms, k) then k in origin' && origin'[k] == e
            else (k in origin' <==> k in origin) && (k in origin ==> origin'[k] == origin[k])
  {
    hide Carries;
    if ms == [] {
      CarriesNothing(k);
    } else {
      OriginEffect(origin, e, ms[..|ms| - 1], k);
      CarriesStep(ms, k);
    }
  }

  /** For one KeyPackage: readable material is tagged, and while a delete is half
      done there is none. */
  ghost predicate InvAt(calls: seq<Call>, w: World, k: Json)
    requires Fits(calls, w)
  {
    TaggedAt(w, k) && (HalfDeleted(calls, w.next, k) ==> Material(k) !in w.rows)
  }

  lemma SectionAt(w: World, call: Call, n: nat, k: Json)
    ensures var rows' := Section(w.rows, call, n);
            if Uploads(call, k) && n == 0 then
              Material(k) in rows' && MaterialEpoch(k) in rows' && rows'[MaterialEpoch(k)] == Entity(call.epoch)
            else
              && (Material(k) in rows' <==> Material(k) in w.rows && !(Deletes(call, k) && n == 0))
              && (MaterialEpoch(k) in rows' <==> MaterialEpoch(k) in w.rows && !(Deletes(call, k) && n == 1))
              && (MaterialEpoch(k) in rows' ==> rows'[MaterialEpoch(k)] == w.rows[MaterialEpoch(k)])
  {
    hide Unreferenced;
    if call.Upload? && n == 0 {
      BatchEffect(w.rows[OpTree(call.epoch) := Entity(call.tree)], call.epoch, call.materials, k);
    }
  }

  lemma StepTagged(calls: seq<Call>, w: World, t: nat, k: Json)
    requires Fits(calls, w) && t < |calls| && InvAt(calls, w, k)
    ensures TaggedAt(StepWorld(calls, w, t), k)
  {
    hide Section, Origins;
    var call, n := calls[t], w.next[t];
    SectionAt(w, call, n, k);
    if call.Upload? && n == 0 {
      OriginEffect(w.origin, call.epoch, call.materials, k);
    }
  }

  /** Every section but the upload of a half-deleted KeyPackage keeps the
      invariant, from any world. */
  lemma InvAtStep(calls: seq<Call>, w: World, t: nat, k: Json)
    requires Fits(calls, w) && t < |calls| && InvAt(calls, w, k)
    requires !UploadsHalfDeleted(calls, w.next, t)
    ensures InvAt(calls, StepWorld(calls, w, t), k)
  {
    hide Section, Origins;
    var w' := StepWorld(calls, w, t);
    StepTagged(calls, w, t, k);
    SectionAt(w, calls[t], w.next[t], k);
    if i :| 0 <= i < |calls| && Deletes(calls[i], k) && w'.next[i] == 1 {
      if i != t {
        assert HalfDeleted(calls, w.next, k);
      }
    }
  }

  lemma {:induction false} ProgressIsNext(calls: seq<Call>, rows: Rows, origin: map<Json, Json>, s: seq<nat>)
    requires IsSchedule(calls, s)
    ensures After(calls, rows, origin, s).next == Progress(calls, s)
  {
    hide Section, Origins;
    if s != [] {
      ProgressIsNext(calls, rows, origin, s[..|s| - 1]);
    }
  }

  /** A schedule that uploads no half-deleted KeyPackage keeps the invariant,
      whatever else it uploads and deletes. */
  lemma {:induction false} KeptWithoutOverlap(
      calls: seq<Call>, rows: Rows, origin: map<Json, Json>, s: seq<nat>, k: Json)
    requires AllTagged(Initial(calls, rows, origin)) && IsSchedule(calls, s) && !Overlaps(calls, s)
    ensures InvAt(calls, After(calls, rows, origin, s), k)
  {
    hide StepWorld, UploadsHalfDeleted, Progress;
    if s == [] {
      assert TaggedAt(Initial(calls, rows, origin), k);
    } else {
      var n := |s| - 1;
      PrefixFree(calls, s, n);
      KeptWithoutOverlap(calls, rows, origin, s[..n], k);
      ProgressIsNext(calls, rows, origin, s[..n]);
      InvAtStep(calls, After(calls, rows, origin, s[..n]), s[n], k);
    }
  }

  lemma PrefixFree(calls: seq<Call>, s: seq<nat>, n: nat)
    requires IsSchedule(calls, s) && !Overlaps(calls, s) && n <= |s|
    ensures !Overlaps(calls, s[..n])
  {
    hide UploadsHalfDeleted, Progress;
    forall m | 0 <= m < n
      ensures s[..n][..m] == s[..m] && s[..n][m] == s[m]
    {
    }
  }

  /** After an upload of a half-deleted KeyPackage the second half of its delete
      leaves the material untagged. */
  lemma OverlapBreaks(calls: seq<Call>, w: World, t: nat)
    requires Fits(calls, w) && t < |calls| && UploadsHalfDeleted(calls, w.next, t)
    ensures exists i: nat :: i < |calls| && !AllTagged(StepWorld(calls, StepWorld(calls, w, t), i))
  {
    hide Section, Origins;
    var m :| m in calls[t].materials && HalfDeleted(calls, w.next, m.0);
    var k := m.0;
    var i: nat :| i < |calls| && Deletes(calls[i], k) && w.next[i] == 1;
    var w1 := StepWorld(calls, w, t);
    SectionAt(w, calls[t], 0, k);
    SectionAt(w1, calls[i], 1, k);
    assert !TaggedAt(StepWorld(calls, w1, i), k);
  }

  /** The exact condition, schedule by schedule: readable material stays tagged
      along the schedule and after one further section of any call, if and only
      if no step uploads a KeyPackage whose delete is half done. */
  lemma SafeExactlyWithoutOverlap(calls: seq<Call>, rows: Rows, origin: map<Json, Json>, s: seq<nat>)
    requires AllTagged(Initial(calls, rows, origin)) && IsSchedule(calls, s)
    ensures SafeAlong(calls, rows, origin, s) <==> !Overlaps(calls, s)
  {
    hide StepWorld, UploadsHalfDeleted, Progress, Initial;
    if Overlaps(calls, s) {
      var n :| 0 <= n < |s| && UploadsHalfDeleted(calls, Progress(calls, s[..n]), s[n]);
      var w := After(calls, rows, origin, s[..n]);
      ProgressIsNext(calls, rows, origin, s[..n]);
      OverlapBreaks(calls, w, s[n]);
      AfterStep(calls, rows, origin, s[..n], s[n]);
      assert s[..n] + [s[n]] == s[..n + 1];
    } else {
      forall n | 0 <= n <= |s|
        ensures AllTagged(After(calls, rows, origin, s[..n]))
        ensures forall t: nat | t < |calls| :: AllTagged(StepWorld(calls, After(calls, rows, origin, s[..n]), t))
      {
        PrefixFree(calls, s, n);
        TaggedAndOneMore(calls, rows, origin, s[..n]);
      }
    }
  }

  lemma TaggedAndOneMore(calls: seq<Call>, rows: Rows, origin: map<Json, Json>, s: seq<nat>)
    requires AllTagged(Initial(calls, rows, origin)) && IsSchedule(calls, s) && !Overlaps(calls, s)
    ensures AllTagged(After(calls, rows, origin, s))
    ensures forall t: nat | t < |calls| :: AllTagged(StepWorld(calls, After(calls, rows, origin, s), t))
  {
    hide StepWorld, Overlaps, Initial, TaggedAt, After;
    var w := After(calls, rows, origin, s);
    forall k: Json
      ensures InvAt(calls, w, k)
    {
      KeptWithoutOverlap(calls, rows, origin, s, k);
    }
    forall t: nat | t < |calls|
      ensures AllTagged(StepWorld(calls, w, t))
    {
      forall k: Json
        ensures TaggedAt(StepWorld(calls, w, t), k)
      {
        StepTagged(calls, w, t, k);
      }
    }
    assert forall k: Json :: InvAt(calls, w, k) ==> TaggedAt(w, k);
  }

  lemma OneMoreStep(calls: seq<Call>, s: seq<nat>, t: nat)
    requires IsSchedule(calls, s) && t < |calls| && !Overlaps(calls, s)
    requires !UploadsHalfDeleted(calls, Progress(calls, s), t)
    ensures IsSchedule(calls, s + [t]) && !Overlaps(calls, s + [t])
    ensures Progress(calls, s + [t]) == Progress(calls, s)[t := Progress(calls, s)[t] + 1]
  {
    hide UploadsHalfDeleted;
    var s' := s + [t];
    assert s'[..|s|] == s;
    forall n | 0 <= n < |s|
      ensures s'[..n] == s[..n] && s'[n] == s[n]
    {
    }
  }

  lemma NothingHalfDeleted(calls: seq<Call>, next: seq<nat>, t: nat)
    requires |next| == |calls| && t < |calls|
    requires next[t] != 0 || forall i | 0 <= i < |next| :: next[i] != 1
    ensures !UploadsHalfDeleted(calls, next, t)
  {
  }

  lemma WholeCall(calls: seq<Call>, s: seq<nat>, t: nat)
    requires IsSchedule(calls, s) && t < |calls| && !Overlaps(calls, s)
    requires forall i | 0 <= i < |calls| :: Progress(calls, s)[i] != 1
    requires Progress(calls, s)[t] == 0
    ensures IsSchedule(calls, s + [t, t, t]) && !Overlaps(calls, s + [t, t, t])
    ensures Progress(calls, s + [t, t, t]) == Progress(calls, s)[t := 3]
  {
    hide Overlaps, Progress, UploadsHalfDeleted;
    var s1, s2 := s + [t], s + [t] + [t];
    NothingHalfDeleted(calls, Progress(calls, s), t);
    OneMoreStep(calls, s, t);
    NothingHalfDeleted(calls, Progress(calls, s1), t);
    OneMoreStep(calls, s1, t);
    NothingHalfDeleted(calls, Progress(calls, s2), t);
    OneMoreStep(calls, s2, t);
    assert s2 + [t] == s + [t, t, t];
  }

  lemma NothingRun(calls: seq<Call>)
    ensures IsSchedule(calls, []) && !Overlaps(calls, [])
    ensures forall i | 0 <= i < |calls| :: Progress(calls, [])[i] == 0
  {
    hide UploadsHalfDeleted;
  }

  /** The calls one after the other. */
  function Serial(m: nat): seq<nat> {
    if m == 0 then [] else Serial(m - 1) + [m - 1, m - 1, m - 1]
  }

  /** Calls that run one after the other never overlap, so a KeyPackage may be
      uploaded, deleted and uploaded again any number of times. */
  lemma {:induction false} SerialIsSafe(calls: seq<Call>, m: nat)
    requires m <= |calls|
    ensures IsSchedule(calls, Serial(m)) && !Overlaps(calls, Serial(m))
    ensures forall i | 0 <= i < |calls| :: Progress(calls, Serial(m))[i] == if i < m then 3 else 0
  {
    hide Overlaps, Progress, IsSchedule;
    if m == 0 {
      NothingRun(calls);
    } else {
      SerialIsSafe(calls, m - 1);
      WholeCall(calls, Serial(m - 1), m - 1);
    }
  }

  // ------------------------------------------------- whole sets of calls

  /** An upload between the two halves of a delete leaves its material readable
      and untagged. */
  lemma UploadInsideDelete(calls: seq<Call>, rows: Rows, origin: map<Json, Json>, i: nat, j: nat)
    requires Clash(calls, i, j)
    ensures IsSchedule(calls, [i, j, i])
    ensures var w := After(calls, rows, origin, [i, j, i]);
            Material(calls[i].keyPackage) in w.rows && MaterialEpoch(calls[i].keyPackage) !in w.rows
  {
    hide Section, Origins, Uploads;
    var k := calls[i].keyPackage;
    AfterStep(calls, rows, origin, [], i);
    AfterStep(calls, rows, origin, [i], j);
    AfterStep(calls, rows, origin, [i, j], i);
    assert [] + [i] == [i] && [i] + [j] == [i, j] && [i, j] + [i] == [i, j, i];
    var w0 := Initial(calls, rows, origin);
    var w1 := StepWorld(calls, w0, i);
    var w2 := StepWorld(calls, w1, j);
    SectionAt(w1, calls[j], 0, k);
    SectionAt(w2, calls[i], 1, k);
    assert i != j by { UploaderIsNotDeleter(calls, i, j); }
  }

  lemma UploaderIsNotDeleter(calls: seq<Call>, i: nat, j: nat)
    requires Clash(calls, i, j)
    ensures i != j
  {
  }

  lemma NoClashNoOverlap(calls: seq<Call>, s: seq<nat>)
    requires IsSchedule(calls, s) && !Clashes(calls)
    ensures !Overlaps(calls, s)
  {
    hide Progress;
    if n :| 0 <= n < |s| && UploadsHalfDeleted(calls, Progress(calls, s[..n]), s[n]) {
      var next := Progress(calls, s[..n]);
      var m :| m in calls[s[n]].materials && HalfDeleted(calls, next, m.0);
      var i: nat :| i < |calls| && Deletes(calls[i], m.0) && next[i] == 1;
      assert Clash(calls, i, s[n]);
    }
  }

  /** Every interleaving keeps readable material tagged exactly if no KeyPackage
      is both uploaded and deleted by the concurrent calls. */
  lemma SafeExactlyWithoutClash(calls: seq<Call>, rows: Rows, origin: map<Json, Json>)
    requires AllTagged(Initial(calls, rows, origin))
    ensures SafeInEveryOrder(calls, rows, origin) <==> !Clashes(calls)
  {
    hide Section, Origins, Initial, Overlaps;
    if Clashes(calls) {
      var i: nat, j: nat :| i < |calls| && j < |calls| && Clash(calls, i, j);
      UploadInsideDelete(calls, rows, origin, i, j);
      assert !TaggedAt(After(calls, rows, origin, [i, j, i]), calls[i].keyPackage);
    } else {
      forall s: seq<nat> | IsSchedule(calls, s)
        ensures AllTagged(After(calls, rows, origin, s))
      {
        NoClashNoOverlap(calls, s);
        TaggedAndOneMore(calls, rows, origin, s);
      }
    }
  }

  // --------------------------------------------- what it means for a sweep

  /** After any schedule that uploads no half-deleted KeyPackage, a sweep keeps
      the state and the tree of every epoch whose material can still be read. */
  lemma SweepKeepsReadableEpochs(calls: seq<Call>, rows: Rows, origin: map<Json, Json>, s: seq<nat>, k: Json)
    requires AllTagged(Initial(calls, rows, origin)) && IsSchedule(calls, s) && !Overlaps(calls, s)
    ensures var w := After(calls, rows, origin, s);
            Material(k) in w.rows ==>
              && k in w.origin
              && (State(w.origin[k]) in Swept(w.rows) <==> State(w.origin[k]) in w.rows)
              && (OpTree(w.origin[k]) in Swept(w.rows) <==> OpTree(w.origin[k]) in w.rows)
  {
    hide Overlaps, After;
    KeptWithoutOverlap(calls, rows, origin, s, k);
    var w := After(calls, rows, origin, s);
    if Material(k) in w.rows {
      assert Names(MaterialEpoch(k), w.rows[MaterialEpoch(k)], w.origin[k]);
      assert Referenced(w.rows, w.origin[k]);
    }
  }

  lemma OneMaterial(rows: Rows, e: Json, k: Json, record: Json)
    ensures PutMaterials(rows, e, [(k, record)]) == rows[Material(k) := Entity(record)][MaterialEpoch(k) := Entity(e)]
    ensures Origins(map[], e, [(k, record)]) == map[k := e]
  {
    var ms := [(k, record)];
    assert ms[..0] == [];
  }

  /** With a clash a sweep can drop the epoch under material that is readable:
      the delete of a KeyPackage is half done when its material is uploaded. */
  lemma SweepDropsReadableEpoch(k: Json, e: Json)
    ensures var calls := [DeleteMaterial(k), Upload(e, Null, [(k, Null)]), Sweep];
            var rows := map[State(e) := Entity(Null)];
            && IsSchedule(calls, [0, 1, 0])
            && var w := After(calls, rows, map[], [0, 1, 0]);
            && Material(k) in w.rows && k in w.origin && w.origin[k] == e
            && State(e) in w.rows && State(e) !in Swept(w.rows)
  {
    hide PutMaterials, Origins, Swept;
    var calls := [DeleteMaterial(k), Upload(e, Null, [(k, Null)]), Sweep];
    var rows := map[State(e) := Entity(Null)];
    AfterStep(calls, rows, map[], [], 0);
    AfterStep(calls, rows, map[], [0], 1);
    AfterStep(calls, rows, map[], [0, 1], 0);
    assert [] + [0] == [0] && [0] + [1] == [0, 1] && [0, 1] + [0] == [0, 1, 0];
    var w1 := StepWorld(calls, Initial(calls, rows, map[]), 0);
    assert w1.rows == rows;
    OneMaterial(rows[OpTree(e) := Entity(Null)], e, k, Null);
    var w2 := StepWorld(calls, w1, 1);
    var w3 := StepWorld(calls, w2, 0);
    assert w3.rows == rows[OpTree(e) := Entity(Null)][Material(k) := Entity(Null)];
    UntaggedIsSwept(w3.rows, e);
  }

  lemma UntaggedIsSwept(rows: Rows, e: Json)
    requires State(e) in rows && forall r | r in rows :: r.State? || r.OpTree? || r.Material?
    ensures State(e) !in Swept(rows)
  {
    assert !Referenced(rows, e);
    assert e in Candidates(rows);
  }

  // ------------------------------------------- the sections and the whole calls

  /** A sweep step leaves no unreferenced epoch, and touches no other row. */
  lemma SweepSection(calls: seq<Call>, w: World, t: nat)
    requires Fits(calls, w) && t < |calls| && calls[t].Sweep? && w.next[t] == 0
    ensures var rows' := StepWorld(calls, w, t).rows;
            && Unreferenced(rows') == {}
            && (forall r :: r in rows' <==> r in w.rows && !(IsEpochRow(r) && !Referenced(w.rows, r.epoch)))
            && (forall r | r in rows' :: rows'[r] == w.rows[r])
  {
    hide Referenced;
    Ops.SweptIsClean(w.rows);
    forall r | r in w.rows && IsEpochRow(r)
      ensures r.epoch in Candidates(w.rows)
    {
    }
  }

  /** How many lock sections a call takes. */
  function Sections(call: Call): nat {
    match call
    case Upload(_, _, _) => 1
    case DeleteMaterial(_) => 2
    case DeleteKeyPackage(_) => 3
    case Sweep => 1
  }

  /** The storage operation that a call performs. */
  function Operation(call: Call): Ops.Op {
    match call
    case Upload(e, t, ms) => Ops.WriteMaterialBatch(e, t, ms)
    case DeleteMaterial(k) => Ops.DeleteMaterial(k)
    case DeleteKeyPackage(k) => Ops.DeleteKeyPackage(k)
    case Sweep => Ops.Sweep
  }

  /** The sections of a call, one after the other, are the operation, and there
      are no more of them. */
  lemma SectionsAreOperation(rows: Rows, call: Call)
    ensures var r1 := Section(rows, call, 0);
            var r2 := Section(r1, call, 1);
            var done := Ops.Step(rows, Operation(call));
            if Sections(call) == 1 then r1 == done
            else if Sections(call) == 2 then r2 == done
            else Section(r2, call, 2) == done
    ensures forall n: nat | n >= Sections(call) :: Section(rows, call, n) == rows
  {
    hide PutMaterials, Swept;
  }

  lemma ThreeSections(rows: Rows, call: Call)
    ensures Section(Section(Section(rows, call, 0), call, 1), call, 2) == Ops.Step(rows, Operation(call))
  {
    hide Section, Ops.Step;
    SectionsAreOperation(rows, call);
    SectionsAreOperation(Section(rows, call, 0), call);
    SectionsAreOperation(Section(Section(rows, call, 0), call, 1), call);
  }

  lemma ThreeSteps(calls: seq<Call>, w: World, t: nat)
    requires Fits(calls, w) && t < |calls| && w.next[t] == 0
    ensures StepWorld(calls, StepWorld(calls, StepWorld(calls, w, t), t), t).rows
            == Ops.Step(w.rows, Operation(calls[t]))
  {
    hide Section, Origins, Ops.Step;
    ThreeSections(w.rows, calls[t]);
  }

  /** The operations of the calls in a row. */
  function RunFrom(rows: Rows, calls: seq<Call>): Rows {
    if calls == [] then rows else Ops.Step(RunFrom(rows, calls[..|calls| - 1]), Operation(calls[|calls| - 1]))
  }

  /** Calls that run one after the other do what their operations do. */
  lemma {:induction false} SerialIsRun(calls: seq<Call>, rows: Rows, origin: map<Json, Json>, m: nat)
    requires m <= |calls|
    ensures IsSchedule(calls, Serial(m)) && After(calls, rows, origin, Serial(m)).rows == RunFrom(rows, calls[..m])
  {
    hide IsSchedule, Overlaps, Progress, StepWorld, After, Ops.Step;
    SerialIsSafe(calls, m);
    if m == 0 {
      NothingDone(calls, rows, origin);
    } else {
      var s, t := Serial(m - 1), m - 1;
      SerialIsRun(calls, rows, origin, t);
      SerialIsSafe(calls, t);
      ProgressIsNext(calls, rows, origin, s);
      AfterStep(calls, rows, origin, s, t);
      AfterStep(calls, rows, origin, s + [t], t);
      AfterStep(calls, rows, origin, s + [t] + [t], t);
      assert s + [t] + [t] + [t] == Serial(m);
      ThreeSteps(calls, After(calls, rows, origin, s), t);
      assert calls[..m][..t] == calls[..t] && calls[..m][t] == calls[t];
    }
  }

  lemma NothingDone(calls: seq<Call>, rows: Rows, origin: map<Json, Json>)
    ensures IsSchedule(calls, []) && After(calls, rows, origin, []).rows == rows
  {
  }
}
