/** The tables of the interop client: group slots named by state ids, branch
    snapshots, pending key packages and pending reinits. What the MLS engine
    answers, and the random ids it mints, are fields of each request. */
module InteropClient {
  import opened Wrappers

  type GroupName = string

  /** A group id and an epoch: the key of a snapshot. */
  type Key = (GroupName, nat)

  /** `PendingCommit` says whether the staged commit carries a ReInit proposal;
      `Inactive` is a group left behind by a ReInit or by our own removal. */
  datatype Status = Operational | PendingCommit(reinit: bool) | Inactive

  datatype Group = Group(id: GroupName, epoch: nat, status: Status) {
    function At(): Key {
      (id, epoch)
    }
  }

  /** What an exported `BranchInfo` says of the group it was taken from. */
  datatype BranchInfo = BranchInfo(id: GroupName, epoch: nat)

  datatype State = State(
    groups: seq<Group>,
    branchInfos: map<Key, BranchInfo>,
    pendingReInits: map<nat, nat>,
    pendingKeyPackages: set<nat>)

  const START: State := State([], map[], map[], {})

  /** How far the engine takes a commit of our own. */
  datatype CommitOutcome = NotBuilt | Staged(reinit: bool) | Merged(reinit: bool, replied: bool)

  /** `Built(None)` is a branch that fails after it was built. */
  datatype BranchOutcome = NoBranch | Built(subgroup: Option<Key>)

  datatype Request =
    | CreateGroup(created: Option<Key>)
    | CreateKeyPackage(transaction: nat)
    | JoinGroup(transaction: nat, joined: Option<Key>)
    | ExternalJoin(joined: Option<Key>)
    | Commit(stateId: nat, outcome: CommitOutcome)
    | HandleCommit(stateId: nat, merged: bool, leaves: bool)
    | HandlePendingCommit(stateId: nat)
    | ReInitCommit(stateId: nat, staged: Option<bool>, replied: bool)
    | HandlePendingReInitCommit(stateId: nat, minted: Option<nat>)
    | HandleReInitCommit(stateId: nat, merged: bool, minted: Option<nat>)
    | ReInitWelcome(reinitId: nat, successor: Option<Key>)
    | HandleReInitWelcome(reinitId: nat, successor: Option<Key>)
    | CreateBranch(stateId: nat, branch: BranchOutcome)
    | HandleBranch(transaction: nat, stateId: nat, psk: Option<Key>, subgroup: Option<Key>)

  datatype Reply = Issued(stateId: nat) | Accepted | Rejected

  predicate Has(s: State, n: nat) {
    n < |s.groups|
  }

  predicate Active(s: State, n: nat) {
    Has(s, n) && s.groups[n].status != Inactive
  }

  function Snapped(s: State, k: Key): State {
    s.(branchInfos := s.branchInfos[k := BranchInfo(k.0, k.1)])
  }

  function Pushed(s: State, k: Key): (State, Reply) {
    (s.(groups := s.groups + [Group(k.0, k.1, Operational)]), Issued(|s.groups|))
  }

  function Opened(s: State, k: Option<Key>): (State, Reply) {
    if k.None? then (s, Rejected) else Pushed(Snapped(s, k.value), k.value)
  }

  function Staging(s: State, n: nat, reinit: bool): State
    requires Has(s, n)
  {
    s.(groups := s.groups[n := s.groups[n].(status := PendingCommit(reinit))])
  }

  /** A merged commit moves the group one epoch on, and `leaves` it inactive
      when it reinitialises the group or removes us. */
  function Moved(s: State, n: nat, leaves: bool): State
    requires Has(s, n)
  {
    var g := s.groups[n];
    s.(groups := s.groups[n := Group(g.id, g.epoch + 1, if leaves then Inactive else Operational)])
  }

  function Advanced(s: State, n: nat, leaves: bool): State
    requires Has(s, n)
  {
    Snapped(Moved(s, n, leaves), (s.groups[n].id, s.groups[n].epoch + 1))
  }

  function Minted(s: State, n: nat, minted: Option<nat>): (State, Reply) {
    if minted.None? then (s, Rejected)
    else (s.(pendingReInits := s.pendingReInits[minted.value := n]), Accepted)
  }

  function TookReInit(s: State, id: nat, successor: Option<Key>): (State, Reply) {
    if id !in s.pendingReInits then (s, Rejected)
    else
      var from := s.pendingReInits[id];
      var s' := s.(pendingReInits := s.pendingReInits - {id});
      if !Has(s, from) || s.groups[from].status != Inactive || successor.None? then (s', Rejected)
      else Pushed(s', successor.value)
  }

  function TookKeyPackage(s: State, t: nat): State {
    s.(pendingKeyPackages := s.pendingKeyPackages - {t})
  }

  function Step(s: State, q: Request): (State, Reply) {
    match q
    case CreateGroup(created) => Opened(s, created)
    case CreateKeyPackage(t) => (s.(pendingKeyPackages := s.pendingKeyPackages + {t}), Accepted)
    case JoinGroup(t, joined) =>
      if t in s.pendingKeyPackages then Opened(TookKeyPackage(s, t), joined) else (s, Rejected)
    case ExternalJoin(joined) => Opened(s, joined)
    case Commit(n, outcome) =>
      if !Has(s, n) || s.groups[n].status != Operational || outcome.NotBuilt? then (s, Rejected)
      else if outcome.Staged? then (Staging(s, n, outcome.reinit), Rejected)
      else (Advanced(s, n, outcome.reinit), if outcome.replied then Accepted else Rejected)
    case HandleCommit(n, merged, leaves) =>
      if Active(s, n) && merged then (Advanced(s, n, leaves), Accepted) else (s, Rejected)
    case HandlePendingCommit(n) =>
      if !Active(s, n) then (s, Rejected)
      else if s.groups[n].status.PendingCommit? then (Advanced(s, n, s.groups[n].status.reinit), Accepted)
      else (Snapped(s, s.groups[n].At()), Accepted)
    case ReInitCommit(n, staged, replied) =>
      if Has(s, n) && s.groups[n].status == Operational && staged.Some?
      then (Staging(s, n, staged.value), if replied then Accepted else Rejected)
      else (s, Rejected)
    case HandlePendingReInitCommit(n, minted) =>
      if Has(s, n) && s.groups[n].status == PendingCommit(true) then Minted(Moved(s, n, true), n, minted)
      else (s, Rejected)
    case HandleReInitCommit(n, merged, minted) =>
      if Active(s, n) && merged then Minted(Moved(s, n, true), n, minted) else (s, Rejected)
    case ReInitWelcome(id, successor) => TookReInit(s, id, successor)
    case HandleReInitWelcome(id, successor) => TookReInit(s, id, successor)
    case CreateBranch(n, branch) =>
      if !Active(s, n) || branch.NoBranch? then (s, Rejected)
      else
        var s' := Snapped(s, s.groups[n].At());
        if branch.subgroup.None? then (s', Rejected) else Pushed(s', branch.subgroup.value)
    case HandleBranch(t, n, psk, subgroup) =>
      if t !in s.pendingKeyPackages then (s, Rejected)
      else
        var s' := TookKeyPackage(s, t);
        if Has(s, n) && psk.Some? && psk.value in s.branchInfos && subgroup.Some? then Pushed(s', subgroup.value)
        else (s', Rejected)
  }

  function Run(qs: seq<Request>): State {
    if qs == [] then START else Step(Run(qs[..|qs| - 1]), qs[|qs| - 1]).0
  }

  class MlsClient {
    var groups: seq<Group>
    var branchInfos: map<Key, BranchInfo>
    var pendingReInits: map<nat, nat>
    var pendingKeyPackages: set<nat>

    ghost function Now(): State
      reads this
    {
      State(groups, branchInfos, pendingReInits, pendingKeyPackages)
    }

    constructor ()
      ensures Now() == START
    {
      groups, branchInfos, pendingReInits, pendingKeyPackages := [], map[], map[], {};
    }

    method RecordBranchInfo(g: Group)
      modifies this`branchInfos
      ensures Now() == Snapped(old(Now()), g.At())
    {
      branchInfos := branchInfos[(g.id, g.epoch) := BranchInfo(g.id, g.epoch)];
    }

    method Push(g: Group) returns (r: Reply)
      modifies this`groups
      ensures groups == old(groups) + [g] && r == Issued(|old(groups)|)
    {
      r := Issued(|groups|);
      groups := groups + [g];
    }

    /** `create_group`, and the end of `join_group` and `external_join`. */
    method Open(k: Option<Key>) returns (r: Reply)
      modifies this`groups, this`branchInfos
      ensures (Now(), r) == Opened(old(Now()), k)
    {
      if k.None? {
        return Rejected;
      }
      var g := Group(k.value.0, k.value.1, Operational);
      RecordBranchInfo(g);
      r := Push(g);
    }

    method TakePendingKeyPackage(t: nat) returns (ok: bool)
      modifies this`pendingKeyPackages
      ensures ok == (t in old(pendingKeyPackages))
      ensures pendingKeyPackages == if ok then old(pendingKeyPackages) - {t} else old(pendingKeyPackages)
    {
      ok := t in pendingKeyPackages;
      if ok {
        pendingKeyPackages := pendingKeyPackages - {t};
      }
    }

    /** `merge_pending_commit` and `merge_staged_commit`. */
    method Merge(n: nat, leaves: bool)
      requires n < |groups|
      modifies this`groups
      ensures Now() == Moved(old(Now()), n, leaves)
    {
      var g := groups[n];
      groups := groups[n := g.(epoch := g.epoch + 1, status := if leaves then Inactive else Operational)];
    }

    method HandleCommits(q: Request) returns (r: Reply)
      requires q.Commit? || q.HandleCommit? || q.HandlePendingCommit?
      modifies this`groups, this`branchInfos
      ensures (Now(), r) == Step(old(Now()), q)
    {
      if q.stateId >= |groups| || groups[q.stateId].status == Inactive {
        return Rejected;
      }
      r := Accepted;
      match q {
        case Commit(n, outcome) =>
          if groups[n].status.PendingCommit? || outcome.NotBuilt? {
            return Rejected;
          }
          groups := groups[n := groups[n].(status := PendingCommit(outcome.reinit))];
          if outcome.Staged? {
            return Rejected;
          }
          Merge(n, groups[n].status.reinit);
          assert groups == Moved(old(Now()), n, outcome.reinit).groups;
          r := if outcome.replied then Accepted else Rejected;
        case HandleCommit(n, merged, leaves) =>
          if !merged {
            return Rejected;
          }
          Merge(n, leaves);
        case HandlePendingCommit(n) =>
          if groups[n].status.PendingCommit? {
            Merge(n, groups[n].status.reinit);
          }
      }
      RecordBranchInfo(groups[q.stateId]);
    }

    /** `build_reinit_state`. */
    method BuildReInitState(n: nat, minted: Option<nat>) returns (r: Reply)
      modifies this`pendingReInits
      ensures (Now(), r) == Minted(old(Now()), n, minted)
    {
      if minted.None? {
        return Rejected;
      }
      pendingReInits := pendingReInits[minted.value := n];
      r := Accepted;
    }

    method HandleReInitCommits(q: Request) returns (r: Reply)
      requires q.ReInitCommit? || q.HandlePendingReInitCommit? || q.HandleReInitCommit?
      modifies this`groups, this`pendingReInits
      ensures (Now(), r) == Step(old(Now()), q)
    {
      if q.stateId >= |groups| || groups[q.stateId].status == Inactive {
        return Rejected;
      }
      match q {
        case ReInitCommit(n, staged, replied) =>
          if groups[n].status.PendingCommit? || staged.None? {
            return Rejected;
          }
          groups := groups[n := groups[n].(status := PendingCommit(staged.value))];
          r := if replied then Accepted else Rejected;
        case HandlePendingReInitCommit(n, minted) =>
          if !groups[n].status.PendingCommit? || !groups[n].status.reinit {
            return Rejected;
          }
          Merge(n, true);
          r := BuildReInitState(n, minted);
        case HandleReInitCommit(n, merged, minted) =>
          if !merged {
            return Rejected;
          }
          Merge(n, true);
          r := BuildReInitState(n, minted);
      }
    }

    /** `re_init_welcome` and `handle_re_init_welcome`: the reinit state is taken
        first, and stays taken when a later step fails. */
    method TakeReInit(id: nat, successor: Option<Key>) returns (r: Reply)
      modifies this`groups, this`pendingReInits
      ensures (Now(), r) == TookReInit(old(Now()), id, successor)
    {
      if id !in pendingReInits {
        return Rejected;
      }
      var from := pendingReInits[id];
      pendingReInits := pendingReInits - {id};
      if from >= |groups| || groups[from].status != Inactive || successor.None? {
        return Rejected;
      }
      r := Push(Group(successor.value.0, successor.value.1, Operational));
    }

    method Branch(n: nat, branch: BranchOutcome) returns (r: Reply)
      modifies this`groups, this`branchInfos
      ensures (Now(), r) == Step(old(Now()), CreateBranch(n, branch))
    {
      if n >= |groups| || groups[n].status == Inactive || branch.NoBranch? {
        return Rejected;
      }
      RecordBranchInfo(groups[n]);
      if branch.subgroup.None? {
        return Rejected;
      }
      r := Push(Group(branch.subgroup.value.0, branch.subgroup.value.1, Operational));
    }

    method JoinBranch(t: nat, n: nat, psk: Option<Key>, subgroup: Option<Key>) returns (r: Reply)
      modifies this`groups, this`pendingKeyPackages
      ensures (Now(), r) == Step(old(Now()), HandleBranch(t, n, psk, subgroup))
    {
      var ok := TakePendingKeyPackage(t);
      if !ok || n >= |groups| || psk.None? || psk.value !in branchInfos || subgroup.None? {
        return Rejected;
      }
      r := Push(Group(subgroup.value.0, subgroup.value.1, Operational));
    }

    method Handle(q: Request) returns (r: Reply)
      modifies this
      ensures (Now(), r) == Step(old(Now()), q)
    {
      match q {
        case CreateGroup(created) => r := Open(created);
        case CreateKeyPackage(t) =>
          pendingKeyPackages := pendingKeyPackages + {t};
          r := Accepted;
        case JoinGroup(t, joined) =>
          var ok := TakePendingKeyPackage(t);
          if !ok {
            return Rejected;
          }
          r := Open(joined);
        case ExternalJoin(joined) => r := Open(joined);
        case Commit(_, _) => r := HandleCommits(q);
        case HandleCommit(_, _, _) => r := HandleCommits(q);
        case HandlePendingCommit(_) => r := HandleCommits(q);
        case ReInitCommit(_, _, _) => r := HandleReInitCommits(q);
        case HandlePendingReInitCommit(_, _) => r := HandleReInitCommits(q);
        case HandleReInitCommit(_, _, _) => r := HandleReInitCommits(q);
        case ReInitWelcome(id, successor) => r := TakeReInit(id, successor);
        case HandleReInitWelcome(id, successor) => r := TakeReInit(id, successor);
        case CreateBranch(n, branch) => r := Branch(n, branch);
        case HandleBranch(t, n, psk, subgroup) => r := JoinBranch(t, n, psk, subgroup);
      }
    }
  }

  // ----- What each request does, table by table -----

  /** The group the request opens a slot for. */
  function Opens(s: State, q: Request): Option<Key> {
    match q
    case CreateGroup(created) => created
    case JoinGroup(t, joined) => if t in s.pendingKeyPackages then joined else None
    case ExternalJoin(joined) => joined
    case ReInitWelcome(id, successor) => if Reinits(s, id) then successor else None
    case HandleReInitWelcome(id, successor) => if Reinits(s, id) then successor else None
    case CreateBranch(n, Built(subgroup)) => if Active(s, n) then subgroup else None
    case HandleBranch(t, n, Some(psk), subgroup) =>
      if t in s.pendingKeyPackages && Has(s, n) && psk in s.branchInfos then subgroup else None
    case _ => None
  }

  /** The id is pending for a suspended group. */
  predicate Reinits(s: State, id: nat) {
    id in s.pendingReInits && Has(s, s.pendingReInits[id]) && s.groups[s.pendingReInits[id]].status == Inactive
  }

  /** The request merges a commit into slot `n`. */
  predicate MergesInto(s: State, q: Request, n: nat) {
    && Has(s, n)
    && var status := s.groups[n].status;
    match q
    case Commit(m, outcome) => m == n && status == Operational && outcome.Merged?
    case HandleCommit(m, merged, _) => m == n && status != Inactive && merged
    case HandlePendingCommit(m) => m == n && status.PendingCommit?
    case HandlePendingReInitCommit(m, _) => m == n && status == PendingCommit(true)
    case HandleReInitCommit(m, merged, _) => m == n && status != Inactive && merged
    case _ => false
  }

  /** The merged commit ends the group for us. */
  predicate Leaves(s: State, q: Request, n: nat)
    requires MergesInto(s, q, n)
  {
    match q
    case Commit(_, outcome) => outcome.reinit
    case HandleCommit(_, _, leaves) => leaves
    case HandlePendingCommit(_) => s.groups[n].status.reinit
    case _ => true
  }

  /** The request stages a commit in slot `n`; the answer is whether it carries a
      ReInit. */
  function Stages(s: State, q: Request, n: nat): Option<bool> {
    if !Has(s, n) || s.groups[n].status != Operational then None
    else
      match q
      case Commit(m, Staged(reinit)) => if m == n then Some(reinit) else None
      case ReInitCommit(m, staged, _) => if m == n then staged else None
      case _ => None
  }

  /** A slot after the request: a merge moves it one epoch on and leaves it
      operational or inactive; a staged commit is pending; nothing else changes
      it. */
  function SlotAfter(s: State, q: Request, n: nat): Group
    requires Has(s, n)
  {
    var g := s.groups[n];
    if MergesInto(s, q, n) then
      Group(g.id, g.epoch + 1, if Leaves(s, q, n) then Inactive else Operational)
    else if Stages(s, q, n).Some? then Group(g.id, g.epoch, PendingCommit(Stages(s, q, n).value))
    else g
  }

  lemma StepGroups(s: State, q: Request)
    ensures var groups' := Step(s, q).0.groups;
            && |groups'| == |s.groups| + Count(Opens(s, q).Some?)
            && (forall n | 0 <= n < |s.groups| :: groups'[n] == SlotAfter(s, q, n))
            && (Opens(s, q).Some? ==>
                  groups'[|s.groups|] == Group(Opens(s, q).value.0, Opens(s, q).value.1, Operational))
  {
  }

  /** A reply with a state id names the slot that was opened. */
  lemma IssuedNamesTheSlot(s: State, q: Request, n: nat)
    ensures Step(s, q).1 == Issued(n) <==> Opens(s, q).Some? && n == |s.groups|
  {
  }

  lemma AcceptedExactly(s: State, q: Request)
    ensures Step(s, q).1 == Accepted <==>
            match q
            case CreateKeyPackage(_) => true
            case Commit(n, outcome) => MergesInto(s, q, n) && outcome.replied
            case HandleCommit(n, _, _) => MergesInto(s, q, n)
            case HandlePendingCommit(n) => Active(s, n)
            case ReInitCommit(n, _, replied) => Stages(s, q, n).Some? && replied
            case HandlePendingReInitCommit(n, minted) => MergesInto(s, q, n) && minted.Some?
            case HandleReInitCommit(n, _, minted) => MergesInto(s, q, n) && minted.Some?
            case _ => false
  {
  }

  /** A merged ReInit mints an id for its slot; a welcome takes its id, whether or
      not the rest succeeds. */
  lemma StepPendingReInits(s: State, q: Request)
    ensures Step(s, q).0.pendingReInits ==
            match q
            case HandlePendingReInitCommit(n, Some(id)) =>
              if MergesInto(s, q, n) then s.pendingReInits[id := n] else s.pendingReInits
            case HandleReInitCommit(n, _, Some(id)) =>
              if MergesInto(s, q, n) then s.pendingReInits[id := n] else s.pendingReInits
            case ReInitWelcome(id, _) => s.pendingReInits - {id}
            case HandleReInitWelcome(id, _) => s.pendingReInits - {id}
            case _ => s.pendingReInits
  {
  }

  /** Merges into slot `n` from request `i` on. */
  function Merges(qs: seq<Request>, i: nat, n: nat): nat
    requires i <= |qs|
  {
    if i == |qs| then 0
    else
      var l := |qs| - 1;
      Merges(qs[..l], i, n) + Count(MergesInto(Run(qs[..l]), qs[l], n))
  }

  /** Over every run the epoch of a slot counts the commits merged into it. */
  lemma {:induction false} EpochCountsMerges(qs: seq<Request>, i: nat, n: nat)
    requires i <= |qs| && n < |Run(qs[..i]).groups|
    ensures n < |Run(qs).groups| && Run(qs).groups[n].epoch == Run(qs[..i]).groups[n].epoch + Merges(qs, i, n)
  {
    hide Step, MergesInto, Opens, Stages;
    if i == |qs| {
      assert qs[..i] == qs;
    } else {
      var l := |qs| - 1;
      assert qs[..l][..i] == qs[..i];
      EpochCountsMerges(qs[..l], i, n);
      StepGroups(Run(qs[..l]), qs[l]);
    }
  }

  // ----- What a group slot keeps over every run -----

  /** `later` is a slot that was once `g`. */
  predicate Continues(g: Group, later: Group) {
    && later.id == g.id
    && g.epoch <= later.epoch
    && (g.status == Inactive ==> later == g)
  }

  predicate SlotsContinue(s: State, s': State) {
    && |s.groups| <= |s'.groups|
    && forall i: nat :: i < |s.groups| ==> Continues(s.groups[i], s'.groups[i])
  }

  lemma StepContinues(s: State, q: Request)
    ensures SlotsContinue(s, Step(s, q).0)
  {
  }

  /** State ids stay good for ever: no slot is dropped, renamed or moved back,
      and an inactive group never changes again. */
  lemma {:induction false} SlotsNeverGoBack(qs: seq<Request>, more: seq<Request>)
    ensures SlotsContinue(Run(qs), Run(qs + more))
    decreases |more|
  {
    if more == [] {
      assert qs + more == qs;
    } else {
      var butLast := more[..|more| - 1];
      SlotsNeverGoBack(qs, butLast);
      assert (qs + more)[..|qs + more| - 1] == qs + butLast;
      StepContinues(Run(qs + butLast), more[|more| - 1]);
    }
  }

  // ----- Pending reinits -----

  predicate ReInitsPoint(s: State) {
    forall id: nat :: id in s.pendingReInits ==>
      s.pendingReInits[id] < |s.groups| && s.groups[s.pendingReInits[id]].status == Inactive
  }

  /** Every pending reinit names an existing, suspended group. */
  lemma {:induction false} ReInitsAlwaysPoint(qs: seq<Request>)
    ensures ReInitsPoint(Run(qs))
  {
    if qs != [] {
      hide Step;
      ReInitsAlwaysPoint(qs[..|qs| - 1]);
      StepPoints(Run(qs[..|qs| - 1]), qs[|qs| - 1]);
    }
  }

  lemma StepPoints(s: State, q: Request)
    requires ReInitsPoint(s)
    ensures ReInitsPoint(Step(s, q).0)
  {
    hide Step, MintedBy, Takes;
    StepContinues(s, q);
    StepReInits(s, q);
    var s' := Step(s, q).0;
    forall id: nat | id in s'.pendingReInits
      ensures s'.pendingReInits[id] < |s'.groups| && s'.groups[s'.pendingReInits[id]].status == Inactive
    {
      if MintedBy(s, q) == Some(id) {
        MintSuspends(s, q);
      } else {
        assert Continues(s.groups[s.pendingReInits[id]], s'.groups[s.pendingReInits[id]]);
      }
    }
  }

  lemma MintSuspends(s: State, q: Request)
    requires MintedBy(s, q).Some?
    ensures (q.HandlePendingReInitCommit? || q.HandleReInitCommit?) && Has(Step(s, q).0, q.stateId)
    ensures Step(s, q).0.groups[q.stateId].status == Inactive
  {
  }

  /** So the two lookups that `re_init_welcome` guards against never fail: after
      any run a pending id fails only when the engine makes no successor. */
  lemma WelcomeFailsOnlyInEngine(qs: seq<Request>, id: nat, successor: Option<Key>)
    ensures Step(Run(qs), ReInitWelcome(id, successor)).1.Issued?
            <==> id in Run(qs).pendingReInits && successor.Some?
    ensures Step(Run(qs), HandleReInitWelcome(id, successor)).1.Issued?
            <==> id in Run(qs).pendingReInits && successor.Some?
  {
    ReInitsAlwaysPoint(qs);
  }

  function MintedBy(s: State, q: Request): Option<nat> {
    match q
    case HandlePendingReInitCommit(n, minted) => if Step(s, q).1.Accepted? then minted else None
    case HandleReInitCommit(n, merged, minted) => if Step(s, q).1.Accepted? then minted else None
    case _ => None
  }

  predicate Takes(s: State, q: Request) {
    (q.ReInitWelcome? || q.HandleReInitWelcome?) && q.reinitId in s.pendingReInits
  }

  function Count(b: bool): nat {
    if b then 1 else 0
  }

  /** Reinit ids minted, ids taken, and ids minted again while still pending. */
  function MintCount(qs: seq<Request>): nat {
    if qs == [] then 0
    else MintCount(qs[..|qs| - 1]) + Count(MintedBy(Run(qs[..|qs| - 1]), qs[|qs| - 1]).Some?)
  }

  function TakeCount(qs: seq<Request>): nat {
    if qs == [] then 0
    else TakeCount(qs[..|qs| - 1]) + Count(Takes(Run(qs[..|qs| - 1]), qs[|qs| - 1]))
  }

  function RemintCount(qs: seq<Request>): nat {
    if qs == [] then 0
    else
      var s, m := Run(qs[..|qs| - 1]), MintedBy(Run(qs[..|qs| - 1]), qs[|qs| - 1]);
      RemintCount(qs[..|qs| - 1]) + Count(m.Some? && m.value in s.pendingReInits)
  }

  lemma StepReInits(s: State, q: Request)
    ensures Step(s, q).0.pendingReInits ==
            if MintedBy(s, q).Some? then s.pendingReInits[MintedBy(s, q).value := q.stateId]
            else if Takes(s, q) then s.pendingReInits - {q.reinitId}
            else s.pendingReInits
  {
  }

  lemma MapSizes(m: map<nat, nat>, id: nat, n: nat)
    ensures |m[id := n]| == |m| + Count(id !in m)
    ensures |m - {id}| == |m| - Count(id in m)
  {
    assert m[id := n].Keys == m.Keys + {id};
    assert (m - {id}).Keys == m.Keys - {id};
  }

  /** Conservation: every minted reinit id is still pending, was taken once, or
      was minted a second time while pending. */
  lemma {:induction false} ReInitsConserved(qs: seq<Request>)
    ensures MintCount(qs) == |Run(qs).pendingReInits| + TakeCount(qs) + RemintCount(qs)
  {
    if qs != [] {
      var before := qs[..|qs| - 1];
      var s, q := Run(before), qs[|qs| - 1];
      ReInitsConserved(before);
      StepReInits(s, q);
      if MintedBy(s, q).Some? {
        MapSizes(s.pendingReInits, MintedBy(s, q).value, q.stateId);
      } else if Takes(s, q) {
        MapSizes(s.pendingReInits, q.reinitId, 0);
      }
    }
  }

  /** A reinit id taken twice was minted again in between. */
  lemma {:induction false} TakenOnce(qs: seq<Request>, id: nat, i: nat, j: nat)
    requires i < j < |qs|
    requires Takes(Run(qs[..i]), qs[i]) && qs[i].reinitId == id
    requires id in Run(qs[..j]).pendingReInits
    ensures exists k: nat :: i < k < j && MintedBy(Run(qs[..k]), qs[k]) == Some(id)
    decreases j
  {
    assert qs[..i + 1][..i] == qs[..i];
    StepReInits(Run(qs[..i]), qs[i]);
    assert id !in Run(qs[..i + 1]).pendingReInits;
    assert qs[..j][..j - 1] == qs[..j - 1];
    StepReInits(Run(qs[..j - 1]), qs[j - 1]);
    if MintedBy(Run(qs[..j - 1]), qs[j - 1]) != Some(id) {
      TakenOnce(qs, id, i, j - 1);
    }
  }

  // ----- Pending key packages -----

  /** The request uses up the key package of the transaction. */
  predicate UsesKeyPackage(q: Request, t: nat) {
    (q.JoinGroup? || q.HandleBranch?) && q.transaction == t
  }

  /** Request `i` made the key package and no later one has used it. */
  ghost predicate MadeAndUnused(qs: seq<Request>, t: nat, i: nat) {
    i < |qs| && qs[i] == CreateKeyPackage(t) && forall j | i < j < |qs| :: !UsesKeyPackage(qs[j], t)
  }

  lemma StepKeyPackages(s: State, q: Request, t: nat)
    ensures t in Step(s, q).0.pendingKeyPackages <==>
            q == CreateKeyPackage(t) || (t in s.pendingKeyPackages && !UsesKeyPackage(q, t))
  {
  }

  /** Over every run: a key package is pending exactly if some request made it and
      no later join, successful or not, has asked for it. */
  lemma {:induction false} KeyPackagePendingExactly(qs: seq<Request>, t: nat)
    ensures t in Run(qs).pendingKeyPackages <==> exists i: nat :: MadeAndUnused(qs, t, i)
  {
    hide Step, UsesKeyPackage;
    if qs != [] {
      var n := |qs| - 1;
      KeyPackagePendingExactly(qs[..n], t);
      StepKeyPackages(Run(qs[..n]), qs[n], t);
      if i: nat :| MadeAndUnused(qs[..n], t, i) && !UsesKeyPackage(qs[n], t) {
        assert forall j | i < j < n :: qs[..n][j] == qs[j];
        assert MadeAndUnused(qs, t, i);
      }
      if qs[n] == CreateKeyPackage(t) {
        assert MadeAndUnused(qs, t, n);
      }
      if i: nat :| MadeAndUnused(qs, t, i) && i < n {
        assert forall j | i < j < n :: qs[..n][j] == qs[j];
        assert MadeAndUnused(qs[..n], t, i);
      }
    }
  }

  /** The request joins a group with the key package of the transaction. */
  predicate JoinsWith(s: State, q: Request, t: nat) {
    UsesKeyPackage(q, t) && Step(s, q).1.Issued?
  }

  /** Two joins with one transaction have a new key package between them. */
  lemma JoinedOnce(qs: seq<Request>, t: nat, i: nat, j: nat)
    requires i < j < |qs|
    requires JoinsWith(Run(qs[..i]), qs[i], t) && JoinsWith(Run(qs[..j]), qs[j], t)
    ensures exists k :: i < k < j && qs[k] == CreateKeyPackage(t)
  {
    assert t in Run(qs[..j]).pendingKeyPackages;
    hide Step;
    KeyPackagePendingExactly(qs[..j], t);
    var k: nat :| MadeAndUnused(qs[..j], t, k);
    assert qs[..j][k] == qs[k] && qs[..j][i] == qs[i];
    assert k > i;
  }

  // ----- Branch snapshots -----

  /** `q` asks for a snapshot of the group at `k`. */
  ghost predicate Snapshots(s: State, q: Request, k: Key) {
    var s' := Step(s, q).0;
    match q
    case CreateGroup(_) => |s'.groups| > |s.groups| && s'.groups[|s.groups|].At() == k
    case JoinGroup(_, _) => |s'.groups| > |s.groups| && s'.groups[|s.groups|].At() == k
    case ExternalJoin(_) => |s'.groups| > |s.groups| && s'.groups[|s.groups|].At() == k
    case Commit(n, outcome) => Has(s, n) && s'.groups[n].At() == k && s.groups[n].epoch < k.1
    case HandleCommit(n, _, _) => Has(s, n) && s'.groups[n].At() == k && s.groups[n].epoch < k.1
    case HandlePendingCommit(n) => Active(s, n) && s'.groups[n].At() == k
    case CreateBranch(n, branch) => Active(s, n) && branch.Built? && s.groups[n].At() == k
    case _ => false
  }

  /** `q` opens a slot at `k` or moves one there. */
  ghost predicate Establishes(s: State, q: Request, k: Key) {
    var s' := Step(s, q).0;
    exists i: nat :: i < |s'.groups| && s'.groups[i].At() == k
                     && (i < |s.groups| ==> s.groups[i].epoch < k.1)
  }

  /** The handlers that establish an epoch and take no snapshot of it. */
  predicate Forgets(q: Request) {
    || q.HandlePendingReInitCommit? || q.HandleReInitCommit?
    || q.ReInitWelcome? || q.HandleReInitWelcome?
    || q.CreateBranch? || q.HandleBranch?
  }

  lemma StepSnapshots(s: State, q: Request, k: Key)
    ensures k in Step(s, q).0.branchInfos <==> k in s.branchInfos || Snapshots(s, q, k)
    ensures k in s.branchInfos ==> Step(s, q).0.branchInfos[k] in {s.branchInfos[k], BranchInfo(k.0, k.1)}
  {
  }

  /** The cache holds a key exactly when some request of the run took that
      snapshot: nothing is lost later, and nothing else gets in. */
  lemma {:induction false} CachedExactly(qs: seq<Request>, k: Key)
    ensures k in Run(qs).branchInfos
            <==> exists i: nat :: i < |qs| && Snapshots(Run(qs[..i]), qs[i], k)
  {
    if qs != [] {
      var n := |qs| - 1;
      CachedExactly(qs[..n], k);
      StepSnapshots(Run(qs[..n]), qs[n], k);
      forall i: nat | i < n
        ensures qs[..n][..i] == qs[..i] && qs[..n][i] == qs[i]
      {
      }
      if i: nat :| i < n && Snapshots(Run(qs[..n][..i]), qs[..n][i], k) {
        assert Snapshots(Run(qs[..i]), qs[i], k);
      }
      if i: nat :| i < |qs| && Snapshots(Run(qs[..i]), qs[i], k) && i != n {
        assert Snapshots(Run(qs[..n][..i]), qs[..n][i], k);
      }
    }
  }

  /** A snapshot describes the group and epoch it is filed under, and some slot
      of the run was there. */
  lemma {:induction false} SnapshotsAreReal(qs: seq<Request>, k: Key)
    requires k in Run(qs).branchInfos
    ensures Run(qs).branchInfos[k] == BranchInfo(k.0, k.1)
    ensures Visited(qs, k)
  {
    hide Step, Snapshots;
    var last := |qs| - 1;
    var s := Run(qs[..last]);
    StepSnapshots(s, qs[last], k);
    if k in s.branchInfos {
      SnapshotsAreReal(qs[..last], k);
      var i: nat, n: nat :| i <= last && n < |Run(qs[..last][..i]).groups| && Run(qs[..last][..i]).groups[n].At() == k;
      assert qs[..last][..i] == qs[..i];
    } else {
      SnapshotOfSlot(s, qs[last], k);
      assert qs[..|qs|] == qs;
      assert Run(qs[..|qs|]) == Step(s, qs[last]).0;
    }
  }

  lemma SnapshotOfSlot(s: State, q: Request, k: Key)
    requires Snapshots(s, q, k)
    ensures exists n: nat :: n < |Step(s, q).0.groups| && Step(s, q).0.groups[n].At() == k
    ensures k in Step(s, q).0.branchInfos && Step(s, q).0.branchInfos[k] == BranchInfo(k.0, k.1)
  {
    var s' := Step(s, q).0;
    if q.CreateGroup? || q.JoinGroup? || q.ExternalJoin? {
      assert s'.groups[|s.groups|].At() == k;
    } else {
      assert s'.groups[q.stateId].At() == k;
    }
  }

  /** An epoch is recorded when it is established, except by the handlers that
      forget; of those `create_branch` records one key, its parent's. */
  lemma RecordedUnlessForgotten(s: State, q: Request, k: Key)
    requires Establishes(s, q, k)
    ensures Snapshots(s, q, k) <==>
            !Forgets(q) || (q.CreateBranch? && Has(s, q.stateId) && s.groups[q.stateId].At() == k)
  {
  }

  ghost predicate Visited(qs: seq<Request>, k: Key) {
    exists i: nat, n: nat :: i <= |qs| && n < |Run(qs[..i]).groups| && Run(qs[..i]).groups[n].At() == k
  }

  ghost predicate Forgotten(qs: seq<Request>, k: Key) {
    exists i: nat :: i < |qs| && Forgets(qs[i]) && Establishes(Run(qs[..i]), qs[i], k)
  }

  /** Over a whole run: unless a forgetting handler established it, an epoch is
      in the cache exactly when some slot was ever in it. */
  lemma CacheIsHistory(qs: seq<Request>, k: Key)
    requires !Forgotten(qs, k)
    ensures k in Run(qs).branchInfos <==> Visited(qs, k)
  {
    hide Step, Snapshots, Establishes;
    if k in Run(qs).branchInfos {
      SnapshotsAreReal(qs, k);
    }
    if i: nat, n: nat :| i <= |qs| && n < |Run(qs[..i]).groups| && Run(qs[..i]).groups[n].At() == k {
      VisitedIsCached(qs, k, i, n);
    }
  }

  lemma {:induction false} VisitedIsCached(qs: seq<Request>, k: Key, i: nat, n: nat)
    requires !Forgotten(qs, k)
    requires i <= |qs| && n < |Run(qs[..i]).groups| && Run(qs[..i]).groups[n].At() == k
    ensures k in Run(qs).branchInfos
  {
    hide Step, Snapshots, Forgets;
    var last := |qs| - 1;
    assert qs[..|qs|] == qs;
    var before := qs[..last];
    var s, q := Run(before), qs[last];
    StepSnapshots(s, q, k);
    StepContinues(s, q);
    forall j: nat | j <= last
      ensures before[..j] == qs[..j] && (j < last ==> before[j] == qs[j])
    {
    }
    assert !Forgotten(before, k);
    if i < |qs| {
      VisitedIsCached(before, k, i, n);
    } else if n < |s.groups| && s.groups[n].At() == k {
      assert before[..last] == before;
      VisitedIsCached(before, k, last, n);
    } else {
      assert n < |s.groups| ==> Continues(s.groups[n], Run(qs).groups[n]);
      assert Establishes(s, q, k);
      RecordedUnlessForgotten(s, q, k);
    }
  }

  /** The request opens slot `n` at `k` or moves it there. */
  ghost predicate MovesTo(s: State, q: Request, n: nat, k: Key) {
    var s' := Step(s, q).0;
    n < |s'.groups| && s'.groups[n].At() == k && (n < |s.groups| ==> s.groups[n].epoch < k.1)
  }

  /** Slot by slot: an epoch that a handler which does not forget brought a slot to
      is in the cache ever after, whatever other slots have done. */
  lemma MovedIsCached(qs: seq<Request>, i: nat, n: nat, k: Key)
    requires i < |qs| && MovesTo(Run(qs[..i]), qs[i], n, k) && !Forgets(qs[i])
    ensures k in Run(qs).branchInfos
  {
    hide Step, Snapshots, Forgets;
    assert Establishes(Run(qs[..i]), qs[i], k);
    RecordedUnlessForgotten(Run(qs[..i]), qs[i], k);
    CachedExactly(qs, k);
  }

  ghost predicate NeverForgotten(qs: seq<Request>, n: nat) {
    forall i: nat, k: Key | i < |qs| && MovesTo(Run(qs[..i]), qs[i], n, k) :: !Forgets(qs[i])
  }

  /** A slot that was opened and moved only by handlers that do not forget has a
      snapshot of every epoch it was ever in. */
  lemma {:induction false} SlotHistoryIsCached(qs: seq<Request>, n: nat, i: nat)
    requires NeverForgotten(qs, n) && i <= |qs| && n < |Run(qs[..i]).groups|
    ensures Run(qs[..i]).groups[n].At() in Run(qs).branchInfos
    decreases i
  {
    hide Step, Forgets;
    if i > 0 {
      var l := i - 1;
      assert qs[..i][..l] == qs[..l];
      var s, k := Run(qs[..l]), Run(qs[..i]).groups[n].At();
      StepContinues(s, qs[l]);
      if n < |s.groups| && s.groups[n].At() == k {
        SlotHistoryIsCached(qs, n, l);
      } else {
        assert n < |s.groups| ==> Continues(s.groups[n], Run(qs[..i]).groups[n]);
        assert MovesTo(s, qs[l], n, k);
        MovedIsCached(qs, l, n, k);
      }
    }
  }

  /** Whatever happened since, a branch is joined exactly when the client still
      holds the key package, knows the slot, took a snapshot of the epoch that
      the welcome names, and the engine accepts. */
  lemma BranchJoinedExactly(qs: seq<Request>, t: nat, n: nat, psk: Key, subgroup: Option<Key>)
    ensures Step(Run(qs), HandleBranch(t, n, Some(psk), subgroup)).1.Issued? <==>
            && t in Run(qs).pendingKeyPackages
            && n < |Run(qs).groups|
            && subgroup.Some?
            && exists i: nat :: i < |qs| && Snapshots(Run(qs[..i]), qs[i], psk)
  {
    CachedExactly(qs, psk);
  }

  /** A branch off a branch is refused: slot 1 is in the epoch that the welcome
      names, and no snapshot of it was taken. */
  lemma BranchOfBranchRefused(g: GroupName, h: GroupName, t: nat, subgroup: Key)
    requires g != h
    ensures var qs := [CreateGroup(Some((g, 0))), CreateBranch(0, Built(Some((h, 1)))), CreateKeyPackage(t)];
            && |Run(qs).groups| == 2 && Run(qs).groups[1] == Group(h, 1, Operational)
            && Step(Run(qs), HandleBranch(t, 1, Some((h, 1)), Some(subgroup))).1 == Rejected
  {
    var qs := [CreateGroup(Some((g, 0))), CreateBranch(0, Built(Some((h, 1)))), CreateKeyPackage(t)];
    assert qs[..2] == [qs[0], qs[1]] && qs[..2][..1] == [qs[0]] && qs[..2][..1][..0] == [];
    assert Run([qs[0]]) == Step(START, qs[0]).0;
    assert Run([qs[0], qs[1]]) == Step(Run([qs[0]]), qs[1]).0;
  }
}
