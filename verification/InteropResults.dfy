/** Counting interop results into the cells of the status table and into the
    per-script entries of the failure list. */
module InteropResults {
  import opened Wrappers
  import opened StatusTable
  import opened Bags
  import opened Substrings

  const OPENMLS := "OpenMLS"

  /** One result of a script: the clients that played its actors, and the error
      if a step failed. */
  datatype Outcome = Outcome(actors: seq<string>, failed: bool, error: Option<string>, suite: nat, encrypt: bool)

  /** A result where it occurred. */
  datatype Item = Item(config: string, peer: Col, script: string, r: Outcome)

  /** The pairing a result belongs to; results without OpenMLS are not shown. */
  function Bucket(actors: seq<string>, peer: Col): Option<Col> {
    var names := set a | a in actors;
    if names == {OPENMLS} then Some(SelfPair)
    else if OPENMLS in names && |names| == 2 then Some(peer)
    else None
  }

  datatype Kind = Passed | Unsupported | Nonconformant | Genuine

  predicate IsUnsupported(r: Outcome) {
    r.error.Some? && Occurs(r.error.value, "code = Unimplemented")
  }

  predicate IsPeerNonconformance(r: Outcome) {
    r.error.Some? && Occurs(r.error.value, "A key package extension is not supported in the leaf's capabilities")
  }

  predicate IsPeerLimitation(config: string, r: Outcome) {
    config == "branch" && r.error.Some? && Occurs(r.error.value, "ReInitExtensionsMismatch")
  }

  function KindOf(i: Item): Kind {
    if !i.r.failed then Passed
    else if IsUnsupported(i.r) then Unsupported
    else if IsPeerNonconformance(i.r) || IsPeerLimitation(i.config, i.r) then Nonconformant
    else Genuine
  }

  // ------------------------------------------------------------- what counts

  /** Self results repeat in every peer's run; the first of a kind counts. */
  datatype SelfKey = SelfKey(config: string, script: string, suite: nat, encrypt: bool)

  function KeyOf(i: Item): SelfKey {
    SelfKey(i.config, i.script, i.r.suite, i.r.encrypt)
  }

  predicate IsSelf(i: Item) {
    Bucket(i.r.actors, i.peer) == Some(SelfPair)
  }

  predicate Counts(items: seq<Item>, n: nat)
    requires n < |items|
  {
    && Bucket(items[n].r.actors, items[n].peer).Some?
    && (IsSelf(items[n]) ==> forall m | 0 <= m < n :: !(IsSelf(items[m]) && KeyOf(items[m]) == KeyOf(items[n])))
  }

  /** Which results to count: of a config and column, perhaps of one script,
      perhaps of one kind. */
  datatype Select = Select(config: string, col: Col, script: Option<string>, kind: Option<Kind>)

  predicate Matches(s: Select, i: Item) {
    && i.config == s.config && Bucket(i.r.actors, i.peer) == Some(s.col)
    && (s.script.Some? ==> i.script == s.script.value)
    && (s.kind.Some? ==> KindOf(i) == s.kind.value)
  }

  function Tally(items: seq<Item>, s: Select): nat {
    if items == [] then 0
    else
      var n := |items| - 1;
      Tally(items[..n], s) + if Counts(items, n) && Matches(s, items[n]) then 1 else 0
  }

  // ------------------------------------------------------------ the counters

  datatype Cell = Cell(passed: nat, unsupported: nat, nonconformant: nat, total: nat)
  datatype Entry = Entry(failed: nat, unsupported: nat, nonconformant: nat, total: nat)
  datatype EntryKey = EntryKey(col: Col, config: string, script: string)

  type Stats = map<(string, Col), Cell>
  type Fails = map<EntryKey, Entry>

  datatype State = State(stats: Stats, fails: Fails, seenSelf: set<SelfKey>)

  const EMPTY: State := State(map[], map[], {})

  function CellAt(stats: Stats, k: (string, Col)): Cell {
    if k in stats then stats[k] else Cell(0, 0, 0, 0)
  }

  function EntryAt(fails: Fails, k: EntryKey): Entry {
    if k in fails then fails[k] else Entry(0, 0, 0, 0)
  }

  function CountCell(a: Cell, kind: Kind): Cell {
    var a := a.(total := a.total + 1);
    match kind
    case Passed => a.(passed := a.passed + 1)
    case Unsupported => a.(unsupported := a.unsupported + 1)
    case Nonconformant => a.(nonconformant := a.nonconformant + 1)
    case Genuine => a
  }

  function CountEntry(fe: Entry, kind: Kind): Entry {
    var fe := fe.(total := fe.total + 1);
    match kind
    case Passed => fe
    case Unsupported => fe.(failed := fe.failed + 1, unsupported := fe.unsupported + 1)
    case Nonconformant => fe.(failed := fe.failed + 1, nonconformant := fe.nonconformant + 1)
    case Genuine => fe.(failed := fe.failed + 1)
  }

  /** The counters after one more result. */
  function Step(st: State, i: Item): State {
    match Bucket(i.r.actors, i.peer)
    case None => st
    case Some(col) =>
      if col == SelfPair && KeyOf(i) in st.seenSelf then st
      else
        var ck, ek := (i.config, col), EntryKey(col, i.config, i.script);
        State(st.stats[ck := CountCell(CellAt(st.stats, ck), KindOf(i))],
              st.fails[ek := CountEntry(EntryAt(st.fails, ek), KindOf(i))],
              if col == SelfPair then st.seenSelf + {KeyOf(i)} else st.seenSelf)
  }

  function Counted(items: seq<Item>): State {
    if items == [] then EMPTY else Step(Counted(items[..|items| - 1]), items[|items| - 1])
  }

  // ------------------------------------------------ which pairing, which kind

  /** The pairing in terms of the actors: only OpenMLS, OpenMLS and one other
      client, or not shown. */
  lemma BucketExactly(actors: seq<string>, peer: Col)
    ensures actors != [] && (forall a | a in actors :: a == "OpenMLS") ==> Bucket(actors, peer) == Some(SelfPair)
    ensures (exists b :: b != "OpenMLS" && OneOther(actors, b)) ==> Bucket(actors, peer) == Some(peer)
    ensures Bucket(actors, peer) == None <==>
            && !(actors != [] && forall a | a in actors :: a == "OpenMLS")
            && !exists b :: b != "OpenMLS" && OneOther(actors, b)
  {
    var names := set a | a in actors;
    if actors != [] && (forall a | a in actors :: a == "OpenMLS") {
      assert actors[0] in names;
      assert names == {OPENMLS};
    }
    if b :| b != "OpenMLS" && OneOther(actors, b) {
      assert names == {OPENMLS, b};
      assert b in names;
    }
    if names == {OPENMLS} {
      assert OPENMLS in names && actors != [];
      assert forall a | a in actors :: a in names;
    } else if OPENMLS in names && |names| == 2 {
      var others := names - {OPENMLS};
      assert |others| == 1;
      var b :| b in others;
      assert others - {b} == {} by { assert |others - {b}| == 0; }
      assert forall a | a in actors :: a in names && (a == OPENMLS || a in others);
      assert names == {OPENMLS, b};
      assert OneOther(actors, b);
    }
  }

  /** The actors are OpenMLS and `b`, and both occur. */
  predicate OneOther(actors: seq<string>, b: string) {
    "OpenMLS" in actors && b in actors && forall a | a in actors :: a == "OpenMLS" || a == b
  }

  /** The kind in terms of the error text: passed without a failed step; unsupported
      if the error reports an unimplemented call; nonconformant if not, and it
      quotes the capabilities check, or the config is `branch` and it names the
      extensions mismatch; else genuine. */
  lemma KindExactly(i: Item)
    ensures KindOf(i) == Passed <==> !i.r.failed
    ensures KindOf(i) == Unsupported <==> i.r.failed && Mentions(i.r, "code = Unimplemented")
    ensures KindOf(i) == Nonconformant <==>
            && i.r.failed && !Mentions(i.r, "code = Unimplemented")
            && (|| Mentions(i.r, "A key package extension is not supported in the leaf's capabilities")
                || (i.config == "branch" && Mentions(i.r, "ReInitExtensionsMismatch")))
  {
    if i.r.error.Some? {
      OccursExactly(i.r.error.value, "code = Unimplemented");
      OccursExactly(i.r.error.value, "A key package extension is not supported in the leaf's capabilities");
      OccursExactly(i.r.error.value, "ReInitExtensionsMismatch");
    }
  }

  /** The error contains the text somewhere. */
  ghost predicate Mentions(r: Outcome, part: string) {
    r.error.Some? && exists before, after :: r.error.value == before + part + after
  }

  /** A result counts if it has a pairing and, for OpenMLS with itself, no earlier
      such result has the same config, script, suite and encryption flag. */
  lemma CountsExactly(items: seq<Item>, n: nat)
    requires n < |items|
    ensures Counts(items, n) <==>
            && Bucket(items[n].r.actors, items[n].peer).Some?
            && (Bucket(items[n].r.actors, items[n].peer) == Some(SelfPair) ==>
                  !exists m: nat :: m < n && SameSelf(items[m], items[n]))
  {
    hide Bucket;
    if IsSelf(items[n]) {
      if m :| 0 <= m < n && IsSelf(items[m]) && KeyOf(items[m]) == KeyOf(items[n]) {
        assert SameSelf(items[m], items[n]);
      }
    }
  }

  predicate SameSelf(a: Item, b: Item) {
    && Bucket(a.r.actors, a.peer) == Some(SelfPair)
    && a.config == b.config && a.script == b.script && a.r.suite == b.r.suite && a.r.encrypt == b.r.encrypt
  }

  // ---------------------------------------------------------------- the loop

  /** `config_name`: the file name without its trailing `.json`. */
  function ConfigName(cfg: string): string {
    if |cfg| >= 5 && cfg[|cfg| - 5..] == ".json" then cfg[..|cfg| - 5] else cfg
  }

  datatype RunResult = Missing | Timeout | Scripts(scripts: seq<(string, seq<Outcome>)>)
  datatype Run = Run(config: string, peer: Col, result: RunResult)

  function ItemsOfScript(config: string, peer: Col, script: string, results: seq<Outcome>): (items: seq<Item>)
    ensures |items| == |results|
    ensures forall i | 0 <= i < |items| :: items[i] == Item(config, peer, script, results[i])
  {
    seq(|results|, i requires 0 <= i < |results| => Item(config, peer, script, results[i]))
  }

  function ItemsOfScripts(config: string, peer: Col, scripts: seq<(string, seq<Outcome>)>): seq<Item> {
    if scripts == [] then []
    else
      var n := |scripts| - 1;
      ItemsOfScripts(config, peer, scripts[..n]) + ItemsOfScript(config, peer, scripts[n].0, scripts[n].1)
  }

  /** All results of a manifest, in the order they are read. */
  function Items(manifest: seq<Run>): seq<Item> {
    if manifest == [] then []
    else
      var n := |manifest| - 1;
      Items(manifest[..n]) +
      if manifest[n].result.Scripts?
      then ItemsOfScripts(ConfigName(manifest[n].config), manifest[n].peer, manifest[n].result.scripts)
      else []
  }

  function NotCompleted(manifest: seq<Run>): seq<(string, Col, RunResult)> {
    if manifest == [] then []
    else
      var n := |manifest| - 1;
      NotCompleted(manifest[..n]) +
      if manifest[n].result.Scripts? then []
      else [(ConfigName(manifest[n].config), manifest[n].peer, manifest[n].result)]
  }

  /** Only a trailing `.json` goes, and only once. */
  lemma ConfigNameExactly(base: string)
    ensures ConfigName(base + ".json") == base
    ensures (forall x: string :: base != x + ".json") ==> ConfigName(base) == base
  {
    var cfg := base + ".json";
    assert cfg[|cfg| - 5..] == ".json" && cfg[..|cfg| - 5] == base;
    if |base| >= 5 && base[|base| - 5..] == ".json" {
      assert base == base[..|base| - 5] + ".json";
    }
  }

  /** Script `j` has this as its `k`-th result. */
  predicate IsOutcome(config: string, peer: Col, scripts: seq<(string, seq<Outcome>)>, i: Item, j: nat, k: nat) {
    j < |scripts| && k < |scripts[j].1| && i == Item(config, peer, scripts[j].0, scripts[j].1[k])
  }

  /** Script `j` of run `n` has this as its `k`-th result. */
  predicate IsResult(manifest: seq<Run>, i: Item, n: nat, j: nat, k: nat) {
    && n < |manifest| && manifest[n].result.Scripts?
    && IsOutcome(ConfigName(manifest[n].config), manifest[n].peer, manifest[n].result.scripts, i, j, k)
  }

  lemma {:induction false} ScriptItems(config: string, peer: Col, scripts: seq<(string, seq<Outcome>)>, i: Item)
    ensures i in ItemsOfScripts(config, peer, scripts) <==>
            exists j: nat, k: nat :: IsOutcome(config, peer, scripts, i, j, k)
  {
    if scripts != [] {
      var n := |scripts| - 1;
      ScriptItems(config, peer, scripts[..n], i);
      if j: nat, k: nat :| IsOutcome(config, peer, scripts[..n], i, j, k) {
        assert IsOutcome(config, peer, scripts, i, j, k);
      }
      if j: nat, k: nat :| IsOutcome(config, peer, scripts, i, j, k) {
        if j < n {
          assert IsOutcome(config, peer, scripts[..n], i, j, k);
        } else {
          assert i == ItemsOfScript(config, peer, scripts[n].0, scripts[n].1)[k];
        }
      }
      if i in ItemsOfScript(config, peer, scripts[n].0, scripts[n].1) {
        var k :| 0 <= k < |scripts[n].1| && i == ItemsOfScript(config, peer, scripts[n].0, scripts[n].1)[k];
        assert IsOutcome(config, peer, scripts, i, n, k);
      }
    }
  }

  /** The results of a manifest are those of the scripts of its finished runs. */
  lemma {:induction false} ItemsExactly(manifest: seq<Run>, i: Item)
    ensures i in Items(manifest) <==> exists n: nat, j: nat, k: nat :: IsResult(manifest, i, n, j, k)
  {
    hide ConfigName, IsOutcome, ItemsOfScripts;
    if manifest != [] {
      var last := |manifest| - 1;
      var run := manifest[last];
      ItemsExactly(manifest[..last], i);
      forall n: nat, j: nat, k: nat | n < last
        ensures IsResult(manifest[..last], i, n, j, k) == IsResult(manifest, i, n, j, k)
      {
        assert manifest[..last][n] == manifest[n];
      }
      if run.result.Scripts? {
        ScriptItems(ConfigName(run.config), run.peer, run.result.scripts, i);
        forall j: nat, k: nat
          ensures IsResult(manifest, i, last, j, k)
                  == IsOutcome(ConfigName(run.config), run.peer, run.result.scripts, i, j, k)
        {
        }
      }
    }
  }

  /** The runs without a result, in order, each under its config name. */
  lemma {:induction false} NotCompletedExactly(manifest: seq<Run>, x: (string, Col, RunResult))
    ensures x in NotCompleted(manifest) <==>
            exists n: nat :: n < |manifest| && !manifest[n].result.Scripts?
                             && x == (ConfigName(manifest[n].config), manifest[n].peer, manifest[n].result)
  {
    if manifest != [] {
      var last := |manifest| - 1;
      NotCompletedExactly(manifest[..last], x);
      if n: nat :| n < last && !manifest[..last][n].result.Scripts?
                   && x == (ConfigName(manifest[..last][n].config),
                            manifest[..last][n].peer, manifest[..last][n].result) {
        assert manifest[n] == manifest[..last][n];
      }
      if n: nat :| n < |manifest| && !manifest[n].result.Scripts?
                   && x == (ConfigName(manifest[n].config), manifest[n].peer, manifest[n].result) {
        assert n < last ==> manifest[..last][n] == manifest[n];
      }
    }
  }

  /** Results that do not name OpenMLS leave no trace. */
  lemma {:induction false} OthersLeaveNoTrace(items: seq<Item>)
    requires forall i | i in items :: "OpenMLS" !in i.r.actors
    ensures Counted(items).stats == map[] && Counted(items).fails == map[]
  {
    hide Bucket;
    if items != [] {
      var i := items[|items| - 1];
      OthersLeaveNoTrace(items[..|items| - 1]);
      BucketExactly(i.r.actors, i.peer);
      assert i in items && (i.r.actors != [] ==> i.r.actors[0] in i.r.actors);
    }
  }

  /** A manifest in which no result names OpenMLS has an empty table and an empty
      failure list. */
  lemma PeerResultsLeaveNoTrace(manifest: seq<Run>)
    requires forall i: Item, n: nat, j: nat, k: nat | IsResult(manifest, i, n, j, k) :: "OpenMLS" !in i.r.actors
    ensures Counted(Items(manifest)).stats == map[] && Counted(Items(manifest)).fails == map[]
  {
    hide Items, IsResult, Counted;
    forall i | i in Items(manifest)
      ensures "OpenMLS" !in i.r.actors
    {
      ItemsExactly(manifest, i);
      var n: nat, j: nat, k: nat :| IsResult(manifest, i, n, j, k);
    }
    OthersLeaveNoTrace(Items(manifest));
  }

  method Aggregate(manifest: seq<Run>) returns (st: State, notCompleted: seq<(string, Col, RunResult)>)
    ensures st == Counted(Items(manifest))
    ensures notCompleted == NotCompleted(manifest)
  {
    hide Step;
    st, notCompleted := EMPTY, [];
    for i := 0 to |manifest|
      invariant st == Counted(Items(manifest[..i]))
      invariant notCompleted == NotCompleted(manifest[..i])
    {
      var run := manifest[i];
      var name := ConfigName(run.config);
      assert manifest[..i + 1][..i] == manifest[..i];
      if !run.result.Scripts? {
        notCompleted := notCompleted + [(name, run.peer, run.result)];
        assert Items(manifest[..i]) + [] == Items(manifest[..i]);
        continue;
      }
      st := AggregateScripts(st, Items(manifest[..i]), name, run.peer, run.result.scripts);
    }
    assert manifest[..|manifest|] == manifest;
  }

  method AggregateScripts(before: State, ghost items: seq<Item>, config: string, peer: Col,
                          scripts: seq<(string, seq<Outcome>)>)
    returns (st: State)
    requires before == Counted(items)
    ensures st == Counted(items + ItemsOfScripts(config, peer, scripts))
  {
    hide Step, Counted;
    st := before;
    assert items + [] == items;
    for j := 0 to |scripts|
      invariant st == Counted(items + ItemsOfScripts(config, peer, scripts[..j]))
    {
      var (script, results) := scripts[j];
      ghost var done := items + ItemsOfScripts(config, peer, scripts[..j]);
      assert done + [] == done;
      for k := 0 to |results|
        invariant st == Counted(done + ItemsOfScript(config, peer, script, results)[..k])
      {
        ghost var all := ItemsOfScript(config, peer, script, results);
        assert done + all[..k + 1] == (done + all[..k]) + [all[k]];
        CountedStep(done + all[..k], all[k]);
        st := CountResult(st, Item(config, peer, script, results[k]));
      }
      assert scripts[..j + 1][..j] == scripts[..j];
      assert ItemsOfScript(config, peer, script, results)[..|results|] == ItemsOfScript(config, peer, script, results);
      assert items + ItemsOfScripts(config, peer, scripts[..j + 1])
          == done + ItemsOfScript(config, peer, script, results);
    }
    assert scripts[..|scripts|] == scripts;
  }

  lemma CountedStep(items: seq<Item>, i: Item)
    ensures Counted(items + [i]) == Step(Counted(items), i)
  {
    hide Step;
    assert (items + [i])[..|items|] == items;
  }

  /** The innermost loop body. */
  method CountResult(before: State, i: Item) returns (st: State)
    ensures st == Step(before, i)
  {
    hide Bucket, IsUnsupported, IsPeerNonconformance, IsPeerLimitation, KeyOf, CellAt, EntryAt;
    st := before;
    var col := Bucket(i.r.actors, i.peer);
    if col.None? {
      return;
    }
    if col.value == SelfPair {
      if KeyOf(i) in st.seenSelf {
        return;
      }
      st := st.(seenSelf := st.seenSelf + {KeyOf(i)});
    }
    var ck, ek := (i.config, col.value), EntryKey(col.value, i.config, i.script);
    var a := CellAt(st.stats, ck);
    a := a.(total := a.total + 1);
    var fe := EntryAt(st.fails, ek);
    fe := fe.(total := fe.total + 1);
    if !i.r.failed {
      a := a.(passed := a.passed + 1);
    } else {
      var unsupported := IsUnsupported(i.r);
      var nonconformant := !unsupported && (IsPeerNonconformance(i.r) || IsPeerLimitation(i.config, i.r));
      if unsupported {
        a := a.(unsupported := a.unsupported + 1);
      } else if nonconformant {
        a := a.(nonconformant := a.nonconformant + 1);
      }
      fe := fe.(failed := fe.failed + 1);
      if unsupported {
        fe := fe.(unsupported := fe.unsupported + 1);
      } else if nonconformant {
        fe := fe.(nonconformant := fe.nonconformant + 1);
      }
    }
    st := st.(stats := st.stats[ck := a], fails := st.fails[ek := fe]);
  }

  // --------------------------------------- the counters say what was counted

  lemma {:induction false} SeenSelf(items: seq<Item>, k: SelfKey)
    ensures k in Counted(items).seenSelf <==> exists m | 0 <= m < |items| :: IsSelf(items[m]) && KeyOf(items[m]) == k
  {
    if items != [] {
      var n := |items| - 1;
      SeenSelf(items[..n], k);
      SeenSelf(items[..n], KeyOf(items[n]));
      if m :| 0 <= m < |items| && IsSelf(items[m]) && KeyOf(items[m]) == k {
        assert m < n ==> items[..n][m] == items[m];
      }
      if m :| 0 <= m < n && IsSelf(items[..n][m]) && KeyOf(items[..n][m]) == k {
        assert items[m] == items[..n][m];
      }
    }
  }

  /** A result is passed over exactly if it does not count. */
  lemma StepCounts(items: seq<Item>, n: nat)
    requires n == |items| - 1
    ensures var st, i := Counted(items[..n]), items[n];
            Counts(items, n) <==>
              Bucket(i.r.actors, i.peer).Some? && !(IsSelf(i) && KeyOf(i) in st.seenSelf)
  {
    hide Counted, Bucket;
    SeenSelf(items[..n], KeyOf(items[n]));
    assert forall m | 0 <= m < n :: items[..n][m] == items[m];
  }

  function TallyCell(items: seq<Item>, config: string, col: Col): Cell {
    Cell(Tally(items, Select(config, col, None, Some(Passed))),
         Tally(items, Select(config, col, None, Some(Unsupported))),
         Tally(items, Select(config, col, None, Some(Nonconformant))),
         Tally(items, Select(config, col, None, None)))
  }

  /** Every cell holds the tallies of its results. */
  lemma {:induction false} CellIsTally(items: seq<Item>, config: string, col: Col)
    ensures CellAt(Counted(items).stats, (config, col)) == TallyCell(items, config, col)
    ensures (config, col) in Counted(items).stats <==> Tally(items, Select(config, col, None, None)) > 0
  {
    hide Bucket, Counts, IsUnsupported, IsPeerNonconformance, IsPeerLimitation;
    if items != [] {
      var n := |items| - 1;
      CellIsTally(items[..n], config, col);
      StepCounts(items, n);
    }
  }

  function TallyEntry(items: seq<Item>, k: EntryKey): Entry {
    Entry(Tally(items, Select(k.config, k.col, Some(k.script), Some(Unsupported)))
          + Tally(items, Select(k.config, k.col, Some(k.script), Some(Nonconformant)))
          + Tally(items, Select(k.config, k.col, Some(k.script), Some(Genuine))),
          Tally(items, Select(k.config, k.col, Some(k.script), Some(Unsupported))),
          Tally(items, Select(k.config, k.col, Some(k.script), Some(Nonconformant))),
          Tally(items, Select(k.config, k.col, Some(k.script), None)))
  }

  /** Every per-script entry holds the tallies of its results. */
  lemma {:induction false} EntryIsTally(items: seq<Item>, k: EntryKey)
    ensures EntryAt(Counted(items).fails, k) == TallyEntry(items, k)
    ensures k in Counted(items).fails <==> Tally(items, Select(k.config, k.col, Some(k.script), None)) > 0
  {
    hide Bucket, Counts, IsUnsupported, IsPeerNonconformance, IsPeerLimitation;
    if items != [] {
      var n := |items| - 1;
      EntryIsTally(items[..n], k);
      StepCounts(items, n);
    }
  }

  // ------------------------------------------------------ cells add up

  /** `genuine_fails` of a cell. */
  function GenuineFails(v: Cell): int {
    v.total - v.passed - v.unsupported - v.nonconformant
  }

  lemma {:induction false} KindsAddUp(items: seq<Item>, config: string, col: Col, script: Option<string>)
    ensures Tally(items, Select(config, col, script, None)) ==
            Tally(items, Select(config, col, script, Some(Passed)))
            + Tally(items, Select(config, col, script, Some(Unsupported)))
            + Tally(items, Select(config, col, script, Some(Nonconformant)))
            + Tally(items, Select(config, col, script, Some(Genuine)))
  {
    hide Bucket, Counts, KindOf;
    if items != [] {
      KindsAddUp(items[..|items| - 1], config, col, script);
    }
  }

  /** A cell's total is its passed, unsupported and nonconformant results plus the
      genuine failures, so the subtraction counts exactly those. */
  lemma CellAddsUp(items: seq<Item>, config: string, col: Col)
    ensures GenuineFails(CellAt(Counted(items).stats, (config, col)))
            == Tally(items, Select(config, col, None, Some(Genuine)))
  {
    hide Counted, Tally;
    CellIsTally(items, config, col);
    KindsAddUp(items, config, col, None);
  }

  /** The results of the given scripts, counted together. */
  function TallyIn(items: seq<Item>, s: Select, scripts: set<string>): nat {
    if items == [] then 0
    else
      var n := |items| - 1;
      TallyIn(items[..n], s, scripts)
      + if Counts(items, n) && Matches(s, items[n]) && items[n].script in scripts then 1 else 0
  }

  function Plus(a: Entry, b: Entry): Entry {
    Entry(a.failed + b.failed, a.unsupported + b.unsupported, a.nonconformant + b.nonconformant, a.total + b.total)
  }

  /** The stored entries of a config and column, added up over some scripts. */
  ghost function SumEntries(fails: Fails, config: string, col: Col, scripts: set<string>): Entry {
    if scripts == {} then Entry(0, 0, 0, 0)
    else
      var x :| x in scripts;
      Plus(EntryAt(fails, EntryKey(col, config, x)), SumEntries(fails, config, col, scripts - {x}))
  }

  function StoredScripts(fails: Fails, config: string, col: Col): set<string> {
    set k | k in fails && k.config == config && k.col == col :: k.script
  }

  lemma {:induction false} TallyInSplit(items: seq<Item>, s: Select, scripts: set<string>, x: string)
    requires s.script.None? && x in scripts
    ensures TallyIn(items, s, scripts) == Tally(items, s.(script := Some(x))) + TallyIn(items, s, scripts - {x})
  {
    hide Bucket, Counts, KindOf;
    if items != [] {
      TallyInSplit(items[..|items| - 1], s, scripts, x);
    }
  }

  lemma {:induction false} TallyInNothing(items: seq<Item>, s: Select)
    ensures TallyIn(items, s, {}) == 0
  {
    hide Counts, Matches;
    if items != [] {
      TallyInNothing(items[..|items| - 1], s);
    }
  }

  function TallyEntryIn(items: seq<Item>, config: string, col: Col, scripts: set<string>): Entry {
    var unsupported := TallyIn(items, Select(config, col, None, Some(Unsupported)), scripts);
    var nonconformant := TallyIn(items, Select(config, col, None, Some(Nonconformant)), scripts);
    Entry(unsupported + nonconformant + TallyIn(items, Select(config, col, None, Some(Genuine)), scripts),
          unsupported, nonconformant, TallyIn(items, Select(config, col, None, None), scripts))
  }

  lemma NextEntry(fails: Fails, config: string, col: Col, scripts: set<string>) returns (x: string)
    requires scripts != {}
    ensures x in scripts
    ensures SumEntries(fails, config, col, scripts)
            == Plus(EntryAt(fails, EntryKey(col, config, x)), SumEntries(fails, config, col, scripts - {x}))
  {
    hide EntryAt, Plus;
    x :| x in scripts
         && SumEntries(fails, config, col, scripts)
            == Plus(EntryAt(fails, EntryKey(col, config, x)), SumEntries(fails, config, col, scripts - {x}));
  }

  lemma EntrySplit(items: seq<Item>, config: string, col: Col, scripts: set<string>, x: string)
    requires x in scripts
    ensures TallyEntryIn(items, config, col, scripts)
            == Plus(TallyEntry(items, EntryKey(col, config, x)), TallyEntryIn(items, config, col, scripts - {x}))
  {
    hide TallyIn, Tally;
    TallyInSplit(items, Select(config, col, None, Some(Unsupported)), scripts, x);
    TallyInSplit(items, Select(config, col, None, Some(Nonconformant)), scripts, x);
    TallyInSplit(items, Select(config, col, None, Some(Genuine)), scripts, x);
    TallyInSplit(items, Select(config, col, None, None), scripts, x);
  }

  lemma EntryInNothing(items: seq<Item>, config: string, col: Col)
    ensures TallyEntryIn(items, config, col, {}) == Entry(0, 0, 0, 0)
  {
    hide TallyIn;
    TallyInNothing(items, Select(config, col, None, Some(Unsupported)));
    TallyInNothing(items, Select(config, col, None, Some(Nonconformant)));
    TallyInNothing(items, Select(config, col, None, Some(Genuine)));
    TallyInNothing(items, Select(config, col, None, None));
  }

  lemma {:induction false} SumIsTallyIn(items: seq<Item>, config: string, col: Col, scripts: set<string>)
    ensures SumEntries(Counted(items).fails, config, col, scripts) == TallyEntryIn(items, config, col, scripts)
  {
    hide TallyEntryIn, TallyEntry, Counted, EntryAt, Plus;
    if scripts == {} {
      EntryInNothing(items, config, col);
    } else {
      hide SumEntries;
      var x := NextEntry(Counted(items).fails, config, col, scripts);
      EntryIsTally(items, EntryKey(col, config, x));
      EntrySplit(items, config, col, scripts, x);
      SumIsTallyIn(items, config, col, scripts - {x});
    }
  }

  /** Leaving out scripts without a matching result changes no count. */
  lemma {:induction false} TallyInAll(items: seq<Item>, s: Select, scripts: set<string>)
    requires forall n | 0 <= n < |items| && Counts(items, n) && Matches(s, items[n]) :: items[n].script in scripts
    ensures TallyIn(items, s, scripts) == Tally(items, s)
  {
    hide Counts, Matches;
    if items != [] {
      var n := |items| - 1;
      assert forall m: nat | m < n :: Counts(items, m) == Counts(items[..n], m) by { CountsPrefix(items, n); }
      assert forall m | 0 <= m < n :: items[..n][m] == items[m];
      TallyInAll(items[..n], s, scripts);
    }
  }

  lemma {:induction false} TallyReaches(items: seq<Item>, s: Select, n: nat)
    requires n < |items| && Counts(items, n) && Matches(s, items[n])
    ensures Tally(items, s) > 0
  {
    hide Counts, Matches;
    var last := |items| - 1;
    if n < last {
      CountsPrefix(items, last);
      TallyReaches(items[..last], s, n);
    }
  }

  lemma ResultIsStored(items: seq<Item>, config: string, col: Col, kind: Option<Kind>, n: nat)
    requires n < |items| && Counts(items, n) && Matches(Select(config, col, None, kind), items[n])
    ensures items[n].script in StoredScripts(Counted(items).fails, config, col)
  {
    hide Counts, Counted, KindOf, Tally;
    var k := EntryKey(col, config, items[n].script);
    TallyReaches(items, Select(config, col, Some(k.script), None), n);
    EntryIsTally(items, k);
    assert k in Counted(items).fails;
  }

  lemma StoredTally(items: seq<Item>, config: string, col: Col, kind: Option<Kind>)
    ensures TallyIn(items, Select(config, col, None, kind), StoredScripts(Counted(items).fails, config, col))
            == Tally(items, Select(config, col, None, kind))
  {
    hide Counts, Matches, Counted, StoredScripts, Tally, TallyIn;
    var s, scripts := Select(config, col, None, kind), StoredScripts(Counted(items).fails, config, col);
    forall n | 0 <= n < |items| && Counts(items, n) && Matches(s, items[n])
      ensures items[n].script in scripts
    {
      ResultIsStored(items, config, col, kind, n);
    }
    TallyInAll(items, s, scripts);
  }

  /** The stored entries of a config and column add up to the stored cell. */
  lemma ScriptsSumToCell(items: seq<Item>, config: string, col: Col)
    ensures var st := Counted(items);
            var cell := CellAt(st.stats, (config, col));
            var sum := SumEntries(st.fails, config, col, StoredScripts(st.fails, config, col));
            && sum.total == cell.total && sum.failed + cell.passed == cell.total
            && sum.unsupported == cell.unsupported && sum.nonconformant == cell.nonconformant
  {
    hide Counted, StoredScripts, SumEntries, Tally, TallyIn;
    SumIsTallyIn(items, config, col, StoredScripts(Counted(items).fails, config, col));
    StoredTally(items, config, col, Some(Unsupported));
    StoredTally(items, config, col, Some(Nonconformant));
    StoredTally(items, config, col, Some(Genuine));
    StoredTally(items, config, col, None);
    CellIsTally(items, config, col);
    KindsAddUp(items, config, col, None);
  }

  // ----------------------------------------------- the three failure buckets

  datatype FailureKind = Bug | PeerLimitation | UnsupportedFeature

  /** Where the failure list puts an entry; all-passing entries are left out. */
  function Listed(fe: Entry): Option<FailureKind> {
    if fe.failed == 0 then None
    else if fe.failed as int - fe.unsupported - fe.nonconformant > 0 then Some(Bug)
    else if fe.nonconformant >= fe.unsupported then Some(PeerLimitation)
    else Some(UnsupportedFeature)
  }

  ghost predicate Hit(items: seq<Item>, n: nat, k: EntryKey, kind: Kind) {
    n < |items| && Counts(items, n) && Matches(Select(k.config, k.col, Some(k.script), Some(kind)), items[n])
  }

  lemma {:induction false} TallyPositive(items: seq<Item>, k: EntryKey, kind: Kind)
    ensures Tally(items, Select(k.config, k.col, Some(k.script), Some(kind))) > 0
            <==> exists n: nat :: Hit(items, n, k, kind)
  {
    hide Counts, Matches;
    if items != [] {
      var n := |items| - 1;
      TallyPositive(items[..n], k, kind);
      assert forall m: nat | m < n :: Counts(items, m) == Counts(items[..n], m) by { CountsPrefix(items, n); }
      if m: nat :| Hit(items[..n], m, k, kind) {
        assert Hit(items, m, k, kind);
      }
      if m: nat :| Hit(items, m, k, kind) {
        assert m < n ==> Hit(items[..n], m, k, kind);
      }
      if Counts(items, n) && Matches(Select(k.config, k.col, Some(k.script), Some(kind)), items[n]) {
        assert Hit(items, n, k, kind);
      }
    }
  }

  lemma CountsPrefix(items: seq<Item>, n: nat)
    requires n <= |items|
    ensures forall m: nat | m < n :: Counts(items, m) == Counts(items[..n], m)
  {
    hide Bucket;
    assert forall m | 0 <= m < n :: items[..n][m] == items[m];
  }

  /** An entry is listed as a bug exactly if one of its counted results failed
      genuinely, and listed at all exactly if one of them failed. Of the others,
      those with more unsupported than nonconformant results are listed as
      unsupported. */
  lemma ListedMeaning(items: seq<Item>, k: EntryKey)
    ensures var l := Listed(EntryAt(Counted(items).fails, k));
            var unsupported := Tally(items, Select(k.config, k.col, Some(k.script), Some(Unsupported)));
            var nonconformant := Tally(items, Select(k.config, k.col, Some(k.script), Some(Nonconformant)));
            && (l == Some(Bug) <==> exists n: nat :: Hit(items, n, k, Genuine))
            && (l == None <==> !exists n: nat, kind: Kind :: kind != Passed && Hit(items, n, k, kind))
            && (l == Some(UnsupportedFeature) <==> l != Some(Bug) && unsupported > nonconformant)
            && (l == Some(PeerLimitation) <==> l != Some(Bug) && nonconformant > 0 && nonconformant >= unsupported)
  {
    hide Counted, Tally, Hit;
    EntryIsTally(items, k);
    TallyPositive(items, k, Unsupported);
    TallyPositive(items, k, Nonconformant);
    TallyPositive(items, k, Genuine);
    var l := Listed(EntryAt(Counted(items).fails, k));
    if l != None {
      var kind := if Tally(items, Select(k.config, k.col, Some(k.script), Some(Unsupported))) > 0 then Unsupported
                  else if Tally(items, Select(k.config, k.col, Some(k.script), Some(Nonconformant))) > 0
                  then Nonconformant
                  else Genuine;
      var n: nat :| Hit(items, n, k, kind);
    }
    if n: nat, kind: Kind :| kind != Passed && Hit(items, n, k, kind) {
      assert kind == Unsupported || kind == Nonconformant || kind == Genuine;
    }
  }

  // -------------------------------------------------------------- exit status

  /** `total_genuine`: the sum over all cells. */
  ghost function SumGenuine(stats: Stats): int {
    if stats == map[] then 0
    else GenuineFails(stats[Pick(stats)]) + SumGenuine(stats - {Pick(stats)})
  }

  lemma SumStep(stats: Stats)
    requires stats != map[]
    ensures SumGenuine(stats) == GenuineFails(stats[Pick(stats)]) + SumGenuine(stats - {Pick(stats)})
  {
  }

  lemma {:induction false} SumRemove(stats: Stats, k: (string, Col))
    requires k in stats
    ensures SumGenuine(stats) == GenuineFails(stats[k]) + SumGenuine(stats - {k})
    decreases stats.Keys
  {
    hide SumGenuine, GenuineFails;
    var c := Pick(stats);
    SumStep(stats);
    if c != k {
      SumRemove(stats - {c}, k);
      SumRemove(stats - {k}, c);
      assert (stats - {c}) - {k} == (stats - {k}) - {c};
    }
  }

  lemma SumPut(stats: Stats, k: (string, Col), v: Cell)
    ensures SumGenuine(stats[k := v]) == SumGenuine(stats) - GenuineFails(CellAt(stats, k)) + GenuineFails(v)
  {
    hide SumGenuine, GenuineFails;
    var put := stats[k := v];
    SumRemove(put, k);
    if k in stats {
      SumRemove(stats, k);
      assert put - {k} == stats - {k};
    } else {
      assert put - {k} == stats;
      CountCellGenuine(CellAt(stats, k), Passed);
    }
  }

  lemma CountCellGenuine(a: Cell, kind: Kind)
    ensures GenuineFails(CountCell(a, kind)) == GenuineFails(a) + if kind == Genuine then 1 else 0
    ensures GenuineFails(Cell(0, 0, 0, 0)) == 0
  {
  }

  /** All genuine failures that count. */
  function GenuineTotal(items: seq<Item>): nat {
    if items == [] then 0
    else
      var n := |items| - 1;
      GenuineTotal(items[..n]) + if Counts(items, n) && KindOf(items[n]) == Genuine then 1 else 0
  }

  lemma SumAfterStep(st: State, i: Item)
    ensures SumGenuine(Step(st, i).stats) ==
            SumGenuine(st.stats) +
            if && Bucket(i.r.actors, i.peer).Some?
               && !(IsSelf(i) && KeyOf(i) in st.seenSelf) && KindOf(i) == Genuine
            then 1 else 0
  {
    hide SumGenuine, GenuineFails, CountCell, CountEntry, KindOf, Bucket, CellAt, EntryAt, KeyOf;
    var col := Bucket(i.r.actors, i.peer);
    if col.Some? {
      var k := (i.config, col.value);
      var a := CellAt(st.stats, k);
      SumPut(st.stats, k, CountCell(a, KindOf(i)));
      CountCellGenuine(a, KindOf(i));
    }
  }

  lemma {:induction false} SumIsGenuineTotal(items: seq<Item>)
    ensures SumGenuine(Counted(items).stats) == GenuineTotal(items)
  {
    hide Counts, SumGenuine, Bucket, KindOf, Step;
    if items == [] {
      EmptySum();
    } else {
      var n := |items| - 1;
      SumIsGenuineTotal(items[..n]);
      StepCounts(items, n);
      SumAfterStep(Counted(items[..n]), items[n]);
    }
  }

  lemma EmptySum()
    ensures SumGenuine(map[]) == 0
  {
  }

  lemma {:induction false} GenuineTotalPositive(items: seq<Item>)
    ensures GenuineTotal(items) > 0 <==> exists n: nat, k: EntryKey :: Hit(items, n, k, Genuine)
  {
    hide Counts, KindOf, Bucket;
    if items != [] {
      var n := |items| - 1;
      var before := items[..n];
      GenuineTotalPositive(before);
      CountsPrefix(items, n);
      if m: nat, k: EntryKey :| Hit(before, m, k, Genuine) {
        assert Hit(items, m, k, Genuine);
      }
      if m: nat, k: EntryKey :| Hit(items, m, k, Genuine) {
        assert m < n ==> Hit(before, m, k, Genuine);
      }
      if Counts(items, n) && KindOf(items[n]) == Genuine {
        CountedHasBucket(items, n);
        var k := EntryKey(Bucket(items[n].r.actors, items[n].peer).value, items[n].config, items[n].script);
        assert Hit(items, n, k, Genuine);
      }
    }
  }

  lemma CountedHasBucket(items: seq<Item>, n: nat)
    requires n < |items| && Counts(items, n)
    ensures Bucket(items[n].r.actors, items[n].peer).Some?
  {
  }

  /** The failure list has a genuine bug under this key. */
  predicate ListsBug(items: seq<Item>, k: EntryKey) {
    k in Counted(items).fails && Listed(Counted(items).fails[k]) == Some(Bug)
  }

  lemma ListsBugMeaning(items: seq<Item>, k: EntryKey)
    ensures ListsBug(items, k) <==> exists n: nat :: Hit(items, n, k, Genuine)
  {
    hide Counted, Hit;
    ListedMeaning(items, k);
    assert Listed(EntryAt(Counted(items).fails, k)) == Some(Bug) ==> k in Counted(items).fails;
  }

  /** The run exits non-zero exactly if the failure list has a genuine bug. */
  lemma ExitStatusMatchesList(items: seq<Item>)
    ensures SumGenuine(Counted(items).stats) > 0 <==> exists k: EntryKey :: ListsBug(items, k)
  {
    hide Counted, SumGenuine, Hit, ListsBug;
    SumIsGenuineTotal(items);
    GenuineTotalPositive(items);
    if n: nat, k: EntryKey :| Hit(items, n, k, Genuine) {
      ListsBugMeaning(items, k);
    }
    if k: EntryKey :| ListsBug(items, k) {
      ListsBugMeaning(items, k);
    }
  }

  /** The table marks a cell as failing exactly if the failure list has a genuine
      bug for that config and column. */
  lemma CellMarkMatchesList(items: seq<Item>, config: string, col: Col)
    ensures GenuineFails(CellAt(Counted(items).stats, (config, col))) > 0 <==>
            exists script: string :: ListsBug(items, EntryKey(col, config, script))
  {
    hide Counted, Hit, Tally, ListsBug, CellAt, GenuineFails;
    CellAddsUp(items, config, col);
    CellGenuine(items, config, col);
    if n: nat, script: string :| Hit(items, n, EntryKey(col, config, script), Genuine) {
      ListsBugMeaning(items, EntryKey(col, config, script));
    }
    if script: string :| ListsBug(items, EntryKey(col, config, script)) {
      ListsBugMeaning(items, EntryKey(col, config, script));
    }
  }

  lemma {:induction false} CellGenuine(items: seq<Item>, config: string, col: Col)
    ensures Tally(items, Select(config, col, None, Some(Genuine))) > 0 <==>
            exists n: nat, script: string :: Hit(items, n, EntryKey(col, config, script), Genuine)
  {
    hide Counts, KindOf, Bucket;
    if items != [] {
      var n := |items| - 1;
      var before := items[..n];
      CellGenuine(before, config, col);
      CountsPrefix(items, n);
      if m: nat, script: string :| Hit(before, m, EntryKey(col, config, script), Genuine) {
        assert Hit(items, m, EntryKey(col, config, script), Genuine);
      }
      if m: nat, script: string :| Hit(items, m, EntryKey(col, config, script), Genuine) {
        assert m < n ==> Hit(before, m, EntryKey(col, config, script), Genuine);
      }
      if Counts(items, n) && Matches(Select(config, col, None, Some(Genuine)), items[n]) {
        assert Hit(items, n, EntryKey(col, config, items[n].script), Genuine);
      }
    }
  }
}
