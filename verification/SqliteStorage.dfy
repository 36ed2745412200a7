/** The virtual-client tables of the SQLite provider. Each table is a map from
    its unique key, the columns of its `ON CONFLICT` clause. */
module SqliteStore {
  import opened Wrappers
  import opened JsonText
  import opened RowKeys
  import opened Rows
  import opened Bags
  import opened VirtualClientOps

  datatype Db = Db(
    states: map<Json, Json>,
    trees: map<Json, Json>,
    bindings: map<(GroupId, nat), (Json, Json)>,
    log: map<(GroupId, Json), Json>,
    materials: map<Json, (Json, Json)>,
    keyPackages: map<Json, Json>)

  const EMPTY_DB: Db := Db(map[], map[], map[], map[], map[], map[])

  /** The three `NOT EXISTS` subqueries of the sweep, negated. */
  predicate DbReferenced(db: Db, e: Json) {
    || (exists k | k in db.log :: k.1 == e)
    || (exists k | k in db.bindings :: db.bindings[k].0 == e)
    || (exists k | k in db.materials :: db.materials[k].0 == e)
  }

  /** The rows of the sweep's `SELECT DISTINCT`. */
  function DbUnreferenced(db: Db): set<Json> {
    set e | e in db.states.Keys + db.trees.Keys && !DbReferenced(db, e)
  }

  function StoreMaterials(m: map<Json, (Json, Json)>, e: Json, ms: seq<(Json, Json)>): map<Json, (Json, Json)> {
    if ms == [] then m
    else
      var (k, record) := ms[|ms| - 1];
      StoreMaterials(m, e, ms[..|ms| - 1])[k := (e, record)]
  }

  function BindingCols(g: GroupId, ns: seq<nat>): set<(GroupId, nat)> {
    set n | n in ns :: (g, n)
  }

  function LogCols(g: GroupId, es: seq<Json>): set<(GroupId, Json)> {
    set e | e in es :: (g, e)
  }

  function DbStep(db: Db, op: Op): Db {
    match op
    case WriteState(e, s) => db.(states := db.states[e := s])
    case WriteTree(e, t) => db.(trees := db.trees[e := t])
    case WriteBinding(g, n, e, b) => db.(bindings := db.bindings[(g, n) := (e, b)])
    case WriteLogEntry(g, e, x) => db.(log := db.log[(g, e) := x])
    case WriteMaterialBatch(e, t, ms) =>
      db.(trees := db.trees[e := t], materials := StoreMaterials(db.materials, e, ms))
    case WriteKeyPackage(k, p) => db.(keyPackages := db.keyPackages[k := p])
    case DeleteBindings(g, ns) => db.(bindings := db.bindings - BindingCols(g, ns))
    case DeleteAllBindings(g) => db.(bindings := map k | k in db.bindings && k.0 != g :: db.bindings[k])
    case DeleteLogEntries(g, es) => db.(log := db.log - LogCols(g, es))
    case DeleteLog(g) => db.(log := map k | k in db.log && k.0 != g :: db.log[k])
    case DeleteMaterial(k) => db.(materials := db.materials - {k})
    case DeleteKeyPackage(k) => db.(materials := db.materials - {k}, keyPackages := db.keyPackages - {k})
    case Sweep => db.(states := db.states - DbUnreferenced(db), trees := db.trees - DbUnreferenced(db))
  }

  function DbRun(ops: seq<Op>): Db {
    if ops == [] then EMPTY_DB else DbStep(DbRun(ops[..|ops| - 1]), ops[|ops| - 1])
  }

  /** The bindings a `SELECT ... WHERE group_id = g` returns. */
  function SelectBindings(db: Db, g: GroupId): map<(GroupId, nat), Json> {
    map k | k in db.bindings && k.0 == g :: db.bindings[k].1
  }

  function SelectLog(db: Db, g: GroupId): map<(GroupId, Json), Json> {
    map k | k in db.log && k.0 == g :: db.log[k]
  }

  class SqliteStorage {
    var states: map<Json, Json>
    var trees: map<Json, Json>
    var bindings: map<(GroupId, nat), (Json, Json)>
    var log: map<(GroupId, Json), Json>
    var materials: map<Json, (Json, Json)>
    var keyPackages: map<Json, Json>

    ghost function Tables(): Db
      reads this
    {
      Db(states, trees, bindings, log, materials, keyPackages)
    }

    constructor ()
      ensures Tables() == EMPTY_DB
    {
      states, trees, bindings, log, materials, keyPackages := map[], map[], map[], map[], map[], map[];
    }

    /** The tree and then each material, one upsert at a time. */
    method StoreMaterialBatch(epoch: Json, tree: Json, ms: seq<(Json, Json)>)
      modifies this
      ensures Tables() == DbStep(old(Tables()), WriteMaterialBatch(epoch, tree, ms))
    {
      trees := trees[epoch := tree];
      for i := 0 to |ms|
        invariant Tables()
                  == old(Tables()).(trees := trees, materials := StoreMaterials(old(materials), epoch, ms[..i]))
        invariant trees == old(trees)[epoch := tree]
      {
        var (k, record) := ms[i];
        materials := materials[k := (epoch, record)];
        assert ms[..i + 1][..i] == ms[..i];
      }
      assert ms[..|ms|] == ms;
    }

    method DeleteBindingRows(g: GroupId, ns: seq<nat>)
      modifies this
      ensures Tables() == DbStep(old(Tables()), DeleteBindings(g, ns))
    {
      for i := 0 to |ns|
        invariant Tables() == old(Tables()).(bindings := old(bindings) - BindingCols(g, ns[..i]))
      {
        bindings := bindings - {(g, ns[i])};
        assert BindingCols(g, ns[..i + 1]) == BindingCols(g, ns[..i]) + {(g, ns[i])};
      }
      assert ns[..|ns|] == ns;
    }

    method DeleteLogRows(g: GroupId, es: seq<Json>)
      modifies this
      ensures Tables() == DbStep(old(Tables()), DeleteLogEntries(g, es))
    {
      for i := 0 to |es|
        invariant Tables() == old(Tables()).(log := old(log) - LogCols(g, es[..i]))
      {
        log := log - {(g, es[i])};
        assert LogCols(g, es[..i + 1]) == LogCols(g, es[..i]) + {(g, es[i])};
      }
      assert es[..|es|] == es;
    }

    /** The sweep's query: distinct ids, in whatever order the database likes. */
    method SelectUnreferenced() returns (ids: seq<Json>)
      ensures Distinct(ids) && Elements(ids) == DbUnreferenced(Tables())
    {
      var db := Db(states, trees, bindings, log, materials, keyPackages);
      var todo := DbUnreferenced(db);
      ids := [];
      while todo != {}
        invariant Distinct(ids) && Elements(ids) == DbUnreferenced(db) - todo && todo <= DbUnreferenced(db)
        decreases todo
      {
        var e :| e in todo;
        assert e !in Elements(ids);
        assert Elements(ids + [e]) == Elements(ids) + {e};
        todo := todo - {e};
        ids := ids + [e];
      }
    }

    /** The query first, then one pair of deletes per id. */
    method SweepTables() returns (deleted: seq<Json>)
      modifies this
      ensures Tables() == DbStep(old(Tables()), Sweep)
      ensures Distinct(deleted) && Elements(deleted) == DbUnreferenced(old(Tables()))
    {
      var unreferenced := SelectUnreferenced();
      deleted := [];
      for i := 0 to |unreferenced|
        invariant deleted == unreferenced[..i]
        invariant Tables()
                  == old(Tables()).(states := old(states) - Elements(deleted), trees := old(trees) - Elements(deleted))
      {
        assert Elements(unreferenced[..i + 1]) == Elements(unreferenced[..i]) + {unreferenced[i]};
        states := states - {unreferenced[i]};
        trees := trees - {unreferenced[i]};
        deleted := deleted + [unreferenced[i]];
      }
      assert unreferenced[..|unreferenced|] == unreferenced;
    }

    method LoadState(epoch: Json) returns (r: Option<Json>)
      ensures r == if epoch in states then Some(states[epoch]) else None
    {
      r := if epoch in states then Some(states[epoch]) else None;
    }

    method LoadTree(epoch: Json) returns (r: Option<Json>)
      ensures r == if epoch in trees then Some(trees[epoch]) else None
    {
      r := if epoch in trees then Some(trees[epoch]) else None;
    }

    method LoadMaterial(keyPackage: Json) returns (r: Option<Json>)
      ensures r == if keyPackage in materials then Some(materials[keyPackage].1) else None
    {
      r := if keyPackage in materials then Some(materials[keyPackage].1) else None;
    }

    method LoadBinding(g: GroupId, groupEpoch: nat) returns (r: Option<Json>)
      ensures r == if (g, groupEpoch) in bindings then Some(bindings[(g, groupEpoch)].1) else None
    {
      r := if (g, groupEpoch) in bindings then Some(bindings[(g, groupEpoch)].1) else None;
    }

    method LoadBindings(g: GroupId) returns (out: seq<Json>)
      ensures multiset(out) == Bag(SelectBindings(Tables(), g))
    {
      out := ListValues(SelectBindings(Db(states, trees, bindings, log, materials, keyPackages), g));
    }

    method LoadLogEntries(g: GroupId) returns (out: seq<Json>)
      ensures multiset(out) == Bag(SelectLog(Tables(), g))
    {
      out := ListValues(SelectLog(Db(states, trees, bindings, log, materials, keyPackages), g));
    }

    /** One call of the storage interface. */
    method Apply(op: Op) returns (swept: seq<Json>)
      modifies this
      ensures Tables() == DbStep(old(Tables()), op)
      ensures op.Sweep? ==> Distinct(swept) && Elements(swept) == DbUnreferenced(old(Tables()))
    {
      swept := [];
      match op
      case WriteState(e, s) => states := states[e := s];
      case WriteTree(e, t) => trees := trees[e := t];
      case WriteBinding(g, n, e, b) => bindings := bindings[(g, n) := (e, b)];
      case WriteLogEntry(g, e, x) => log := log[(g, e) := x];
      case WriteMaterialBatch(e, t, ms) => StoreMaterialBatch(e, t, ms);
      case WriteKeyPackage(k, p) => keyPackages := keyPackages[k := p];
      case DeleteBindings(g, ns) => DeleteBindingRows(g, ns);
      case DeleteAllBindings(g) => bindings := map k | k in bindings && k.0 != g :: bindings[k];
      case DeleteLogEntries(g, es) => DeleteLogRows(g, es);
      case DeleteLog(g) => log := map k | k in log && k.0 != g :: log[k];
      case DeleteMaterial(k) => materials := materials - {k};
      case DeleteKeyPackage(k) =>
        materials := materials - {k};
        keyPackages := keyPackages - {k};
      case Sweep => swept := SweepTables();
    }
  }
}
