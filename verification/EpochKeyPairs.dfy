/** Epoch encryption key pairs: keyed by group, epoch and leaf index in SQLite,
    and by the group followed by the digits of both numbers in memory. */
module EpochKeyPairStores {
  import opened Bytes
  import opened Decimals
  import opened Wrappers
  import opened JsonText
  import opened RowKeys
  import opened Rows

  datatype Slot = Slot(group: GroupId, epoch: nat, leaf: nat)

  function SlotKey(s: Slot): RowKey {
    EpochKeys(s.group, EpochKeyDigits(s.epoch, s.leaf))
  }

  // ------------------------------------------------------ when keys coincide

  /** The number the digits of `epoch` and `leaf` spell when run together. */
  function Spelled(epoch: nat, leaf: nat): nat {
    epoch * Pow10(|Decimal(leaf)|) + leaf
  }

  lemma SpelledValue(epoch: nat, leaf: nat)
    ensures AllDigits(EpochKeyDigits(epoch, leaf))
    ensures Value(EpochKeyDigits(epoch, leaf)) == Spelled(epoch, leaf)
    ensures EpochKeyDigits(epoch, leaf)[0] == Decimal(epoch)[0]
    ensures epoch > 0 ==> Canonical(EpochKeyDigits(epoch, leaf))
  {
    ValueOfConcat(Decimal(epoch), Decimal(leaf));
    ValueOfDecimal(epoch);
    ValueOfDecimal(leaf);
  }

  /** For one leaf index the epoch can be read off the key. */
  lemma OneLeafInjective(e: nat, e': nat, leaf: nat)
    requires EpochKeyDigits(e, leaf) == EpochKeyDigits(e', leaf)
    ensures e == e'
  {
    CancelRight(Decimal(e), Decimal(e'), Decimal(leaf));
    DecimalInjective(e, e');
  }

  /** Two slots of a group share a key exactly if they are the same slot, or
      neither epoch is zero and their digits spell the same number. */
  lemma KeysCoincide(e: nat, leaf: nat, e': nat, leaf': nat)
    ensures EpochKeyDigits(e, leaf) == EpochKeyDigits(e', leaf') <==>
            (e == e' && leaf == leaf') || (e > 0 && e' > 0 && Spelled(e, leaf) == Spelled(e', leaf'))
  {
    var d, d' := EpochKeyDigits(e, leaf), EpochKeyDigits(e', leaf');
    hide EpochKeyDigits, Spelled;
    SpelledValue(e, leaf);
    SpelledValue(e', leaf');
    if e > 0 && e' > 0 {
      if Spelled(e, leaf) == Spelled(e', leaf') {
        DecimalOfValue(d);
        DecimalOfValue(d');
      }
    } else if d == d' {
      assert Decimal(0) == [ZERO];
      assert e == 0 && e' == 0;
      ZeroEpoch(leaf, leaf');
    }
  }

  lemma ZeroEpoch(leaf: nat, leaf': nat)
    requires EpochKeyDigits(0, leaf) == EpochKeyDigits(0, leaf')
    ensures leaf == leaf'
  {
    CancelLeft(Decimal(0), Decimal(leaf), Decimal(leaf'));
    DecimalInjective(leaf, leaf');
  }

  /** Epoch 1 at leaf 23 and epoch 12 at leaf 3 are stored under one key. */
  lemma SharedKeyExample(g: GroupId)
    ensures SlotKey(Slot(g, 1, 23)) == SlotKey(Slot(g, 12, 3))
  {
    assert Decimal(23) == [50, 51] && Decimal(12) == [49, 50];
    assert Decimal(1) == [49] && Decimal(3) == [51];
  }

  // ----------------------------------------------------- runs on both stores

  datatype Op = Store(slot: Slot, pairs: Json) | Delete(slot: Slot)

  type SqlTable = map<Slot, Json>

  /** `openmls_epoch_keys_pairs`, keyed by its three-column primary key. */
  class SqliteEpochKeyPairs {
    var table: SqlTable

    constructor ()
      ensures table == map[]
    {
      table := map[];
    }

    method StorePairs(s: Slot, pairs: Json)
      modifies this
      ensures table == SqlStep(old(table), Store(s, pairs))
    {
      table := table[s := pairs];
    }

    method DeletePairs(s: Slot)
      modifies this
      ensures table == SqlStep(old(table), Delete(s))
    {
      table := table - {s};
    }
  }

  function SqlStep(table: SqlTable, op: Op): SqlTable {
    match op
    case Store(s, pairs) => table[s := pairs]
    case Delete(s) => table - {s}
  }

  function SqlRun(ops: seq<Op>): SqlTable {
    if ops == [] then map[] else SqlStep(SqlRun(ops[..|ops| - 1]), ops[|ops| - 1])
  }

  /** What the memory store's three methods do to its rows. */
  function MemStep(rows: Rows, op: Op): Rows {
    match op
    case Store(s, pairs) => rows[SlotKey(s) := Entity(pairs)]
    case Delete(s) => rows - {SlotKey(s)}
  }

  function MemRun(ops: seq<Op>): Rows {
    if ops == [] then map[] else MemStep(MemRun(ops[..|ops| - 1]), ops[|ops| - 1])
  }

  /** Both getters fall back to the empty list. */
  function SqlRead(table: SqlTable, s: Slot): Json {
    if s in table then table[s] else Arr([])
  }

  function MemRead(rows: Rows, s: Slot): Json {
    match EntityOf(rows, SlotKey(s))
    case Some(pairs) => pairs
    case None => Arr([])
  }

  predicate Within(ops: seq<Op>, slots: iset<Slot>) {
    forall i | 0 <= i < |ops| :: ops[i].slot in slots
  }

  /** Every run on these slots reads the same from both stores. */
  ghost predicate ReadsAgree(slots: iset<Slot>) {
    forall ops: seq<Op>, s: Slot | Within(ops, slots) && s in slots ::
      MemRead(MemRun(ops), s) == SqlRead(SqlRun(ops), s)
  }

  ghost predicate NoSharedKeys(slots: iset<Slot>) {
    forall a: Slot, b: Slot | a in slots && b in slots && SlotKey(a) == SlotKey(b) :: a == b
  }

  lemma {:induction false} RunAgrees(ops: seq<Op>, slots: iset<Slot>, s: Slot)
    requires Within(ops, slots) && s in slots && NoSharedKeys(slots)
    ensures EntityOf(MemRun(ops), SlotKey(s)) == if s in SqlRun(ops) then Some(SqlRun(ops)[s]) else None
  {
    hide SlotKey;
    if ops != [] {
      RunAgrees(ops[..|ops| - 1], slots, s);
      var op := ops[|ops| - 1];
      assert op.slot in slots && (SlotKey(op.slot) == SlotKey(s) ==> op.slot == s);
    }
  }

  /** The stores agree on every run over a set of slots exactly if no two of the
      slots share a memory key. */
  lemma ReadsAgreeExactlyWithoutSharing(slots: iset<Slot>)
    ensures ReadsAgree(slots) <==> NoSharedKeys(slots)
  {
    hide SlotKey;
    if NoSharedKeys(slots) {
      forall ops: seq<Op>, s: Slot | Within(ops, slots) && s in slots
        ensures MemRead(MemRun(ops), s) == SqlRead(SqlRun(ops), s)
      {
        RunAgrees(ops, slots, s);
      }
    } else {
      var a: Slot, b: Slot :| a in slots && b in slots && SlotKey(a) == SlotKey(b) && a != b;
      var ops := [Store(a, Null)];
      assert ops[..0] == [];
      assert MemRead(MemRun(ops), b) == Null && SqlRead(SqlRun(ops), b) == Arr([]);
      assert Within(ops, slots);
    }
  }

  /** A client whose leaf index in a group never changes is on the safe side. */
  lemma FixedLeafAgrees(leafOf: GroupId -> nat)
    ensures ReadsAgree(iset s: Slot | s.leaf == leafOf(s.group))
  {
    var slots := iset s: Slot | s.leaf == leafOf(s.group);
    forall a: Slot, b: Slot | a in slots && b in slots && SlotKey(a) == SlotKey(b)
      ensures a == b
    {
      OneLeafInjective(a.epoch, b.epoch, a.leaf);
    }
    ReadsAgreeExactlyWithoutSharing(slots);
  }
}
