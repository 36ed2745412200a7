/** The flat byte map as a map from rows to values, over whole runs. */
module FlatMap {
  import opened Bytes
  import opened Wrappers
  import opened RowKeys
  import opened Rows

  datatype RowOp = Put(row: RowKey, val: RowVal) | Drop(row: RowKey)

  /** The byte map after a run of single-row writes and deletes. */
  function FlatRun(ops: seq<RowOp>): map<bytes, bytes> {
    if ops == [] then map[]
    else
      var before := FlatRun(ops[..|ops| - 1]);
      match ops[|ops| - 1]
      case Put(r, v) => before[KeyBytes(r) := ValBytes(v)]
      case Drop(r) => before - {KeyBytes(r)}
  }

  function RowRun(ops: seq<RowOp>): Rows {
    if ops == [] then map[]
    else
      var before := RowRun(ops[..|ops| - 1]);
      match ops[|ops| - 1]
      case Put(r, v) => before[r := v]
      case Drop(r) => before - {r}
  }

  lemma {:induction false} FlatRunRepresents(ops: seq<RowOp>)
    ensures Represents(FlatRun(ops), RowRun(ops))
  {
    hide KeyBytes, ValBytes;
    if ops != [] {
      var before := ops[..|ops| - 1];
      FlatRunRepresents(before);
      match ops[|ops| - 1]
      case Put(r, v) => PutRow(FlatRun(before), RowRun(before), r, v);
      case Drop(r) => DropRow(FlatRun(before), RowRun(before), r);
    }
  }

  /** The last operation on exactly row `r`, if it was a write. */
  function LastWrite(ops: seq<RowOp>, r: RowKey): Option<RowVal> {
    if ops == [] then None
    else
      var op := ops[|ops| - 1];
      if op.row != r then LastWrite(ops[..|ops| - 1], r)
      else if op.Put? then Some(op.val)
      else None
  }

  lemma {:induction false} RowRunHoldsLastWrite(ops: seq<RowOp>, r: RowKey)
    ensures match LastWrite(ops, r)
            case Some(v) => r in RowRun(ops) && RowRun(ops)[r] == v
            case None => r !in RowRun(ops)
  {
    if ops != [] {
      RowRunHoldsLastWrite(ops[..|ops| - 1], r);
    }
  }

  /** Over any run a byte lookup returns what was last written to exactly that
      row and not deleted since, whatever happened to all other rows. */
  lemma FlatReadIsLastWrite(ops: seq<RowOp>, r: RowKey)
    ensures match LastWrite(ops, r)
            case Some(v) => KeyBytes(r) in FlatRun(ops) && FlatRun(ops)[KeyBytes(r)] == ValBytes(v)
            case None => KeyBytes(r) !in FlatRun(ops)
  {
    hide KeyBytes, ValBytes;
    FlatRunRepresents(ops);
    RowRunHoldsLastWrite(ops, r);
    GetRow(FlatRun(ops), RowRun(ops), r);
  }
}
