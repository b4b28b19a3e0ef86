/** Runs of every operation that moves the logical position, over tables that may change between calls:
    what a cursor always satisfies, and when the flags it carries are those of the index it walks. */
module CursorRuns {
  import opened Wrappers
  import opened Status
  import opened Bytes
  import opened SqlValues
  import opened Relation
  import opened Schema
  import opened Selected
  import opened Descriptor
  import opened Batches
  import opened Reply
  import opened HandleState
  import opened GetOps
  import opened Walks
  import opened WalkConditions
  import opened GetExt
  import opened DirectOps
  import opened Txn

  /** An operation with what it returned. */
  datatype CursorOp =
    | ToEnd(keyNum: int, dir: int, code: int, row: Option<Row>)
    | ToKey(kf: seq<Option<SqlValue>>, keyNum: int, cmp: Cmp, dir: int, notFound: int, code: int, row: Option<Row>)
    | ToNeighbour(dir: int, code: int, row: Option<Row>)
    | ToBatch(dir: int, buf: seq<byte>, out: seq<Row>, code: int, reply: Option<seq<byte>>)
    | ToDirect(buf: seq<byte>, code: int, row: Option<Row>)
    | ToReset
    | ToAborted

  function ResetCursor(c: Cursor): Cursor {
    c.(keys := [], recnum := None, last := None)
  }

  /** One operation over the table as it is at that moment. */
  ghost predicate CursorStep(meta: TableMeta, rows: set<Row>, c: Cursor, op: CursorOp, c': Cursor) {
    UniqueRecnums(rows) &&
    match op
    case ToEnd(keyNum, dir, code, row) => AtEnd(meta, rows, keyNum, dir, c, code, row, c')
    case ToKey(kf, keyNum, cmp, dir, notFound, code, row) =>
      notFound != BTR_SUCCESS && ByKeyNum(meta, rows, keyNum, kf, cmp, dir, notFound, c, code, row, c')
    case ToNeighbour(dir, code, row) => Adjacent(meta, rows, c, dir, code, row, c')
    case ToBatch(dir, buf, out, code, reply) => ExtendedCall(meta, rows, c, dir, buf, out, code, reply, c')
    case ToDirect(buf, code, row) => Directed(meta, rows, c, buf, code, row, c')
    case ToReset => c' == ResetCursor(c)
    case ToAborted => c' == NoCursor(c)
  }

  /** First, last and by-key reads that found a row. */
  predicate Places(op: CursorOp) {
    (op.ToEnd? || op.ToKey?) && op.code == BTR_SUCCESS
  }

  // ---- what a cursor always satisfies -----------------------------------------------------------------------

  /** Keys fit the index in use; flags, if any, are those of the index in use, and then there is one. */
  predicate KeysFit(meta: TableMeta, c: Cursor) {
    c.keys == [] || |c.keys| == |IndexColRefs(meta, DirectIndex(meta, c))|
  }

  predicate DescFits(meta: TableMeta, c: Cursor) {
    c.desc == [] || (c.index.Some? && c.desc == SegDescs(IndexColRefs(meta, c.index.value)))
  }

  predicate CursorOk(meta: TableMeta, c: Cursor) {
    KeysFit(meta, c) && DescFits(meta, c)
  }

  lemma {:induction false} PlacedOk(meta: TableMeta, idx: nat, dir: int, row: Row)
    ensures CursorOk(meta, PlacedAt(meta, idx, dir, row))
    ensures PlacedAt(meta, idx, dir, row).desc == [] <==> IndexColRefs(meta, idx) == []
  {
    KeptKeysFit(meta, idx, row);
  }

  lemma {:induction false} MovedOk(meta: TableMeta, c: Cursor, idx: nat, dir: int, row: Row)
    requires CursorOk(meta, c) && ActiveIndex(meta, c) == Some(idx)
    ensures CursorOk(meta, MovedTo(meta, c, idx, dir, row))
    ensures ActiveIndex(meta, MovedTo(meta, c, idx, dir, row)) == Some(idx)
    ensures CursorOk(meta, BatchCursor(meta, c, idx, dir, row))
    ensures ActiveIndex(meta, BatchCursor(meta, c, idx, dir, row)) == Some(idx)
  {
    KeptKeysFit(meta, idx, row);
  }

  lemma {:induction false} DirectedOk(meta: TableMeta, c: Cursor, row: Row)
    requires CursorOk(meta, c)
    ensures CursorOk(meta, DirectCursor(meta, c, row))
  {
    KeptKeysFit(meta, DirectIndex(meta, c), row);
  }

  /** Cursors that are fine, walk index `idx` and carry the flags `desc`. */
  function WalkInv(meta: TableMeta, idx: nat, desc: seq<bool>): Cursor -> bool {
    d => CursorOk(meta, d) && ActiveIndex(meta, d) == Some(idx) && d.desc == desc
  }

  lemma {:induction false} BatchOk(meta: TableMeta, rows: set<Row>, c: Cursor, idx: nat, dir: int, g: Gne, cap: nat)
    requires CursorOk(meta, c) && ActiveIndex(meta, c) == Some(idx)
    ensures WalkInv(meta, idx, c.desc)(
              BatchEnd(AheadOf(meta, rows, idx, dir, g.terms), MoveOf(meta, idx, dir), SizeOf(GetRead(meta), g.extracts), cap, MaxRecs(g), c, 2, 0))
  {
    var inv, ahead, move := WalkInv(meta, idx, c.desc), AheadOf(meta, rows, idx, dir, g.terms), MoveOf(meta, idx, dir);
    forall d, r | inv(d) && r in ahead(d)
      ensures inv(move(d, r))
    {
      MovedOk(meta, d, idx, dir, r);
    }
    BatchEndKeeps(inv, ahead, move, SizeOf(GetRead(meta), g.extracts), cap, MaxRecs(g), c, 2, 0);
  }

  lemma {:induction false} ExtendedOk(meta: TableMeta, rows: set<Row>, c: Cursor, dir: int, buf: seq<byte>,
                   out: seq<Row>, code: int, reply: Option<seq<byte>>, c': Cursor)
    requires CursorOk(meta, c) && ExtendedCall(meta, rows, c, dir, buf, out, code, reply, c')
    ensures CursorOk(meta, c') && c'.desc == c.desc
  {
    var g := ReadGne(meta.fields, buf);
    match ActiveIndex(meta, c)
    case None =>
    case Some(idx) =>
      if |buf| >= 8 && g.Some? {
        BatchOk(meta, rows, c, idx, dir, g.value, |buf|);
      }
  }

  /** Every operation keeps a cursor fine. The flags come only from a read that places the cursor, and go
      only with a rollback. */
  lemma {:induction false} StepKeepsCursorOk(meta: TableMeta, rows: set<Row>, c: Cursor, op: CursorOp, c': Cursor)
    requires CursorOk(meta, c) && CursorStep(meta, rows, c, op, c')
    ensures CursorOk(meta, c')
    ensures Places(op) ==> c'.index.Some? && c'.desc == SegDescs(IndexColRefs(meta, c'.index.value))
    ensures op.ToAborted? ==> c'.desc == []
    ensures !Places(op) && !op.ToAborted? ==> c'.desc == c.desc
  {
    match op
    case ToEnd(keyNum, dir, code, row) =>
      if code == BTR_SUCCESS {
        PlacedOk(meta, PickIndex(meta, keyNum, c.index).value.num, dir, row.value);
      }
    case ToKey(kf, keyNum, cmp, dir, notFound, code, row) =>
      if code == BTR_SUCCESS {
        PlacedOk(meta, PickIndex(meta, keyNum, c.index).value.num, dir, row.value);
      }
    case ToNeighbour(dir, code, row) =>
      if code == BTR_SUCCESS {
        MovedOk(meta, c, ActiveIndex(meta, c).value, dir, row.value);
      }
    case ToBatch(dir, buf, out, code, reply) => ExtendedOk(meta, rows, c, dir, buf, out, code, reply, c');
    case ToDirect(buf, code, row) =>
      if code == BTR_SUCCESS {
        DirectedOk(meta, c, row.value);
      }
    case ToReset =>
    case ToAborted =>
  }

  // ---- runs ------------------------------------------------------------------------------------------------------

  /** Operations one after another from a handle just opened, with the table each of them saw. */
  ghost predicate CursorRun(meta: TableMeta, tables: seq<set<Row>>, ops: seq<CursorOp>, cs: seq<Cursor>) {
    && |cs| == |ops| + 1 && |tables| == |ops|
    && cs[0] == Cursor(None, [], [], None, 1, None)
    && forall i :: 0 <= i < |ops| ==> CursorStep(meta, tables[i], cs[i], ops[i], cs[i + 1])
  }

  /** Some read placed the cursor since the last rollback. */
  predicate Established(ops: seq<CursorOp>) {
    ops != [] &&
    var op := ops[|ops| - 1];
    Places(op) || (!op.ToAborted? && Established(ops[..|ops| - 1]))
  }

  lemma {:induction false} RunPrefix(meta: TableMeta, tables: seq<set<Row>>, ops: seq<CursorOp>, cs: seq<Cursor>)
    requires CursorRun(meta, tables, ops, cs) && ops != []
    ensures var n := |ops| - 1;
            CursorRun(meta, tables[..n], ops[..n], cs[..n + 1]) && CursorStep(meta, tables[n], cs[n], ops[n], cs[n + 1])
  {
    var n := |ops| - 1;
    forall i | 0 <= i < n
      ensures CursorStep(meta, tables[..n][i], cs[..n + 1][i], ops[..n][i], cs[..n + 1][i + 1])
    {
      assert CursorStep(meta, tables[i], cs[i], ops[i], cs[i + 1]);
    }
  }

  /** After any run the keys fit the index in use, and the cursor carries that index's flags exactly when
      some read placed it since the last rollback; otherwise it carries none. */
  lemma {:induction false} RunKeepsCursorOk(meta: TableMeta, tables: seq<set<Row>>, ops: seq<CursorOp>, cs: seq<Cursor>)
    requires CursorRun(meta, tables, ops, cs)
    ensures var c := cs[|ops|];
            && CursorOk(meta, c)
            && (Established(ops) ==> c.index.Some? && c.desc == SegDescs(IndexColRefs(meta, c.index.value)))
            && (!Established(ops) ==> c.desc == [])
    decreases |ops|
  {
    if ops != [] {
      var n := |ops| - 1;
      RunPrefix(meta, tables, ops, cs);
      RunKeepsCursorOk(meta, tables[..n], ops[..n], cs[..n + 1]);
      StepKeepsCursorOk(meta, tables[n], cs[n], ops[n], cs[n + 1]);
      if cs[n].index.Some? && !Places(ops[n]) {
        StepKeepsIndex(meta, tables[n], cs[n], ops[n], cs[n + 1]);
      }
    }
  }

  /** An index in use stays in use until a read places the cursor on another. */
  lemma {:induction false} StepKeepsIndex(meta: TableMeta, rows: set<Row>, c: Cursor, op: CursorOp, c': Cursor)
    requires CursorOk(meta, c) && CursorStep(meta, rows, c, op, c') && c.index.Some? && !Places(op)
    ensures c'.index == c.index
  {
    if op.ToBatch? {
      var g := ReadGne(meta.fields, op.buf);
      if |op.buf| >= 8 && g.Some? {
        BatchIndex(meta, rows, c, c.index.value, op.dir, g.value, |op.buf|);
      }
    }
  }

  lemma {:induction false} BatchIndex(meta: TableMeta, rows: set<Row>, c: Cursor, idx: nat, dir: int, g: Gne, cap: nat)
    requires c.index == Some(idx)
    ensures BatchEnd(AheadOf(meta, rows, idx, dir, g.terms), MoveOf(meta, idx, dir), SizeOf(GetRead(meta),
                     g.extracts), cap, MaxRecs(g), c, 2, 0).index
         == Some(idx)
  {
    var inv := (d: Cursor) => d.index == Some(idx);
    var ahead, move := AheadOf(meta, rows, idx, dir, g.terms), MoveOf(meta, idx, dir);
    assert forall d, r :: inv(d) && r in ahead(d) ==> inv(move(d, r));
    BatchEndKeeps(inv, ahead, move, SizeOf(GetRead(meta), g.extracts), cap, MaxRecs(g), c, 2, 0);
  }

  /** After any run, walking the index in use is right exactly when some read placed the cursor since the
      last rollback, or the index is ascending throughout: otherwise the continuation treats descending
      segments as ascending. */
  lemma {:induction false} FlagsRightIff(meta: TableMeta, tables: seq<set<Row>>, ops: seq<CursorOp>, cs: seq<Cursor>, idx: nat)
    requires CursorRun(meta, tables, ops, cs) && ActiveIndex(meta, cs[|ops|]) == Some(idx)
    ensures FlagsAgree(meta, cs[|ops|], idx) <==> Established(ops) || AllAscending(IndexColRefs(meta, idx))
  {
    RunKeepsCursorOk(meta, tables, ops, cs);
    var c, refs := cs[|ops|], IndexColRefs(meta, idx);
    if Established(ops) {
      assert c.desc == SegDescs(refs);
    } else {
      NoFlagsAgreeIff(meta, c, idx);
    }
  }

  lemma {:induction false} NoFlagsAgreeIff(meta: TableMeta, c: Cursor, idx: nat)
    requires c.desc == []
    ensures FlagsAgree(meta, c, idx) <==> AllAscending(IndexColRefs(meta, idx))
  {
  }
}
