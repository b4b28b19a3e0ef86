/** Step Next Extended and Step Previous Extended: one filtered, projected batch in physical order. */
module StepExt {
  import opened Wrappers
  import opened Status
  import opened Bytes
  import opened Relation
  import opened Schema
  import opened Selected
  import opened RecordCodec
  import opened Descriptor
  import opened Batches
  import opened Reply
  import opened HandleState
  import opened StepOps

  /** At most 1024 records a call, 256 when the caller names no limit. */
  function StepMaxRecs(g: Gne): nat {
    if g.maxRecs == 0 then 256 else Min(g.maxRecs, 1024)
  }

  datatype StepReply = StepReply(code: int, out: seq<Row>, reply: Option<seq<byte>>, pos: StepPos)

  /** How many of the rows ahead a call returns. */
  function StepTaken(read: Row -> Read, ahead: seq<Row>, g: Gne, cap: nat): (k: nat)
    ensures k <= |ahead|
  {
    Fitting(read, ahead, g.extracts, cap, StepMaxRecs(g))
  }

  /** What an extended step returns. */
  datatype StepTake = StepTake(code: int, out: seq<Row>, reply: Option<seq<byte>>)

  /** The longest run of the rows ahead that fits. */
  ghost function TakeStep(meta: TableMeta, rows: set<Row>, last: Option<int>, dir: int, buf: seq<byte>): StepTake {
    var g := ReadGne(meta.fields, buf);
    if |buf| < 8 then StepTake(BTR_DATA_TOO_SHORT, [], None)
    else if g.None? then StepTake(STATUS_BAD_DESCRIPTOR, [], None)
    else
      var ahead := StepAhead(meta.recnumCol, rows, last, dir, g.value.terms);
      var k := StepTaken(StepRead(meta), ahead, g.value, |buf|);
      if ahead == [] then StepTake(BTR_EOF, [], None)
      else if k == 0 then StepTake(BTR_DATA_TOO_SHORT, [], None)
      else StepTake(BTR_SUCCESS, ahead[..k], Some(ReplyBytes(RowItems(StepRead(meta), ahead[..k], g.value.extracts))))
  }

  /** One extended step: the position moves onto the last row returned, and the queue is dropped. */
  ghost function ExtendedStep(meta: TableMeta, rows: set<Row>, p: StepPos, dir: int, buf: seq<byte>): StepReply {
    var t := TakeStep(meta, rows, p.last, dir, buf);
    if t.out == [] then StepReply(t.code, [], t.reply, p)
    else
      var last := Some(SeenRecnum(meta, t.out[|t.out| - 1]));
      StepReply(t.code, t.out, t.reply, StepPos(last, dir, [], p.cacheDir, last))
  }

  /** What it returns when the descriptor can be read. */
  lemma {:induction false} TakenOf(meta: TableMeta, rows: set<Row>, last: Option<int>, dir: int, buf: seq<byte>, g: Gne, ahead: seq<Row>, k: nat)
    requires |buf| >= 8 && ReadGne(meta.fields, buf) == Some(g)
    requires ahead == StepAhead(meta.recnumCol, rows, last, dir, g.terms) && k == StepTaken(StepRead(meta), ahead, g, |buf|)
    ensures TakeStep(meta, rows, last, dir, buf)
         == if ahead == [] then StepTake(BTR_EOF, [], None)
            else if k == 0 then StepTake(BTR_DATA_TOO_SHORT, [], None)
            else StepTake(BTR_SUCCESS, ahead[..k], Some(ReplyBytes(RowItems(StepRead(meta), ahead[..k], g.extracts))))
  {
  }

  lemma {:induction false} OneMoreItem(read: Row -> Read, taken: seq<Row>, row: Row, es: seq<Extract>, out: seq<byte>, item: seq<byte>)
    requires out == [0, 0] + ItemsBytes(RowItems(read, taken, es)) && item == ItemBytes(RowItem(read, row, es))
    ensures out + item == [0, 0] + ItemsBytes(RowItems(read, taken + [row], es))
  {
    RowItemsAppend(read, taken, row, es);
    ItemsBytesAppend(RowItems(read, taken, es), RowItem(read, row, es));
    Regroup([0, 0], ItemsBytes(RowItems(read, taken, es)), item);
  }

  /** Whether the next record fits, and the reply with it. */
  method AppendRecord(read: Row -> Read, out: seq<byte>, row: Row, es: seq<Extract>, cap: nat, ghost taken: seq<Row>)
    returns (fits: bool, out': seq<byte>)
    requires out == [0, 0] + ItemsBytes(RowItems(read, taken, es))
    ensures fits <==> |out| + RowSize(read, row, es) <= cap
    ensures !fits ==> out' == out
    ensures fits ==> |out'| == |out| + RowSize(read, row, es) && out' == [0, 0] + ItemsBytes(RowItems(read, taken + [row], es))
  {
    var proj := Project(read(row).record, es);
    if |out| + 6 + |proj| > cap {
      return false, out;
    }
    var item := ItemBytes(Item(read(row).recnum, proj));
    OneMoreItem(read, taken, row, es, out, item);
    fits, out' := true, out + item;
  }

  /** The record number of the last row taken. */
  function LastOf(read: Row -> Read, taken: seq<Row>, from: Option<int>): Option<int> {
    if taken == [] then from else Some(read(taken[|taken| - 1]).recnum)
  }

  lemma {:induction false} LastAppended(read: Row -> Read, taken: seq<Row>, row: Row, from: Option<int>)
    ensures LastOf(read, taken + [row], from) == Some(read(row).recnum)
  {
    assert (taken + [row])[|taken|] == row;
  }

  lemma {:induction false} LastOfPrefix(read: Row -> Read, rows: seq<Row>, n: nat, from: Option<int>)
    requires 0 < n <= |rows|
    ensures LastOf(read, rows[..n], from) == Some(read(rows[n - 1]).recnum)
  {
    assert rows[..n][n - 1] == rows[n - 1];
  }

  /** `k` more records fit after the first `i`, out of `whole`. */
  ghost predicate StillFitting(sizes: seq<nat>, i: nat, cap: nat, used: nat, whole: nat)
    requires i <= |sizes|
  {
    whole == i + FittingFrom(sizes, i, cap, used, |sizes| - i)
  }

  lemma {:induction false} FittingStep(sizes: seq<nat>, i: nat, cap: nat, used: nat, size: nat, whole: nat)
    requires i < |sizes| && size == sizes[i] && StillFitting(sizes, i, cap, used, whole)
    ensures if used + size > cap then whole == i else StillFitting(sizes, i + 1, cap, used + size, whole)
  {
  }

  /** The rows taken are in the reply, and the sizes of the others decide how many more will be. */
  ghost predicate Written(read: Row -> Read, taken: seq<Row>, es: seq<Extract>, cap: nat, from: Option<int>, sizes: seq<nat>,
                          whole: nat, out: seq<byte>, last: Option<int>) {
    && |taken| <= |sizes|
    && out == [0, 0] + ItemsBytes(RowItems(read, taken, es))
    && last == LastOf(read, taken, from)
    && StillFitting(sizes, |taken|, cap, |out|, whole)
  }

  lemma {:induction false} OneMoreWritten(read: Row -> Read, taken: seq<Row>, row: Row, es: seq<Extract>, cap: nat, from: Option<int>,
                                          sizes: seq<nat>, whole: nat, out: seq<byte>, last: Option<int>, out': seq<byte>)
    requires Written(read, taken, es, cap, from, sizes, whole, out, last)
    requires |taken| < |sizes| && sizes[|taken|] == RowSize(read, row, es)
    requires |out'| == |out| + RowSize(read, row, es) <= cap
    requires out' == [0, 0] + ItemsBytes(RowItems(read, taken + [row], es))
    ensures Written(read, taken + [row], es, cap, from, sizes, whole, out', Some(read(row).recnum))
  {
    LastAppended(read, taken, row, from);
    FittingStep(sizes, |taken|, cap, |out|, sizes[|taken|], whole);
  }

  /** Write the next record if it fits. */
  method WriteOne(read: Row -> Read, row: Row, es: seq<Extract>, cap: nat, from: Option<int>, ghost sizes: seq<nat>, ghost whole: nat,
                  ghost taken: seq<Row>, out: seq<byte>, last: Option<int>)
    returns (fits: bool, out': seq<byte>, last': Option<int>)
    requires Written(read, taken, es, cap, from, sizes, whole, out, last)
    requires |taken| < |sizes| && sizes[|taken|] == RowSize(read, row, es)
    ensures if fits then Written(read, taken + [row], es, cap, from, sizes, whole, out', last')
            else whole == |taken| && out' == out && last' == last
  {
    fits, out' := AppendRecord(read, out, row, es, cap, taken);
    if fits {
      last' := Some(read(row).recnum);
      OneMoreWritten(read, taken, row, es, cap, from, sizes, whole, out, last, out');
    } else {
      last' := last;
      FittingStep(sizes, |taken|, cap, |out|, sizes[|taken|], whole);
    }
  }

  /** Filling the reply from a fetched batch, the count left open until the end. */
  method WriteBatch(read: Row -> Read, batch: seq<Row>, es: seq<Extract>, cap: nat, from: Option<int>, ghost sizes: seq<nat>)
    returns (out: seq<byte>, n: nat, last: Option<int>)
    requires |sizes| == |batch| && forall i :: 0 <= i < |batch| ==> sizes[i] == RowSize(read, batch[i], es)
    ensures n == FittingFrom(sizes, 0, cap, 2, |batch|) && n <= |batch|
    ensures out == [0, 0] + ItemsBytes(RowItems(read, batch[..n], es)) && last == LastOf(read, batch[..n], from)
  {
    out, n, last := [0, 0], 0, from;
    ghost var whole := FittingFrom(sizes, 0, cap, 2, |batch|);
    while n < |batch|
      invariant n <= |batch| && Written(read, batch[..n], es, cap, from, sizes, whole, out, last)
      decreases |batch| - n
    {
      var fits;
      fits, out, last := WriteOne(read, batch[n], es, cap, from, sizes, whole, batch[..n], out, last);
      if !fits {
        return;
      }
      assert batch[..n] + [batch[n]] == batch[..n + 1];
      n := n + 1;
    }
  }

  lemma {:induction false} CountInFront(out: seq<byte>, n: nat, items: seq<Item>)
    requires out == [0, 0] + ItemsBytes(items) && |items| == n
    ensures LeBytes(n, 2) + out[2..] == ReplyBytes(items)
  {
  }

  lemma {:induction false} PrefixTaken(read: Row -> Read, ahead: seq<Row>, batch: seq<Row>, g: Gne, cap: nat, n: nat)
    requires batch == ahead[..Min(StepMaxRecs(g), |ahead|)]
    requires n == FittingFrom(Sizes(batch, SizeOf(read, g.extracts)), 0, cap, 2, |batch|)
    ensures n == StepTaken(read, ahead, g, cap) && batch[..n] == ahead[..n]
  {
    FittingOfPrefix(Sizes(ahead, SizeOf(read, g.extracts)), Sizes(batch, SizeOf(read, g.extracts)), 0, cap, 2, StepMaxRecs(g));
  }

  /** Write what fits of a batch, which holds the first of the rows ahead. */
  method FillFrom(read: Row -> Read, batch: seq<Row>, ghost ahead: seq<Row>, g: Gne, cap: nat, from: Option<int>)
    returns (n: nat, out: seq<byte>, last: Option<int>)
    requires batch == ahead[..Min(StepMaxRecs(g), |ahead|)]
    ensures n == StepTaken(read, ahead, g, cap)
    ensures n > 0 ==> out == ReplyBytes(RowItems(read, ahead[..n], g.extracts)) && last == Some(read(ahead[n - 1]).recnum)
  {
    out, n, last := WriteBatch(read, batch, g.extracts, cap, from, Sizes(batch, SizeOf(read, g.extracts)));
    assert n == StepTaken(read, ahead, g, cap) && batch[..n] == ahead[..n] by {
      PrefixTaken(read, ahead, batch, g, cap, n);
    }
    if n > 0 {
      LastOfPrefix(read, ahead, n, from);
      CountInFront(out, n, RowItems(read, ahead[..n], g.extracts));
      out := LeBytes(n, 2) + out[2..];
    }
  }

  /** Fetch a batch and write what fits of it; `n` counts the records written, `none` says that there
      was nothing to fetch. */
  method FillReply(meta: TableMeta, db: Backend, g: Gne, cap: nat, from: Option<int>, dir: int)
    returns (none: bool, n: nat, out: seq<byte>, last: Option<int>)
    requires UniqueRecnums(db.rows)
    ensures var ahead := StepAhead(db.recnumCol, db.rows, from, dir, g.terms);
            && (none <==> ahead == [])
            && n == StepTaken(StepRead(meta), ahead, g, cap)
            && (n > 0 ==> out == ReplyBytes(RowItems(StepRead(meta), ahead[..n], g.extracts)) && last == Some(SeenRecnum(meta, ahead[n - 1])))
  {
    var max := if g.maxRecs == 0 then 256 else Min(g.maxRecs, 1024);
    var batch := FetchStepBatch(db, from, dir, max, g.terms);
    if batch == [] {
      return true, 0, [], from;
    }
    none := false;
    n, out, last := FillFrom(StepRead(meta), batch, StepAhead(db.recnumCol, db.rows, from, dir, g.terms), g, cap, from);
  }

  /** `buf` is the caller's buffer: the descriptor going in, its length the capacity for the reply. */
  method ReadStep(meta: TableMeta, db: Backend, buf: seq<byte>, from: Option<int>, dir: int)
    returns (code: int, reply: Option<seq<byte>>, last: Option<int>, ghost rows: seq<Row>)
    requires db.recnumCol == meta.recnumCol && UniqueRecnums(db.rows) && NoFloats(meta.fields)
    ensures TakeStep(meta, db.rows, from, dir, buf) == StepTake(code, rows, reply)
    ensures code == BTR_SUCCESS <==> rows != []
    ensures rows != [] ==> last == Some(SeenRecnum(meta, rows[|rows| - 1]))
  {
    reply, last, rows := None, from, [];
    if |buf| < 8 {
      return BTR_DATA_TOO_SHORT, None, from, [];
    }
    var parsed := ParseGne(meta.fields, buf);
    if parsed.None? {
      return STATUS_BAD_DESCRIPTOR, None, from, [];
    }
    var g := parsed.value;
    ghost var ahead := StepAhead(meta.recnumCol, db.rows, from, dir, g.terms);
    var none, n, out;
    none, n, out, last := FillReply(meta, db, g, |buf|, from, dir);
    TakenOf(meta, db.rows, from, dir, buf, g, ahead, n);
    if none {
      return BTR_EOF, None, last, [];
    }
    if n == 0 {
      return BTR_DATA_TOO_SHORT, None, last, [];
    }
    rows := ahead[..n];
    assert rows[n - 1] == ahead[n - 1];
    code, reply := BTR_SUCCESS, Some(out);
  }

  method RunStepExtended(h: HandleEntry, db: Backend, buf: seq<byte>, dir: int)
    returns (code: int, reply: Option<seq<byte>>, ghost rows: seq<Row>)
    requires db.recnumCol == h.meta.recnumCol && UniqueRecnums(db.rows) && NoFloats(h.meta.fields)
    modifies h`stepLastRecnum, h`lastRecnum, h`stepDir, h`stepCache
    ensures var r := ExtendedStep(h.meta, db.rows, old(h.StepPosition()), dir, buf);
            code == r.code && rows == r.out && reply == r.reply && h.StepPosition() == r.pos
    ensures h.GetCursor() == old(h.GetCursor()).(last := h.lastRecnum)
  {
    var last;
    ghost var p := h.StepPosition();
    code, reply, last, rows := ReadStep(h.meta, db, buf, h.stepLastRecnum, dir);
    assert ExtendedStep(h.meta, db.rows, p, dir, buf)
        == StepReply(code, rows, reply, if rows == [] then p else StepPos(last, dir, [], p.cacheDir, last));
    if code == BTR_SUCCESS {
      h.stepLastRecnum := last;
      h.lastRecnum := last;
      h.stepDir := dir;
      h.stepCache := [];
    }
  }

  /** Fetching no more than the limit does not change how many fit. */
  lemma {:induction false} FittingOfPrefix(sizes: seq<nat>, prefix: seq<nat>, i: nat, cap: nat, used: nat, max: nat)
    requires i <= max && i <= |prefix| == Min(max, |sizes|) && prefix == sizes[..|prefix|]
    ensures FittingFrom(prefix, i, cap, used, |prefix| - i) == FittingFrom(sizes, i, cap, used, max - i)
    decreases |prefix| - i
  {
    if i < |prefix| && used + sizes[i] <= cap {
      FittingOfPrefix(sizes, prefix, i + 1, cap, used + sizes[i], max);
    }
  }
}
