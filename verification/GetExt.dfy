/** Get Next Extended and Get Previous Extended: a filtered, projected batch of an index walk, cut to
    the caller's buffer. */
module GetExt {
  import opened Wrappers
  import opened Status
  import opened Bytes
  import opened Relation
  import opened Schema
  import opened Selected
  import opened RecordCodec
  import opened Keyset
  import opened Descriptor
  import opened Batches
  import opened Reply
  import opened HandleState
  import opened GetOps
  import opened Walks

  /** A record limit of 0 means no limit but that of the 16-bit count. */
  function MaxRecs(g: Gne): nat {
    if g.maxRecs == 0 then 0xFFFF else g.maxRecs
  }

  /** The cursor once a batch ending in `row` was returned. */
  function BatchCursor(meta: TableMeta, c: Cursor, idx: nat, dir: int, row: Row): Cursor {
    MovedTo(meta, c, idx, dir, row).(index := Some(idx))
  }

  /** The status of a call with nothing to return. */
  function Done(terms: seq<Term>): int {
    if terms != [] then STATUS_FILTER_EXHAUSTED else BTR_EOF
  }

  /** One extended call in closed form: it returns the longest run of the rows ahead that fits. */
  ghost predicate FittingCall(meta: TableMeta, rows: set<Row>, c: Cursor, dir: int, buf: seq<byte>,
                               out: seq<Row>, code: int, reply: Option<seq<byte>>, c': Cursor) {
    var cap := |buf|;
    var g := ReadGne(meta.fields, buf);
    if cap < 8 then Refused(BTR_DATA_TOO_SHORT, c, out, code, reply, c')
    else if g.None? then Refused(STATUS_BAD_DESCRIPTOR, c, out, code, reply, c')
    else
      var done := Done(g.value.terms);
      match ActiveIndex(meta, c)
      case None => Refused(done, c, out, code, reply, c')
      case Some(idx) =>
        var ahead := Ahead(meta, rows, c, idx, dir, g.value.terms);
        var k := Fitting(GetRead(meta), ahead, g.value.extracts, cap, MaxRecs(g.value));
        if NoColumns(meta) then Refused(BTR_UNSUPPORTED_OP, c, out, code, reply, c')
        else if ahead == [] then Refused(done, c, out, code, reply, c')
        else if k == 0 then Refused(BTR_DATA_TOO_SHORT, c, out, code, reply, c')
        else
          && code == BTR_SUCCESS && out == ahead[..k]
          && reply == Some(ReplyBytes(RowItems(GetRead(meta), out, g.value.extracts)))
          && c' == BatchCursor(meta, c, idx, dir, ahead[k - 1])
  }

  /** A call that returns nothing leaves the position where it was. */
  predicate Refused(status: int, c: Cursor, out: seq<Row>, code: int, reply: Option<seq<byte>>, c': Cursor) {
    code == status && out == [] && reply == None && c' == c
  }

  // ---- the driver ----------------------------------------------------------------------------------

  /** Can the handle's cursor walk the active index over these rows? */
  ghost predicate Walkable(meta: TableMeta, rows: set<Row>, c: Cursor) {
    match ActiveIndex(meta, c)
    case None => true
    case Some(idx) => RowsOk(meta, rows, idx) && CanWalk(meta, c, idx)
  }

  // ---- batches of an index walk ------------------------------------------------------------------------

  ghost function AheadOf(meta: TableMeta, rows: set<Row>, idx: nat, dir: int, terms: seq<Term>): Cursor -> seq<Row> {
    c => Ahead(meta, rows, c, idx, dir, terms)
  }

  function MoveOf(meta: TableMeta, idx: nat, dir: int): (Cursor, Row) -> Cursor {
    (c, row) => BatchCursor(meta, c, idx, dir, row)
  }

  /** A cursor moved twice stands where the second move put it. */
  lemma {:induction false} BatchCursorTwice(meta: TableMeta, c: Cursor, idx: nat, dir: int, a: Row, b: Row)
    ensures BatchCursor(meta, BatchCursor(meta, c, idx, dir, a), idx, dir, b) == BatchCursor(meta, c, idx, dir, b)
  {
  }

  lemma {:induction false} BatchKeepsWalking(meta: TableMeta, rows: set<Row>, c: Cursor, idx: nat, dir: int, terms: seq<Term>,
                          all: seq<Row>, i: nat)
    requires RowsOk(meta, rows, idx) && CanWalk(meta, c, idx)
    requires i < |all| && Ahead(meta, rows, c, idx, dir, terms) == all[i..]
    ensures var c1 := BatchCursor(meta, c, idx, dir, all[i]);
            CanWalk(meta, c1, idx) && Ahead(meta, rows, c1, idx, dir, terms) == all[i + 1..]
  {
    var ahead := Ahead(meta, rows, c, idx, dir, terms);
    AheadShrinks(meta, rows, c, idx, dir, terms, BatchCursor(meta, c, idx, dir, ahead[0]));
    assert ahead[0] == all[i] && ahead[1..] == all[i + 1..];
  }

  /** The cursor after the first `k` of the rows ahead. */
  function CursorAfter(meta: TableMeta, c: Cursor, idx: nat, dir: int, all: seq<Row>, k: nat): Cursor
    requires k <= |all|
  {
    if k == 0 then c else BatchCursor(meta, c, idx, dir, all[k - 1])
  }

  lemma {:induction false} CursorAfterWalks(meta: TableMeta, rows: set<Row>, c: Cursor, idx: nat, dir: int,
                                            terms: seq<Term>, all: seq<Row>, k: nat)
    requires RowsOk(meta, rows, idx) && CanWalk(meta, c, idx)
    requires k <= |all| && Ahead(meta, rows, c, idx, dir, terms) == all
    ensures CanWalk(meta, CursorAfter(meta, c, idx, dir, all, k), idx)
    ensures Ahead(meta, rows, CursorAfter(meta, c, idx, dir, all, k), idx, dir, terms) == all[k..]
  {
    if k == 0 {
      assert all[0..] == all;
    } else {
      var before := CursorAfter(meta, c, idx, dir, all, k - 1);
      CursorAfterWalks(meta, rows, c, idx, dir, terms, all, k - 1);
      BatchKeepsWalking(meta, rows, before, idx, dir, terms, all, k - 1);
      if k > 1 {
        BatchCursorTwice(meta, c, idx, dir, all[k - 2], all[k - 1]);
      }
    }
  }

  /** Where the cursor can walk, the rows ahead are visited one after another. */
  lemma {:induction false} WalkIsChain(meta: TableMeta, rows: set<Row>, c: Cursor, idx: nat, dir: int,
                                       terms: seq<Term>, all: seq<Row>, cs: seq<Cursor>)
    requires RowsOk(meta, rows, idx) && CanWalk(meta, c, idx) && Ahead(meta, rows, c, idx, dir, terms) == all
    requires |cs| == |all| + 1 && forall k :: 0 <= k <= |all| ==> cs[k] == CursorAfter(meta, c, idx, dir, all, k)
    ensures Chain(AheadOf(meta, rows, idx, dir, terms), MoveOf(meta, idx, dir), all, cs)
  {
    forall k | 0 <= k <= |all|
      ensures AheadOf(meta, rows, idx, dir, terms)(cs[k]) == all[k..]
    {
      CursorAfterWalks(meta, rows, c, idx, dir, terms, all, k);
    }
    forall k | 0 <= k < |all|
      ensures cs[k + 1] == MoveOf(meta, idx, dir)(cs[k], all[k])
    {
      if k > 0 {
        BatchCursorTwice(meta, c, idx, dir, all[k - 1], all[k]);
      }
    }
  }

  /** Where the cursor can walk, a call's batch is what fits of the rows ahead. */
  lemma {:induction false} BatchOfWalk(meta: TableMeta, rows: set<Row>, c: Cursor, idx: nat, dir: int, g: Gne, cap: nat, all: seq<Row>, k: nat)
    requires RowsOk(meta, rows, idx) && CanWalk(meta, c, idx) && Ahead(meta, rows, c, idx, dir, g.terms) == all
    requires k == Fitting(GetRead(meta), all, g.extracts, cap, MaxRecs(g))
    ensures var ahead, move := AheadOf(meta, rows, idx, dir, g.terms), MoveOf(meta, idx, dir);
            && BatchRows(ahead, move, SizeOf(GetRead(meta), g.extracts), cap, MaxRecs(g), c, 2, 0) == all[..k]
            && BatchEnd(ahead, move, SizeOf(GetRead(meta), g.extracts), cap, MaxRecs(g), c, 2, 0) == CursorAfter(meta, c, idx, dir, all, k)
  {
    var cs := seq(|all| + 1, i requires 0 <= i <= |all| => CursorAfter(meta, c, idx, dir, all, i));
    assert cs[0] == c;
    WalkIsChain(meta, rows, c, idx, dir, g.terms, all, cs);
    BatchFromStart(AheadOf(meta, rows, idx, dir, g.terms), MoveOf(meta, idx, dir), SizeOf(GetRead(meta), g.extracts),
                   cap, MaxRecs(g), 2, all, cs, k);
  }

  /** What filling a batch from a cursor does: rows, status, and the cursor left. */
  ghost predicate Filled(meta: TableMeta, rows: set<Row>, idx: nat, dir: int, g: Gne, cap: nat, c: Cursor,
                         out: seq<Row>, code: int, c': Cursor) {
    if NoColumns(meta) then code == BTR_UNSUPPORTED_OP && out == [] && c' == c
    else
      var ahead, move := AheadOf(meta, rows, idx, dir, g.terms), MoveOf(meta, idx, dir);
      && out == BatchRows(ahead, move, SizeOf(GetRead(meta), g.extracts), cap, MaxRecs(g), c, 2, 0)
      && c' == BatchEnd(ahead, move, SizeOf(GetRead(meta), g.extracts), cap, MaxRecs(g), c, 2, 0)
      && code == if out == [] && ahead(c) != [] then BTR_DATA_TOO_SHORT else BTR_SUCCESS
  }

  /** Part of a batch begun at `c0` is done: `out` was taken, and the rest is what the cursor `c` has ahead. */
  ghost predicate Batching(meta: TableMeta, rows: set<Row>, idx: nat, dir: int, g: Gne, cap: nat, c0: Cursor,
                           c: Cursor, used: nat, out: seq<Row>) {
    var ahead, move := AheadOf(meta, rows, idx, dir, g.terms), MoveOf(meta, idx, dir);
    && |out| <= MaxRecs(g)
    && (out == [] ==> c == c0)
    && (out != [] ==> !NoColumns(meta))
    && Filling(ahead, move, SizeOf(GetRead(meta), g.extracts), cap, MaxRecs(g), c, used, out,
               BatchRows(ahead, move, SizeOf(GetRead(meta), g.extracts), cap, MaxRecs(g), c0, 2, 0),
               BatchEnd(ahead, move, SizeOf(GetRead(meta), g.extracts), cap, MaxRecs(g), c0, 2, 0))
  }

  lemma {:induction false} BatchingStarts(meta: TableMeta, rows: set<Row>, idx: nat, dir: int, g: Gne, cap: nat, c0: Cursor)
    ensures Batching(meta, rows, idx, dir, g, cap, c0, c0, 2, [])
  {
    FillingStarts(AheadOf(meta, rows, idx, dir, g.terms), MoveOf(meta, idx, dir), SizeOf(GetRead(meta), g.extracts), cap, MaxRecs(g), c0, 2);
  }

  /** The batch ends when it is full, when nothing is ahead, or when the next row does not fit. */
  lemma {:induction false} BatchingStops(meta: TableMeta, rows: set<Row>, idx: nat, dir: int, g: Gne, cap: nat, c0: Cursor,
                                         c: Cursor, used: nat, out: seq<Row>)
    requires Batching(meta, rows, idx, dir, g, cap, c0, c, used, out) && !NoColumns(meta)
    requires var ahead := Ahead(meta, rows, c, idx, dir, g.terms);
             |out| == MaxRecs(g) || ahead == [] || used + RowSize(GetRead(meta), ahead[0], g.extracts) > cap
    ensures Filled(meta, rows, idx, dir, g, cap, c0, out,
                   if out == [] && Ahead(meta, rows, c, idx, dir, g.terms) != [] then BTR_DATA_TOO_SHORT else BTR_SUCCESS, c)
  {
    var ahead, move := AheadOf(meta, rows, idx, dir, g.terms), MoveOf(meta, idx, dir);
    FillingStops(ahead, move, SizeOf(GetRead(meta), g.extracts), cap, MaxRecs(g), c, used, out,
                 BatchRows(ahead, move, SizeOf(GetRead(meta), g.extracts), cap, MaxRecs(g), c0, 2, 0),
                 BatchEnd(ahead, move, SizeOf(GetRead(meta), g.extracts), cap, MaxRecs(g), c0, 2, 0));
  }

  lemma {:induction false} BatchingFull(meta: TableMeta, rows: set<Row>, idx: nat, dir: int, g: Gne, cap: nat, c0: Cursor,
                                        c: Cursor, used: nat, out: seq<Row>, items: seq<Item>)
    requires Batching(meta, rows, idx, dir, g, cap, c0, c, used, out)
    requires Holding(GetRead(meta), items, out, g.extracts) && |items| == MaxRecs(g)
    ensures Filled(meta, rows, idx, dir, g, cap, c0, out, BTR_SUCCESS, c)
  {
    BatchingStops(meta, rows, idx, dir, g, cap, c0, c, used, out);
  }

  lemma {:induction false} ItemTaken(read: Row -> Read, items: seq<Item>, out: seq<Row>, row: Row, proj: seq<byte>, es: seq<Extract>)
    requires items == RowItems(read, out, es) && proj == Projected(read(row).record, es)
    ensures items + [Item(read(row).recnum, proj)] == RowItems(read, out + [row], es) && 6 + |proj| == RowSize(read, row, es)
  {
    RowItemsAppend(read, out, row, es);
  }

  /** Taking the row ahead keeps what the batch will hold in the end. */
  lemma {:induction false} WalkGoesOn(meta: TableMeta, rows: set<Row>, idx: nat, dir: int, g: Gne, cap: nat, c: Cursor,
                                      used: nat, out: seq<Row>, row: Row, whole: seq<Row>, end: Cursor, used': nat, out': seq<Row>)
    requires Filling(AheadOf(meta, rows, idx, dir, g.terms), MoveOf(meta, idx, dir), SizeOf(GetRead(meta), g.extracts),
                     cap, MaxRecs(g), c, used, out, whole, end)
    requires |out| < MaxRecs(g) && used + RowSize(GetRead(meta), row, g.extracts) == used' <= cap && out' == out + [row]
    requires var ahead := Ahead(meta, rows, c, idx, dir, g.terms); ahead != [] && ahead[0] == row
    ensures Filling(AheadOf(meta, rows, idx, dir, g.terms), MoveOf(meta, idx, dir), SizeOf(GetRead(meta), g.extracts),
                    cap, MaxRecs(g), BatchCursor(meta, c, idx, dir, row), used', out', whole, end)
  {
    FillingGoesOn(AheadOf(meta, rows, idx, dir, g.terms), MoveOf(meta, idx, dir), SizeOf(GetRead(meta), g.extracts),
                  cap, MaxRecs(g), c, used, out, whole, end, row, BatchCursor(meta, c, idx, dir, row), used', out');
  }

  lemma {:induction false} BatchingGoesOn(meta: TableMeta, rows: set<Row>, idx: nat, dir: int, g: Gne, cap: nat, c0: Cursor,
                                          c: Cursor, used: nat, out: seq<Row>, row: Row, used': nat, out': seq<Row>)
    requires Batching(meta, rows, idx, dir, g, cap, c0, c, used, out) && !NoColumns(meta) && |out| < MaxRecs(g)
    requires var ahead := Ahead(meta, rows, c, idx, dir, g.terms); ahead != [] && ahead[0] == row
    requires used + RowSize(GetRead(meta), row, g.extracts) == used' <= cap && out' == out + [row]
    ensures Batching(meta, rows, idx, dir, g, cap, c0, BatchCursor(meta, c, idx, dir, row), used', out')
  {
    var ahead, move := AheadOf(meta, rows, idx, dir, g.terms), MoveOf(meta, idx, dir);
    WalkGoesOn(meta, rows, idx, dir, g, cap, c, used, out, row,
               BatchRows(ahead, move, SizeOf(GetRead(meta), g.extracts), cap, MaxRecs(g), c0, 2, 0),
               BatchEnd(ahead, move, SizeOf(GetRead(meta), g.extracts), cap, MaxRecs(g), c0, 2, 0), used', out');
  }

  /** The reply so far holds the rows taken so far. */
  ghost predicate Holding(read: Row -> Read, items: seq<Item>, out: seq<Row>, es: seq<Extract>) {
    items == RowItems(read, out, es)
  }

  /** The row fetched joins the reply if it fits; `end` is the status the batch ends with otherwise. */
  method Admit(read: Row -> Read, g: Gne, cap: nat, used: nat, items: seq<Item>, fetched: Result<Row>, ghost out: seq<Row>)
    returns (end: Option<int>, used': nat, items': seq<Item>, ghost out': seq<Row>)
    requires Holding(read, items, out, g.extracts)
    ensures Holding(read, items', out', g.extracts) && end == RoundEnd(read, fetched, g.extracts, cap, used, items == [])
    ensures end.Some? ==> items' == items && out' == out
    ensures end.None? ==>
              && |items'| == |items| + 1
              && used' == used + RowSize(read, fetched.value, g.extracts) && out' == out + [fetched.value]
  {
    end, used', items', out' := None, used, items, out;
    match fetched
    case Err(e) =>
      end := Some(if e == BTR_KEY_NOT_FOUND then BTR_SUCCESS else e);
    case Ok(row) =>
      var got := read(row);
      var proj := Project(got.record, g.extracts);
      if used + 6 + |proj| > cap {
        end := Some(if items == [] then BTR_DATA_TOO_SHORT else BTR_SUCCESS);
      } else {
        ItemTaken(read, items, out, row, proj, g.extracts);
        used', items', out' := used + 6 + |proj|, items + [Item(got.recnum, proj)], out + [row];
      }
  }

  /** The status a batch ends with, if the row fetched does not join it. */
  function RoundEnd(read: Row -> Read, fetched: Result<Row>, es: seq<Extract>, cap: nat, used: nat, first: bool): (end: Option<int>)
    ensures end.None? ==> fetched.Ok? && used + RowSize(read, fetched.value, es) <= cap
  {
    match fetched
    case Err(e) => Some(if e == BTR_KEY_NOT_FOUND then BTR_SUCCESS else e)
    case Ok(row) =>
      if used + RowSize(read, row, es) > cap then Some(if first then BTR_DATA_TOO_SHORT else BTR_SUCCESS) else None
  }

  /** What a walk fetches next. */
  ghost predicate FetchedAdjacent(meta: TableMeta, rows: set<Row>, c: Cursor, idx: nat, dir: int, terms: seq<Term>, res: Result<Row>) {
    var ahead := Ahead(meta, rows, c, idx, dir, terms);
    res == if NoColumns(meta) then Err(BTR_UNSUPPORTED_OP)
           else if ahead == [] then Err(BTR_KEY_NOT_FOUND) else Ok(ahead[0])
  }

  /** A round ends the batch with its status, or takes the row ahead into it. */
  lemma {:induction false} RoundEnds(meta: TableMeta, rows: set<Row>, idx: nat, dir: int, g: Gne, cap: nat, c0: Cursor,
                                     c: Cursor, used: nat, out: seq<Row>, items: seq<Item>, fetched: Result<Row>, code: int)
    requires Batching(meta, rows, idx, dir, g, cap, c0, c, used, out) && Holding(GetRead(meta), items, out, g.extracts) && |items| < MaxRecs(g)
    requires FetchedAdjacent(meta, rows, c, idx, dir, g.terms, fetched)
    requires RoundEnd(GetRead(meta), fetched, g.extracts, cap, used, items == []) == Some(code)
    ensures Filled(meta, rows, idx, dir, g, cap, c0, out, code, c)
  {
    if NoColumns(meta) {
      assert out == [] && c == c0;
    } else {
      var ahead := Ahead(meta, rows, c, idx, dir, g.terms);
      assert code == if out == [] && ahead != [] then BTR_DATA_TOO_SHORT else BTR_SUCCESS;
      BatchingStops(meta, rows, idx, dir, g, cap, c0, c, used, out);
    }
  }

  lemma {:induction false} RoundTakes(meta: TableMeta, rows: set<Row>, idx: nat, dir: int, g: Gne, cap: nat, c0: Cursor,
                                      c: Cursor, used: nat, out: seq<Row>, items: seq<Item>, row: Row, used': nat, out': seq<Row>)
    requires Batching(meta, rows, idx, dir, g, cap, c0, c, used, out) && Holding(GetRead(meta), items, out, g.extracts) && |items| < MaxRecs(g)
    requires FetchedAdjacent(meta, rows, c, idx, dir, g.terms, Ok(row))
    requires used + RowSize(GetRead(meta), row, g.extracts) == used' <= cap && out' == out + [row]
    ensures Batching(meta, rows, idx, dir, g, cap, c0, BatchCursor(meta, c, idx, dir, row), used', out')
  {
    assert |out| < MaxRecs(g);
    BatchingGoesOn(meta, rows, idx, dir, g, cap, c0, c, used, out, row, used', out');
  }

  /** One round of the batch: take a row into it, or end it with a status. */
  method FillOne(h: HandleEntry, db: Backend, idx: nat, dir: int, g: Gne, cap: nat, used: nat, items: seq<Item>,
                 ghost out: seq<Row>, ghost c0: Cursor)
    returns (end: Option<int>, used': nat, items': seq<Item>, ghost out': seq<Row>)
    requires db.recnumCol == h.meta.recnumCol && UniqueRecnums(db.rows) && |items| < MaxRecs(g)
    requires Holding(GetRead(h.meta), items, out, g.extracts) && Batching(h.meta, db.rows, idx, dir, g, cap, c0, h.GetCursor(), used, out)
    modifies h`getIndexNum, h`getLastKeys, h`getLastRecnum, h`getDir, h`lastRecnum
    ensures Holding(GetRead(h.meta), items', out', g.extracts)
    ensures match end
            case Some(code) =>
              items' == items && out' == out && Filled(h.meta, db.rows, idx, dir, g, cap, c0, out', code, h.GetCursor())
            case None =>
              |items'| == |items| + 1 && Batching(h.meta, db.rows, idx, dir, g, cap, c0, h.GetCursor(), used', out')
  {
    ghost var rows, c := db.rows, h.GetCursor();
    var fetched := FetchNext(h, db, idx, dir, g.terms);
    end, used', items', out' := Admit(GetRead(h.meta), g, cap, used, items, fetched, out);
    if end.Some? {
      RoundEnds(h.meta, rows, idx, dir, g, cap, c0, c, used, out, items, fetched, end.value);
    } else {
      RoundTakes(h.meta, rows, idx, dir, g, cap, c0, c, used, out, items, fetched.value, used', out');
      MoveBatch(h, idx, dir, fetched.value);
      assert h.GetCursor() == BatchCursor(h.meta, c, idx, dir, fetched.value) && db.rows == rows;
    }
  }

  method FetchNext(h: HandleEntry, db: Backend, idx: nat, dir: int, terms: seq<Term>) returns (res: Result<Row>)
    requires db.recnumCol == h.meta.recnumCol && UniqueRecnums(db.rows)
    ensures FetchedAdjacent(h.meta, db.rows, h.GetCursor(), idx, dir, terms, res)
  {
    var read;
    res, read := FetchAdjacent(h.meta, db, h.GetCursor(), idx, dir, terms);
  }

  /** The batch: rows are fetched one at a time, and the position moves with each row kept. */
  method FillBatch(h: HandleEntry, db: Backend, idx: nat, dir: int, g: Gne, cap: nat)
    returns (code: int, items: seq<Item>, ghost out: seq<Row>)
    requires db.recnumCol == h.meta.recnumCol && UniqueRecnums(db.rows)
    modifies h`getIndexNum, h`getLastKeys, h`getLastRecnum, h`getDir, h`lastRecnum
    ensures Holding(GetRead(h.meta), items, out, g.extracts)
    ensures Filled(h.meta, db.rows, idx, dir, g, cap, old(h.GetCursor()), out, code, h.GetCursor())
  {
    out, items := [], [];
    var used, end := 2, None;
    ghost var c0 := h.GetCursor();
    BatchingStarts(h.meta, db.rows, idx, dir, g, cap, c0);
    while |items| < MaxRecs(g)
      invariant |items| <= MaxRecs(g) && Holding(GetRead(h.meta), items, out, g.extracts)
      invariant Batching(h.meta, db.rows, idx, dir, g, cap, c0, h.GetCursor(), used, out)
      decreases MaxRecs(g) - |items|
    {
      end, used, items, out := FillOne(h, db, idx, dir, g, cap, used, items, out, c0);
      if end.Some? {
        code := end.value;
        return;
      }
    }
    BatchingFull(h.meta, db.rows, idx, dir, g, cap, c0, h.GetCursor(), used, out, items);
    code := BTR_SUCCESS;
  }

  /** Persist the position on a row that was kept. */
  method MoveBatch(h: HandleEntry, idx: nat, dir: int, row: Row)
    modifies h`getIndexNum, h`getLastKeys, h`getLastRecnum, h`getDir, h`lastRecnum
    ensures h.GetCursor() == BatchCursor(h.meta, old(h.GetCursor()), idx, dir, row)
  {
    h.getIndexNum := Some(idx);
    h.getLastKeys := KeptKeys(h.meta, idx, row);
    h.getLastRecnum := Some(SeenRecnum(h.meta, row));
    h.getDir := dir;
    h.lastRecnum := Some(SeenRecnum(h.meta, row));
  }

  /** One extended call: the rows it returns, its status, its reply and the new cursor. */
  ghost predicate ExtendedCall(meta: TableMeta, rows: set<Row>, c: Cursor, dir: int, buf: seq<byte>,
                               out: seq<Row>, code: int, reply: Option<seq<byte>>, c': Cursor) {
    var cap := |buf|;
    var g := ReadGne(meta.fields, buf);
    if cap < 8 then Refused(BTR_DATA_TOO_SHORT, c, out, code, reply, c')
    else if g.None? then Refused(STATUS_BAD_DESCRIPTOR, c, out, code, reply, c')
    else
      match ActiveIndex(meta, c)
      case None => Refused(Done(g.value.terms), c, out, code, reply, c')
      case Some(idx) =>
        if out == [] then
          && reply == None
          && (exists filled :: Filled(meta, rows, idx, dir, g.value, cap, c, out, filled, c')
                && code == if filled == BTR_SUCCESS then Done(g.value.terms) else filled)
        else
          && Filled(meta, rows, idx, dir, g.value, cap, c, out, code, c')
          && reply == Some(ReplyBytes(RowItems(GetRead(meta), out, g.value.extracts)))
  }

  /** `buf` is the caller's buffer: the descriptor going in, its length the capacity for the reply. */
  method RunExtended(h: HandleEntry, db: Backend, buf: seq<byte>, dir: int)
    returns (code: int, reply: Option<seq<byte>>, ghost out: seq<Row>)
    requires db.recnumCol == h.meta.recnumCol && UniqueRecnums(db.rows) && NoFloats(h.meta.fields)
    modifies h`getIndexNum, h`getLastKeys, h`getLastRecnum, h`getDir, h`lastRecnum
    ensures ExtendedCall(h.meta, db.rows, old(h.GetCursor()), dir, buf, out, code, reply, h.GetCursor())
    ensures h.StepPosition() == old(h.StepPosition()).(any := h.lastRecnum)
  {
    out, reply := [], None;
    var cap := |buf|;
    if cap < 8 {
      return BTR_DATA_TOO_SHORT, None, [];
    }
    var parsed := ParseGne(h.meta.fields, buf);
    if parsed.None? {
      return STATUS_BAD_DESCRIPTOR, None, [];
    }
    var g := parsed.value;
    var done := Done(g.terms);
    var active := ActiveIndex(h.meta, h.GetCursor());
    if active.None? {
      return done, None, [];
    }
    var items;
    code, items, out := FillBatch(h, db, active.value, dir, g, cap);
    if code != BTR_SUCCESS {
      return;
    }
    if items == [] {
      code := done;
      return;
    }
    var bytes := WriteReply(items);
    reply := Some(bytes);
  }

  /** Where the cursor can walk, a call returns what fits of the rows ahead. */
  lemma {:induction false} CallIsFitting(meta: TableMeta, rows: set<Row>, c: Cursor, dir: int, buf: seq<byte>,
                      out: seq<Row>, code: int, reply: Option<seq<byte>>, c': Cursor)
    requires ExtendedCall(meta, rows, c, dir, buf, out, code, reply, c') && Walkable(meta, rows, c)
    ensures FittingCall(meta, rows, c, dir, buf, out, code, reply, c')
  {
    var g, active := ReadGne(meta.fields, buf), ActiveIndex(meta, c);
    if |buf| >= 8 && g.Some? && active.Some? {
      var ahead := Ahead(meta, rows, c, active.value, dir, g.value.terms);
      BatchOfWalk(meta, rows, c, active.value, dir, g.value, |buf|, ahead, Fitting(GetRead(meta), ahead, g.value.extracts, |buf|, MaxRecs(g.value)));
    }
  }

  // ---- runs of extended calls -----------------------------------------------------------------------

  lemma {:induction false} CallTakesPrefix(meta: TableMeta, rows: set<Row>, idx: nat, dir: int, terms: seq<Term>, buf: seq<byte>,
                                           c: Cursor, out: seq<Row>, code: int, reply: Option<seq<byte>>, c': Cursor, ahead: seq<Row>)
    requires FittingCall(meta, rows, c, dir, buf, out, code, reply, c')
    requires ActiveIndex(meta, c) == Some(idx) && Uses(meta, buf, terms) && ahead == Ahead(meta, rows, c, idx, dir, terms)
    ensures |out| <= |ahead| && out == ahead[..|out|] && c' == CursorAfter(meta, c, idx, dir, ahead, |out|)
    ensures ActiveIndex(meta, c') == Some(idx)
  {
  }

  lemma {:induction false} PrefixAdvances(meta: TableMeta, rows: set<Row>, idx: nat, dir: int, terms: seq<Term>, c: Cursor,
                                          out: seq<Row>, c': Cursor, ahead: seq<Row>)
    requires RowsOk(meta, rows, idx) && CanWalk(meta, c, idx) && ahead == Ahead(meta, rows, c, idx, dir, terms)
    requires |out| <= |ahead| && out == ahead[..|out|] && c' == CursorAfter(meta, c, idx, dir, ahead, |out|)
    ensures CanWalk(meta, c', idx) && ahead == out + Ahead(meta, rows, c', idx, dir, terms)
  {
    CursorAfterWalks(meta, rows, c, idx, dir, terms, ahead, |out|);
    assert ahead == ahead[..|out|] + ahead[|out|..];
  }

  /** A call takes the rows it returns, and no others, off the front of those ahead. */
  lemma {:induction false} CallAdvances(meta: TableMeta, rows: set<Row>, idx: nat, dir: int, terms: seq<Term>, buf: seq<byte>, c: Cursor,
                     out: seq<Row>, code: int, reply: Option<seq<byte>>, c': Cursor)
    requires ExtendedCall(meta, rows, c, dir, buf, out, code, reply, c')
    requires ActiveIndex(meta, c) == Some(idx) && RowsOk(meta, rows, idx) && CanWalk(meta, c, idx)
    requires Uses(meta, buf, terms)
    ensures ActiveIndex(meta, c') == Some(idx) && CanWalk(meta, c', idx)
    ensures Ahead(meta, rows, c, idx, dir, terms) == out + Ahead(meta, rows, c', idx, dir, terms)
  {
    var ahead := Ahead(meta, rows, c, idx, dir, terms);
    assert FittingCall(meta, rows, c, dir, buf, out, code, reply, c') by {
      CallIsFitting(meta, rows, c, dir, buf, out, code, reply, c');
    }
    CallTakesPrefix(meta, rows, idx, dir, terms, buf, c, out, code, reply, c', ahead);
    PrefixAdvances(meta, rows, idx, dir, terms, c, out, c', ahead);
  }

  /** The descriptor filters by these terms, if it can be read at all. */
  ghost predicate Uses(meta: TableMeta, buf: seq<byte>, terms: seq<Term>) {
    ReadGne(meta.fields, buf).Some? ==> ReadGne(meta.fields, buf).value.terms == terms
  }

  /** One extended call after another, whatever their buffers, limits and extracts: the cursors between
      them, the rows each returned, their statuses and replies. */
  ghost predicate ExtendedRun(meta: TableMeta, rows: set<Row>, dir: int, terms: seq<Term>, bufs: seq<seq<byte>>,
                              cs: seq<Cursor>, outs: seq<seq<Row>>, codes: seq<int>, replies: seq<Option<seq<byte>>>) {
    && |cs| == |bufs| + 1 && |outs| == |codes| == |replies| == |bufs|
    && forall i :: 0 <= i < |bufs| ==>
         Uses(meta, bufs[i], terms) && ExtendedCall(meta, rows, cs[i], dir, bufs[i], outs[i], codes[i], replies[i], cs[i + 1])
  }

  lemma {:induction false} RunInit(meta: TableMeta, rows: set<Row>, dir: int, terms: seq<Term>, bufs: seq<seq<byte>>,
                cs: seq<Cursor>, outs: seq<seq<Row>>, codes: seq<int>, replies: seq<Option<seq<byte>>>)
    requires ExtendedRun(meta, rows, dir, terms, bufs, cs, outs, codes, replies) && bufs != []
    ensures var n := |bufs| - 1;
            && ExtendedRun(meta, rows, dir, terms, bufs[..n], cs[..n + 1], outs[..n], codes[..n], replies[..n])
            && Uses(meta, bufs[n], terms)
            && ExtendedCall(meta, rows, cs[n], dir, bufs[n], outs[n], codes[n], replies[n], cs[n + 1])
  {
    var n := |bufs| - 1;
    forall i | 0 <= i < n
      ensures Uses(meta, bufs[..n][i], terms)
      ensures ExtendedCall(meta, rows, cs[..n + 1][i], dir, bufs[..n][i], outs[..n][i], codes[..n][i], replies[..n][i],
                           cs[..n + 1][i + 1])
    {
      assert Uses(meta, bufs[i], terms);
    }
  }

  /** Over a fixed table, any run of extended calls returns the filtered rows in (key, record number)
      order after the start: what was returned, put together, and what is still ahead make up what was
      ahead at first, so there is no gap and no repeat. */
  lemma {:induction false} ExtendedRunVisitsAhead(meta: TableMeta, rows: set<Row>, idx: nat, dir: int, terms: seq<Term>,
                                                  bufs: seq<seq<byte>>, cs: seq<Cursor>, outs: seq<seq<Row>>,
                                                  codes: seq<int>, replies: seq<Option<seq<byte>>>)
    requires ExtendedRun(meta, rows, dir, terms, bufs, cs, outs, codes, replies)
    requires ActiveIndex(meta, cs[0]) == Some(idx) && RowsOk(meta, rows, idx) && CanWalk(meta, cs[0], idx)
    ensures ActiveIndex(meta, cs[|bufs|]) == Some(idx) && CanWalk(meta, cs[|bufs|], idx)
    ensures Ahead(meta, rows, cs[0], idx, dir, terms) == Concat(outs) + Ahead(meta, rows, cs[|bufs|], idx, dir, terms)
    decreases |bufs|
  {
    var n := |bufs|;
    if n == 0 {
      var ahead := Ahead(meta, rows, cs[0], idx, dir, terms);
      assert [] + ahead == ahead;
    } else {
      RunInit(meta, rows, dir, terms, bufs, cs, outs, codes, replies);
      ExtendedRunVisitsAhead(meta, rows, idx, dir, terms, bufs[..n - 1], cs[..n], outs[..n - 1], codes[..n - 1], replies[..n - 1]);
      CallAdvances(meta, rows, idx, dir, terms, bufs[n - 1], cs[n - 1], outs[n - 1], codes[n - 1], replies[n - 1], cs[n]);
      Regroup(Concat(outs[..n - 1]), outs[n - 1], Ahead(meta, rows, cs[n], idx, dir, terms));
    }
  }

  /** After any run, a call whose descriptor can be read ends the walk (64 with a filter, 9 without)
      exactly when everything ahead at first has been returned. */
  lemma {:induction false} ExtendedRunEnds(meta: TableMeta, rows: set<Row>, idx: nat, dir: int, terms: seq<Term>,
                        bufs: seq<seq<byte>>, cs: seq<Cursor>, outs: seq<seq<Row>>,
                        codes: seq<int>, replies: seq<Option<seq<byte>>>,
                        buf: seq<byte>, out: seq<Row>, code: int, reply: Option<seq<byte>>, c': Cursor)
    requires ExtendedRun(meta, rows, dir, terms, bufs, cs, outs, codes, replies)
    requires ActiveIndex(meta, cs[0]) == Some(idx) && RowsOk(meta, rows, idx) && CanWalk(meta, cs[0], idx) && !NoColumns(meta)
    requires ReadGne(meta.fields, buf).Some? && Uses(meta, buf, terms)
    requires ExtendedCall(meta, rows, cs[|bufs|], dir, buf, out, code, reply, c')
    ensures code == Done(terms) <==> Concat(outs) == Ahead(meta, rows, cs[0], idx, dir, terms)
    ensures code == BTR_SUCCESS <==> out != []
    ensures code == BTR_DATA_TOO_SHORT ==> c' == cs[|bufs|]
  {
    ExtendedRunVisitsAhead(meta, rows, idx, dir, terms, bufs, cs, outs, codes, replies);
    var left := Ahead(meta, rows, cs[|bufs|], idx, dir, terms);
    CallIsFitting(meta, rows, cs[|bufs|], dir, buf, out, code, reply, c');
    assert Concat(outs) + [] == Concat(outs);
    assert left != [] ==> |Concat(outs) + left| > |Concat(outs)|;
  }

  // ---- the reply -------------------------------------------------------------------------------------------

  /** A successful reply is at most the capacity, stops only at the limit, the end or a record that
      does not fit, and reads back as exactly the projected records returned. */
  lemma {:induction false} ReplyIsExact(meta: TableMeta, rows: set<Row>, idx: nat, c: Cursor, dir: int, buf: seq<byte>,
                     out: seq<Row>, reply: Option<seq<byte>>, c': Cursor)
    requires ExtendedCall(meta, rows, c, dir, buf, out, BTR_SUCCESS, reply, c') && ActiveIndex(meta, c) == Some(idx)
    requires RowsOk(meta, rows, idx) && CanWalk(meta, c, idx)
    ensures ReadGne(meta.fields, buf).Some? && reply.Some?
    ensures var g := ReadGne(meta.fields, buf).value;
            ExactReply(GetRead(meta), Ahead(meta, rows, c, idx, dir, g.terms), g.extracts, MaxRecs(g), |buf|, out, reply.value)
  {
    CallIsFitting(meta, rows, c, dir, buf, out, BTR_SUCCESS, reply, c');
    var g := ReadGne(meta.fields, buf).value;
    var ahead := Ahead(meta, rows, c, idx, dir, g.terms);
    FittingReply(GetRead(meta), ahead, g.extracts, MaxRecs(g), |buf|, Fitting(GetRead(meta), ahead, g.extracts, |buf|, MaxRecs(g)));
  }
}
