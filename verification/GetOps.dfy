/** The key-ordered Get operations as transitions of a handle over a backend table. */
module GetOps {
  import opened Wrappers
  import opened Status
  import opened Bytes
  import opened SqlValues
  import opened SqlText
  import opened SqlReading
  import opened Relation
  import opened Schema
  import opened Selected
  import opened Keyset
  import opened KeysetMeaning
  import opened FilterMeaning
  import opened HandleState

  // ---- positions ----------------------------------------------------------------------------

  /** The index a Get Next or Get Previous walks: the one in use, else the table's first. */
  function ActiveIndex(meta: TableMeta, c: Cursor): Option<nat> {
    match c.index
    case Some(n) => Some(n)
    case None => if meta.indexes == [] then None else Some(meta.indexes[0].num)
  }

  /** Key columns, last keys and flags side by side; a missing flag counts as ascending. */
  function CursorCols(refs: seq<ColRef>, c: Cursor): (r: seq<KeyCol>)
    ensures |r| == Min(|refs|, |c.keys|)
  {
    seq(Min(|refs|, |c.keys|), i requires 0 <= i < Min(|refs|, |c.keys|) =>
      KeyCol(refs[i].col, c.keys[i], i < |c.desc| && c.desc[i]))
  }

  predicate Positioned(c: Cursor) {
    c.keys != [] && c.recnum.Some?
  }

  /** The rows a continuation from the cursor lets through, and that pass the filter. */
  function Pending(meta: TableMeta, rows: set<Row>, c: Cursor, idx: nat, dir: int, terms: seq<Term>): set<Row> {
    set r | r in rows && FilterHolds(terms, Env(meta.recnumCol, r)) && (Positioned(c) ==> Passes(meta, c, idx, dir, r))
  }

  /** The continuation clause from the cursor holds of the row. */
  predicate Passes(meta: TableMeta, c: Cursor, idx: nat, dir: int, r: Row)
    requires c.recnum.Some?
  {
    var kc := CursorCols(IndexColRefs(meta, idx), c);
    CondHolds(ContCond(kc, dir, meta.recnumCol, 0), Env(meta.recnumCol, r), ContParams(kc, c.recnum.value))
  }

  function WalkItems(meta: TableMeta, idx: nat, dir: int): seq<SortItem> {
    OrderItemsOf(IndexColRefs(meta, idx), dir, true, meta.recnumCol)
  }

  /** What a walk still has to visit, in order. */
  ghost function Ahead(meta: TableMeta, rows: set<Row>, c: Cursor, idx: nat, dir: int, terms: seq<Term>): seq<Row> {
    Sorted(meta.recnumCol, WalkItems(meta, idx, dir), Pending(meta, rows, c, idx, dir, terms))
  }

  /** The cursor after a row was returned by a walk. */
  function MovedTo(meta: TableMeta, c: Cursor, idx: nat, dir: int, row: Row): Cursor {
    var rn := Some(SeenRecnum(meta, row));
    c.(keys := KeptKeys(meta, idx, row), recnum := rn, dir := dir, last := rn)
  }

  predicate NoColumns(meta: TableMeta) {
    meta.fields == [] || meta.recordLength == 0
  }

  // ---- Get Next, Get Previous ------------------------------------------------------------------

  /** One step of a walk: status, row and new cursor. */
  ghost predicate Adjacent(meta: TableMeta, rows: set<Row>, c: Cursor, dir: int, code: int, row: Option<Row>, c': Cursor) {
    match ActiveIndex(meta, c)
    case None => code == BTR_EOF && row == None && c' == c
    case Some(idx) =>
      if NoColumns(meta) then code == BTR_UNSUPPORTED_OP && row == None && c' == c
      else
        var ahead := Ahead(meta, rows, c, idx, dir, []);
        if ahead == [] then code == BTR_EOF && row == None && c' == c
        else code == BTR_SUCCESS && row == Some(ahead[0]) && c' == MovedTo(meta, c, idx, dir, ahead[0])
  }

  /** Text and parameters of the continuation from a cursor; no text when there is no position. */
  method ContinuationText(d: Dialect, meta: TableMeta, c: Cursor, idx: nat, dir: int)
    returns (text: Option<string>, params: seq<SqlValue>)
    ensures Positioned(c) <==> text.Some?
    ensures text.Some? ==>
              var kc := CursorCols(IndexColRefs(meta, idx), c);
              && text.value == CondText(d, ContCond(kc, dir, meta.recnumCol, 0))
              && params == ContParams(kc, c.recnum.value)
    ensures text.None? ==> params == []
  {
    if c.keys == [] || c.recnum.None? {
      return None, [];
    }
    var kc := CursorCols(IndexColRefs(meta, idx), c);
    var t;
    t, params := BuildContinuationWhere(d, kc, dir, c.recnum.value, meta.recnumCol, []);
    text := Some(t);
  }

  /** Whatever combination of continuation and filter is sent, the backend selects the pending rows. */
  lemma {:induction false} CombinedSelects(d: Dialect, meta: TableMeta, rows: set<Row>, c: Cursor, idx: nat, dir: int, terms: seq<Term>,
                        b: Option<string>, f: Option<string>, params: seq<SqlValue>)
    requires Positioned(c) <==> b.Some?
    requires var kc := CursorCols(IndexColRefs(meta, idx), c);
             var base := if Positioned(c) then ContParams(kc, c.recnum.value) else [];
             && (b.Some? ==> b.value == CondText(d, ContCond(kc, dir, meta.recnumCol, 0)))
             && (f.Some? <==> terms != [])
             && (f.Some? ==> f.value == CondText(d, FilterCond(terms, |base|)))
             && params == base + TermVals(terms)
    ensures var e := WhereCond(d, Combined(b, f), |params|);
            e.Some? && Matching(meta.recnumCol, rows, e.value, params) == Pending(meta, rows, c, idx, dir, terms)
  {
    var rc, kc := meta.recnumCol, CursorCols(IndexColRefs(meta, idx), c);
    var cond := ContCond(kc, dir, rc, 0);
    var base := if Positioned(c) then ContParams(kc, c.recnum.value) else [];
    if b.Some? {
      ContinuationNumbered(kc, dir, rc, 0, c.recnum.value);
    }
    var start := if b.Some? then Some(cond) else None;
    CombinedReads(d, start, base, terms, b, f, params);
    var e := CombinedCond(start, |base|, terms);
    forall r | r in rows
      ensures CondHolds(e, Env(rc, r), params) <==>
                FilterHolds(terms, Env(rc, r)) && (Positioned(c) ==> Passes(meta, c, idx, dir, r))
    {
      CombinedHolds(start, base, terms, Env(rc, r));
    }
  }

  /** Fetch at most one row; no row is status 4, and a table without columns status 20. */
  method FetchKeysetOne(meta: TableMeta, db: Backend, where: string, params: seq<SqlValue>, order: string)
    returns (res: Result<Row>, read: Read)
    ensures res.Ok? ==> read == GetRead(meta)(res.value)
    ensures NoColumns(meta) ==> res == Err(BTR_UNSUPPORTED_OP)
    ensures var e, items := WhereCond(db.dialect, where, |params|), OrderItems(db.dialect, order);
            !NoColumns(meta) && e.Some? && items.Some? ==>
              var matching := Matching(db.recnumCol, db.rows, e.value, params);
              if matching == {} then res == Err(BTR_KEY_NOT_FOUND)
              else res.Ok? && IsMinimal(db.recnumCol, items.value, matching, res.value)
    ensures res.Err? ==> res.code == 4 || res.code == 20 || res.code == 2012
  {
    if meta.fields == [] || meta.recordLength == 0 {
      return Err(BTR_UNSUPPORTED_OP), Read(0, [], []);
    }
    read := Read(0, [], []);
    var rows := db.Select(where, params, order, 1);
    match rows
    case Err(code) => res := Err(code);
    case Ok(s) =>
      if s == [] {
        res := Err(BTR_KEY_NOT_FOUND);
      } else {
        res := Ok(s[0]);
        read := TakeRow(meta, s[0]);
        FirstIsMinimal(db.dialect, db.recnumCol, db.rows, where, params, order, s);
      }
  }

  lemma {:induction false} FirstIsMinimal(d: Dialect, rc: string, rows: set<Row>, where: string, params: seq<SqlValue>, order: string, s: seq<Row>)
    requires s != []
    ensures var e, items := WhereCond(d, where, |params|), OrderItems(d, order);
            e.Some? && items.Some? && IsAnswer(rc, items.value, Matching(rc, rows, e.value, params), 1, s) ==>
              IsMinimal(rc, items.value, Matching(rc, rows, e.value, params), s[0])
  {
    var items := OrderItems(d, order);
    if items.Some? {
      BeforeTotal(rc, items.value, s[0], s[0]);
      assert s[0] in Elements(s);
    }
  }

  lemma {:induction false} WalkDecides(meta: TableMeta, rows: set<Row>, idx: nat, dir: int)
    requires UniqueRecnums(rows)
    ensures Decides(meta.recnumCol, WalkItems(meta, idx, dir), rows)
  {
    RecnumDecides(meta.recnumCol, WalkItems(meta, idx, dir), rows);
  }

  /** The row a walk fetches next, if any, is the first of those ahead. */
  method FetchAdjacent(meta: TableMeta, db: Backend, c: Cursor, idx: nat, dir: int, terms: seq<Term>)
    returns (res: Result<Row>, read: Read)
    requires db.recnumCol == meta.recnumCol && UniqueRecnums(db.rows)
    ensures res.Ok? ==> read == GetRead(meta)(res.value)
    ensures NoColumns(meta) ==> res == Err(BTR_UNSUPPORTED_OP)
    ensures !NoColumns(meta) ==>
              var ahead := Ahead(meta, db.rows, c, idx, dir, terms);
              res == if ahead == [] then Err(BTR_KEY_NOT_FOUND) else Ok(ahead[0])
  {
    var d := db.dialect;
    var items := WalkItems(meta, idx, dir);
    var order := BuildOrderByCols(d, IndexColRefs(meta, idx), dir, true, meta.recnumCol);
    var base, params := ContinuationText(d, meta, c, idx, dir);
    var filter: Option<string> := None;
    if terms != [] {
      var f;
      f, params := BuildFilterWhere(d, terms, params);
      filter := Some(f);
    }
    CombinedSelects(d, meta, db.rows, c, idx, dir, terms, base, filter, params);
    SortTextRoundTrip(d, items);
    assert OrderItems(d, order) == Some(items);
    res, read := FetchKeysetOne(meta, db, Combined(base, filter), params, order);
    WalkDecides(meta, db.rows, idx, dir);
    ghost var pending := Pending(meta, db.rows, c, idx, dir, terms);
    SortedElements(meta.recnumCol, items, pending);
    if pending != {} && !NoColumns(meta) {
      MinimalIsFirst(meta.recnumCol, items, pending, res.value);
    }
  }

  /** Get Next (`dir` 1) and Get Previous (`dir` -1). */
  method GetAdjacent(h: HandleEntry, db: Backend, dir: int) returns (code: int, row: Option<Row>, data: seq<byte>)
    requires db.recnumCol == h.meta.recnumCol && UniqueRecnums(db.rows)
    modifies h`getLastKeys, h`getLastRecnum, h`getDir, h`lastRecnum
    ensures Adjacent(h.meta, db.rows, old(h.GetCursor()), dir, code, row, h.GetCursor())
    ensures h.StepPosition() == old(h.StepPosition()).(any := h.lastRecnum)
    ensures data == Got(h.meta, row)
  {
    var active := ActiveIndex(h.meta, h.GetCursor());
    if active.None? {
      return BTR_EOF, None, [];
    }
    var idx := active.value;
    var res, read := FetchAdjacent(h.meta, db, h.GetCursor(), idx, dir, []);
    match res
    case Err(e) =>
      code, row, data := if e == BTR_KEY_NOT_FOUND then BTR_EOF else e, None, [];
    case Ok(r) =>
      h.getLastKeys := KeysOfTexts(h.meta, idx, read.texts);
      h.getLastRecnum := Some(read.recnum);
      h.getDir := dir;
      h.lastRecnum := Some(read.recnum);
      code, row, data := BTR_SUCCESS, Some(r), read.record;
  }

  // ---- Get First, Get Last, Get by key --------------------------------------------------------------

  function SegDescs(refs: seq<ColRef>): (r: seq<bool>)
    ensures |r| == |refs|
  {
    seq(|refs|, i requires 0 <= i < |refs| => refs[i].desc)
  }

  /** The cursor after an operation that chose a row by itself. */
  function PlacedAt(meta: TableMeta, idx: nat, dir: int, row: Row): Cursor {
    var rn := Some(SeenRecnum(meta, row));
    Cursor(Some(idx), KeptKeys(meta, idx, row), SegDescs(IndexColRefs(meta, idx)), rn, dir, rn)
  }

  /** Placing the cursor on one of the rows in `matching` that nothing in it comes before; rows with
      equal keys are not told apart. */
  ghost predicate Placed(meta: TableMeta, matching: set<Row>, idx: nat, dir: int, notFound: int,
                         c: Cursor, code: int, row: Option<Row>, c': Cursor) {
    if NoColumns(meta) then code == BTR_UNSUPPORTED_OP && row == None && c' == c
    else if matching == {} then code == notFound && row == None && c' == c
    else
      && code == BTR_SUCCESS && row.Some?
      && IsMinimal(meta.recnumCol, OrderItemsOf(IndexColRefs(meta, idx), dir, false, meta.recnumCol), matching, row.value)
      && c' == PlacedAt(meta, idx, dir, row.value)
  }

  method Place(h: HandleEntry, idx: nat, dir: int, read: Read, ghost r: Row)
    requires read == GetRead(h.meta)(r)
    modifies h`getIndexNum, h`getLastKeys, h`getLastDesc, h`getLastRecnum, h`getDir, h`lastRecnum
    ensures h.GetCursor() == PlacedAt(h.meta, idx, dir, r)
    ensures h.StepPosition() == old(h.StepPosition()).(any := h.lastRecnum)
  {
    h.getIndexNum := Some(idx);
    h.getLastKeys := KeysOfTexts(h.meta, idx, read.texts);
    h.getLastDesc := SegDescs(IndexColRefs(h.meta, idx));
    h.getLastRecnum := Some(read.recnum);
    h.getDir := dir;
    h.lastRecnum := Some(read.recnum);
  }

  /** A read of the first or the last row by the index a key number means. */
  ghost predicate AtEnd(meta: TableMeta, rows: set<Row>, keyNum: int, dir: int, c: Cursor, code: int, row: Option<Row>, c': Cursor) {
    match PickIndex(meta, keyNum, c.index)
    case None => code == BTR_EOF && row == None && c' == c
    case Some(ix) => Placed(meta, rows, ix.num, dir, BTR_EOF, c, code, row, c')
  }

  /** Get First (`dir` 1) and Get Last (`dir` -1). */
  method GetEnd(h: HandleEntry, db: Backend, keyNum: int, dir: int) returns (code: int, row: Option<Row>, data: seq<byte>)
    requires db.recnumCol == h.meta.recnumCol
    modifies h`getIndexNum, h`getLastKeys, h`getLastDesc, h`getLastRecnum, h`getDir, h`lastRecnum
    ensures AtEnd(h.meta, db.rows, keyNum, dir, old(h.GetCursor()), code, row, h.GetCursor())
    ensures h.StepPosition() == old(h.StepPosition()).(any := h.lastRecnum)
    ensures data == Got(h.meta, row)
  {
    var ix := PickIndex(h.meta, keyNum, h.getIndexNum);
    if ix.None? {
      return BTR_EOF, None, [];
    }
    var idx := ix.value.num;
    var items := OrderItemsOf(IndexColRefs(h.meta, idx), dir, false, h.meta.recnumCol);
    var order := BuildOrderByCols(db.dialect, IndexColRefs(h.meta, idx), dir, false, h.meta.recnumCol);
    SortTextRoundTrip(db.dialect, items);
    assert OrderItems(db.dialect, order) == Some(items);
    AllMatch(h.meta.recnumCol, db.rows);
    var res, read := FetchKeysetOne(h.meta, db, "", [], order);
    match res
    case Err(e) => code, row, data := if e == BTR_KEY_NOT_FOUND then BTR_EOF else e, None, [];
    case Ok(r) =>
      Place(h, idx, dir, read, r);
      code, row, data := BTR_SUCCESS, Some(r), read.record;
  }

  lemma {:induction false} AllMatch(rc: string, rows: set<Row>)
    ensures Matching(rc, rows, Only(Last(OneIsOne)), []) == rows
  {
    forall r | r in rows
      ensures CondHolds(Only(Last(OneIsOne)), Env(rc, r), [])
    {
      assert ConjHolds(Last(OneIsOne), Env(rc, r), []);
    }
  }

  /** The segments of the search key that are not wildcards. */
  function SearchCols(refs: seq<ColRef>, kf: seq<Option<SqlValue>>): seq<KeyCol> {
    if refs == [] || kf == [] then []
    else (if kf[0].Some? then [KeyCol(refs[0].col, kf[0].value, refs[0].desc)] else [])
         + SearchCols(refs[1..], kf[1..])
  }

  /** The rows a key search lets through. */
  function Found(meta: TableMeta, rows: set<Row>, kc: seq<KeyCol>, cmp: Cmp): set<Row> {
    Matching(meta.recnumCol, rows, KeyCond(kc, cmp, 0), KeyParams(kc, cmp))
  }

  ghost predicate ByKey(meta: TableMeta, rows: set<Row>, ix: Option<RuntimeIndex>, kf: seq<Option<SqlValue>>,
                        cmp: Cmp, dir: int, notFound: int, c: Cursor, code: int, row: Option<Row>, c': Cursor) {
    match ix
    case None => code == notFound && row == None && c' == c
    case Some(x) =>
      var kc := SearchCols(IndexColRefs(meta, x.num), kf);
      if meta.ignoreNullValues && kc == [] then code == notFound && row == None && c' == c
      else Placed(meta, Found(meta, rows, kc, cmp), x.num, dir, notFound, c, code, row, c')
  }

  /** Fetch the first of the rows a key search lets through. */
  method FetchSearched(meta: TableMeta, db: Backend, refs: seq<ColRef>, kc: seq<KeyCol>, cmp: Cmp, dir: int)
    returns (res: Result<Row>, read: Read)
    requires db.recnumCol == meta.recnumCol
    ensures res.Ok? ==> read == GetRead(meta)(res.value)
    ensures NoColumns(meta) ==> res == Err(BTR_UNSUPPORTED_OP)
    ensures var found := Found(meta, db.rows, kc, cmp);
            !NoColumns(meta) ==>
              if found == {} then res == Err(BTR_KEY_NOT_FOUND)
              else res.Ok? && IsMinimal(meta.recnumCol, OrderItemsOf(refs, dir, false, meta.recnumCol), found, res.value)
  {
    var d := db.dialect;
    var where, params := BuildKeyWhere(d, kc, cmp, []);
    assert params == KeyParams(kc, cmp);
    KeySearchNumbered(kc, cmp, 0);
    Accepted(d, KeyCond(kc, cmp, 0), |params|);
    var items := OrderItemsOf(refs, dir, false, meta.recnumCol);
    var order := BuildOrderByCols(d, refs, dir, false, meta.recnumCol);
    SortTextRoundTrip(d, items);
    assert OrderItems(d, order) == Some(items);
    res, read := FetchKeysetOne(meta, db, where, params, order);
  }

  /** A key search in the index a key number means. */
  ghost predicate ByKeyNum(meta: TableMeta, rows: set<Row>, keyNum: int, kf: seq<Option<SqlValue>>,
                           cmp: Cmp, dir: int, notFound: int, c: Cursor, code: int, row: Option<Row>, c': Cursor) {
    ByKey(meta, rows, PickIndex(meta, keyNum, c.index), kf, cmp, dir, notFound, c, code, row, c')
  }

  /** Get Equal, Greater, Greater-or-Equal, Less, Less-or-Equal. `kf` holds the key segments decoded
      from the key buffer, None for a wildcard. */
  method GetByKey(h: HandleEntry, db: Backend, kf: seq<Option<SqlValue>>, keyNum: int, cmp: Cmp, dir: int, notFound: int)
    returns (code: int, row: Option<Row>, data: seq<byte>)
    requires db.recnumCol == h.meta.recnumCol
    modifies h`getIndexNum, h`getLastKeys, h`getLastDesc, h`getLastRecnum, h`getDir, h`lastRecnum
    ensures ByKeyNum(h.meta, db.rows, keyNum, kf, cmp, dir, notFound, old(h.GetCursor()), code, row, h.GetCursor())
    ensures h.StepPosition() == old(h.StepPosition()).(any := h.lastRecnum)
    ensures data == Got(h.meta, row)
  {
    var ix := PickIndex(h.meta, keyNum, h.getIndexNum);
    if ix.None? {
      return notFound, None, [];
    }
    var idx := ix.value.num;
    var refs := IndexColRefs(h.meta, idx);
    var kc := SearchCols(refs, kf);
    if h.meta.ignoreNullValues && kc == [] {
      return notFound, None, [];
    }
    var res, read := FetchSearched(h.meta, db, refs, kc, cmp, dir);
    match res
    case Err(e) => code, row, data := if e == BTR_KEY_NOT_FOUND then notFound else e, None, [];
    case Ok(r) =>
      Place(h, idx, dir, read, r);
      code, row, data := BTR_SUCCESS, Some(r), read.record;
  }
}
