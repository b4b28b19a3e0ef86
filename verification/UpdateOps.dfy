/** Update, Update Chunk and Delete: changing the row the handle stands on. */
module UpdateOps {
  import opened Wrappers
  import opened Status
  import opened Bytes
  import opened SqlValues
  import opened SqlText
  import opened Relation
  import opened Schema
  import opened FilterMeaning
  import opened RecordCodec
  import opened Selected
  import opened CodecRoundTrip
  import opened Chunks
  import opened HandleState

  const DEFAULT_RECNUM_COL := "MDS_RECNUM"

  // ---- what an UPDATE stores ----------------------------------------------------------------------------

  /** Auto-increment fields, and a record number column that is a field, are not set. */
  predicate Settable(meta: TableMeta, f: IntField) {
    && f.nativeType != TYPE_AUTOINC && f.nativeType != TYPE_AUTOINCREMENT
    && !(meta.recnumCol != DEFAULT_RECNUM_COL && SameIgnoringCase(f.name, meta.recnumCol))
  }

  function SlotValue(f: IntField, record: seq<byte>): SqlValue {
    DecodeField(f, FieldSlice(record, f.offset, f.length))
  }

  /** The columns after the settable fields among the first `n` were set from the record. */
  function SetCols(meta: TableMeta, record: seq<byte>, cols: map<string, SqlValue>, n: nat): map<string, SqlValue>
    requires n <= |meta.fields|
  {
    if n == 0 then cols
    else
      var f := meta.fields[n - 1];
      var before := SetCols(meta, record, cols, n - 1);
      if Settable(meta, f) then before[f.name := SlotValue(f, record)] else before
  }

  /** The row after its columns were set from a record. */
  function Stored(meta: TableMeta, row: Row, record: seq<byte>): Row {
    Row(row.recnum, SetCols(meta, record, row.cols, |meta.fields|))
  }

  function AfterUpdate(meta: TableMeta, rows: set<Row>, recnum: int, record: seq<byte>): set<Row> {
    set r | r in rows :: if r.recnum == recnum then Stored(meta, r, record) else r
  }

  predicate NothingSettable(meta: TableMeta) {
    forall i :: 0 <= i < |meta.fields| ==> !Settable(meta, meta.fields[i])
  }

  /** The SET list for the first `n` fields. */
  function SetList(meta: TableMeta, record: seq<byte>, n: nat): (r: seq<Setting>)
    requires n <= |meta.fields|
    ensures r == [] <==> forall k :: 0 <= k < n ==> !Settable(meta, meta.fields[k])
  {
    if n == 0 then []
    else
      var f := meta.fields[n - 1];
      SetList(meta, record, n - 1) + if Settable(meta, f) then [Setting(f.name, SlotValue(f, record))] else []
  }

  datatype Setting = Setting(col: string, value: SqlValue)

  /** A SET list carried out. */
  function Assigned(cols: map<string, SqlValue>, sets: seq<Setting>): map<string, SqlValue> {
    if sets == [] then cols
    else
      var s := sets[|sets| - 1];
      Assigned(cols, sets[..|sets| - 1])[s.col := s.value]
  }

  lemma {:induction false} SetListAssigns(meta: TableMeta, record: seq<byte>, cols: map<string, SqlValue>, n: nat)
    requires n <= |meta.fields|
    ensures Assigned(cols, SetList(meta, record, n)) == SetCols(meta, record, cols, n)
  {
    if n > 0 {
      SetListAssigns(meta, record, cols, n - 1);
      var before, all := SetList(meta, record, n - 1), SetList(meta, record, n);
      if Settable(meta, meta.fields[n - 1]) {
        assert all[..|all| - 1] == before;
      } else {
        assert all == before;
      }
    }
  }

  function Reassigned(r: Row, sets: seq<Setting>): Row {
    Row(r.recnum, Assigned(r.cols, sets))
  }

  lemma {:induction false} SetListStep(meta: TableMeta, record: seq<byte>, i: nat)
    requires i < |meta.fields|
    ensures var f := meta.fields[i];
            SetList(meta, record, i + 1) == SetList(meta, record, i) + if Settable(meta, f) then [Setting(f.name, SlotValue(f, record))] else []
  {
  }

  /** The SET list of a record. */
  method BuildSets(meta: TableMeta, record: seq<byte>) returns (sets: seq<Setting>)
    requires NoFloats(meta.fields)
    ensures sets == SetList(meta, record, |meta.fields|)
  {
    sets := [];
    var values := UnpackRowTyped(meta.fields, record);
    for i := 0 to |meta.fields|
      invariant sets == SetList(meta, record, i)
    {
      var f := meta.fields[i];
      SetListStep(meta, record, i);
      assert values[i] == SlotValue(f, record);
      if Settable(meta, f) {
        sets := sets + [Setting(f.name, values[i])];
      }
    }
  }

  /** The parameterized update carried out; false when there is nothing to set. */
  method StoreRecord(meta: TableMeta, db: Backend, recnum: int, record: seq<byte>) returns (done: bool)
    requires NoFloats(meta.fields)
    modifies db`rows
    ensures done <==> !NothingSettable(meta)
    ensures db.rows == if done then AfterUpdate(meta, old(db.rows), recnum, record) else old(db.rows)
  {
    var sets := BuildSets(meta, record);
    if sets == [] {
      return false;
    }
    var now := set r | r in db.rows :: if r.recnum == recnum then Reassigned(r, sets) else r;
    assert now == AfterUpdate(meta, db.rows, recnum, record) by {
      forall r | r in db.rows
        ensures Reassigned(r, sets) == Stored(meta, r, record)
      {
        SetListAssigns(meta, record, r.cols, |meta.fields|);
      }
    }
    db.rows := now;
    done := true;
  }

  // ---- the operations ---------------------------------------------------------------------------------------

  /** The row with a record number. */
  function RowAt(rows: set<Row>, recnum: int): (r: Option<Row>)
    requires UniqueRecnums(rows)
    ensures r.Some? ==> r.value in rows && r.value.recnum == recnum
    ensures r.None? ==> forall o :: o in rows ==> o.recnum != recnum
  {
    if o :| o in rows && o.recnum == recnum then Some(o) else None
  }

  /** The packed record of a row, ready to be changed in place. */
  method FetchPacked(meta: TableMeta, db: Backend, recnum: int) returns (res: Option<array<byte>>)
    requires db.recnumCol == meta.recnumCol && UniqueRecnums(db.rows) && NoFloats(meta.fields)
    ensures match RowAt(db.rows, recnum)
            case None => res == None
            case Some(row) => res.Some? && fresh(res.value) && res.value[..] == ImageOf(meta, row)
  {
    var d := db.dialect;
    var where := Spaced(QuoteIdent(d, meta.recnumCol), "=", ParamMarker(d, 1));
    var cond := Only(Last(Compare(meta.recnumCol, Eq, 0)));
    RecnumCondReads(d, db.rows, meta.recnumCol, recnum, where, cond);
    var rows := db.Select(where, [I64(recnum)], "", 1);
    ghost var at := RowAt(db.rows, recnum);
    if at.Some? {
      assert at.value in Matching(meta.recnumCol, db.rows, cond, [I64(recnum)]);
    }
    if rows.Err? || rows.value == [] {
      return None;
    }
    var row := rows.value[0];
    assert row in Elements(rows.value);
    assert at == Some(row);
    var vals := FieldVals(meta, row);
    var record := PackRow(meta.fields, ColumnTexts(vals), meta.recordLength);
    var buf := new byte[|record|](i requires 0 <= i < |record| => record[i]);
    assert buf[..] == record;
    res := Some(buf);
  }

  lemma {:induction false} RecnumCondReads(d: Dialect, rows: set<Row>, rc: string, recnum: int, where: string, cond: Cond)
    requires where == Spaced(QuoteIdent(d, rc), "=", ParamMarker(d, 1)) && cond == Only(Last(Compare(rc, Eq, 0)))
    ensures WhereCond(d, where, 1) == Some(cond)
    ensures Matching(rc, rows, cond, [I64(recnum)]) == set r | r in rows && r.recnum == recnum
  {
    var p := cond.c.p;
    assert PrimText(d, p) == where && ConjText(d, cond.c) == where;
    assert PrimNumbered(p, 0) && PrimArgs(p) == 1;
    assert ConjNumbered(cond.c, 0) && ConjArgs(cond.c) == 1;
    Accepted(d, cond, 1);
    forall r | r in rows
      ensures CondHolds(cond, Env(rc, r), [I64(recnum)]) <==> r.recnum == recnum
    {
      assert ConjHolds(cond.c, Env(rc, r), [I64(recnum)]) == PrimHolds(p, Env(rc, r), [I64(recnum)]);
    }
  }

  /** The status of Update Chunk, and the record to store when there is one. */
  function ChunkOutcome(meta: TableMeta, rows: set<Row>, last: Option<int>, desc: seq<byte>): Result<seq<byte>>
    requires UniqueRecnums(rows)
  {
    if last.None? then Err(BTR_INVALID_POS)
    else if |desc| < 12 then Err(BTR_DATA_TOO_SHORT)
    else
      match ReadPlan(desc, meta.recordLength)
      case Done(code) => Err(code)
      case Lay(chunks, start) =>
        match RowAt(rows, last.value)
        case None => Err(BTR_INVALID_POS)
        case Some(row) =>
          match Laid(ImageOf(meta, row), desc, chunks, start)
          case Err(e) => Err(e)
          case Ok(record) => if NothingSettable(meta) then Err(BTR_DATA_TOO_SHORT) else Ok(record)
  }

  /** Every status but a completed one leaves the table as it was. */
  ghost predicate ChunkUpdated(meta: TableMeta, rows: set<Row>, last: Option<int>, desc: seq<byte>, code: int, after: set<Row>)
    requires UniqueRecnums(rows)
  {
    match ChunkOutcome(meta, rows, last, desc)
    case Err(e) => code == e && after == rows
    case Ok(record) => code == BTR_SUCCESS && after == AfterUpdate(meta, rows, last.value, record)
  }

  /** Update Chunk. */
  method UpdateChunk(h: HandleEntry, db: Backend, desc: seq<byte>) returns (code: int)
    requires db.recnumCol == h.meta.recnumCol && UniqueRecnums(db.rows) && NoFloats(h.meta.fields)
    modifies db`rows
    ensures ChunkUpdated(h.meta, old(db.rows), h.lastRecnum, desc, code, db.rows)
  {
    if h.lastRecnum.None? {
      return BTR_INVALID_POS;
    }
    var recnum := h.lastRecnum.value;
    if |desc| < 12 {
      return BTR_DATA_TOO_SHORT;
    }
    var plan := ParsePlan(desc, h.meta.recordLength);
    if plan.Done? {
      return plan.code;
    }
    var fetched := FetchPacked(h.meta, db, recnum);
    if fetched.None? {
      return BTR_INVALID_POS;
    }
    var packed := fetched.value;
    code := LayChunks(packed, desc, plan.chunks, plan.dataStart);
    if code != BTR_SUCCESS {
      return;
    }
    var done := StoreRecord(h.meta, db, recnum, packed[..]);
    code := if done then BTR_SUCCESS else BTR_DATA_TOO_SHORT;
  }

  function UpdateStatus(meta: TableMeta, last: Option<int>, record: seq<byte>): int {
    if last.None? then BTR_INVALID_POS
    else if record == [] || NothingSettable(meta) then BTR_DATA_TOO_SHORT else BTR_SUCCESS
  }

  function DeleteStatus(last: Option<int>): int {
    if last.None? then BTR_INVALID_POS else BTR_SUCCESS
  }

  predicate Updated(meta: TableMeta, rows: set<Row>, last: Option<int>, record: seq<byte>, code: int, after: set<Row>) {
    && code == UpdateStatus(meta, last, record)
    && after == if code == BTR_SUCCESS then AfterUpdate(meta, rows, last.value, record) else rows
  }

  /** Update replaces the row's settable columns by those of the caller's record. */
  method Update(h: HandleEntry, db: Backend, record: seq<byte>) returns (code: int)
    requires NoFloats(h.meta.fields)
    modifies db`rows
    ensures Updated(h.meta, old(db.rows), h.lastRecnum, record, code, db.rows)
  {
    if h.lastRecnum.None? {
      return BTR_INVALID_POS;
    }
    if record == [] {
      return BTR_DATA_TOO_SHORT;
    }
    var done := StoreRecord(h.meta, db, h.lastRecnum.value, record);
    code := if done then BTR_SUCCESS else BTR_DATA_TOO_SHORT;
  }

  function WithoutRecnum(rows: set<Row>, recnum: int): set<Row> {
    set r | r in rows && r.recnum != recnum
  }

  /** Delete removes the row the handle stands on; the handle keeps its position. */
  method Delete(h: HandleEntry, db: Backend) returns (code: int)
    modifies db`rows
    ensures code == DeleteStatus(h.lastRecnum)
    ensures db.rows == if code == BTR_SUCCESS then WithoutRecnum(old(db.rows), h.lastRecnum.value) else old(db.rows)
  {
    if h.lastRecnum.None? {
      return BTR_INVALID_POS;
    }
    var recnum := h.lastRecnum.value;
    db.rows := set r | r in db.rows && r.recnum != recnum;
    code := BTR_SUCCESS;
  }

  // ---- what was stored ------------------------------------------------------------------------------------------

  lemma {:induction false} SetColsAt(meta: TableMeta, record: seq<byte>, cols: map<string, SqlValue>, n: nat, k: nat)
    requires n <= |meta.fields| && k < |meta.fields| && DistinctNames(meta.fields)
    ensures var f, after := meta.fields[k], SetCols(meta, record, cols, n);
            if k < n && Settable(meta, f) then f.name in after && after[f.name] == SlotValue(f, record)
            else (f.name in after <==> f.name in cols) && (f.name in after ==> after[f.name] == cols[f.name])
  {
    if n > 0 {
      SetColsAt(meta, record, cols, n - 1, k);
      if n - 1 < k {
        assert meta.fields[n - 1].name != meta.fields[k].name;
      } else if k < n - 1 {
        assert meta.fields[k].name != meta.fields[n - 1].name;
      }
    }
  }

  /** A settable column holds the record's value afterwards; any other keeps its own: an update or a
      chunk that reaches into an auto-increment field is not stored there. */
  lemma {:induction false} StoredColumns(meta: TableMeta, row: Row, record: seq<byte>, k: nat)
    requires DistinctNames(meta.fields) && k < |meta.fields|
    requires meta.fields[k].name == meta.recnumCol ==> !Settable(meta, meta.fields[k])
    ensures Stored(meta, row, record).recnum == row.recnum
    ensures Column(meta.recnumCol, Stored(meta, row, record), meta.fields[k].name)
              == if Settable(meta, meta.fields[k]) then SlotValue(meta.fields[k], record)
                 else Column(meta.recnumCol, row, meta.fields[k].name)
  {
    SetColsAt(meta, record, row.cols, |meta.fields|, k);
  }

  /** Fields that are not set already hold what the record has for them. */
  predicate UnsetAgree(meta: TableMeta, row: Row, record: seq<byte>) {
    forall k :: 0 <= k < |meta.fields| && !Settable(meta, meta.fields[k]) ==>
      Column(meta.recnumCol, row, meta.fields[k].name) == SlotValue(meta.fields[k], record)
  }

  /** The stored columns are those of the record exactly when the fields that are not set agree with
      it already. */
  lemma {:induction false} StoredIsRecordIff(meta: TableMeta, row: Row, record: seq<byte>)
    requires DistinctNames(meta.fields) && NoFloats(meta.fields)
    requires forall k :: 0 <= k < |meta.fields| && meta.fields[k].name == meta.recnumCol ==> !Settable(meta, meta.fields[k])
    ensures FieldVals(meta, Stored(meta, row, record)) == UnpackRowTyped(meta.fields, record) <==> UnsetAgree(meta, row, record)
  {
    var vals, want := FieldVals(meta, Stored(meta, row, record)), UnpackRowTyped(meta.fields, record);
    forall k | 0 <= k < |meta.fields|
      ensures vals[k] == want[k] <==>
                Settable(meta, meta.fields[k]) || Column(meta.recnumCol, row, meta.fields[k].name) == SlotValue(meta.fields[k], record)
    {
      StoredColumns(meta, row, record, k);
    }
    if UnsetAgree(meta, row, record) {
      assert vals == want;
    }
  }

  lemma {:induction false} AutoincValues(record: seq<byte>)
    requires record == [0, 0, 0, 0, 5, 0, 0, 0]
    ensures SlotValue(AUTOINC_SECOND.fields[0], record) == I64(0) && SlotValue(AUTOINC_SECOND.fields[1], record) == I64(5)
    ensures UnpackRowTyped(AUTOINC_SECOND.fields, record)[1] == I64(5)
  {
    FourBytes(record[0..4], 0);
    FourBytes(record[4..8], 5);
  }

  /** Storing F1 = 0, F2 = 5 over F1 = 0, F2 = 1, with F2 the record number, changes nothing. */
  lemma {:induction false} AutoincNotStored(row: Row, record: seq<byte>)
    requires row == Row(1, map["F1" := I64(0)]) && record == [0, 0, 0, 0, 5, 0, 0, 0]
    ensures Stored(AUTOINC_SECOND, row, record) == row
    ensures FieldVals(AUTOINC_SECOND, row) != UnpackRowTyped(AUTOINC_SECOND.fields, record)
  {
    var meta := AUTOINC_SECOND;
    AutoincValues(record);
    assert |"F2"| != |DEFAULT_RECNUM_COL| && Lower("F1"[1]) != Lower("F2"[1]);
    assert Settable(meta, meta.fields[0]) && !Settable(meta, meta.fields[1]);
    assert SetCols(meta, record, row.cols, 1) == SetCols(meta, record, row.cols, 0)["F1" := I64(0)];
    assert row.cols["F1" := I64(0)] == row.cols;
    assert SetCols(meta, record, row.cols, 2) == SetCols(meta, record, row.cols, 1);
    assert FieldVals(meta, row)[1] == I64(1);
  }

  lemma {:induction false} FourBytes(b: seq<byte>, n: byte)
    requires b == [n, 0, 0, 0] && n < 128
    ensures DecodeInt(b) == n
  {
    assert b[..4] == b && b[1..] == [0, 0, 0] && b[1..][1..] == [0, 0] && b[1..][1..][1..] == [0] && b[1..][1..][1..][1..] == [];
    assert LeNat([0, 0]) == 0 && LeNat([0, 0, 0]) == 0;
    Pow256Eight();
  }

  /** Then a record in the codec's exact range is stored byte for byte wherever a field writes. */
  lemma {:induction false} StoredImage(meta: TableMeta, row: Row, record: seq<byte>)
    requires DistinctNames(meta.fields) && NoFloats(meta.fields) && ExactRecord(meta.fields, record)
    requires forall k :: 0 <= k < |meta.fields| && meta.fields[k].name == meta.recnumCol ==> !Settable(meta, meta.fields[k])
    requires |record| == meta.recordLength && UnsetAgree(meta, row, record)
    ensures var image := ImageOf(meta, Stored(meta, row, record));
            |image| == |record| && forall j :: 0 <= j < |record| ==>
              image[j] == if Covered(meta.fields, |record|, j) then record[j] else 0
  {
    StoredIsRecordIff(meta, row, record);
    RecordRoundTrip(meta.fields, record);
  }

  /** Update Chunk with a Rectangle descriptor and with the Random descriptor of its chunks: the same
      status and the same table, for every table and position. */
  lemma {:induction false} RectangleUpdateIsRandomUpdate(meta: TableMeta, rows: set<Row>, last: Option<int>, sig: nat, n: nat, size: nat,
                                      stride: nat, first: nat, next: nat, data: seq<byte>)
    requires UniqueRecnums(rows) && 0x8000_0000 <= sig < 0x1_0000_0000 && sig != 0xFFFF_FFFE
    requires n < 0x1_0000_0000 && size < 0x1_0000_0000 && stride < 0x1_0000_0000 && first < 0x1_0000_0000
    requires Fits32(Grid(first, stride, size, n))
    ensures ChunkOutcome(meta, rows, last, EncodeRectangle(sig, n, size, stride, first, data))
         == ChunkOutcome(meta, rows, last, EncodeRandom(Grid(first, stride, size, n), next, data))
  {
    var record := if last.Some? && RowAt(rows, last.value).Some? then ImageOf(meta, RowAt(rows, last.value).value) else [];
    RectangleIsRandom(sig, n, size, stride, first, next, data, meta.recordLength, record);
  }
}
