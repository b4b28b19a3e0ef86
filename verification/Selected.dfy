/** The columns a SELECT asks for, and what the driver makes of a fetched row: the record number is the
    first column's, the record is packed from the texts taken for the fields. */
module Selected {
  import opened Wrappers
  import opened Bytes
  import opened Decimal
  import opened SqlValues
  import opened Relation
  import opened Schema
  import opened RecordCodec
  import opened CodecRoundTrip

  // ---- what is fetched ---------------------------------------------------------------------------

  /** The record number column is one of the fields. */
  predicate RecnumIsField(meta: TableMeta) {
    exists i :: 0 <= i < |meta.fields| && SameIgnoringCase(meta.fields[i].name, meta.recnumCol)
  }

  /** The columns of `select_with_recnum`: a record number that is a field is not asked for twice. */
  function SelectedVals(meta: TableMeta, row: Row): seq<SqlValue> {
    if RecnumIsField(meta) then FieldVals(meta, row) else [I64(row.recnum)] + FieldVals(meta, row)
  }

  /** A column read as a number, 0 when it is none. */
  function AsNumber(v: SqlValue): int {
    match v
    case I64(n) => n
    case _ => ParseI64(ColumnText(v))
  }

  /** The record number the driver takes from a fetched row: its first column. */
  function SeenRecnum(meta: TableMeta, row: Row): int {
    var vals := SelectedVals(meta, row);
    if vals == [] then 0 else AsNumber(vals[0])
  }

  /** The texts a step operation takes for the fields: it asks for one column more than there are
      fields, a column the SELECT does not have reads as empty, and the first is dropped. */
  function StepTexts(meta: TableMeta, row: Row): (r: seq<string>)
    ensures |r| == |meta.fields|
  {
    var texts := ColumnTexts(SelectedVals(meta, row));
    (if |texts| <= |meta.fields| then texts + [""] else texts)[1..]
  }

  /** The record a Get operation packs from a row. */
  function ImageOf(meta: TableMeta, row: Row): (r: seq<byte>)
    ensures |r| == meta.recordLength
  {
    PackAll(meta.fields, ColumnTexts(FieldVals(meta, row)), Zeros(meta.recordLength))
  }

  /** The record a step operation packs from it. */
  function StepImage(meta: TableMeta, row: Row): (r: seq<byte>)
    ensures |r| == meta.recordLength
  {
    PackAll(meta.fields, StepTexts(meta, row), Zeros(meta.recordLength))
  }

  /** A row as read: its record number, its record and the texts the record was packed from. */
  datatype Read = Read(recnum: int, record: seq<byte>, texts: seq<string>)

  function GetRead(meta: TableMeta): Row -> Read {
    row => Read(SeenRecnum(meta, row), ImageOf(meta, row), ColumnTexts(FieldVals(meta, row)))
  }

  function StepRead(meta: TableMeta): Row -> Read {
    row => Read(SeenRecnum(meta, row), StepImage(meta, row), StepTexts(meta, row))
  }

  /** What a Get operation hands out for a row, if it found one. */
  function Got(meta: TableMeta, row: Option<Row>): seq<byte> {
    match row
    case None => []
    case Some(r) => ImageOf(meta, r)
  }

  /** Taking a fetched row apart: the first text is the record number, and the first of the fields too
      when the record number is a field. */
  method TakeRow(meta: TableMeta, row: Row) returns (read: Read)
    ensures read == GetRead(meta)(row)
  {
    var isField := RecnumIsField(meta);
    var vals := SelectedVals(meta, row);
    var texts := ColumnTexts(vals);
    var fields := if isField then [texts[0]] + texts[1..] else texts[1..];
    assert fields == ColumnTexts(FieldVals(meta, row));
    read := Read(AsNumber(vals[0]), PackAll(meta.fields, fields, Zeros(meta.recordLength)), fields);
  }

  // ---- the key values kept ----------------------------------------------------------------------------

  predicate IntKind(f: IntField) {
    f.nativeType == TYPE_INT || f.nativeType == TYPE_AUTOINC || f.nativeType == TYPE_AUTOINCREMENT
  }

  /** `col_to_sql_param`: a fetched column text as the value kept on the handle. */
  function ColToSqlParam(f: IntField, val: string): SqlValue {
    if IntKind(f) then I64(ParseI64(val)) else Text(val)
  }

  function Params(fields: seq<IntField>, vals: seq<string>): (r: seq<SqlValue>)
    requires |fields| == |vals|
    ensures |r| == |fields|
  {
    seq(|fields|, i requires 0 <= i < |fields| => ColToSqlParam(fields[i], vals[i]))
  }

  /** The key values of an index taken from the texts of a fetched row. */
  function KeysOfTexts(meta: TableMeta, idx: nat, texts: seq<string>): seq<SqlValue>
    requires |texts| == |meta.fields|
  {
    ExtractKeyVals(meta, idx, Params(meta.fields, texts))
  }

  /** The key values kept on the handle after a read of the row. */
  function KeptKeys(meta: TableMeta, idx: nat, row: Row): seq<SqlValue> {
    KeysOfTexts(meta, idx, ColumnTexts(FieldVals(meta, row)))
  }

  /** The key values the row has in the table. */
  function RowKeys(meta: TableMeta, idx: nat, row: Row): seq<SqlValue> {
    ExtractKeyVals(meta, idx, FieldVals(meta, row))
  }

  /** A column value of its field's kind: a 64-bit number, or text. */
  predicate Typed(f: IntField, v: SqlValue) {
    if IntKind(f) then v.I64? && -0x8000_0000_0000_0000 <= v.n < 0x8000_0000_0000_0000 else v.Text?
  }

  /** The row's values in the segments of an index are of their fields' kinds. */
  predicate SegmentsTyped(meta: TableMeta, nums: seq<nat>, p: Row) {
    forall i :: 0 <= i < |nums| ==>
      match FieldPos(meta.fields, nums[i])
      case None => true
      case Some(k) => Typed(meta.fields[k], FieldVals(meta, p)[k])
  }

  predicate KeyTyped(meta: TableMeta, idx: nat, p: Row) {
    match FindIndex(meta.indexes, idx)
    case None => true
    case Some(ix) => SegmentsTyped(meta, ix.fieldNums, p)
  }

  lemma {:induction false} ParamIsOwnIff(f: IntField, v: SqlValue)
    ensures ColToSqlParam(f, ColumnText(v)) == v <==> Typed(f, v)
  {
    if IntKind(f) && Typed(f, v) {
      ParseI64OfText(v.n);
    }
  }

  lemma {:induction false} KeptFromIff(meta: TableMeta, nums: seq<nat>, p: Row, texts: seq<string>)
    requires texts == ColumnTexts(FieldVals(meta, p))
    ensures |ValsFrom(meta.fields, nums, Params(meta.fields, texts))| == |ValsFrom(meta.fields, nums, FieldVals(meta, p))|
    ensures ValsFrom(meta.fields, nums, Params(meta.fields, texts)) == ValsFrom(meta.fields, nums, FieldVals(meta, p))
       <==> SegmentsTyped(meta, nums, p)
  {
    if nums != [] {
      var kept, own := ValsFrom(meta.fields, nums, Params(meta.fields, texts)), ValsFrom(meta.fields, nums, FieldVals(meta, p));
      var keptRest := ValsFrom(meta.fields, nums[1..], Params(meta.fields, texts));
      var ownRest := ValsFrom(meta.fields, nums[1..], FieldVals(meta, p));
      KeptFromIff(meta, nums[1..], p, texts);
      SegmentsTypedCons(meta, nums, p);
      match FieldPos(meta.fields, nums[0])
      case None =>
      case Some(k) =>
        ParamIsOwnIff(meta.fields[k], FieldVals(meta, p)[k]);
        assert kept[1..] == keptRest && own[1..] == ownRest;
    }
  }

  lemma {:induction false} SegmentsTypedCons(meta: TableMeta, nums: seq<nat>, p: Row)
    requires nums != []
    ensures SegmentsTyped(meta, nums, p) <==>
              SegmentsTyped(meta, nums[1..], p) &&
              match FieldPos(meta.fields, nums[0])
              case None => true
              case Some(k) => Typed(meta.fields[k], FieldVals(meta, p)[k])
  {
    assert forall i :: 0 < i < |nums| ==> nums[i] == nums[1..][i - 1];
    assert forall i :: 0 <= i < |nums| - 1 ==> nums[1..][i] == nums[i + 1];
  }

  /** The key values kept are the row's own exactly when these are of their fields' kinds. */
  lemma {:induction false} KeptIsOwnIff(meta: TableMeta, idx: nat, p: Row)
    ensures KeptKeys(meta, idx, p) == RowKeys(meta, idx, p) <==> KeyTyped(meta, idx, p)
    ensures |KeptKeys(meta, idx, p)| == |RowKeys(meta, idx, p)|
  {
    match FindIndex(meta.indexes, idx)
    case None =>
    case Some(ix) => KeptFromIff(meta, ix.fieldNums, p, ColumnTexts(FieldVals(meta, p)));
  }

  /** The value is the column's text converted for a field that has the column. */
  predicate Converted(meta: TableMeta, row: Row, col: string, v: SqlValue) {
    exists k :: 0 <= k < |meta.fields| && meta.fields[k].name == col
                && v == ColToSqlParam(meta.fields[k], ColumnText(Column(meta.recnumCol, row, col)))
  }

  predicate AllConverted(meta: TableMeta, row: Row, refs: seq<ColRef>, vals: seq<SqlValue>) {
    |vals| == |refs| && forall i :: 0 <= i < |refs| ==> Converted(meta, row, refs[i].col, vals[i])
  }

  lemma {:induction false} ConvertedCons(meta: TableMeta, row: Row, ref: ColRef, v: SqlValue, refs: seq<ColRef>, vals: seq<SqlValue>)
    requires Converted(meta, row, ref.col, v) && AllConverted(meta, row, refs, vals)
    ensures AllConverted(meta, row, [ref] + refs, [v] + vals)
  {
  }

  lemma {:induction false} FromConverted(meta: TableMeta, nums: seq<nat>, desc: seq<bool>, row: Row, params: seq<SqlValue>)
    requires params == Params(meta.fields, ColumnTexts(FieldVals(meta, row)))
    ensures AllConverted(meta, row, RefsFrom(meta.fields, nums, desc), ValsFrom(meta.fields, nums, params))
  {
    if nums != [] {
      var tail := if desc == [] then [] else desc[1..];
      FromConverted(meta, nums[1..], tail, row, params);
      match FieldPos(meta.fields, nums[0])
      case None =>
      case Some(k) =>
        var ref := ColRef(meta.fields[k].name, desc != [] && desc[0]);
        assert Converted(meta, row, ref.col, params[k]);
        ConvertedCons(meta, row, ref, params[k], RefsFrom(meta.fields, nums[1..], tail), ValsFrom(meta.fields, nums[1..], params));
    }
  }

  /** Column references and kept values stay in step, segment by segment, also when the index names fields
      the table does not have, and each value is its own column's. */
  lemma {:induction false} KeptKeysAligned(meta: TableMeta, idx: nat, row: Row)
    ensures AllConverted(meta, row, IndexColRefs(meta, idx), KeptKeys(meta, idx, row))
  {
    match FindIndex(meta.indexes, idx)
    case None =>
    case Some(ix) => FromConverted(meta, ix.fieldNums, ix.desc, row, Params(meta.fields, ColumnTexts(FieldVals(meta, row))));
  }

  // ---- when it is the row's own -------------------------------------------------------------------

  /** The record number column is selected first. */
  predicate RecnumFirst(meta: TableMeta) {
    !RecnumIsField(meta) || meta.fields[0].name == meta.recnumCol
  }

  lemma {:induction false} SeenIsRecnum(meta: TableMeta, row: Row)
    requires RecnumFirst(meta)
    ensures SeenRecnum(meta, row) == row.recnum
  {
  }

  /** The record number seen is the row's own, for every row, exactly when its column is selected first: no field has its name,
      ignoring case, or the first field has it. */
  lemma {:induction false} SeenIsRecnumIff(meta: TableMeta)
    ensures (forall row: Row :: SeenRecnum(meta, row) == row.recnum) <==> RecnumFirst(meta)
    ensures RecnumFirst(meta) <==>
              || (forall i :: 0 <= i < |meta.fields| ==> !SameIgnoringCase(meta.fields[i].name, meta.recnumCol))
              || (meta.fields != [] && meta.fields[0].name == meta.recnumCol)
  {
    if RecnumFirst(meta) {
      forall row: Row
        ensures SeenRecnum(meta, row) == row.recnum
      {
        SeenIsRecnum(meta, row);
      }
    } else {
      var row := Row(0, map[meta.fields[0].name := I64(1)]);
      assert FieldVals(meta, row)[0] == I64(1);
      assert SeenRecnum(meta, row) == 1 && row.recnum == 0;
    }
  }

  /** Step operations take every row's own texts exactly when no field has the record number's name, ignoring case. */
  lemma {:induction false} StepTextsOwnIff(meta: TableMeta)
    ensures (forall row: Row :: StepTexts(meta, row) == ColumnTexts(FieldVals(meta, row))) <==> !RecnumIsField(meta)
    ensures RecnumIsField(meta) <==> exists i :: 0 <= i < |meta.fields| && SameIgnoringCase(meta.fields[i].name, meta.recnumCol)
  {
    if RecnumIsField(meta) {
      var n := |meta.fields|;
      var row := Row(0, map i | 0 <= i < n :: meta.fields[i].name := I64(0));
      var own := ColumnTexts(FieldVals(meta, row));
      assert FieldVals(meta, row)[n - 1] == I64(0);
      assert own[n - 1] == IntText(0) && IntText(0) != "";
      assert StepTexts(meta, row)[n - 1] == "";
    } else {
      forall row: Row
        ensures StepTexts(meta, row) == ColumnTexts(FieldVals(meta, row))
      {
      }
    }
  }

  /** Then they pack the same record as Get operations. */
  lemma {:induction false} StepImageIsOwn(meta: TableMeta, row: Row)
    requires !RecnumIsField(meta)
    ensures StepImage(meta, row) == ImageOf(meta, row)
  {
    StepTextsOwnIff(meta);
  }

  /** F1 INT and F2 AUTOINC, with F2 the record number and the only index on it. */
  const AUTOINC_SECOND := TableMeta(
    [IntField(1, "F1", TYPE_INT, 4, 0, None, None), IntField(2, "F2", TYPE_AUTOINC, 4, 4, None, None)],
    [RuntimeIndex(1, [2], [false], [0], 4)], "F2", 8, false, false)
}
