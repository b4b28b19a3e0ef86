/** The whole way of a key search: from the caller's key buffer to the row and back into the buffer. */
module KeyReuse {
  import opened Wrappers
  import opened Status
  import opened Bytes
  import opened SqlValues
  import opened Relation
  import opened Schema
  import opened RecordCodec
  import opened Selected
  import opened KeysetMeaning
  import opened KeyBuffer
  import opened HandleState
  import opened GetOps
  import opened Walks
  import opened WalkConditions

  // ---- the bytes searched for ----------------------------------------------------------------------

  /** How many bytes of the buffer count: a key number with a high byte carries a length in its low byte, and key number
      -1 reads as 0xFFFF, which carries 255. */
  function ProvidedLen(ix: RuntimeIndex, keyNum: int): nat {
    var raw := keyNum % 0x1_0000;
    if raw / 256 != 0 then Min(raw % 256, ix.keyLen) else ix.keyLen
  }

  /** They are filled up with zeros to the length of the key. */
  function SearchKey(ix: RuntimeIndex, keyNum: int, buf: seq<byte>): (r: seq<byte>)
    ensures |r| == ix.keyLen
  {
    var n := Min(ProvidedLen(ix, keyNum), |buf|);
    buf[..n] + Zeros(ix.keyLen - n)
  }

  /** A key as long as the index's comes through whole exactly when it is zero where the length cuts it. */
  lemma {:induction false} SearchKeyWholeIff(ix: RuntimeIndex, keyNum: int, key: seq<byte>)
    requires |key| == ix.keyLen
    ensures SearchKey(ix, keyNum, key) == key <==> forall i :: ProvidedLen(ix, keyNum) <= i < |key| ==> key[i] == 0
  {
    var n := ProvidedLen(ix, keyNum);
    var r := SearchKey(ix, keyNum, key);
    assert forall i :: 0 <= i < |key| ==> r[i] == if i < n then key[i] else 0;
  }

  /** With key number -1 a key of 256 bytes whose last is not zero is searched for with that byte zero. */
  lemma {:induction false} LongKeyIsCut(ix: RuntimeIndex)
    requires ix.keyLen == 256
    ensures SearchKey(ix, -1, Zeros(255) + [1]) == Zeros(256)
  {
    assert (Zeros(255) + [1])[..255] == Zeros(255);
  }

  method SearchBytes(ix: RuntimeIndex, keyNum: int, buf: seq<byte>) returns (bytes: seq<byte>)
    ensures bytes == SearchKey(ix, keyNum, buf)
  {
    var raw := keyNum % 0x1_0000;
    var provided := if raw / 256 != 0 then Min(raw % 256, ix.keyLen) else ix.keyLen;
    bytes := buf[..Min(provided, |buf|)];
    bytes := bytes + Zeros(ix.keyLen - |bytes|);
  }

  /** A key search from buffer to buffer, in the index a key number means. */
  ghost predicate ByBuffer(meta: TableMeta, rows: set<Row>, buf: seq<byte>, keyNum: int, cmp: Cmp, dir: int, notFound: int,
                           c: Cursor, code: int, row: Option<Row>, key: Option<seq<byte>>, c': Cursor) {
    match PickIndex(meta, keyNum, c.index)
    case None => code == notFound && row == None && key == None && c' == c
    case Some(ix) =>
      && ByKey(meta, rows, Some(ix), SearchSegments(meta, ix, keyNum, buf), cmp, dir, notFound, c, code, row, c')
      && key == if row.None? then None else WrittenKey(meta, ix.num, Got(meta, row))
  }

  /** Get Equal, Greater, Greater-or-Equal, Less, Less-or-Equal, from buffer to buffer. */
  method GetByKeyBuffer(h: HandleEntry, db: Backend, buf: seq<byte>, keyNum: int, cmp: Cmp, dir: int, notFound: int)
    returns (code: int, row: Option<Row>, data: seq<byte>, key: Option<seq<byte>>)
    requires db.recnumCol == h.meta.recnumCol && NoFloats(h.meta.fields)
    modifies h`getIndexNum, h`getLastKeys, h`getLastDesc, h`getLastRecnum, h`getDir, h`lastRecnum
    ensures ByBuffer(h.meta, db.rows, buf, keyNum, cmp, dir, notFound, old(h.GetCursor()), code, row, key, h.GetCursor())
    ensures h.StepPosition() == old(h.StepPosition()).(any := h.lastRecnum)
    ensures data == Got(h.meta, row)
  {
    var ix := PickIndex(h.meta, keyNum, h.getIndexNum);
    if ix.None? {
      return notFound, None, [], None;
    }
    var bytes := SearchBytes(ix.value, keyNum, buf);
    var kf := UnpackKeyFields(h.meta.fields, ix.value, bytes, h.meta.ignoreNullValues);
    code, row, data := GetByKey(h, db, kf, keyNum, cmp, dir, notFound);
    key := None;
    if row.Some? {
      key := WriteKeyBuf(h.meta, ix.value.num, data);
    }
  }

  /** The segments a search looks for. */
  function SearchSegments(meta: TableMeta, ix: RuntimeIndex, keyNum: int, buf: seq<byte>): seq<Option<SqlValue>> {
    KeySegments(meta.fields, ix.fieldNums, ix.nullValues, SearchKey(ix, keyNum, buf), 0, meta.ignoreNullValues)
  }

  /** The key a read writes back for a record. */
  function WrittenKey(meta: TableMeta, idxNum: nat, record: seq<byte>): Option<seq<byte>> {
    match FindIndex(meta.indexes, idxNum)
    case None => None
    case Some(ix) => Some(KeyBytes(meta.fields, ix.fieldNums, record))
  }

  // ---- key lengths -----------------------------------------------------------------------------------

  /** The first field with a number; the table's set-up looks for the first, everything else for the last. */
  function FirstWithNum(fields: seq<IntField>, num: nat): (r: Option<nat>)
    ensures r.Some? ==> r.value < |fields| && fields[r.value].num == num
    ensures r.None? ==> forall i :: 0 <= i < |fields| ==> fields[i].num != num
  {
    if fields == [] then None
    else if fields[0].num == num then Some(0)
    else
      match FirstWithNum(fields[1..], num)
      case None => assert forall i :: 0 < i < |fields| ==> fields[i] == fields[1..][i - 1]; None
      case Some(p) => Some(p + 1)
  }

  /** The key length `TableMeta::new` computes for an index. */
  function KeyLenOf(fields: seq<IntField>, nums: seq<nat>): nat {
    if nums == [] then 0
    else
      (match FirstWithNum(fields, nums[0])
       case None => 0
       case Some(p) => fields[p].length) + KeyLenOf(fields, nums[1..])
  }

  predicate DistinctNums(fields: seq<IntField>) {
    forall i, j :: 0 <= i < j < |fields| ==> fields[i].num != fields[j].num
  }

  lemma {:induction false} KeyPartLen(fields: seq<IntField>, num: nat, packed: seq<byte>)
    requires DistinctNums(fields)
    ensures |KeyPart(fields, num, packed)|
         == match FirstWithNum(fields, num) case None => 0 case Some(p) => fields[p].length
  {
    FieldPosIsLast(fields, num);
  }

  /** It is the length of every key written. */
  lemma {:induction false} KeyLenIsWritten(fields: seq<IntField>, nums: seq<nat>, packed: seq<byte>)
    requires DistinctNums(fields)
    ensures |KeyBytes(fields, nums, packed)| == KeyLenOf(fields, nums)
  {
    if nums != [] {
      KeyLenIsWritten(fields, nums[1..], packed);
      KeyPartLen(fields, nums[0], packed);
    }
  }

  // ---- back to the row -------------------------------------------------------------------------------

  /** The key a read of row `p` leaves in the buffer is searched for as the key values kept. */
  lemma {:induction false} WrittenKeySearches(meta: TableMeta, ix: RuntimeIndex, p: Row, keyNum: int, key: seq<byte>)
    requires FindIndex(meta.indexes, ix.num) == Some(ix) && !meta.ignoreNullValues
    requires KeyFieldsOk(meta.fields, ix.fieldNums, ColumnTexts(FieldVals(meta, p)), meta.recordLength)
    requires WrittenKey(meta, ix.num, ImageOf(meta, p)) == Some(key)
    requires |key| == ix.keyLen && forall i :: ProvidedLen(ix, keyNum) <= i < |key| ==> key[i] == 0
    ensures SearchSegments(meta, ix, keyNum, key) == Somes(KeptKeys(meta, ix.num, p))
  {
    SearchKeyWholeIff(ix, keyNum, key);
    KeyBufferDecodes(meta, ix.num, ColumnTexts(FieldVals(meta, p)));
  }

  /** Get Equal with the key buffer a Get of row `p` wrote finds a row with the keys of `p`. */
  lemma {:induction false} GetEqualFindsAgain(meta: TableMeta, rows: set<Row>, ix: RuntimeIndex, p: Row, keyNum: int, key: seq<byte>,
                                              dir: int, notFound: int, c: Cursor, code: int, row: Option<Row>, c': Cursor)
    requires FindIndex(meta.indexes, ix.num) == Some(ix) && !meta.ignoreNullValues && !NoColumns(meta)
    requires RowsOk(meta, rows, ix.num) && IndexColRefs(meta, ix.num) != [] && p in rows
    requires KeyFieldsOk(meta.fields, ix.fieldNums, ColumnTexts(FieldVals(meta, p)), meta.recordLength)
    requires WrittenKey(meta, ix.num, ImageOf(meta, p)) == Some(key)
    requires |key| == ix.keyLen && forall i :: ProvidedLen(ix, keyNum) <= i < |key| ==> key[i] == 0
    requires ByKey(meta, rows, Some(ix), SearchSegments(meta, ix, keyNum, key), Eq, dir, notFound, c, code, row, c')
    ensures code == BTR_SUCCESS && row.Some? && row.value in rows
    ensures RowKeys(meta, ix.num, row.value) == RowKeys(meta, ix.num, p)
  {
    var vals := RowKeys(meta, ix.num, p);
    var refs := IndexColRefs(meta, ix.num);
    WrittenKeySearches(meta, ix, p, keyNum, key);
    KeptIsOwnIff(meta, ix.num, p);
    RowKeysShape(meta, ix.num, p);
    var kc := SearchCols(refs, Somes(vals));
    var found := Found(meta, rows, kc, Eq);
    assert p in found by {
      SameKeysQualify(meta, rows, ix.num, p, p);
    }
    assert row.Some? && row.value in found;
    SameKeysQualify(meta, rows, ix.num, p, row.value);
  }

  lemma {:induction false} SameKeysQualify(meta: TableMeta, rows: set<Row>, idx: nat, p: Row, r: Row)
    requires IndexColRefs(meta, idx) != [] && r in rows && NoNulls(RowKeys(meta, idx, p)) && NoNulls(RowKeys(meta, idx, r))
    ensures r in Found(meta, rows, SearchCols(IndexColRefs(meta, idx), Somes(RowKeys(meta, idx, p))), Eq)
       <==> RowKeys(meta, idx, r) == RowKeys(meta, idx, p)
  {
    RowKeysShape(meta, idx, p);
    RowKeysShape(meta, idx, r);
    KnownOfSomes(RowKeys(meta, idx, p), RowKeys(meta, idx, r));
    FoundMeaning(meta, rows, idx, Somes(RowKeys(meta, idx, p)), Eq, r);
  }
}
