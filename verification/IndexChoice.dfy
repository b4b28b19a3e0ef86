/** Which index a key number means, told from the list of indexes alone, and what the reads by key number do
    with it. */
module IndexChoice {
  import opened Wrappers
  import opened Bytes
  import opened SqlValues
  import opened SqlText
  import opened Relation
  import opened Schema
  import opened Selected
  import opened Keyset
  import opened KeysetMeaning
  import opened HandleState
  import opened GetOps
  import opened Walks
  import opened WalkConditions
  import opened KeyReuse

  predicate FirstNumbered(indexes: seq<RuntimeIndex>, num: nat, i: int) {
    0 <= i < |indexes| && indexes[i].num == num && forall j :: 0 <= j < i ==> indexes[j].num != num
  }

  predicate FirstOfLength(indexes: seq<RuntimeIndex>, len: nat, i: int) {
    0 <= i < |indexes| && indexes[i].keyLen == len && forall j :: 0 <= j < i ==> indexes[j].keyLen != len
  }

  predicate NoneOfLength(indexes: seq<RuntimeIndex>, len: nat) {
    forall j :: 0 <= j < |indexes| ==> indexes[j].keyLen != len
  }

  /** Key numbers are signed 16-bit values. */
  predicate IsKeyNum(keyNum: int) {
    -0x8000 <= keyNum < 0x8000
  }

  /** A key number means the `i`-th index of the list: -1 the one in use, 0 to 255 the one numbered one more;
      of any other the low byte is a key length, and a length no index has means the first. */
  predicate Means(indexes: seq<RuntimeIndex>, keyNum: int, inUse: Option<nat>, i: int) {
    0 <= i < |indexes| &&
    if keyNum == -1 then inUse.Some? && FirstNumbered(indexes, inUse.value, i)
    else if 0 <= keyNum < 256 then FirstNumbered(indexes, keyNum + 1, i)
    else
      var len := keyNum % 256;
      len != 0 && (FirstOfLength(indexes, len, i) || (NoneOfLength(indexes, len) && i == 0))
  }

  lemma {:induction false} FoundAt(indexes: seq<RuntimeIndex>, num: nat, i: int)
    requires FirstNumbered(indexes, num, i)
    ensures FindIndex(indexes, num) == Some(indexes[i])
  {
    FindIndexIsFirst(indexes, num);
  }

  lemma {:induction false} LengthFoundAt(meta: TableMeta, len: nat, i: int)
    requires FirstOfLength(meta.indexes, len, i) || (NoneOfLength(meta.indexes, len) && i == 0 < |meta.indexes|)
    ensures ByKeyLen(meta, meta.indexes, len) == Some(meta.indexes[i])
  {
    ByKeyLenPicks(meta, meta.indexes, len);
  }

  lemma {:induction false} PicksMeant(meta: TableMeta, keyNum: int, inUse: Option<nat>, i: int)
    requires IsKeyNum(keyNum) && Means(meta.indexes, keyNum, inUse, i)
    ensures PickIndex(meta, keyNum, inUse) == Some(meta.indexes[i])
  {
    if keyNum == -1 {
      FoundAt(meta.indexes, inUse.value, i);
    } else if 0 <= keyNum < 256 {
      FoundAt(meta.indexes, keyNum + 1, i);
    } else {
      LengthFoundAt(meta, keyNum % 256, i);
    }
  }

  /** No index of the list. */
  predicate MeansNone(indexes: seq<RuntimeIndex>, keyNum: int, inUse: Option<nat>) {
    forall i :: 0 <= i < |indexes| ==> !Means(indexes, keyNum, inUse, i)
  }

  lemma {:induction false} NumberAt(indexes: seq<RuntimeIndex>, num: nat) returns (i: nat)
    requires FindIndex(indexes, num).Some?
    ensures FirstNumbered(indexes, num, i)
  {
    FindIndexIsFirst(indexes, num);
    i :| 0 <= i < |indexes| && indexes[i].num == num && forall j :: 0 <= j < i ==> indexes[j].num != num;
  }

  lemma {:induction false} LengthAt(meta: TableMeta, len: nat) returns (i: nat)
    requires ByKeyLen(meta, meta.indexes, len).Some?
    ensures i < |meta.indexes| && (FirstOfLength(meta.indexes, len, i) || (NoneOfLength(meta.indexes, len) && i == 0))
  {
    ByKeyLenPicks(meta, meta.indexes, len);
    i := 0;
    if k :| 0 <= k < |meta.indexes| && meta.indexes[k].keyLen == len && forall j :: 0 <= j < k ==> meta.indexes[j].keyLen != len {
      i := k;
    }
  }

  lemma {:induction false} PicksNone(meta: TableMeta, keyNum: int, inUse: Option<nat>)
    requires IsKeyNum(keyNum) && MeansNone(meta.indexes, keyNum, inUse)
    ensures PickIndex(meta, keyNum, inUse) == None
  {
    if PickIndex(meta, keyNum, inUse).Some? {
      var i;
      if keyNum == -1 {
        i := NumberAt(meta.indexes, inUse.value);
      } else if 0 <= keyNum < 256 {
        i := NumberAt(meta.indexes, keyNum + 1);
      } else {
        i := LengthAt(meta, keyNum % 256);
      }
      assert Means(meta.indexes, keyNum, inUse, i);
    }
  }

  // ---- Get First and Get Last by key number ----------------------------------------------------------

  /** Get First and Get Last with a key number that means an index: status 9 on an empty table, else status 0
      and a row that none comes before by that index's segments, and the index is in use afterwards. */
  lemma {:induction false} EndOfMeant(meta: TableMeta, rows: set<Row>, keyNum: int, i: int, dir: int,
                                      c: Cursor, code: int, row: Option<Row>, c': Cursor)
    requires AtEnd(meta, rows, keyNum, dir, c, code, row, c') && !NoColumns(meta)
    requires IsKeyNum(keyNum) && Means(meta.indexes, keyNum, c.index, i)
    ensures rows == {} ==> code == 9 && row == None && c' == c
    ensures rows != {} ==>
              && code == 0 && row.Some? && c'.index == Some(meta.indexes[i].num)
              && IsMinimal(meta.recnumCol, OrderItemsOf(IndexColRefs(meta, meta.indexes[i].num), dir, false, meta.recnumCol), rows, row.value)
  {
    PicksMeant(meta, keyNum, c.index, i);
  }

  /** With one that means none: status 9, and nothing changes. */
  lemma {:induction false} EndOfNone(meta: TableMeta, rows: set<Row>, keyNum: int, dir: int, c: Cursor, code: int, row: Option<Row>, c': Cursor)
    requires AtEnd(meta, rows, keyNum, dir, c, code, row, c')
    requires IsKeyNum(keyNum) && MeansNone(meta.indexes, keyNum, c.index)
    ensures code == 9 && row == None && c' == c
  {
    PicksNone(meta, keyNum, c.index);
  }

  predicate HasNumber(meta: TableMeta, num: nat) {
    exists i :: 0 <= i < |meta.indexes| && meta.indexes[i].num == num
  }

  lemma {:induction false} FirstWithNumber(indexes: seq<RuntimeIndex>, num: nat, k: nat) returns (i: nat)
    requires k < |indexes| && indexes[k].num == num
    ensures FirstNumbered(indexes, num, i)
    decreases k
  {
    i := k;
    if j :| 0 <= j < k && indexes[j].num == num {
      i := FirstWithNumber(indexes, num, j);
    }
  }

  /** Key number `k` from 0 to 255: Get First and Get Last use the index numbered `k` + 1, or give status 9. */
  lemma {:induction false} EndByNumber(meta: TableMeta, rows: set<Row>, k: nat, dir: int, c: Cursor, code: int, row: Option<Row>, c': Cursor)
    requires AtEnd(meta, rows, k, dir, c, code, row, c') && k < 256 && !NoColumns(meta)
    ensures rows == {} || !HasNumber(meta, k + 1) ==> code == 9 && row == None && c' == c
    ensures rows != {} && HasNumber(meta, k + 1) ==>
              && code == 0 && row.Some? && c'.index == Some(k + 1)
              && IsMinimal(meta.recnumCol, OrderItemsOf(IndexColRefs(meta, k + 1), dir, false, meta.recnumCol), rows, row.value)
  {
    if j :| 0 <= j < |meta.indexes| && meta.indexes[j].num == k + 1 {
      var i := FirstWithNumber(meta.indexes, k + 1, j);
      EndOfMeant(meta, rows, k, i, dir, c, code, row, c');
    } else {
      assert MeansNone(meta.indexes, k, c.index);
      EndOfNone(meta, rows, k, dir, c, code, row, c');
    }
  }

  // ---- key searches by key number --------------------------------------------------------------------

  /** A key search with a key number that means an index is one in that index. */
  lemma {:induction false} SearchOfMeant(meta: TableMeta, rows: set<Row>, keyNum: int, i: int, kf: seq<Option<SqlValue>>, cmp: Cmp, dir: int,
                                         notFound: int, c: Cursor, code: int, row: Option<Row>, c': Cursor)
    requires ByKeyNum(meta, rows, keyNum, kf, cmp, dir, notFound, c, code, row, c')
    requires IsKeyNum(keyNum) && Means(meta.indexes, keyNum, c.index, i)
    ensures ByKey(meta, rows, Some(meta.indexes[i]), kf, cmp, dir, notFound, c, code, row, c')
  {
    PicksMeant(meta, keyNum, c.index, i);
  }

  /** With one that means none it finds nothing. */
  lemma {:induction false} SearchOfNone(meta: TableMeta, rows: set<Row>, keyNum: int, kf: seq<Option<SqlValue>>, cmp: Cmp, dir: int,
                                        notFound: int, c: Cursor, code: int, row: Option<Row>, c': Cursor)
    requires ByKeyNum(meta, rows, keyNum, kf, cmp, dir, notFound, c, code, row, c')
    requires IsKeyNum(keyNum) && MeansNone(meta.indexes, keyNum, c.index)
    ensures code == notFound && row == None && c' == c
  {
    PicksNone(meta, keyNum, c.index);
  }

  /** From buffer to buffer: the segments are decoded, and the key written back, by the index meant. */
  lemma {:induction false} BufferOfMeant(meta: TableMeta, rows: set<Row>, buf: seq<byte>, keyNum: int, i: int, cmp: Cmp, dir: int, notFound: int,
                                         c: Cursor, code: int, row: Option<Row>, key: Option<seq<byte>>, c': Cursor)
    requires ByBuffer(meta, rows, buf, keyNum, cmp, dir, notFound, c, code, row, key, c')
    requires IsKeyNum(keyNum) && Means(meta.indexes, keyNum, c.index, i)
    ensures var ix := meta.indexes[i];
            && ByKey(meta, rows, Some(ix), SearchSegments(meta, ix, keyNum, buf), cmp, dir, notFound, c, code, row, c')
            && key == if row.None? then None else WrittenKey(meta, ix.num, Got(meta, row))
  {
    PicksMeant(meta, keyNum, c.index, i);
  }

  /** Key number `k` from 0 to 255, on an ascending index: a key search returns a nearest qualifying row of the
      index numbered `k` + 1 and leaves that index in use, or is not found exactly when no row qualifies. */
  lemma {:induction false} SearchByNumber(meta: TableMeta, rows: set<Row>, k: nat, kf: seq<Option<SqlValue>>, cmp: Cmp, dir: int,
                                          notFound: int, c: Cursor, code: int, row: Option<Row>, c': Cursor)
    requires ByKeyNum(meta, rows, k, kf, cmp, dir, notFound, c, code, row, c') && k < 256 && HasNumber(meta, k + 1)
    requires (dir == 1 || dir == -1) && !NoColumns(meta) && cmp != Ne && notFound != 0
    requires RowsOk(meta, rows, k + 1) && AllAscending(IndexColRefs(meta, k + 1))
    requires |kf| == |IndexColRefs(meta, k + 1)| && KnownVals(kf) != [] && NoNulls(KnownVals(kf))
    ensures code == notFound <==> forall o :: o in rows ==> !Qualifies(meta, k + 1, kf, cmp, o)
    ensures code != notFound ==>
              && code == 0 && row.Some? && row.value in rows && c'.index == Some(k + 1)
              && Qualifies(meta, k + 1, kf, cmp, row.value) && NearestAmong(meta, rows, k + 1, kf, cmp, dir, row.value)
  {
    var j :| 0 <= j < |meta.indexes| && meta.indexes[j].num == k + 1;
    var i := FirstWithNumber(meta.indexes, k + 1, j);
    SearchOfMeant(meta, rows, k, i, kf, cmp, dir, notFound, c, code, row, c');
    KeySearchFindsNearest(meta, rows, meta.indexes[i], kf, cmp, dir, notFound, c, code, row, c');
  }
}
