/** Table metadata, indexes, and how an index picks out columns and key values. */
module Schema {
  import opened Bytes
  import opened Wrappers
  import opened SqlValues
  import opened Relation

  datatype IntField = IntField(
    num: nat, name: string, nativeType: int, length: nat, offset: nat,
    fieldIndex: Option<nat>, defaultValue: Option<string>)

  datatype RuntimeIndex = RuntimeIndex(
    num: nat, fieldNums: seq<nat>, desc: seq<bool>, nullValues: seq<byte>, keyLen: nat)

  datatype TableMeta = TableMeta(
    fields: seq<IntField>, indexes: seq<RuntimeIndex>, recnumCol: string,
    recordLength: nat, ignoreNullValues: bool, localCache: bool)

  /** Where the field numbered `num` is; a number used twice means the later field. */
  function FieldPos(fields: seq<IntField>, num: nat): (r: Option<nat>)
    ensures r.Some? ==> r.value < |fields| && fields[r.value].num == num
  {
    if fields == [] then None
    else if fields[|fields| - 1].num == num then Some(|fields| - 1)
    else FieldPos(fields[..|fields| - 1], num)
  }

  function FindIndex(indexes: seq<RuntimeIndex>, num: nat): (r: Option<RuntimeIndex>)
    ensures r.Some? ==> r.value in indexes && r.value.num == num
  {
    if indexes == [] then None
    else if indexes[0].num == num then Some(indexes[0])
    else FindIndex(indexes[1..], num)
  }

  /** An index whose key is `keyLen` bytes long, else the first index. */
  function IndexForKeyLen(meta: TableMeta, keyLen: nat): Option<RuntimeIndex> {
    if keyLen == 0 then None else ByKeyLen(meta, meta.indexes, keyLen)
  }

  function ByKeyLen(meta: TableMeta, indexes: seq<RuntimeIndex>, keyLen: nat): Option<RuntimeIndex> {
    if indexes == [] then
      if meta.indexes == [] then None else Some(meta.indexes[0])
    else if indexes[0].keyLen == keyLen then Some(indexes[0])
    else ByKeyLen(meta, indexes[1..], keyLen)
  }

  /** The index a key number (a signed 16-bit value) selects. */
  function PickIndex(meta: TableMeta, keyNum: int, current: Option<nat>): Option<RuntimeIndex> {
    if keyNum == -1 then
      match current
      case Some(n) => FindIndex(meta.indexes, n)
      case None => None
    else
      var raw := keyNum % 0x1_0000;
      if raw / 256 == 0 then FindIndex(meta.indexes, raw % 256 + 1)
      else IndexForKeyLen(meta, raw % 256)
  }

  predicate DistinctNames(fields: seq<IntField>) {
    forall i, j :: 0 <= i < j < |fields| ==> fields[i].name != fields[j].name
  }

  /** A column reference of an index segment, and whether the segment is descending. */
  datatype ColRef = ColRef(col: string, desc: bool)

  function RefsFrom(fields: seq<IntField>, nums: seq<nat>, desc: seq<bool>): seq<ColRef> {
    if nums == [] then []
    else
      var rest := RefsFrom(fields, nums[1..], if desc == [] then [] else desc[1..]);
      match FieldPos(fields, nums[0])
      case Some(p) => [ColRef(fields[p].name, desc != [] && desc[0])] + rest
      case None => rest
  }

  /** The resolvable segments of an index, in order. */
  function IndexColRefs(meta: TableMeta, idxNum: nat): seq<ColRef> {
    match FindIndex(meta.indexes, idxNum)
    case Some(ix) => RefsFrom(meta.fields, ix.fieldNums, ix.desc)
    case None => []
  }

  function ValsFrom(fields: seq<IntField>, nums: seq<nat>, fieldVals: seq<SqlValue>): seq<SqlValue> {
    if nums == [] then []
    else
      var rest := ValsFrom(fields, nums[1..], fieldVals);
      match FieldPos(fields, nums[0])
      case Some(p) => if p < |fieldVals| then [fieldVals[p]] + rest else rest
      case None => rest
  }

  /** The key values of an index in a fetched row, given the row's field values. */
  function ExtractKeyVals(meta: TableMeta, idxNum: nat, fieldVals: seq<SqlValue>): seq<SqlValue> {
    match FindIndex(meta.indexes, idxNum)
    case Some(ix) => ValsFrom(meta.fields, ix.fieldNums, fieldVals)
    case None => []
  }

  function FieldVals(meta: TableMeta, row: Row): (r: seq<SqlValue>)
    ensures |r| == |meta.fields|
  {
    seq(|meta.fields|, i requires 0 <= i < |meta.fields| => Column(meta.recnumCol, row, meta.fields[i].name))
  }

  lemma {:induction false} FromAligned(meta: TableMeta, nums: seq<nat>, desc: seq<bool>, row: Row)
    ensures var refs, vals := RefsFrom(meta.fields, nums, desc), ValsFrom(meta.fields, nums, FieldVals(meta, row));
            && |vals| == |refs|
            && forall i :: 0 <= i < |refs| ==> vals[i] == Column(meta.recnumCol, row, refs[i].col)
  {
    if nums != [] {
      FromAligned(meta, nums[1..], if desc == [] then [] else desc[1..], row);
    }
  }

  /** Column references and key values stay in step, also when the index names fields the table
      does not have. */
  lemma {:induction false} KeyValsAligned(meta: TableMeta, idxNum: nat, row: Row)
    ensures var refs, vals := IndexColRefs(meta, idxNum), ExtractKeyVals(meta, idxNum, FieldVals(meta, row));
            && |vals| == |refs|
            && forall i :: 0 <= i < |refs| ==> vals[i] == Column(meta.recnumCol, row, refs[i].col)
  {
    match FindIndex(meta.indexes, idxNum)
    case Some(ix) => FromAligned(meta, ix.fieldNums, ix.desc, row);
    case None =>
  }

  // ---- what the lookups find ---------------------------------------------------------------------

  /** The first index with the number, or none when there is none. */
  lemma {:induction false} FindIndexIsFirst(indexes: seq<RuntimeIndex>, num: nat)
    ensures match FindIndex(indexes, num)
            case None => forall i :: 0 <= i < |indexes| ==> indexes[i].num != num
            case Some(ix) =>
              exists i :: 0 <= i < |indexes| && indexes[i] == ix && ix.num == num && forall j :: 0 <= j < i ==> indexes[j].num != num
  {
    if indexes != [] && indexes[0].num != num {
      FindIndexIsFirst(indexes[1..], num);
      match FindIndex(indexes[1..], num)
      case None =>
        assert forall i :: 0 < i < |indexes| ==> indexes[i] == indexes[1..][i - 1];
      case Some(ix) =>
        var i :| 0 <= i < |indexes| - 1 && indexes[1..][i] == ix && forall j :: 0 <= j < i ==> indexes[1..][j].num != num;
        assert indexes[i + 1] == ix && forall j :: 0 < j < i + 1 ==> indexes[j] == indexes[1..][j - 1];
    } else if indexes != [] {
      assert indexes[0].num == num;
    }
  }

  /** The last field with the number, or none when there is none. */
  lemma {:induction false} FieldPosIsLast(fields: seq<IntField>, num: nat)
    ensures match FieldPos(fields, num)
            case None => forall i :: 0 <= i < |fields| ==> fields[i].num != num
            case Some(p) => p < |fields| && fields[p].num == num && forall i :: p < i < |fields| ==> fields[i].num != num
  {
    if fields != [] && fields[|fields| - 1].num != num {
      FieldPosIsLast(fields[..|fields| - 1], num);
    }
  }

  /** A length names the first index whose key is that long, else the first of all. */
  lemma {:induction false} ByKeyLenPicks(meta: TableMeta, indexes: seq<RuntimeIndex>, keyLen: nat)
    ensures match ByKeyLen(meta, indexes, keyLen)
            case None => meta.indexes == [] && forall i :: 0 <= i < |indexes| ==> indexes[i].keyLen != keyLen
            case Some(ix) =>
              || (exists i :: 0 <= i < |indexes| && indexes[i] == ix && ix.keyLen == keyLen && forall j :: 0 <= j < i ==> indexes[j].keyLen != keyLen)
              || ((forall i :: 0 <= i < |indexes| ==> indexes[i].keyLen != keyLen) && meta.indexes != [] && ix == meta.indexes[0])
  {
    if indexes != [] && indexes[0].keyLen != keyLen {
      var rest := indexes[1..];
      ByKeyLenPicks(meta, rest, keyLen);
      assert forall i :: 0 < i < |indexes| ==> indexes[i] == rest[i - 1];
      if i :| 0 <= i < |rest| && Some(rest[i]) == ByKeyLen(meta, rest, keyLen) && rest[i].keyLen == keyLen
              && forall j :: 0 <= j < i ==> rest[j].keyLen != keyLen {
        assert indexes[i + 1] == rest[i];
      }
    } else if indexes != [] {
      assert indexes[0].keyLen == keyLen;
    }
  }

  /** Whatever key number picked an index, key number -1 picks an index of the same number while it is the
      one in use. */
  lemma {:induction false} PickedAgain(meta: TableMeta, keyNum: int, current: Option<nat>)
    requires PickIndex(meta, keyNum, current).Some?
    ensures var n := PickIndex(meta, keyNum, current).value.num;
            PickIndex(meta, -1, Some(n)).Some? && PickIndex(meta, -1, Some(n)).value.num == n
  {
    var ix := PickIndex(meta, keyNum, current).value;
    FindIndexIsFirst(meta.indexes, ix.num);
    if keyNum != -1 && keyNum % 0x1_0000 / 256 != 0 {
      ByKeyLenPicks(meta, meta.indexes, keyNum % 0x1_0000 % 256);
    }
  }

  /** The segments that name a field of the table. */
  function KnownSegments(fields: seq<IntField>, nums: seq<nat>, at: nat): (r: seq<nat>)
    ensures forall i :: 0 <= i < |r| ==> at <= r[i] < at + |nums|
  {
    if nums == [] then []
    else (if FieldPos(fields, nums[0]).Some? then [at] else []) + KnownSegments(fields, nums[1..], at + 1)
  }

  /** The reference a segment gives: the column of its field, and its own direction. */
  predicate RefOf(fields: seq<IntField>, nums: seq<nat>, desc: seq<bool>, k: int, ref: ColRef) {
    && 0 <= k < |nums|
    && FieldPos(fields, nums[k]).Some?
    && ref == ColRef(fields[FieldPos(fields, nums[k]).value].name, k < |desc| && desc[k])
  }

  lemma {:induction false} RefOfTail(fields: seq<IntField>, nums: seq<nat>, desc: seq<bool>, k: int, ref: ColRef)
    requires nums != [] && RefOf(fields, nums[1..], if desc == [] then [] else desc[1..], k, ref)
    ensures RefOf(fields, nums, desc, k + 1, ref)
  {
    assert nums[1..][k] == nums[k + 1];
  }

  /** References side by side with the segments they are of, counted from `at`. */
  predicate RefsOf(fields: seq<IntField>, nums: seq<nat>, desc: seq<bool>, at: nat, refs: seq<ColRef>, known: seq<nat>) {
    |refs| == |known| && forall i :: 0 <= i < |refs| ==> RefOf(fields, nums, desc, known[i] - at, refs[i])
  }

  lemma {:induction false} RefsOfTail(fields: seq<IntField>, nums: seq<nat>, desc: seq<bool>, at: nat, refs: seq<ColRef>, known: seq<nat>)
    requires nums != [] && RefsOf(fields, nums[1..], if desc == [] then [] else desc[1..], at + 1, refs, known)
    ensures RefsOf(fields, nums, desc, at, refs, known)
  {
    forall i | 0 <= i < |refs|
      ensures RefOf(fields, nums, desc, known[i] - at, refs[i])
    {
      RefOfTail(fields, nums, desc, known[i] - (at + 1), refs[i]);
    }
  }

  lemma {:induction false} RefsOfCons(fields: seq<IntField>, nums: seq<nat>, desc: seq<bool>, at: nat, ref: ColRef,
                                      refs: seq<ColRef>, known: seq<nat>)
    requires RefOf(fields, nums, desc, 0, ref) && RefsOf(fields, nums, desc, at, refs, known)
    ensures RefsOf(fields, nums, desc, at, [ref] + refs, [at] + known)
  {
  }

  /** The column references are those of the known segments, in order, each with its own segment's
      direction, however short the list of directions is. */
  lemma {:induction false} RefsOfKnownSegments(fields: seq<IntField>, nums: seq<nat>, desc: seq<bool>, at: nat)
    ensures RefsOf(fields, nums, desc, at, RefsFrom(fields, nums, desc), KnownSegments(fields, nums, at))
  {
    if nums != [] {
      var tail := if desc == [] then [] else desc[1..];
      var refs, known := RefsFrom(fields, nums[1..], tail), KnownSegments(fields, nums[1..], at + 1);
      RefsOfKnownSegments(fields, nums[1..], tail, at + 1);
      RefsOfTail(fields, nums, desc, at, refs, known);
      if FieldPos(fields, nums[0]).Some? {
        RefsOfCons(fields, nums, desc, at, ColRef(fields[FieldPos(fields, nums[0]).value].name, desc != [] && desc[0]), refs, known);
      } else {
        assert KnownSegments(fields, nums, at) == known;
      }
    }
  }
}
