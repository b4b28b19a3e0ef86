/** What the segments of a search key are read as, told by type number, and which of them are wildcards. */
module KeyTypes {
  import opened Wrappers
  import opened Bytes
  import opened Decimal
  import opened TextUtil
  import opened SqlValues
  import opened Schema
  import opened RecordCodec
  import opened CodecRoundTrip
  import opened FieldTypes
  import opened KeyBuffer
  import opened KeyReuse
  import opened Selected

  // ---- values, by type -----------------------------------------------------------------------------------

  /** The bytes in front of the first zero, as characters. */
  predicate TextUpToZero(b: seq<byte>, t: string) {
    && |t| <= |b| && (|t| < |b| ==> b[|t|] == 0)
    && forall i :: 0 <= i < |t| ==> b[i] != 0 && t[i] as int == b[i]
  }

  lemma {:induction false} UpToZeroReads(b: seq<byte>, t: string)
    requires TextUpToZero(b, t)
    ensures Latin1(UpToZero(b)) == t
  {
    if |t| < |b| {
      FirstZeroIs(b, |t|);
    } else {
      assert FirstZero(b) == |b|;
    }
  }

  /** Text of types 0, 11 and 12 ends at the first zero, that of type 10 starts behind the length byte. */
  lemma {:induction false} TextKeyReads(f: IntField, b: seq<byte>, t: string)
    requires f.nativeType in {0, 10, 11, 12}
    requires TextUpToZero(if f.nativeType == 10 && b != [] then b[1..] else b, t)
    ensures DecodeKey(f, b) == Text(t)
  {
    UpToZeroReads(if f.nativeType == 10 && b != [] then b[1..] else b, t);
  }

  /** The text of any type without a rule of its own loses the white space at its end too. */
  lemma {:induction false} OtherKeyReads(f: IntField, b: seq<byte>, t: string)
    requires f.nativeType !in {0, 1, 3, 4, 5, 7, 10, 11, 12, 14, 15} && TextUpToZero(b, t)
    ensures DecodeKey(f, b) == Text(TrimEnd(t))
  {
    UpToZeroReads(b, t);
  }

  /** Numbers are read as they are from a record, those of type 15 like those of type 1. */
  lemma {:induction false} NumberKeyReads(f: IntField, b: seq<byte>)
    requires f.nativeType in {1, 5, 14, 15}
    ensures DecodeKey(f, b) == DecodeField(f.(nativeType := if f.nativeType == 15 then 1 else f.nativeType), b)
  {
  }

  /** Truth values too; dates and times too, but what is no date, and a time of zeros or of too few bytes, is NULL. */
  lemma {:induction false} OtherValuesRead(f: IntField, b: seq<byte>)
    requires f.nativeType in {3, 4, 7}
    ensures f.nativeType == 7 ==> DecodeKey(f, b) == Bool(b != [] && b[0] != 0)
    ensures f.nativeType == 3 ==> DecodeKey(f, b) == DecodeField(f.(defaultValue := None), b)
    ensures f.nativeType == 4 ==> DecodeKey(f, b) == if |b| < 4 || AllZero(b) then Null else DecodeField(f, b)
  {
  }

  /** A key segment of a STRING field that holds text packed with blanks is read with its blanks. */
  lemma {:induction false} PackedStringKey(f: IntField, slot: seq<byte>, t: string)
    requires f.nativeType == 0 && AsciiText(t) && forall i :: 0 <= i < |t| ==> t[i] as int != 0
    ensures DecodeKey(f, PackSlot(0, slot, t)) == Text(Fitted(t, |slot|))
  {
    var b := PackSlot(0, slot, t);
    forall k | 0 <= k < |slot|
      ensures b[k] != 0 && Fitted(t, |slot|)[k] as int == b[k]
    {
      StringBytes(0, slot, t, k);
    }
    TextKeyReads(f, b, Fitted(t, |slot|));
  }

  // ---- values kept ------------------------------------------------------------------------------------

  /** The value kept of a fetched text: of types 1, 14 and 15 the number it spells between white space, 0 when it spells none
      or one beyond 64 bits; of any other type the text. */
  lemma {:induction false} KeptValue(f: IntField, t: string)
    ensures f.nativeType !in {1, 14, 15} ==> ColToSqlParam(f, t) == Text(t)
    ensures f.nativeType in {1, 14, 15} ==>
              var n := ParseInt(Trim(t));
              ColToSqlParam(f, t) == I64(if n == None || n.value < -0x8000_0000_0000_0000 || n.value >= 0x8000_0000_0000_0000 then 0
                                         else n.value)
  {
  }

  /** The record number taken from a first column: its number, or the one its text spells. */
  lemma {:induction false} FirstColumnAsNumber(v: SqlValue, n: int)
    requires -0x8000_0000_0000_0000 <= n < 0x8000_0000_0000_0000
    ensures v == I64(n) || v == Text(IntText(n)) ==> AsNumber(v) == n
    ensures AsNumber(Null) == 0 && AsNumber(Bool(true)) == 1 && AsNumber(Bool(false)) == 0
  {
    ParseI64OfText(n);
    assert ParseInt("") == None && Trim("") == "";
    assert "1" == IntText(1) && "0" == IntText(0);
    ParseI64OfText(1);
    ParseI64OfText(0);
  }

  // ---- wildcards ------------------------------------------------------------------------------------------

  /** Every byte is the segment's null byte, 0 where the index lists none for it. */
  predicate AllNull(b: seq<byte>, nulls: seq<byte>, k: nat) {
    b != [] && forall i :: 0 <= i < |b| ==> b[i] == if k < |nulls| then nulls[k] else 0
  }

  /** A piece of the key as a segment: a wildcard, or the value of its field. */
  predicate SegmentIs(fields: seq<IntField>, nulls: seq<byte>, wild: bool, cut: Cut, k: nat, segment: Option<SqlValue>) {
    && cut.field < |fields|
    && segment == if wild && AllNull(cut.bytes, nulls, k) then None else Some(DecodeKey(fields[cut.field], cut.bytes))
  }

  predicate SegmentsAre(fields: seq<IntField>, nulls: seq<byte>, wild: bool, cuts: seq<Cut>, at: nat, known: seq<nat>,
                        segments: seq<Option<SqlValue>>)
  {
    && |segments| == |cuts| == |known|
    && forall i :: 0 <= i < |cuts| ==> known[i] >= at && SegmentIs(fields, nulls, wild, cuts[i], known[i] - at, segments[i])
  }

  lemma {:induction false} SegmentsTail(fields: seq<IntField>, nulls: seq<byte>, wild: bool, cuts: seq<Cut>, at: nat, known: seq<nat>,
                                        segments: seq<Option<SqlValue>>)
    requires SegmentsAre(fields, if nulls == [] then [] else nulls[1..], wild, cuts, at + 1, known, segments)
    ensures SegmentsAre(fields, nulls, wild, cuts, at, known, segments)
  {
    var tail := if nulls == [] then [] else nulls[1..];
    forall i | 0 <= i < |cuts|
      ensures known[i] >= at && SegmentIs(fields, nulls, wild, cuts[i], known[i] - at, segments[i])
    {
      var k := known[i] - (at + 1);
      assert SegmentIs(fields, tail, wild, cuts[i], k, segments[i]);
      assert k < |tail| ==> tail[k] == nulls[k + 1];
    }
  }

  lemma {:induction false} SegmentsCons(fields: seq<IntField>, nulls: seq<byte>, wild: bool, cut: Cut, cuts: seq<Cut>, at: nat, known: seq<nat>,
                                        segment: Option<SqlValue>, segments: seq<Option<SqlValue>>)
    requires SegmentIs(fields, nulls, wild, cut, 0, segment) && SegmentsAre(fields, nulls, wild, cuts, at, known, segments)
    ensures SegmentsAre(fields, nulls, wild, [cut] + cuts, at, [at] + known, [segment] + segments)
  {
  }

  lemma {:induction false} FirstSegment(fields: seq<IntField>, nulls: seq<byte>, wild: bool, p: nat, slice: seq<byte>)
    requires p < |fields|
    ensures SegmentIs(fields, nulls, wild, Cut(p, slice), 0,
                      if wild && IsNullSegment(slice, if nulls == [] then 0 else nulls[0]) then None else Some(DecodeKey(fields[p], slice)))
  {
  }

  /** The segments of a search key are its pieces, field by field: where wildcards are allowed, those that hold nothing but the
      null byte of their own segment, however short the list of null bytes is, and the values of the others. */
  lemma {:induction false} SegmentsByPiece(fields: seq<IntField>, nums: seq<nat>, nulls: seq<byte>, key: seq<byte>, at: nat, wild: bool, k: nat)
    ensures SegmentsAre(fields, nulls, wild, Cuts(fields, nums, key, at), k, KnownSegments(fields, nums, k),
                        KeySegments(fields, nums, nulls, key, at, wild))
    decreases |nums|
  {
    if nums != [] {
      var tail := if nulls == [] then [] else nulls[1..];
      match FieldPos(fields, nums[0])
      case None =>
        SegmentsByPiece(fields, nums[1..], tail, key, at, wild, k + 1);
        SegmentsTail(fields, nulls, wild, Cuts(fields, nums[1..], key, at), k, KnownSegments(fields, nums[1..], k + 1),
                     KeySegments(fields, nums[1..], tail, key, at, wild));
        assert KnownSegments(fields, nums, k) == KnownSegments(fields, nums[1..], k + 1);
      case Some(p) =>
        var next, slice := at + fields[p].length, Segment(key, at, fields[p].length);
        SegmentsByPiece(fields, nums[1..], tail, key, next, wild, k + 1);
        SegmentsTail(fields, nulls, wild, Cuts(fields, nums[1..], key, next), k, KnownSegments(fields, nums[1..], k + 1),
                     KeySegments(fields, nums[1..], tail, key, next, wild));
        FirstSegment(fields, nulls, wild, p, slice);
        SegmentsCons(fields, nulls, wild, Cut(p, slice), Cuts(fields, nums[1..], key, next), k, KnownSegments(fields, nums[1..], k + 1),
                     KeySegments(fields, nums, nulls, key, at, wild)[0], KeySegments(fields, nums[1..], tail, key, next, wild));
    }
  }

  /** A piece is cut short where the key ends. */
  lemma {:induction false} PieceBytes(key: seq<byte>, at: nat, len: nat)
    ensures var piece := Segment(key, at, len);
            && |piece| == (if at + len <= |key| then len else if at <= |key| then |key| - at else 0)
            && forall j :: 0 <= j < |piece| ==> piece[j] == key[at + j]
  {
  }

  /** The bytes searched for: those of the buffer, at most as many as the length a key number with a high byte carries, then
      zeros up to the length of the key. */
  lemma {:induction false} SearchedByte(ix: RuntimeIndex, keyNum: int, buf: seq<byte>, i: nat)
    requires -0x8000 <= keyNum < 0x8000 && i < ix.keyLen
    ensures SearchKey(ix, keyNum, buf)[i] == if i < |buf| && (0 <= keyNum < 256 || i < keyNum % 256) then buf[i] else 0
  {
  }
}
