/** The key buffer: what a Get writes into it, and what a key search reads out of it. */
module KeyBuffer {
  import opened Wrappers
  import opened Bytes
  import opened TextUtil
  import opened SqlValues
  import opened Schema
  import opened RecordCodec
  import opened CodecRoundTrip
  import opened Selected

  // ---- writing ---------------------------------------------------------------------------------

  /** A field's bytes of the packed record, padded with zeros where the record is too short. */
  function FieldBytes(f: IntField, packed: seq<byte>): (r: seq<byte>)
    ensures |r| == f.length
  {
    if f.offset + f.length <= |packed| then packed[f.offset..f.offset + f.length]
    else
      var have := if f.offset < |packed| then |packed| - f.offset else 0;
      (if have > 0 then packed[f.offset..] else []) + Zeros(f.length - have)
  }

  /** The fields' bytes one after another; unknown field numbers are skipped. */
  function KeyBytes(fields: seq<IntField>, nums: seq<nat>, packed: seq<byte>): seq<byte> {
    if nums == [] then [] else KeyPart(fields, nums[0], packed) + KeyBytes(fields, nums[1..], packed)
  }

  function KeyPart(fields: seq<IntField>, num: nat, packed: seq<byte>): seq<byte> {
    match FieldPos(fields, num)
    case Some(p) => FieldBytes(fields[p], packed)
    case None => []
  }

  method CopyField(f: IntField, packed: seq<byte>) returns (out: seq<byte>)
    ensures out == FieldBytes(f, packed)
  {
    var start, end := f.offset, f.offset + f.length;
    if end <= |packed| {
      return packed[start..end];
    }
    out := [];
    var avail := if start < |packed| then |packed| - start else 0;
    if avail > 0 {
      out := packed[start..start + avail];
    }
    out := out + Zeros(f.length - avail);
  }

  lemma {:induction false} KeyBytesStep(fields: seq<IntField>, nums: seq<nat>, i: nat, packed: seq<byte>)
    requires i < |nums|
    ensures KeyBytes(fields, nums[i..], packed) == KeyPart(fields, nums[i], packed) + KeyBytes(fields, nums[i + 1..], packed)
  {
    assert nums[i..][1..] == nums[i + 1..];
  }

  /** What is written of the first `i` segments and what the rest will add make up the whole. */
  ghost predicate KeySoFar(fields: seq<IntField>, nums: seq<nat>, i: nat, packed: seq<byte>, key: seq<byte>, whole: seq<byte>) {
    i <= |nums| && whole == key + KeyBytes(fields, nums[i..], packed)
  }

  /** Append one segment to the key written so far. */
  method AppendPart(fields: seq<IntField>, ghost nums: seq<nat>, ghost i: nat, num: nat, packed: seq<byte>, key: seq<byte>,
                    ghost whole: seq<byte>)
    returns (key': seq<byte>)
    requires i < |nums| && num == nums[i] && KeySoFar(fields, nums, i, packed, key, whole)
    ensures KeySoFar(fields, nums, i + 1, packed, key', whole)
  {
    KeyBytesStep(fields, nums, i, packed);
    Regroup(key, KeyPart(fields, num, packed), KeyBytes(fields, nums[i + 1..], packed));
    key' := key;
    var p := FieldPos(fields, num);
    if p.Some? {
      var b := CopyField(fields[p.value], packed);
      key' := key + b;
    } else {
      assert key + [] == key;
    }
  }

  /** `write_key_buf`: nothing is written for an unknown index. */
  method WriteKeyBuf(meta: TableMeta, idxNum: nat, packed: seq<byte>) returns (out: Option<seq<byte>>)
    ensures match FindIndex(meta.indexes, idxNum)
            case None => out == None
            case Some(ix) => out == Some(KeyBytes(meta.fields, ix.fieldNums, packed))
  {
    var ix := FindIndex(meta.indexes, idxNum);
    if ix.None? {
      return None;
    }
    var key := WriteKey(meta.fields, ix.value.fieldNums, packed);
    out := Some(key);
  }

  method WriteKey(fields: seq<IntField>, nums: seq<nat>, packed: seq<byte>) returns (key: seq<byte>)
    ensures key == KeyBytes(fields, nums, packed)
  {
    key := [];
    ghost var whole := KeyBytes(fields, nums, packed);
    assert nums[0..] == nums && [] + whole == whole;
    for i := 0 to |nums|
      invariant KeySoFar(fields, nums, i, packed, key, whole)
    {
      key := AppendPart(fields, nums, i, nums[i], packed, key, whole);
    }
    assert key + [] == key;
  }

  // ---- reading ----------------------------------------------------------------------------------

  function UpToZero(b: seq<byte>): seq<byte> {
    b[..FirstZero(b)]
  }

  /** One segment of `unpack_key_fields`. */
  function DecodeKey(f: IntField, slice: seq<byte>): SqlValue {
    var t := f.nativeType;
    if t == TYPE_STRING || t == TYPE_ZSTRING || t == TYPE_ZSTRING_12 then Text(Latin1(UpToZero(slice)))
    else if t == TYPE_LSTRING then Text(Latin1(UpToZero(if slice != [] then slice[1..] else slice)))
    else if t == TYPE_INT || t == TYPE_AUTOINC || t == TYPE_AUTOINCREMENT then I64(DecodeInt(slice))
    else if t == TYPE_DATE then
      if |slice| >= 4 && !AllZero(slice) && RealDate(slice)
      then Text(DateText(LeNat(slice[2..4]), slice[1], slice[0])) else Null
    else if t == TYPE_TIME then
      if !AllZero(slice) && |slice| >= 4 then Text(TimeText(LeNat(slice[..4]))) else Null
    else if t == TYPE_DECIMAL then I64(DecodeDecimal(slice))
    else if t == TYPE_LOGICAL then Bool(slice != [] && slice[0] != 0)
    else Text(TrimEnd(Latin1(UpToZero(slice))))
  }

  predicate IsNullSegment(slice: seq<byte>, nullByte: byte) {
    slice != [] && forall i :: 0 <= i < |slice| ==> slice[i] == nullByte
  }

  /** A segment's bytes; short when the key buffer ends early. */
  function Segment(key: seq<byte>, at: nat, len: nat): seq<byte> {
    if at < |key| then key[at..Min(at + len, |key|)] else []
  }

  /** The segments from `nums` on, starting at byte `at`; None stands for a wildcard. */
  function KeySegments(fields: seq<IntField>, nums: seq<nat>, nulls: seq<byte>, key: seq<byte>, at: nat, wild: bool):
    seq<Option<SqlValue>>
    decreases |nums|
  {
    if nums == [] then []
    else
      var rest := if nulls == [] then [] else nulls[1..];
      match FieldPos(fields, nums[0])
      case None => KeySegments(fields, nums[1..], rest, key, at, wild)
      case Some(p) =>
        var slice := Segment(key, at, fields[p].length);
        var nullByte := if nulls == [] then 0 else nulls[0];
        [if wild && IsNullSegment(slice, nullByte) then None else Some(DecodeKey(fields[p], slice))]
        + KeySegments(fields, nums[1..], rest, key, at + fields[p].length, wild)
  }

  method UnpackKeyFields(fields: seq<IntField>, ix: RuntimeIndex, key: seq<byte>, wild: bool)
    returns (result: seq<Option<SqlValue>>)
    requires NoFloats(fields)
    ensures result == KeySegments(fields, ix.fieldNums, ix.nullValues, key, 0, wild)
  {
    result := [];
    var kbOffset: nat := 0;
    var nums := ix.fieldNums;
    assert nums[0..] == nums && Drop(ix.nullValues, 0) == ix.nullValues;
    for seg := 0 to |nums|
      invariant KeySegments(fields, nums, ix.nullValues, key, 0, wild)
             == result + KeySegments(fields, nums[seg..], Drop(ix.nullValues, seg), key, kbOffset, wild)
    {
      SegmentsStep(fields, nums, ix.nullValues, key, kbOffset, wild, seg);
      var p := FieldPos(fields, nums[seg]);
      if p.Some? {
        var f := fields[p.value];
        var slice := Segment(key, kbOffset, f.length);
        var nullByte := if seg < |ix.nullValues| then ix.nullValues[seg] else 0;
        var v := if wild && IsNullSegment(slice, nullByte) then None else Some(DecodeKey(f, slice));
        kbOffset := kbOffset + f.length;
        Regroup(result, [v], KeySegments(fields, nums[seg + 1..], Drop(ix.nullValues, seg + 1), key, kbOffset, wild));
        result := result + [v];
      }
    }
    assert nums[|nums|..] == [];
  }

  lemma {:induction false} SegmentsStep(fields: seq<IntField>, nums: seq<nat>, nulls: seq<byte>, key: seq<byte>, at: nat,
                                        wild: bool, seg: nat)
    requires seg < |nums|
    ensures KeySegments(fields, nums[seg..], Drop(nulls, seg), key, at, wild) ==
              match FieldPos(fields, nums[seg])
              case None => KeySegments(fields, nums[seg + 1..], Drop(nulls, seg + 1), key, at, wild)
              case Some(p) =>
                var slice := Segment(key, at, fields[p].length);
                var nullByte := if seg < |nulls| then nulls[seg] else 0;
                [if wild && IsNullSegment(slice, nullByte) then None else Some(DecodeKey(fields[p], slice))]
                + KeySegments(fields, nums[seg + 1..], Drop(nulls, seg + 1), key, at + fields[p].length, wild)
  {
    assert nums[seg..][1..] == nums[seg + 1..] && nums[seg..][0] == nums[seg];
    var now := Drop(nulls, seg);
    assert Drop(nulls, seg + 1) == if now == [] then [] else now[1..];
  }

  function Drop(s: seq<byte>, n: nat): seq<byte> {
    if n <= |s| then s[n..] else []
  }

  // ---- what is written reads back -------------------------------------------------------------------

  predicate IntFits(n: int, width: nat) {
    match width
    case 1 => 0 <= n < 256
    case 2 => -0x8000 <= n < 0x8000
    case 4 => -0x8000_0000 <= n < 0x8000_0000
    case 8 => -0x8000_0000_0000_0000 <= n < 0x8000_0000_0000_0000
    case _ => false
  }

  predicate CanonicalDate(val: string) {
    exists y: nat, m: nat, d: nat | 1 <= y <= 9999 && 1 <= m <= 12 && 1 <= d <= 31 :: val == DateText(y, m, d)
  }

  predicate CanonicalTime(val: string) {
    exists t: nat | 0 < t < 100_000_000 :: t % 100 == 0 && val == TimeText(t)
  }

  /** Column text that a key segment reproduces. */
  predicate Canonical(f: IntField, val: string) {
    var t := f.nativeType;
    if t == TYPE_INT || t == TYPE_AUTOINC then IntFits(ParseI64(val), f.length)
    else if t == TYPE_STRING then
      f.length > 0 && |val| == f.length && forall i :: 0 <= i < |val| ==> 0 < val[i] as int < 128
    else if t == TYPE_DATE then f.length >= 4 && CanonicalDate(val)
    else if t == TYPE_TIME then f.length >= 4 && CanonicalTime(val)
    else false
  }

  lemma {:induction false} Utf8OfAscii(s: string)
    requires forall i :: 0 <= i < |s| ==> 0 < s[i] as int < 128
    ensures |Utf8(s)| == |s| && Latin1(Utf8(s)) == s && forall i :: 0 <= i < |s| ==> Utf8(s)[i] != 0
  {
    if s != "" {
      Utf8OfAscii(s[1..]);
      var b := Utf8(s);
      assert b == [s[0] as int] + Utf8(s[1..]);
      assert b[1..] == Utf8(s[1..]);
      assert forall i :: 1 <= i < |s| ==> b[i] == Utf8(s[1..])[i - 1];
      assert Latin1(b) == [s[0]] + Latin1(Utf8(s[1..]));
    }
  }

  lemma {:induction false} IntSliceDecodes(f: IntField, n: int)
    requires f.nativeType in {TYPE_INT, TYPE_AUTOINC} && IntFits(n, f.length)
    ensures DecodeKey(f, LeBytes(n, f.length)) == I64(n)
  {
    var w := f.length;
    Pow256Eight();
    if w == 1 {
      assert LeBytes(n, 1)[0] == n;
    } else {
      LeIntOfBytes(n, w);
      assert LeBytes(n, w)[..w] == LeBytes(n, w);
    }
  }

  lemma {:induction false} IntKeyReads(f: IntField, val: string)
    requires f.nativeType in {TYPE_INT, TYPE_AUTOINC} && Canonical(f, val)
    ensures DecodeKey(f, PackSlot(f.nativeType, Zeros(f.length), val)) == ColToSqlParam(f, val)
  {
    var n, w := ParseI64(val), f.length;
    LeBytesPrefix(n, 8, w);
    assert PackSlot(f.nativeType, Zeros(w), val) == LeBytes(n, w);
    IntSliceDecodes(f, n);
  }

  lemma {:induction false} StringKeyReads(f: IntField, val: string)
    requires f.nativeType == TYPE_STRING && Canonical(f, val)
    ensures DecodeKey(f, PackSlot(f.nativeType, Zeros(f.length), val)) == ColToSqlParam(f, val)
  {
    Utf8OfAscii(val);
    var b := Utf8(val);
    assert PadText(b, f.length, 32) == b;
    assert FirstZero(b) == |b|;
    assert b[..|b|] == b;
  }

  lemma {:induction false} DateSliceDecodes(f: IntField, rest: seq<byte>, y: nat, m: nat, d: nat)
    requires f.nativeType == TYPE_DATE && 1 <= y <= 9999 && 1 <= m <= 12 && 1 <= d <= 31
    ensures DecodeKey(f, [d, m] + LeBytes(y, 2) + rest) == Text(DateText(y, m, d))
  {
    var slice := [d, m] + LeBytes(y, 2) + rest;
    Pow256Eight();
    LeNatOfBytes(y, 2);
    assert slice[2..4] == LeBytes(y, 2);
    assert slice[0] == d && slice[1] == m;
  }

  lemma {:induction false} DateKeyReads(f: IntField, val: string, y: nat, m: nat, d: nat)
    requires f.nativeType == TYPE_DATE && f.length >= 4
    requires 1 <= y <= 9999 && 1 <= m <= 12 && 1 <= d <= 31 && val == DateText(y, m, d)
    ensures DecodeKey(f, PackSlot(f.nativeType, Zeros(f.length), val)) == Text(val)
  {
    var slot := Zeros(f.length);
    DateSlotWrites(slot, val, y, m, d);
    DateSliceDecodes(f, slot[4..], y, m, d);
  }

  lemma {:induction false} TimeSliceDecodes(f: IntField, rest: seq<byte>, t: nat)
    requires f.nativeType == TYPE_TIME && 0 < t < 100_000_000
    ensures DecodeKey(f, LeBytes(t, 4) + rest) == Text(TimeText(t))
  {
    var slice := LeBytes(t, 4) + rest;
    Pow256Eight();
    LeNatOfBytes(t, 4);
    assert slice[..4] == LeBytes(t, 4);
    NonZero(LeBytes(t, 4));
    var i :| 0 <= i < 4 && LeBytes(t, 4)[i] != 0;
    assert slice[i] != 0;
  }

  lemma {:induction false} TimeKeyReads(f: IntField, val: string)
    requires f.nativeType == TYPE_TIME && Canonical(f, val)
    ensures DecodeKey(f, PackSlot(f.nativeType, Zeros(f.length), val)) == ColToSqlParam(f, val)
  {
    var t: nat :| 0 < t < 100_000_000 && t % 100 == 0 && val == TimeText(t);
    var slot := Zeros(f.length);
    TimeSlotWrites(slot, val, t);
    TimeSliceDecodes(f, slot[4..], t);
  }

  lemma {:induction false} NonZero(b: seq<byte>)
    ensures AllZero(b) ==> LeNat(b) == 0
  {
    if b != [] {
      NonZero(b[1..]);
      if AllZero(b) {
        assert AllZero(b[1..]);
      }
    }
  }

  /** Packing a canonical value and decoding it as a key segment gives the value kept for it. */
  lemma {:induction false} KeyReads(f: IntField, val: string)
    requires Canonical(f, val)
    ensures DecodeKey(f, PackSlot(f.nativeType, Zeros(f.length), val)) == ColToSqlParam(f, val)
  {
    var t := f.nativeType;
    if t == TYPE_INT || t == TYPE_AUTOINC { IntKeyReads(f, val); }
    else if t == TYPE_STRING { StringKeyReads(f, val); }
    else if t == TYPE_DATE {
      var y: nat, m: nat, d: nat :| 1 <= y <= 9999 && 1 <= m <= 12 && 1 <= d <= 31 && val == DateText(y, m, d);
      DateKeyReads(f, val, y, m, d);
    }
    else { TimeKeyReads(f, val); }
  }

  // ---- the packed record of a row -----------------------------------------------------------------------

  predicate Apart(f: IntField, g: IntField) {
    f.offset + f.length <= g.offset || g.offset + g.length <= f.offset
  }

  /** No other field shares a byte with field `p`. */
  predicate Alone(fields: seq<IntField>, p: nat)
    requires p < |fields|
  {
    forall q :: 0 <= q < |fields| && q != p ==> Apart(fields[p], fields[q])
  }

  /** The field's bytes of a buffer. */
  function SlotOf(f: IntField, buf: seq<byte>): (r: seq<byte>)
    requires Fits(f, |buf|)
    ensures |r| == f.length
  {
    buf[f.offset..f.offset + f.length]
  }

  lemma {:induction false} SpliceSlot(buf: seq<byte>, at: nat, b: seq<byte>, other: nat, len: nat)
    requires at + |b| <= |buf| && other + len <= |buf|
    ensures Splice(buf, at, b)[at..at + |b|] == b
    ensures at + |b| <= other || other + len <= at ==> Splice(buf, at, b)[other..other + len] == buf[other..other + len]
  {
  }

  lemma {:induction false} PackFieldKeepsSlot(f: IntField, g: IntField, val: string, buf: seq<byte>)
    requires Apart(f, g) && Fits(f, |buf|)
    ensures SlotOf(f, PackField(g, val, buf)) == SlotOf(f, buf)
  {
    if Fits(g, |buf|) {
      SpliceSlot(buf, g.offset, PackSlot(g.nativeType, SlotOf(g, buf), val), f.offset, f.length);
    }
  }

  lemma {:induction false} PackFieldSetsSlot(f: IntField, val: string, buf: seq<byte>)
    requires Fits(f, |buf|)
    ensures SlotOf(f, PackField(f, val, buf)) == PackSlot(f.nativeType, SlotOf(f, buf), val)
  {
    SpliceSlot(buf, f.offset, PackSlot(f.nativeType, SlotOf(f, buf), val), 0, 0);
  }

  lemma {:induction false} PackAllKeepsSlot(f: IntField, fields: seq<IntField>, vals: seq<string>, buf: seq<byte>)
    requires Fits(f, |buf|) && forall q :: 0 <= q < |fields| ==> Apart(f, fields[q])
    ensures SlotOf(f, PackAll(fields, vals, buf)) == SlotOf(f, buf)
    decreases |fields|
  {
    if fields != [] && vals != [] {
      PackFieldKeepsSlot(f, fields[0], vals[0], buf);
      PackAllKeepsSlot(f, fields[1..], vals[1..], PackField(fields[0], vals[0], buf));
    }
  }

  /** The slot of a field that no other field touches holds just its own value. */
  lemma {:induction false} SlotOfField(fields: seq<IntField>, vals: seq<string>, buf: seq<byte>, p: nat)
    requires p < |fields| == |vals| && Fits(fields[p], |buf|) && Alone(fields, p)
    ensures SlotOf(fields[p], PackAll(fields, vals, buf))
         == PackSlot(fields[p].nativeType, SlotOf(fields[p], buf), vals[p])
    decreases |fields|
  {
    var f := fields[p];
    var next := PackField(fields[0], vals[0], buf);
    var fs, vs := fields[1..], vals[1..];
    if p == 0 {
      PackFieldSetsSlot(f, vals[0], buf);
      assert forall q :: 0 <= q < |fs| ==> fs[q] == fields[q + 1];
      PackAllKeepsSlot(f, fs, vs, next);
    } else {
      assert Apart(f, fields[0]);
      PackFieldKeepsSlot(f, fields[0], vals[0], buf);
      assert fs[p - 1] == f && vs[p - 1] == vals[p];
      assert forall q :: 0 <= q < |fs| ==> fs[q] == fields[q + 1];
      SlotOfField(fs, vs, next, p - 1);
    }
  }

  /** Every field the index names is in range, untouched by others, and holds canonical text. */
  predicate KeyFieldsOk(fields: seq<IntField>, nums: seq<nat>, vals: seq<string>, n: nat)
    requires |fields| == |vals|
  {
    forall i :: 0 <= i < |nums| ==>
      match FieldPos(fields, nums[i])
      case None => true
      case Some(p) => Fits(fields[p], n) && Alone(fields, p) && Canonical(fields[p], vals[p])
  }

  /** A piece of a key and the field it belongs to. */
  datatype Cut = Cut(field: nat, bytes: seq<byte>)

  /** The pieces a key is cut into. */
  function Cuts(fields: seq<IntField>, nums: seq<nat>, key: seq<byte>, at: nat): (r: seq<Cut>)
    ensures forall i :: 0 <= i < |r| ==> r[i].field < |fields|
    decreases |nums|
  {
    if nums == [] then []
    else
      match FieldPos(fields, nums[0])
      case None => Cuts(fields, nums[1..], key, at)
      case Some(p) => [Cut(p, Segment(key, at, fields[p].length))] + Cuts(fields, nums[1..], key, at + fields[p].length)
  }

  /** The pieces a key is put together from. */
  function FieldCuts(fields: seq<IntField>, nums: seq<nat>, packed: seq<byte>): (r: seq<Cut>)
    ensures forall i :: 0 <= i < |r| ==> r[i].field < |fields| && r[i].bytes == FieldBytes(fields[r[i].field], packed)
    decreases |nums|
  {
    if nums == [] then []
    else
      match FieldPos(fields, nums[0])
      case None => FieldCuts(fields, nums[1..], packed)
      case Some(p) => [Cut(p, FieldBytes(fields[p], packed))] + FieldCuts(fields, nums[1..], packed)
  }

  function Decoded(fields: seq<IntField>, cs: seq<Cut>): (r: seq<Option<SqlValue>>)
    requires forall i :: 0 <= i < |cs| ==> cs[i].field < |fields|
    ensures |r| == |cs|
  {
    seq(|cs|, i requires 0 <= i < |cs| => Some(DecodeKey(fields[cs[i].field], cs[i].bytes)))
  }

  lemma {:induction false} DecodedCons(fields: seq<IntField>, c: Cut, cs: seq<Cut>)
    requires c.field < |fields| && forall i :: 0 <= i < |cs| ==> cs[i].field < |fields|
    ensures Decoded(fields, [c] + cs) == [Some(DecodeKey(fields[c.field], c.bytes))] + Decoded(fields, cs)
  {
  }

  /** Without wildcards the segments of a key are its pieces decoded. */
  lemma {:induction false} SegmentsAreCuts(fields: seq<IntField>, nums: seq<nat>, nulls: seq<byte>, key: seq<byte>, at: nat)
    ensures KeySegments(fields, nums, nulls, key, at, false) == Decoded(fields, Cuts(fields, nums, key, at))
    decreases |nums|
  {
    if nums != [] {
      var rest := if nulls == [] then [] else nulls[1..];
      match FieldPos(fields, nums[0])
      case None => SegmentsAreCuts(fields, nums[1..], rest, key, at);
      case Some(p) =>
        SegmentsAreCuts(fields, nums[1..], rest, key, at + fields[p].length);
        DecodedCons(fields, Cut(p, Segment(key, at, fields[p].length)), Cuts(fields, nums[1..], key, at + fields[p].length));
    }
  }

  /** A key is cut into the pieces it was put together from. */
  lemma {:induction false} KeyIsCut(fields: seq<IntField>, nums: seq<nat>, packed: seq<byte>, key: seq<byte>, at: nat)
    requires at <= |key| && key[at..] == KeyBytes(fields, nums, packed)
    ensures Cuts(fields, nums, key, at) == FieldCuts(fields, nums, packed)
    decreases |nums|
  {
    if nums != [] {
      match FieldPos(fields, nums[0])
      case None =>
        KeyBytesSkip(fields, nums, packed);
        KeyIsCut(fields, nums[1..], packed, key, at);
      case Some(p) =>
        var b := FieldBytes(fields[p], packed);
        KeyBytesCons(fields, nums, packed, p);
        SegmentAhead(key, at, b, KeyBytes(fields, nums[1..], packed));
        KeyIsCut(fields, nums[1..], packed, key, at + |b|);
    }
  }

  lemma {:induction false} KeyBytesCons(fields: seq<IntField>, nums: seq<nat>, packed: seq<byte>, p: nat)
    requires nums != [] && FieldPos(fields, nums[0]) == Some(p)
    ensures KeyBytes(fields, nums, packed) == FieldBytes(fields[p], packed) + KeyBytes(fields, nums[1..], packed)
  {
  }

  lemma {:induction false} KeyBytesSkip(fields: seq<IntField>, nums: seq<nat>, packed: seq<byte>)
    requires nums != [] && FieldPos(fields, nums[0]) == None
    ensures KeyBytes(fields, nums, packed) == KeyBytes(fields, nums[1..], packed)
  {
    var tail := KeyBytes(fields, nums[1..], packed);
    assert [] + tail == tail;
  }

  lemma {:induction false} SegmentAhead(key: seq<byte>, at: nat, b: seq<byte>, tail: seq<byte>)
    requires at <= |key| && key[at..] == b + tail
    ensures Segment(key, at, |b|) == b && at + |b| <= |key| && key[at + |b|..] == tail
  {
    assert |key| - at == |b| + |tail|;
    assert key[at..at + |b|] == key[at..][..|b|] == b;
    assert key[at + |b|..] == key[at..][|b|..] == tail;
  }

  lemma {:induction false} SomesPrepend(v: SqlValue, vs: seq<SqlValue>)
    ensures Somes([v] + vs) == [Some(v)] + Somes(vs)
  {
  }

  /** The bytes of key field `p` decode to the value kept for it. */
  lemma {:induction false} FieldBytesDecode(fields: seq<IntField>, vals: seq<string>, n: nat, p: nat)
    requires p < |fields| == |vals| && Fits(fields[p], n) && Alone(fields, p) && Canonical(fields[p], vals[p])
    ensures DecodeKey(fields[p], FieldBytes(fields[p], PackAll(fields, vals, Zeros(n)))) == ColToSqlParam(fields[p], vals[p])
    ensures fields[p].length > 0
  {
    var f := fields[p];
    SlotOfField(fields, vals, Zeros(n), p);
    assert SlotOf(f, Zeros(n)) == Zeros(f.length);
    KeyReads(f, vals[p]);
    assert FieldBytes(f, PackAll(fields, vals, Zeros(n))) == SlotOf(f, PackAll(fields, vals, Zeros(n)));
  }

  lemma {:induction false} KeyFieldsRest(fields: seq<IntField>, nums: seq<nat>, vals: seq<string>, n: nat)
    requires |fields| == |vals| && KeyFieldsOk(fields, nums, vals, n) && nums != []
    ensures KeyFieldsOk(fields, nums[1..], vals, n)
  {
    assert forall i :: 0 <= i < |nums| - 1 ==> nums[1..][i] == nums[i + 1];
  }

  /** The pieces decode to the values kept for their fields. */
  lemma {:induction false} CutsDecode(fields: seq<IntField>, nums: seq<nat>, vals: seq<string>, n: nat, packed: seq<byte>)
    requires |fields| == |vals| && KeyFieldsOk(fields, nums, vals, n) && packed == PackAll(fields, vals, Zeros(n))
    ensures Decoded(fields, FieldCuts(fields, nums, packed)) == Somes(ValsFrom(fields, nums, Params(fields, vals)))
    decreases |nums|
  {
    if nums != [] {
      KeyFieldsRest(fields, nums, vals, n);
      CutsDecode(fields, nums[1..], vals, n, packed);
      match FieldPos(fields, nums[0])
      case None =>
      case Some(p) =>
        FieldBytesDecode(fields, vals, n, p);
        DecodedCons(fields, Cut(p, FieldBytes(fields[p], packed)), FieldCuts(fields, nums[1..], packed));
        SomesPrepend(Params(fields, vals)[p], ValsFrom(fields, nums[1..], Params(fields, vals)));
    }
  }

  /** After a successful Get, decoding the key buffer it wrote gives, segment by segment, the values
      kept as the last keys, also when the index names fields the table does not have. */
  lemma {:induction false} KeyBufferDecodes(meta: TableMeta, idxNum: nat, vals: seq<string>)
    requires |meta.fields| == |vals| && FindIndex(meta.indexes, idxNum).Some?
    requires KeyFieldsOk(meta.fields, FindIndex(meta.indexes, idxNum).value.fieldNums, vals, meta.recordLength)
    ensures var ix := FindIndex(meta.indexes, idxNum).value;
            var packed := PackAll(meta.fields, vals, Zeros(meta.recordLength));
            KeySegments(meta.fields, ix.fieldNums, ix.nullValues, KeyBytes(meta.fields, ix.fieldNums, packed), 0, false)
              == Somes(KeysOfTexts(meta, idxNum, vals))
  {
    var ix := FindIndex(meta.indexes, idxNum).value;
    var packed := PackAll(meta.fields, vals, Zeros(meta.recordLength));
    var key := KeyBytes(meta.fields, ix.fieldNums, packed);
    assert key[0..] == key;
    SegmentsAreCuts(meta.fields, ix.fieldNums, ix.nullValues, key, 0);
    KeyIsCut(meta.fields, ix.fieldNums, packed, key, 0);
    CutsDecode(meta.fields, ix.fieldNums, vals, meta.recordLength, packed);
  }
}
