/** Rendering an INT file and parsing it again: the table comes back in a normal form, and exactly when
    a second rendering gives the same text. */
module IntRoundTrip {
  import opened Wrappers
  import opened Decimal
  import opened TextUtil
  import opened Schema
  import opened IntLines
  import opened IntFiles
  import opened IntReading

  // ---- the tables the file format is for ------------------------------------------------------------------------

  /** The integers have the widths of the program's types, and names and defaults stand on one line
      with nothing to trim. */
  predicate FieldOk(f: IntField) {
    && f.num < U32_END && f.length < U32_END && f.offset < U32_END && -0x8000_0000 <= f.nativeType < 0x8000_0000
    && (f.fieldIndex.Some? ==> f.fieldIndex.value < U32_END)
    && ValueOk(f.name) && (f.defaultValue.Some? ==> ValueOk(f.defaultValue.value))
  }

  predicate SegmentOk(seg: IndexSegment) {
    seg.fieldNum < U32_END && seg.attrs < U16_END
  }

  predicate IndexOk(ix: IntIndex) {
    ix.num < U32_END && |ix.segments| < U32_END && forall i :: 0 <= i < |ix.segments| ==> SegmentOk(ix.segments[i])
  }

  predicate FileOk(f: IntFile, server: string) {
    && ValueOk(f.tableName) && ValueOk(f.schemaName) && ValueOk(f.dbName) && ValueOk(server)
    && f.recordLength < U32_END && f.pageSize < U16_END && f.fileFlags < U16_END
    && (f.primaryIndex.Some? ==> f.primaryIndex.value < U32_END)
    && |f.fields| < U32_END && (forall i :: 0 <= i < |f.fields| ==> FieldOk(f.fields[i]))
    && (forall i :: 0 <= i < |f.indexes| ==> IndexOk(f.indexes[i]))
  }

  // ---- the normal form ----------------------------------------------------------------------------------------------

  /** An empty default is none. */
  function NormField(f: IntField): IntField {
    f.(defaultValue := if f.defaultValue == Some("") then None else f.defaultValue)
  }

  /** Fields without a name are lost. */
  function NormFields(fields: seq<IntField>): seq<IntField> {
    if fields == [] then []
    else
      var f := fields[|fields| - 1];
      NormFields(fields[..|fields| - 1]) + if f.name == "" then [] else [NormField(f)]
  }

  /** Segments of field 0 are lost, and no segment keeps a null value. */
  function NormSegments(segs: seq<IndexSegment>): seq<IndexSegment> {
    if segs == [] then []
    else
      var seg := segs[|segs| - 1];
      NormSegments(segs[..|segs| - 1]) + if seg.fieldNum == 0 then [] else [seg.(nullValue := 0)]
  }

  /** Indexes without a segment left are lost; the declared count is that of the segments written. */
  function NormIndexes(ixs: seq<IntIndex>): seq<IntIndex> {
    if ixs == [] then []
    else
      var ix := ixs[|ixs| - 1];
      var segs := NormSegments(ix.segments);
      NormIndexes(ixs[..|ixs| - 1]) + if segs == [] then [] else [IntIndex(ix.num, |ix.segments|, segs)]
  }

  function NormalForm(f: IntFile, server: string, source: string): IntFile {
    var fields := NormFields(f.fields);
    IntFile(
      f.tableName, f.schemaName, f.dbName, f.recordLength, f.pageSize, f.fileFlags,
      f.ignoreNullValues, f.trimStringFields, f.translateOemToAnsi, f.primaryIndex, f.localCache,
      if server != "" then "SQL_BTR" else "", server, false, 0, source,
      fields, FinalIndexes(NormIndexes(f.indexes), fields))
  }

  // ---- numbers as values ----------------------------------------------------------------------------------------------

  lemma {:induction false} DigitsOk(s: string)
    requires s != "" && AllDigits(s)
    ensures ValueOk(s) && NoWhite(s) && Trim(s) == s
  {
    assert IsDigit(s[0]) && IsDigit(s[|s| - 1]);
    assert forall i :: 0 <= i < |s| ==> IsDigit(s[i]);
    TrimTrimmed(s);
  }

  lemma {:induction false} NatOk(n: nat, end: nat)
    requires n < end
    ensures ValueOk(NatText(n)) && NoWhite(NatText(n)) && NatText(n) != "" && Trim(NatText(n)) == NatText(n)
    ensures ParseBelow(NatText(n), end) == Some(n)
  {
    NatTextDigits(n);
    NatTextRoundTrip(n);
    DigitsOk(NatText(n));
  }

  lemma {:induction false} IntOk(n: int)
    requires -0x8000_0000 <= n < 0x8000_0000
    ensures ValueOk(IntText(n)) && ParseI32(IntText(n)) == Some(n)
  {
    IntTextRoundTrip(n);
    if n < 0 {
      NatTextDigits(-n);
      var s, t := IntText(n), NatText(-n);
      assert forall i :: 1 <= i < |s| ==> s[i] == t[i - 1] && IsDigit(t[i - 1]);
    } else {
      NatTextDigits(n);
      DigitsOk(NatText(n));
    }
  }

  // ---- documents are well formed --------------------------------------------------------------------------------------------

  /** Keys of the header, of a field, of an index. */
  datatype Part = HeaderPart | FieldPart | IndexPart

  predicate KeyIn(part: Part, k: Key) {
    k != OtherKey &&
    match part
    case HeaderPart => !IsFieldKey(k) && !IsIndexKey(k)
    case FieldPart => IsFieldKey(k)
    case IndexPart => IsIndexKey(k)
  }

  /** A well-formed document of one part. */
  predicate PartOk(part: Part, es: seq<Option<Entry>>) {
    forall i :: 0 <= i < |es| ==> LineOk(es[i]) && (es[i].Some? ==> KeyIn(part, es[i].value.key))
  }

  lemma {:induction false} PartLine(part: Part, doc: seq<Option<Entry>>, c: bool, k: Key, val: string)
    requires PartOk(part, doc) && (c ==> KeyIn(part, k) && LineOk(Some(Entry(k, val))))
    ensures PartOk(part, doc + LineIf(c, k, val))
  {
  }

  lemma {:induction false} PartAppend(part: Part, a: seq<Option<Entry>>, b: seq<Option<Entry>>)
    requires PartOk(part, a) && PartOk(part, b)
    ensures PartOk(part, a + b)
  {
  }

  lemma {:induction false} LineAlone(part: Part, c: bool, k: Key, val: string)
    requires c ==> KeyIn(part, k) && LineOk(Some(Entry(k, val)))
    ensures PartOk(part, LineIf(c, k, val))
  {
  }

  lemma {:induction false} FourParts(part: Part, a: seq<Option<Entry>>, b: seq<Option<Entry>>, c: seq<Option<Entry>>, d: seq<Option<Entry>>)
    requires PartOk(part, a) && PartOk(part, b) && PartOk(part, c) && PartOk(part, d)
    ensures PartOk(part, a + b + c + d)
  {
    PartAppend(part, a, b);
    PartAppend(part, a + b, c);
    PartAppend(part, a + b + c, d);
  }

  lemma {:induction false} PartIsOk(part: Part, es: seq<Option<Entry>>)
    requires PartOk(part, es)
    ensures DocOk(es) && (!part.FieldPart? ==> NoFieldKeys(es)) && (!part.IndexPart? ==> NoIndexKeys(es))
  {
  }

  lemma {:induction false} ServerDocOk(f: IntFile, server: string)
    requires FileOk(f, server)
    ensures PartOk(HeaderPart, LineIf(server != "", DRIVER_NAME, "SQL_BTR") + LineIf(server != "", SERVER_NAME, server))
  {
    LineAlone(HeaderPart, server != "", DRIVER_NAME, "SQL_BTR");
    PartLine(HeaderPart, LineIf(server != "", DRIVER_NAME, "SQL_BTR"), server != "", SERVER_NAME, server);
  }

  lemma {:induction false} NamesDocOk(f: IntFile, server: string)
    requires FileOk(f, server)
    ensures PartOk(HeaderPart, NamesDoc(f, server))
  {
    var d := LineIf(server != "", DRIVER_NAME, "SQL_BTR") + LineIf(server != "", SERVER_NAME, server);
    ServerDocOk(f, server);
    LineAlone(HeaderPart, f.dbName != "", DATABASE_SPACE_NAME, f.dbName);
    LineAlone(HeaderPart, true, TABLE_NAME, f.tableName);
    LineAlone(HeaderPart, true, SCHEMA_NAME, f.schemaName);
    FourParts(HeaderPart, d, LineIf(f.dbName != "", DATABASE_SPACE_NAME, f.dbName),
              Line(TABLE_NAME, f.tableName), Line(SCHEMA_NAME, f.schemaName));
  }

  lemma {:induction false} SizesOk(f: IntFile, server: string)
    requires FileOk(f, server)
    ensures LineOk(Some(Entry(LOGICAL_RECORD_LENGTH, NatText(f.recordLength)))) && LineOk(Some(Entry(PAGE_SIZE, NatText(f.pageSize))))
    ensures LineOk(Some(Entry(FILE_FLAGS, NatText(f.fileFlags))))
  {
    NatOk(f.recordLength, U32_END);
    NatOk(f.pageSize, U16_END);
    NatOk(f.fileFlags, U16_END);
  }

  lemma {:induction false} SizesDocOk(f: IntFile, server: string)
    requires FileOk(f, server)
    ensures PartOk(HeaderPart, SizesDoc(f))
  {
    var d := Line(LOGICAL_RECORD_LENGTH, NatText(f.recordLength));
    SizesOk(f, server);
    PartLine(HeaderPart, d, f.pageSize > 0, PAGE_SIZE, NatText(f.pageSize));
    PartLine(HeaderPart, d + LineIf(f.pageSize > 0, PAGE_SIZE, NatText(f.pageSize)),
             f.fileFlags > 0, FILE_FLAGS, NatText(f.fileFlags));
  }

  lemma {:induction false} OptionsDocOk(f: IntFile)
    ensures PartOk(HeaderPart, OptionsDoc(f))
  {
    var d := LineIf(f.ignoreNullValues, IGNORE_NULL_VALUES, "1");
    PartLine(HeaderPart, d, f.trimStringFields, TRIM_STRING_FIELDS, "1");
    PartLine(HeaderPart, d + LineIf(f.trimStringFields, TRIM_STRING_FIELDS, "1"),
             f.translateOemToAnsi, TRANSLATE_OEM_TO_ANSI, "1");
  }

  lemma {:induction false} CacheDocOk(f: IntFile, server: string)
    requires FileOk(f, server)
    ensures PartOk(HeaderPart, CacheDoc(f))
  {
    var d := LineIf(f.localCache, LOCAL_CACHE, "YES");
    if f.primaryIndex.Some? {
      NatOk(f.primaryIndex.value, U32_END);
    }
    PartLine(HeaderPart, d, f.primaryIndex.Some?, PRIMARY_INDEX, OptText(f.primaryIndex));
    PartAppend(HeaderPart, d + LineIf(f.primaryIndex.Some?, PRIMARY_INDEX, OptText(f.primaryIndex)), BLANK);
  }

  lemma {:induction false} HeaderDocOk(f: IntFile, server: string)
    requires FileOk(f, server)
    ensures PartOk(HeaderPart, HeaderDoc(f, server))
  {
    NamesDocOk(f, server);
    SizesDocOk(f, server);
    OptionsDocOk(f);
    CacheDocOk(f, server);
    PartAppend(HeaderPart, NamesDoc(f, server), SizesDoc(f));
    PartAppend(HeaderPart, NamesDoc(f, server) + SizesDoc(f), OptionsDoc(f));
    PartAppend(HeaderPart, NamesDoc(f, server) + SizesDoc(f) + OptionsDoc(f), CacheDoc(f));
  }

  lemma {:induction false} FieldNumbersOk(f: IntField)
    requires FieldOk(f)
    ensures LineOk(Some(Entry(FIELD_NUMBER, NatText(f.num)))) && LineOk(Some(Entry(FIELD_NATIVE_TYPE, IntText(f.nativeType))))
    ensures LineOk(Some(Entry(FIELD_NATIVE_LENGTH, NatText(f.length)))) && LineOk(Some(Entry(FIELD_NATIVE_OFFSET, NatText(f.offset))))
    ensures f.fieldIndex.Some? ==> LineOk(Some(Entry(FIELD_INDEX, OptText(f.fieldIndex))))
  {
    NatOk(f.num, U32_END);
    IntOk(f.nativeType);
    NatOk(f.length, U32_END);
    NatOk(f.offset, U32_END);
    if f.fieldIndex.Some? {
      NatOk(f.fieldIndex.value, U32_END);
    }
  }

  lemma {:induction false} FieldHeadOk(f: IntField)
    requires FieldOk(f)
    ensures PartOk(FieldPart, Line(FIELD_NUMBER, NatText(f.num)) + Line(FIELD_NAME, f.name)
                              + Line(FIELD_NATIVE_TYPE, IntText(f.nativeType)) + Line(FIELD_NATIVE_LENGTH, NatText(f.length)))
  {
    FieldNumbersOk(f);
    var d := Line(FIELD_NUMBER, NatText(f.num));
    PartLine(FieldPart, d, true, FIELD_NAME, f.name);
    d := d + Line(FIELD_NAME, f.name);
    PartLine(FieldPart, d, true, FIELD_NATIVE_TYPE, IntText(f.nativeType));
    PartLine(FieldPart, d + Line(FIELD_NATIVE_TYPE, IntText(f.nativeType)), true, FIELD_NATIVE_LENGTH, NatText(f.length));
  }

  lemma {:induction false} FieldTailOk(f: IntField)
    requires FieldOk(f)
    ensures PartOk(FieldPart, Line(FIELD_NATIVE_OFFSET, NatText(f.offset)))
    ensures PartOk(FieldPart, LineIf(f.fieldIndex.Some?, FIELD_INDEX, OptText(f.fieldIndex)))
    ensures PartOk(FieldPart, LineIf(f.defaultValue.Some?, FIELD_DEFAULT_VALUE, Or(f.defaultValue, "")))
  {
    FieldNumbersOk(f);
    LineAlone(FieldPart, true, FIELD_NATIVE_OFFSET, NatText(f.offset));
    LineAlone(FieldPart, f.fieldIndex.Some?, FIELD_INDEX, OptText(f.fieldIndex));
    LineAlone(FieldPart, f.defaultValue.Some?, FIELD_DEFAULT_VALUE, Or(f.defaultValue, ""));
  }

  lemma {:induction false} FieldDocOk(f: IntField)
    requires FieldOk(f)
    ensures PartOk(FieldPart, FieldDoc(f))
  {
    var head := Line(FIELD_NUMBER, NatText(f.num)) + Line(FIELD_NAME, f.name)
                + Line(FIELD_NATIVE_TYPE, IntText(f.nativeType)) + Line(FIELD_NATIVE_LENGTH, NatText(f.length));
    var offset, index := Line(FIELD_NATIVE_OFFSET, NatText(f.offset)), LineIf(f.fieldIndex.Some?, FIELD_INDEX, OptText(f.fieldIndex));
    var def := LineIf(f.defaultValue.Some?, FIELD_DEFAULT_VALUE, Or(f.defaultValue, ""));
    FieldHeadOk(f);
    FieldTailOk(f);
    FourParts(FieldPart, head, offset, index, def);
    PartAppend(FieldPart, head + offset + index + def, BLANK);
  }

  lemma {:induction false} FieldsDocOk(fields: seq<IntField>)
    requires forall i :: 0 <= i < |fields| ==> FieldOk(fields[i])
    ensures PartOk(FieldPart, FieldsDoc(fields))
  {
    if fields != [] {
      FieldsDocOk(fields[..|fields| - 1]);
      FieldDocOk(fields[|fields| - 1]);
      PartAppend(FieldPart, FieldsDoc(fields[..|fields| - 1]), FieldDoc(fields[|fields| - 1]));
    }
  }

  lemma {:induction false} WordOk()
    ensures ValueOk("DESCENDING") && NoWhite("DESCENDING") && Trim("DESCENDING") == "DESCENDING"
    ensures ValueOk("0") && NoWhite("0") && ValueOk("-1") && NoWhite("-1")
  {
    TrimTrimmed("DESCENDING");
  }

  lemma {:induction false} SegmentDocOk(seg: IndexSegment)
    requires SegmentOk(seg)
    ensures PartOk(IndexPart, SegmentDoc(seg))
  {
    NatOk(seg.fieldNum, U32_END);
    NatOk(seg.attrs, U16_END);
    WordOk();
    var d := Line(INDEX_SEGMENT_FIELD, NatText(seg.fieldNum));
    PartLine(IndexPart, d, seg.descending, INDEX_SEGMENT_DIRECTION, "DESCENDING");
    PartLine(IndexPart, d + LineIf(seg.descending, INDEX_SEGMENT_DIRECTION, "DESCENDING"),
             true, INDEX_SEGMENT_FLAG, NatText(seg.attrs));
  }

  lemma {:induction false} SegmentsDocOk(segs: seq<IndexSegment>)
    requires forall i :: 0 <= i < |segs| ==> SegmentOk(segs[i])
    ensures PartOk(IndexPart, SegmentsDoc(segs))
  {
    if segs != [] {
      SegmentsDocOk(segs[..|segs| - 1]);
      SegmentDocOk(segs[|segs| - 1]);
      PartAppend(IndexPart, SegmentsDoc(segs[..|segs| - 1]), SegmentDoc(segs[|segs| - 1]));
    }
  }

  lemma {:induction false} IndexDocOk(ix: IntIndex)
    requires IndexOk(ix)
    ensures PartOk(IndexPart, IndexDoc(ix))
  {
    NatOk(ix.num, U32_END);
    NatOk(|ix.segments|, U32_END);
    SegmentsDocOk(ix.segments);
    WordOk();
    LineAlone(IndexPart, true, INDEX_NUMBER, NatText(ix.num));
    LineAlone(IndexPart, true, INDEX_NUMBER_SEGMENTS, NatText(|ix.segments|));
    FourParts(IndexPart, Line(INDEX_NUMBER, NatText(ix.num)), Line(INDEX_NUMBER_SEGMENTS, NatText(|ix.segments|)),
              SegmentsDoc(ix.segments), INDEX_END);
  }

  lemma {:induction false} IndexesDocOk(ixs: seq<IntIndex>)
    requires forall i :: 0 <= i < |ixs| ==> IndexOk(ixs[i])
    ensures PartOk(IndexPart, IndexesDoc(ixs))
  {
    if ixs != [] {
      IndexesDocOk(ixs[..|ixs| - 1]);
      IndexDocOk(ixs[|ixs| - 1]);
      PartAppend(IndexPart, IndexesDoc(ixs[..|ixs| - 1]), IndexDoc(ixs[|ixs| - 1]));
    }
  }

  lemma {:induction false} FileDocOk(f: IntFile, server: string)
    requires FileOk(f, server)
    ensures DocOk(Doc(f, server))
    ensures PartOk(HeaderPart, HeaderDoc(f, server)) && PartOk(FieldPart, FieldsDoc(f.fields)) && PartOk(IndexPart, IndexesDoc(f.indexes))
  {
    HeaderDocOk(f, server);
    FieldsDocOk(f.fields);
    IndexesDocOk(f.indexes);
    PartIsOk(HeaderPart, HeaderDoc(f, server));
    PartIsOk(FieldPart, FieldsDoc(f.fields));
    PartIsOk(IndexPart, IndexesDoc(f.indexes));
  }

  // ---- what the field loop makes of it ----------------------------------------------------------------------------------------

  lemma {:induction false} OneField(s: FieldScan, k: Key, val: string, rest: seq<Option<Entry>>)
    ensures ScanFields(s, Line(k, val) + rest) == ScanFields(FieldStep(s, Entry(k, val)), rest)
  {
    assert (Line(k, val) + rest)[1..] == rest;
  }

  lemma {:induction false} MaybeField(s: FieldScan, c: bool, k: Key, val: string, rest: seq<Option<Entry>>)
    ensures ScanFields(s, LineIf(c, k, val) + rest) == ScanFields(if c then FieldStep(s, Entry(k, val)) else s, rest)
  {
    if c {
      OneField(s, k, val, rest);
    } else {
      assert [] + rest == rest;
    }
  }

  /** A field's number and name. */
  lemma {:induction false} FieldHeadScans(s: FieldScan, f: IntField, rest: seq<Option<Entry>>)
    requires FieldOk(f)
    ensures ScanFields(s, Line(FIELD_NUMBER, NatText(f.num)) + (Line(FIELD_NAME, f.name) + rest))
         == ScanFields(FieldScan(Flushed(s), Some(f.num), f.name, 0, 0, 0, None, None), rest)
  {
    NatOk(f.num, U32_END);
    var s0 := FieldScan(Flushed(s), Some(f.num), "", 0, 0, 0, None, None);
    OneField(s, FIELD_NUMBER, NatText(f.num), Line(FIELD_NAME, f.name) + rest);
    OneField(s0, FIELD_NAME, f.name, rest);
  }

  /** Its type, length and offset. */
  lemma {:induction false} FieldShapeScans(s: FieldScan, f: IntField, rest: seq<Option<Entry>>)
    requires FieldOk(f)
    ensures ScanFields(s, Line(FIELD_NATIVE_TYPE, IntText(f.nativeType))
                          + (Line(FIELD_NATIVE_LENGTH, NatText(f.length)) + (Line(FIELD_NATIVE_OFFSET, NatText(f.offset)) + rest)))
         == ScanFields(s.(nativeType := f.nativeType, length := f.length, offset := f.offset), rest)
  {
    IntOk(f.nativeType);
    NatOk(f.length, U32_END);
    NatOk(f.offset, U32_END);
    var d2 := Line(FIELD_NATIVE_OFFSET, NatText(f.offset)) + rest;
    var d1 := Line(FIELD_NATIVE_LENGTH, NatText(f.length)) + d2;
    OneField(s, FIELD_NATIVE_TYPE, IntText(f.nativeType), d1);
    var s1 := s.(nativeType := f.nativeType);
    OneField(s1, FIELD_NATIVE_LENGTH, NatText(f.length), d2);
    OneField(s1.(length := f.length), FIELD_NATIVE_OFFSET, NatText(f.offset), rest);
  }

  lemma {:induction false} DefaultScans(s: FieldScan, f: IntField)
    requires s.defaultValue == None
    ensures ScanFields(s, LineIf(f.defaultValue.Some?, FIELD_DEFAULT_VALUE, Or(f.defaultValue, "")) + BLANK)
         == s.(defaultValue := NormField(f).defaultValue)
  {
    MaybeField(s, f.defaultValue.Some?, FIELD_DEFAULT_VALUE, Or(f.defaultValue, ""), BLANK);
    assert BLANK[1..] == [];
  }

  /** Its index and default, when it has them. */
  lemma {:induction false} FieldTailScans(s: FieldScan, f: IntField)
    requires FieldOk(f) && s.fieldIndex == None && s.defaultValue == None
    ensures ScanFields(s, LineIf(f.fieldIndex.Some?, FIELD_INDEX, OptText(f.fieldIndex))
                          + (LineIf(f.defaultValue.Some?, FIELD_DEFAULT_VALUE, Or(f.defaultValue, "")) + BLANK))
         == s.(fieldIndex := f.fieldIndex, defaultValue := NormField(f).defaultValue)
  {
    var d := LineIf(f.defaultValue.Some?, FIELD_DEFAULT_VALUE, Or(f.defaultValue, "")) + BLANK;
    if f.fieldIndex.Some? {
      NatOk(f.fieldIndex.value, U32_END);
    }
    MaybeField(s, f.fieldIndex.Some?, FIELD_INDEX, OptText(f.fieldIndex), d);
    DefaultScans(s.(fieldIndex := f.fieldIndex), f);
  }

  lemma {:induction false} FieldDocParts(f: IntField)
    ensures var tail := LineIf(f.fieldIndex.Some?, FIELD_INDEX, OptText(f.fieldIndex))
                        + (LineIf(f.defaultValue.Some?, FIELD_DEFAULT_VALUE, Or(f.defaultValue, "")) + BLANK);
            var shape := Line(FIELD_NATIVE_TYPE, IntText(f.nativeType))
                         + (Line(FIELD_NATIVE_LENGTH, NatText(f.length)) + (Line(FIELD_NATIVE_OFFSET, NatText(f.offset)) + tail));
            FieldDoc(f) == Line(FIELD_NUMBER, NatText(f.num)) + (Line(FIELD_NAME, f.name) + shape)
  {
    EightAfter([], Line(FIELD_NUMBER, NatText(f.num)), Line(FIELD_NAME, f.name), Line(FIELD_NATIVE_TYPE, IntText(f.nativeType)),
               Line(FIELD_NATIVE_LENGTH, NatText(f.length)), Line(FIELD_NATIVE_OFFSET, NatText(f.offset)),
               LineIf(f.fieldIndex.Some?, FIELD_INDEX, OptText(f.fieldIndex)),
               LineIf(f.defaultValue.Some?, FIELD_DEFAULT_VALUE, Or(f.defaultValue, "")), BLANK);
  }

  /** The lines of a field finish the one before and leave this one being read. */
  lemma {:induction false} FieldDocScans(s: FieldScan, f: IntField)
    requires FieldOk(f)
    ensures var n := NormField(f);
            ScanFields(s, FieldDoc(f)) ==
              FieldScan(Flushed(s), Some(n.num), n.name, n.nativeType, n.length, n.offset, n.fieldIndex, n.defaultValue)
  {
    var tail := LineIf(f.fieldIndex.Some?, FIELD_INDEX, OptText(f.fieldIndex))
                + (LineIf(f.defaultValue.Some?, FIELD_DEFAULT_VALUE, Or(f.defaultValue, "")) + BLANK);
    var shape := Line(FIELD_NATIVE_TYPE, IntText(f.nativeType))
                 + (Line(FIELD_NATIVE_LENGTH, NatText(f.length)) + (Line(FIELD_NATIVE_OFFSET, NatText(f.offset)) + tail));
    FieldDocParts(f);
    FieldHeadScans(s, f, shape);
    var s1 := FieldScan(Flushed(s), Some(f.num), f.name, 0, 0, 0, None, None);
    FieldShapeScans(s1, f, tail);
    FieldTailScans(s1.(nativeType := f.nativeType, length := f.length, offset := f.offset), f);
  }

  lemma {:induction false} FieldsDocScans(fields: seq<IntField>)
    requires forall i :: 0 <= i < |fields| ==> FieldOk(fields[i])
    ensures Flushed(ScanFields(NO_FIELD, FieldsDoc(fields))) == NormFields(fields)
  {
    if fields != [] {
      var before, f := fields[..|fields| - 1], fields[|fields| - 1];
      FieldsDocScans(before);
      ScanFieldsAppend(NO_FIELD, FieldsDoc(before), FieldDoc(f));
      FieldDocScans(ScanFields(NO_FIELD, FieldsDoc(before)), f);
    }
  }

  // ---- what the index loop makes of it ------------------------------------------------------------------------------------------

  lemma {:induction false} OneIndexLine(s: IndexScan, k: Key, val: string, rest: seq<Option<Entry>>)
    ensures ScanIndexes(s, Line(k, val) + rest) == ScanIndexes(IndexStep(s, Entry(k, val)), rest)
  {
    assert (Line(k, val) + rest)[1..] == rest;
  }

  /** A state between segments. */
  function Between(s: IndexScan, segs: seq<IndexSegment>): IndexScan {
    s.(segments := segs, field := None, descending := false, nullValue := 0)
  }

  lemma {:induction false} FlagNumber(attrs: nat)
    requires attrs < U16_END
    ensures ParseI32(NatText(attrs)) == Some(attrs) && attrs % 0x1_0000 == attrs
  {
    IntOk(attrs);
  }

  lemma {:induction false} FlagScans(s: IndexScan, seg: IndexSegment)
    requires SegmentOk(seg) && s.field == Some(seg.fieldNum) && s.descending == seg.descending && s.nullValue == 0
    ensures ScanIndexes(s, Line(INDEX_SEGMENT_FLAG, NatText(seg.attrs)))
         == Between(s, s.segments + if seg.fieldNum == 0 then [] else [seg.(nullValue := 0)])
  {
    FlagNumber(seg.attrs);
    var flag := Line(INDEX_SEGMENT_FLAG, NatText(seg.attrs));
    assert flag + [] == flag;
    OneIndexLine(s, INDEX_SEGMENT_FLAG, NatText(seg.attrs), []);
  }

  lemma {:induction false} DirectionScans(s: IndexScan, desc: bool, rest: seq<Option<Entry>>)
    requires !s.descending
    ensures ScanIndexes(s, LineIf(desc, INDEX_SEGMENT_DIRECTION, "DESCENDING") + rest)
         == ScanIndexes(s.(descending := desc), rest)
  {
    WordOk();
    if desc {
      OneIndexLine(s, INDEX_SEGMENT_DIRECTION, "DESCENDING", rest);
    } else {
      assert [] + rest == rest;
    }
  }

  lemma {:induction false} SegmentDocScans(s: IndexScan, seg: IndexSegment)
    requires SegmentOk(seg)
    ensures ScanIndexes(s, SegmentDoc(seg))
         == Between(s, s.segments + if seg.fieldNum == 0 then [] else [seg.(nullValue := 0)])
  {
    NatOk(seg.fieldNum, U32_END);
    var flag := Line(INDEX_SEGMENT_FLAG, NatText(seg.attrs));
    var dir := LineIf(seg.descending, INDEX_SEGMENT_DIRECTION, "DESCENDING");
    assert SegmentDoc(seg) == Line(INDEX_SEGMENT_FIELD, NatText(seg.fieldNum)) + (dir + flag);
    OneIndexLine(s, INDEX_SEGMENT_FIELD, NatText(seg.fieldNum), dir + flag);
    var s1 := s.(field := Some(seg.fieldNum), descending := false, nullValue := 0);
    DirectionScans(s1, seg.descending, flag);
    FlagScans(s1.(descending := seg.descending), seg);
  }

  lemma {:induction false} SegmentsDocScans(s: IndexScan, segs: seq<IndexSegment>)
    requires s.segments == [] && s == Between(s, []) && forall i :: 0 <= i < |segs| ==> SegmentOk(segs[i])
    ensures ScanIndexes(s, SegmentsDoc(segs)) == Between(s, NormSegments(segs))
  {
    if segs != [] {
      var before, seg := segs[..|segs| - 1], segs[|segs| - 1];
      SegmentsDocScans(s, before);
      ScanIndexesAppend(s, SegmentsDoc(before), SegmentDoc(seg));
      SegmentDocScans(Between(s, NormSegments(before)), seg);
    }
  }

  lemma {:induction false} IndexEndScans(s: IndexScan)
    requires s == Between(s, s.segments)
    ensures ScanIndexes(s, INDEX_END) == s
  {
    WordOk();
    NatOk(0, U32_END);
    assert NatText(0) == "0";
    IntOk(-1);
    assert NatText(1) == "1" && IntText(-1) == "-1";
    assert INDEX_END == Line(INDEX_SEGMENT_FIELD, "0") + (Line(INDEX_SEGMENT_FLAG, "-1") + BLANK);
    OneIndexLine(s, INDEX_SEGMENT_FIELD, "0", Line(INDEX_SEGMENT_FLAG, "-1") + BLANK);
    OneIndexLine(IndexStep(s, Entry(INDEX_SEGMENT_FIELD, "0")), INDEX_SEGMENT_FLAG, "-1", BLANK);
    assert BLANK[1..] == [];
  }

  /** The two lines at the head of an index finish the one before. */
  lemma {:induction false} IndexHeadScans(s: IndexScan, ix: IntIndex, body: seq<Option<Entry>>)
    requires IndexOk(ix)
    ensures var n := |ix.segments|;
            ScanIndexes(s, Line(INDEX_NUMBER, NatText(ix.num)) + (Line(INDEX_NUMBER_SEGMENTS, NatText(n)) + body))
              == ScanIndexes(IndexScan(IndexFlushed(s), Some(ix.num), n, [], None, false, 0), body)
  {
    NatOk(ix.num, U32_END);
    NatOk(|ix.segments|, U32_END);
    OneIndexLine(s, INDEX_NUMBER, NatText(ix.num), Line(INDEX_NUMBER_SEGMENTS, NatText(|ix.segments|)) + body);
    OneIndexLine(IndexScan(IndexFlushed(s), Some(ix.num), 0, [], None, false, 0), INDEX_NUMBER_SEGMENTS, NatText(|ix.segments|), body);
  }

  /** The lines of an index finish the one before and leave this one being read. */
  lemma {:induction false} IndexDocScans(s: IndexScan, ix: IntIndex)
    requires IndexOk(ix)
    ensures ScanIndexes(s, IndexDoc(ix))
         == IndexScan(IndexFlushed(s), Some(ix.num), |ix.segments|, NormSegments(ix.segments), None, false, 0)
  {
    var body := SegmentsDoc(ix.segments) + INDEX_END;
    assert IndexDoc(ix) == Line(INDEX_NUMBER, NatText(ix.num)) + (Line(INDEX_NUMBER_SEGMENTS, NatText(|ix.segments|)) + body);
    IndexHeadScans(s, ix, body);
    var s2 := IndexScan(IndexFlushed(s), Some(ix.num), |ix.segments|, [], None, false, 0);
    ScanIndexesAppend(s2, SegmentsDoc(ix.segments), INDEX_END);
    SegmentsDocScans(s2, ix.segments);
    IndexEndScans(Between(s2, NormSegments(ix.segments)));
  }

  lemma {:induction false} IndexesDocScans(ixs: seq<IntIndex>)
    requires forall i :: 0 <= i < |ixs| ==> IndexOk(ixs[i])
    ensures IndexFlushed(ScanIndexes(NO_INDEX, IndexesDoc(ixs))) == NormIndexes(ixs)
  {
    if ixs != [] {
      var before, ix := ixs[..|ixs| - 1], ixs[|ixs| - 1];
      IndexesDocScans(before);
      ScanIndexesAppend(NO_INDEX, IndexesDoc(before), IndexDoc(ix));
      IndexDocScans(ScanIndexes(NO_INDEX, IndexesDoc(before)), ix);
    }
  }

  // ---- what the header map makes of it --------------------------------------------------------------------------------------------

  function NonEmpty(c: bool, s: string): Option<string> {
    if c && s != "" then Some(s) else None
  }

  /** The value the document gives a header key. */
  function HeaderValue(f: IntFile, server: string, k: Key): Option<string> {
    match k
    case DRIVER_NAME => NonEmpty(server != "", "SQL_BTR")
    case SERVER_NAME => NonEmpty(server != "", server)
    case DATABASE_SPACE_NAME => NonEmpty(f.dbName != "", f.dbName)
    case TABLE_NAME => NonEmpty(true, f.tableName)
    case SCHEMA_NAME => NonEmpty(true, f.schemaName)
    case LOGICAL_RECORD_LENGTH => NonEmpty(true, NatText(f.recordLength))
    case PAGE_SIZE => NonEmpty(f.pageSize > 0, NatText(f.pageSize))
    case FILE_FLAGS => NonEmpty(f.fileFlags > 0, NatText(f.fileFlags))
    case IGNORE_NULL_VALUES => NonEmpty(f.ignoreNullValues, "1")
    case TRIM_STRING_FIELDS => NonEmpty(f.trimStringFields, "1")
    case TRANSLATE_OEM_TO_ANSI => NonEmpty(f.translateOemToAnsi, "1")
    case LOCAL_CACHE => NonEmpty(f.localCache, "YES")
    case PRIMARY_INDEX => NonEmpty(f.primaryIndex.Some?, OptText(f.primaryIndex))
    case _ => None
  }

  /** The later of two values. */
  function Later(a: Option<string>, b: Option<string>): Option<string> {
    if b.Some? then b else a
  }

  lemma {:induction false} LookupNext(doc: seq<Option<Entry>>, c: bool, l: Key, val: string, k: Key)
    ensures Lookup(doc + LineIf(c, l, val), k) == Later(Lookup(doc, k), if l == k then NonEmpty(c, val) else None)
  {
    LookupAppend(doc, LineIf(c, l, val), k);
    LookupLine(c, l, val, k);
  }

  lemma {:induction false} NamesLookup(f: IntFile, server: string, k: Key)
    ensures Lookup(NamesDoc(f, server), k)
         == if k in {DRIVER_NAME, SERVER_NAME, DATABASE_SPACE_NAME, TABLE_NAME, SCHEMA_NAME} then HeaderValue(f, server, k) else None
  {
    var d1 := LineIf(server != "", DRIVER_NAME, "SQL_BTR");
    LookupLine(server != "", DRIVER_NAME, "SQL_BTR", k);
    var d2 := d1 + LineIf(server != "", SERVER_NAME, server);
    LookupNext(d1, server != "", SERVER_NAME, server, k);
    var d3 := d2 + LineIf(f.dbName != "", DATABASE_SPACE_NAME, f.dbName);
    LookupNext(d2, f.dbName != "", DATABASE_SPACE_NAME, f.dbName, k);
    LookupNext(d3, true, TABLE_NAME, f.tableName, k);
    LookupNext(d3 + Line(TABLE_NAME, f.tableName), true, SCHEMA_NAME, f.schemaName, k);
  }

  lemma {:induction false} SizesLookup(f: IntFile, server: string, k: Key)
    ensures Lookup(SizesDoc(f), k)
         == if k in {LOGICAL_RECORD_LENGTH, PAGE_SIZE, FILE_FLAGS} then HeaderValue(f, server, k) else None
  {
    var d := Line(LOGICAL_RECORD_LENGTH, NatText(f.recordLength));
    LookupLine(true, LOGICAL_RECORD_LENGTH, NatText(f.recordLength), k);
    LookupNext(d, f.pageSize > 0, PAGE_SIZE, NatText(f.pageSize), k);
    LookupNext(d + LineIf(f.pageSize > 0, PAGE_SIZE, NatText(f.pageSize)), f.fileFlags > 0, FILE_FLAGS, NatText(f.fileFlags), k);
  }

  lemma {:induction false} OptionsLookup(f: IntFile, server: string, k: Key)
    ensures Lookup(OptionsDoc(f), k)
         == if k in {IGNORE_NULL_VALUES, TRIM_STRING_FIELDS, TRANSLATE_OEM_TO_ANSI} then HeaderValue(f, server, k) else None
  {
    var d := LineIf(f.ignoreNullValues, IGNORE_NULL_VALUES, "1");
    LookupLine(f.ignoreNullValues, IGNORE_NULL_VALUES, "1", k);
    LookupNext(d, f.trimStringFields, TRIM_STRING_FIELDS, "1", k);
    LookupNext(d + LineIf(f.trimStringFields, TRIM_STRING_FIELDS, "1"), f.translateOemToAnsi, TRANSLATE_OEM_TO_ANSI, "1", k);
  }

  lemma {:induction false} CacheLookup(f: IntFile, server: string, k: Key)
    ensures Lookup(CacheDoc(f), k) == if k in {LOCAL_CACHE, PRIMARY_INDEX} then HeaderValue(f, server, k) else None
  {
    var d := LineIf(f.localCache, LOCAL_CACHE, "YES");
    LookupLine(f.localCache, LOCAL_CACHE, "YES", k);
    LookupNext(d, f.primaryIndex.Some?, PRIMARY_INDEX, OptText(f.primaryIndex), k);
    LookupAppend(d + LineIf(f.primaryIndex.Some?, PRIMARY_INDEX, OptText(f.primaryIndex)), BLANK, k);
    assert BLANK[..0] == [];
    assert Lookup(BLANK, k) == None;
  }

  lemma {:induction false} HeaderLookup(f: IntFile, server: string, k: Key)
    ensures Lookup(HeaderDoc(f, server), k) == HeaderValue(f, server, k)
  {
    var a, b, c := NamesDoc(f, server), SizesDoc(f), OptionsDoc(f);
    NamesLookup(f, server, k);
    SizesLookup(f, server, k);
    OptionsLookup(f, server, k);
    CacheLookup(f, server, k);
    LookupAppend(a, b, k);
    LookupAppend(a + b, c, k);
    LookupAppend(a + b + c, CacheDoc(f), k);
  }

  lemma {:induction false} LookupElsewhere(part: Part, es: seq<Option<Entry>>, k: Key)
    requires PartOk(part, es) && !KeyIn(part, k)
    ensures Lookup(es, k) == None
  {
    if es != [] {
      LookupElsewhere(part, es[..|es| - 1], k);
    }
  }

  lemma {:induction false} LookupFirst(a: seq<Option<Entry>>, b: seq<Option<Entry>>, c: seq<Option<Entry>>, k: Key)
    requires Lookup(b, k) == None && Lookup(c, k) == None
    ensures Lookup(a + b + c, k) == Lookup(a, k)
  {
    LookupAppend(a, b, k);
    LookupAppend(a + b, c, k);
  }

  lemma {:induction false} DocLookup(f: IntFile, server: string, k: Key)
    requires FileOk(f, server) && KeyIn(HeaderPart, k)
    ensures DocOk(Doc(f, server)) && Lookup(Doc(f, server), k) == HeaderValue(f, server, k)
  {
    FileDocOk(f, server);
    LookupElsewhere(FieldPart, FieldsDoc(f.fields), k);
    LookupElsewhere(IndexPart, IndexesDoc(f.indexes), k);
    LookupFirst(HeaderDoc(f, server), FieldsDoc(f.fields), IndexesDoc(f.indexes), k);
    HeaderLookup(f, server, k);
  }

  /** The header map of the rendered lines. */
  lemma {:induction false} RenderedHeader(f: IntFile, server: string, k: Key)
    requires FileOk(f, server) && KeyIn(HeaderPart, k)
    ensures Get(HeaderScan(map[], HeaderEntries(DocLines(Doc(f, server)))), k) == HeaderValue(f, server, k)
  {
    DocLookup(f, server, k);
    HeaderMapLooksUp(Doc(f, server), k);
  }

  // ---- the round trip ----------------------------------------------------------------------------------------------------------------

  lemma {:induction false} RenderedFields(f: IntFile, server: string)
    requires FileOk(f, server)
    ensures Flushed(ScanFields(NO_FIELD, FieldEntries(DocLines(Doc(f, server))))) == NormFields(f.fields)
  {
    var a, b, c := HeaderDoc(f, server), FieldsDoc(f.fields), IndexesDoc(f.indexes);
    FileDocOk(f, server);
    FieldEntriesRead(Doc(f, server));
    PartIsOk(HeaderPart, a);
    PartIsOk(IndexPart, c);
    ScanFieldsAppend(NO_FIELD, a + b, c);
    ScanFieldsAppend(NO_FIELD, a, b);
    ScanFieldsIgnores(NO_FIELD, a);
    ScanFieldsIgnores(ScanFields(NO_FIELD, b), c);
    FieldsDocScans(f.fields);
  }

  lemma {:induction false} RenderedIndexes(f: IntFile, server: string)
    requires FileOk(f, server)
    ensures IndexFlushed(ScanIndexes(NO_INDEX, IndexEntries(DocLines(Doc(f, server))))) == NormIndexes(f.indexes)
  {
    var a, b, c := HeaderDoc(f, server), FieldsDoc(f.fields), IndexesDoc(f.indexes);
    FileDocOk(f, server);
    IndexEntriesScan(NO_INDEX, Doc(f, server));
    PartIsOk(HeaderPart, a);
    PartIsOk(FieldPart, b);
    ScanIndexesAppend(NO_INDEX, a + b, c);
    ScanIndexesAppend(NO_INDEX, a, b);
    ScanIndexesIgnores(NO_INDEX, a);
    ScanIndexesIgnores(NO_INDEX, b);
    IndexesDocScans(f.indexes);
  }

  /** A header map that holds the document's values. */
  ghost predicate HoldsHeader(m: map<Key, string>, f: IntFile, server: string) {
    forall k :: KeyIn(HeaderPart, k) ==> Get(m, k) == HeaderValue(f, server, k)
  }

  lemma {:induction false} HeaderSizes(m: map<Key, string>, f: IntFile, server: string)
    requires FileOk(f, server) && HoldsHeader(m, f, server)
    ensures Or(GetNat(m, LOGICAL_RECORD_LENGTH, U32_END), 0) == f.recordLength
    ensures Or(GetNat(m, PAGE_SIZE, U16_END), 0) == f.pageSize
    ensures Or(GetNat(m, FILE_FLAGS, U16_END), 0) == f.fileFlags
  {
    NatOk(f.recordLength, U32_END);
    NatOk(f.pageSize, U16_END);
    NatOk(f.fileFlags, U16_END);
    assert Get(m, LOGICAL_RECORD_LENGTH) == HeaderValue(f, server, LOGICAL_RECORD_LENGTH);
    assert Get(m, PAGE_SIZE) == HeaderValue(f, server, PAGE_SIZE);
    assert Get(m, FILE_FLAGS) == HeaderValue(f, server, FILE_FLAGS);
  }

  lemma {:induction false} HeaderPrimary(m: map<Key, string>, f: IntFile, server: string)
    requires FileOk(f, server) && HoldsHeader(m, f, server)
    ensures TrimmedNat(m, PRIMARY_INDEX, U32_END) == f.primaryIndex
  {
    if f.primaryIndex.Some? {
      NatOk(f.primaryIndex.value, U32_END);
    }
    assert Get(m, PRIMARY_INDEX) == HeaderValue(f, server, PRIMARY_INDEX);
  }

  lemma {:induction false} HeaderCounts(m: map<Key, string>, f: IntFile, server: string)
    requires FileOk(f, server) && HoldsHeader(m, f, server)
    ensures TrimmedNat(m, PRIMARY_INDEX, U32_END) == f.primaryIndex
    ensures TrimmedNat(m, NUMBER_DF_FIELDS, U32_END) == None
  {
    HeaderPrimary(m, f, server);
    assert Get(m, NUMBER_DF_FIELDS) == HeaderValue(f, server, NUMBER_DF_FIELDS);
  }

  lemma {:induction false} HeaderTexts(m: map<Key, string>, f: IntFile, server: string)
    requires HoldsHeader(m, f, server)
    ensures GetText(m, SCHEMA_NAME) == f.schemaName && GetText(m, DATABASE_SPACE_NAME) == f.dbName
    ensures GetText(m, SERVER_NAME) == server && GetText(m, DRIVER_NAME) == if server != "" then "SQL_BTR" else ""
    ensures TABLE_NAME in m <==> f.tableName != ""
    ensures TABLE_NAME in m ==> m[TABLE_NAME] == f.tableName
  {
    assert Get(m, TABLE_NAME) == HeaderValue(f, server, TABLE_NAME);
    assert Get(m, SCHEMA_NAME) == HeaderValue(f, server, SCHEMA_NAME);
    assert Get(m, DATABASE_SPACE_NAME) == HeaderValue(f, server, DATABASE_SPACE_NAME);
    assert Get(m, SERVER_NAME) == HeaderValue(f, server, SERVER_NAME);
    assert Get(m, DRIVER_NAME) == HeaderValue(f, server, DRIVER_NAME);
  }

  lemma {:induction false} HeaderFlags(m: map<Key, string>, f: IntFile, server: string)
    requires HoldsHeader(m, f, server)
    ensures NotZero(m, IGNORE_NULL_VALUES) == f.ignoreNullValues && NotZero(m, TRIM_STRING_FIELDS) == f.trimStringFields
    ensures NotZero(m, TRANSLATE_OEM_TO_ANSI) == f.translateOemToAnsi
    ensures SaysYes(m, LOCAL_CACHE) == f.localCache && !SaysYes(m, PERMANENT_INT)
  {
    assert "1"[0] != "0"[0];
    forall k | k in {IGNORE_NULL_VALUES, TRIM_STRING_FIELDS, TRANSLATE_OEM_TO_ANSI}
      ensures Get(m, k) == HeaderValue(f, server, k)
    {
      assert KeyIn(HeaderPart, k);
    }
    assert Get(m, LOCAL_CACHE) == HeaderValue(f, server, LOCAL_CACHE);
    assert Get(m, PERMANENT_INT) == HeaderValue(f, server, PERMANENT_INT);
    TrimTrimmed("1");
    TrimTrimmed("YES");
  }

  /** Parsing a rendered file gives the table back in normal form; only a table without a name is
      refused. */
  lemma {:induction false} ParseRendered(f: IntFile, server: string, source: string)
    requires FileOk(f, server)
    ensures FromLines(Lines(DocText(Doc(f, server))), source)
         == if f.tableName == "" then Err(ERR_MISSING_TABLE_NAME) else Ok(NormalForm(f, server, source))
  {
    var ls := DocLines(Doc(f, server));
    FileDocOk(f, server);
    DocLinesSplit(Doc(f, server));
    RenderedFields(f, server);
    RenderedIndexes(f, server);
    var m := HeaderScan(map[], HeaderEntries(ls));
    forall k | KeyIn(HeaderPart, k)
      ensures Get(m, k) == HeaderValue(f, server, k)
    {
      RenderedHeader(f, server, k);
    }
    HeaderTexts(m, f, server);
    HeaderSizes(m, f, server);
    HeaderCounts(m, f, server);
    HeaderFlags(m, f, server);
  }
}
