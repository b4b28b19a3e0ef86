/** INT files: the parser, the renderer and what the parser makes of a line. */
module IntFiles {
  import opened Wrappers
  import opened Decimal
  import opened TextUtil
  import opened Schema
  import opened RecordCodec
  import opened IntLines

  datatype IndexSegment = IndexSegment(fieldNum: nat, attrs: nat, descending: bool, nullValue: nat)

  datatype IntIndex = IntIndex(num: nat, numSegments: nat, segments: seq<IndexSegment>)

  datatype IntFile = IntFile(
    tableName: string, schemaName: string, dbName: string, recordLength: nat, pageSize: nat, fileFlags: nat,
    ignoreNullValues: bool, trimStringFields: bool, translateOemToAnsi: bool, primaryIndex: Option<nat>,
    localCache: bool, driverName: string, serverName: string, permanentInt: bool, numberDfFields: nat,
    sourceFile: string, fields: seq<IntField>, indexes: seq<IntIndex>)

  const ERR_MISSING_TABLE_NAME := 1

  // ---- numbers -------------------------------------------------------------------------------------------------

  function ParseBelow(s: string, bound: nat): Option<nat> {
    match ParseNat(s)
    case Some(n) => if n < bound then Some(n) else None
    case None => None
  }

  const U8_END: nat := 0x100
  const U16_END: nat := 0x1_0000
  const U32_END: nat := 0x1_0000_0000

  function ParseI32(s: string): Option<int> {
    match ParseInt(s)
    case Some(n) => if -0x8000_0000 <= n < 0x8000_0000 then Some(n) else None
    case None => None
  }

  function Or<T>(o: Option<T>, d: T): T {
    match o
    case Some(x) => x
    case None => d
  }

  // ---- a line -----------------------------------------------------------------------------------------------------

  datatype Entry = Entry(key: Key, val: string)

  /** A line as the field loop reads it: the value is the rest of the line. */
  function FieldEntry(raw: string): Option<Entry> {
    var l := Trim(raw);
    if l == "" then None else Some(Entry(KeyOf(Word(l)), Rest(l)))
  }

  /** A line as the index loop reads it: the value is the later words. */
  function IndexEntry(raw: string): Option<Entry> {
    var l := Trim(raw);
    if l == "" then None else Some(Entry(KeyOf(Word(l)), LaterWords(l)))
  }

  /** A line as the header map reads it: comments and lines without a value are left out. */
  function HeaderEntry(raw: string): Option<Entry> {
    var l := Trim(raw);
    if l == "" || l[0] == ';' || l[0] == '#' || FirstWhite(l) == |l| then None
    else Some(Entry(KeyOf(Word(l)), Trim(l[FirstWhite(l)..])))
  }

  function FieldEntries(ls: seq<string>): (r: seq<Option<Entry>>)
    ensures |r| == |ls|
  {
    seq(|ls|, i requires 0 <= i < |ls| => FieldEntry(ls[i]))
  }

  function IndexEntries(ls: seq<string>): (r: seq<Option<Entry>>)
    ensures |r| == |ls|
  {
    seq(|ls|, i requires 0 <= i < |ls| => IndexEntry(ls[i]))
  }

  function HeaderEntries(ls: seq<string>): (r: seq<Option<Entry>>)
    ensures |r| == |ls|
  {
    seq(|ls|, i requires 0 <= i < |ls| => HeaderEntry(ls[i]))
  }

  // ---- the header map -----------------------------------------------------------------------------------------------

  /** The header map after more lines; a later line wins. */
  function HeaderScan(m: map<Key, string>, es: seq<Option<Entry>>): map<Key, string>
    decreases |es|
  {
    if es == [] then m
    else HeaderScan(if es[0].Some? then m[es[0].value.key := es[0].value.val] else m, es[1..])
  }

  method ParseKvLines(ls: seq<string>) returns (m: map<Key, string>)
    ensures m == HeaderScan(map[], HeaderEntries(ls))
  {
    m := map[];
    ghost var es := HeaderEntries(ls);
    for i := 0 to |ls|
      invariant HeaderScan(m, es[i..]) == HeaderScan(map[], es)
    {
      var e := HeaderEntry(ls[i]);
      assert es[i..][0] == e && es[i..][1..] == es[i + 1..];
      if e.Some? {
        m := m[e.value.key := e.value.val];
      }
    }
  }

  function Get(m: map<Key, string>, k: Key): Option<string> {
    if k in m then Some(m[k]) else None
  }

  function GetText(m: map<Key, string>, k: Key): string {
    Or(Get(m, k), "")
  }

  function GetNat(m: map<Key, string>, k: Key, end: nat): Option<nat> {
    match Get(m, k)
    case Some(s) => ParseBelow(s, end)
    case None => None
  }

  function TrimmedNat(m: map<Key, string>, k: Key, end: nat): Option<nat> {
    match Get(m, k)
    case Some(s) => ParseBelow(Trim(s), end)
    case None => None
  }

  /** Anything but 0 turns a flag on. */
  function NotZero(m: map<Key, string>, k: Key): bool {
    match Get(m, k)
    case Some(s) => Trim(s) != "0"
    case None => false
  }

  function SaysYes(m: map<Key, string>, k: Key): bool {
    match Get(m, k)
    case Some(s) => SameIgnoringCase(Trim(s), "YES")
    case None => false
  }

  // ---- the field loop --------------------------------------------------------------------------------------------------

  /** The fields finished, and the one being read. */
  datatype FieldScan = FieldScan(done: seq<IntField>, num: Option<nat>, name: string, nativeType: int, length: nat,
                                 offset: nat, fieldIndex: Option<nat>, defaultValue: Option<string>)

  const NO_FIELD := FieldScan([], None, "", 0, 0, 0, None, None)

  /** `flush_field`: the field being read is kept when it has a number and a name. */
  function Flushed(s: FieldScan): seq<IntField> {
    if s.num.Some? && s.name != "" then
      s.done + [IntField(s.num.value, s.name, s.nativeType, s.length, s.offset, s.fieldIndex, s.defaultValue)]
    else s.done
  }

  function FieldStep(s: FieldScan, e: Entry): FieldScan {
    match e.key
    case FIELD_NUMBER => FieldScan(Flushed(s), ParseBelow(e.val, U32_END), "", 0, 0, 0, None, None)
    case FIELD_NAME => s.(name := e.val)
    case FIELD_NATIVE_TYPE => s.(nativeType := Or(ParseI32(e.val), 0))
    case FIELD_NATIVE_LENGTH => s.(length := Or(ParseBelow(e.val, U32_END), 0))
    case FIELD_NATIVE_OFFSET => s.(offset := Or(ParseBelow(e.val, U32_END), 0))
    case FIELD_INDEX => s.(fieldIndex := ParseBelow(e.val, U32_END))
    case FIELD_DEFAULT_VALUE => s.(defaultValue := if e.val == "" then None else Some(e.val))
    case _ => s
  }

  function ScanFields(s: FieldScan, es: seq<Option<Entry>>): FieldScan
    decreases |es|
  {
    if es == [] then s else ScanFields(if es[0].Some? then FieldStep(s, es[0].value) else s, es[1..])
  }

  method ParseFields(ls: seq<string>) returns (fields: seq<IntField>)
    ensures fields == Flushed(ScanFields(NO_FIELD, FieldEntries(ls)))
  {
    fields := [];
    var num: Option<nat>, name, nativeType := None, "", 0;
    var length: nat, offset: nat, fieldIndex: Option<nat>, defaultValue: Option<string> := 0, 0, None, None;
    ghost var es := FieldEntries(ls);
    for i := 0 to |ls|
      invariant ScanFields(FieldScan(fields, num, name, nativeType, length, offset, fieldIndex, defaultValue), es[i..])
             == ScanFields(NO_FIELD, es)
    {
      var e := FieldEntry(ls[i]);
      assert es[i..][0] == e && es[i..][1..] == es[i + 1..];
      if e.Some? {
        var val := e.value.val;
        match e.value.key {
          case FIELD_NUMBER =>
            fields := FlushField(fields, num, name, nativeType, length, offset, fieldIndex, defaultValue);
            num, name, nativeType := ParseBelow(val, U32_END), "", 0;
            length, offset, fieldIndex, defaultValue := 0, 0, None, None;
          case FIELD_NAME => name := val;
          case FIELD_NATIVE_TYPE => nativeType := Or(ParseI32(val), 0);
          case FIELD_NATIVE_LENGTH => length := Or(ParseBelow(val, U32_END), 0);
          case FIELD_NATIVE_OFFSET => offset := Or(ParseBelow(val, U32_END), 0);
          case FIELD_INDEX => fieldIndex := ParseBelow(val, U32_END);
          case FIELD_DEFAULT_VALUE => defaultValue := if val == "" then None else Some(val);
          case _ =>
        }
      }
    }
    fields := FlushField(fields, num, name, nativeType, length, offset, fieldIndex, defaultValue);
  }

  method FlushField(fields: seq<IntField>, num: Option<nat>, name: string, nativeType: int, length: nat, offset: nat,
                    fieldIndex: Option<nat>, defaultValue: Option<string>) returns (more: seq<IntField>)
    ensures more == Flushed(FieldScan(fields, num, name, nativeType, length, offset, fieldIndex, defaultValue))
  {
    more := fields;
    if num.Some? {
      if name != "" {
        more := more + [IntField(num.value, name, nativeType, length, offset, fieldIndex, defaultValue)];
      }
    }
  }

  // ---- the index loop ---------------------------------------------------------------------------------------------------

  /** The indexes finished, the one being read, and the segment waiting for its flag. */
  datatype IndexScan = IndexScan(done: seq<IntIndex>, num: Option<nat>, numSegments: nat, segments: seq<IndexSegment>,
                                 field: Option<nat>, descending: bool, nullValue: nat)

  const NO_INDEX := IndexScan([], None, 0, [], None, false, 0)

  /** `flush_index`: the index being read is kept when it has a number and a segment. */
  function IndexFlushed(s: IndexScan): seq<IntIndex> {
    if s.num.Some? && s.segments != [] then s.done + [IntIndex(s.num.value, s.numSegments, s.segments)] else s.done
  }

  /** The flag of a segment completes it; field 0 and flag -1 end the list and add nothing. */
  function FlagRead(s: IndexScan, val: string): IndexScan {
    var flag := Or(ParseI32(val), -1);
    var kept := s.field.Some? && s.field.value != 0 && flag != -1;
    s.(segments := if kept then s.segments + [IndexSegment(s.field.value, flag % 0x1_0000, s.descending, s.nullValue)]
                   else s.segments,
       field := None, descending := false, nullValue := 0)
  }

  function IndexStep(s: IndexScan, e: Entry): IndexScan {
    match e.key
    case INDEX_NUMBER => IndexScan(IndexFlushed(s), ParseBelow(e.val, U32_END), 0, [], None, false, 0)
    case INDEX_NUMBER_SEGMENTS => s.(numSegments := Or(ParseBelow(Trim(e.val), U32_END), 0))
    case INDEX_SEGMENT_FIELD => s.(field := ParseBelow(e.val, U32_END), descending := false, nullValue := 0)
    case INDEX_SEGMENT_DIRECTION => s.(descending := SameIgnoringCase(Trim(e.val), "DESCENDING"))
    case INDEX_SEGMENT_NULL_VALUE => s.(nullValue := Or(ParseBelow(Trim(e.val), U8_END), 0))
    case INDEX_SEGMENT_FLAG => FlagRead(s, e.val)
    case _ => s
  }

  function ScanIndexes(s: IndexScan, es: seq<Option<Entry>>): IndexScan
    decreases |es|
  {
    if es == [] then s else ScanIndexes(if es[0].Some? then IndexStep(s, es[0].value) else s, es[1..])
  }

  method ParseIndexes(ls: seq<string>) returns (indexes: seq<IntIndex>)
    ensures indexes == IndexFlushed(ScanIndexes(NO_INDEX, IndexEntries(ls)))
  {
    indexes := [];
    var num: Option<nat>, numSegments: nat, segments: seq<IndexSegment> := None, 0, [];
    var field: Option<nat>, descending, nullValue: nat := None, false, 0;
    ghost var es := IndexEntries(ls);
    for i := 0 to |ls|
      invariant ScanIndexes(IndexScan(indexes, num, numSegments, segments, field, descending, nullValue), es[i..])
             == ScanIndexes(NO_INDEX, es)
    {
      var e := IndexEntry(ls[i]);
      assert es[i..][0] == e && es[i..][1..] == es[i + 1..];
      if e.Some? {
        var val := e.value.val;
        match e.value.key {
          case INDEX_NUMBER =>
            indexes := FlushIndex(indexes, num, numSegments, segments);
            num, numSegments, segments := ParseBelow(val, U32_END), 0, [];
            field, descending, nullValue := None, false, 0;
          case INDEX_NUMBER_SEGMENTS => numSegments := Or(ParseBelow(Trim(val), U32_END), 0);
          case INDEX_SEGMENT_FIELD => field, descending, nullValue := ParseBelow(val, U32_END), false, 0;
          case INDEX_SEGMENT_DIRECTION => descending := SameIgnoringCase(Trim(val), "DESCENDING");
          case INDEX_SEGMENT_NULL_VALUE => nullValue := Or(ParseBelow(Trim(val), U8_END), 0);
          case INDEX_SEGMENT_FLAG =>
            var flag := Or(ParseI32(val), -1);
            if field.Some? && field.value != 0 && flag != -1 {
              segments := segments + [IndexSegment(field.value, flag % 0x1_0000, descending, nullValue)];
            }
            field, descending, nullValue := None, false, 0;
          case _ =>
        }
      }
    }
    indexes := FlushIndex(indexes, num, numSegments, segments);
  }

  method FlushIndex(indexes: seq<IntIndex>, num: Option<nat>, numSegments: nat, segments: seq<IndexSegment>)
    returns (more: seq<IntIndex>)
    ensures more == IndexFlushed(IndexScan(indexes, num, numSegments, segments, None, false, 0))
  {
    more := indexes;
    if num.Some? {
      if segments != [] {
        more := more + [IntIndex(num.value, numSegments, segments)];
      }
    }
  }

  // ---- indexes from FIELD_INDEX, and their order ---------------------------------------------------------------------------

  /** An index put behind those with its number or a smaller one. */
  function Insert(ixs: seq<IntIndex>, ix: IntIndex): seq<IntIndex> {
    if ixs == [] || ix.num < ixs[0].num then [ix] + ixs else [ixs[0]] + Insert(ixs[1..], ix)
  }

  /** `sort_by_key(num)`, which is stable. */
  function SortByNum(ixs: seq<IntIndex>): seq<IntIndex> {
    if ixs == [] then [] else Insert(SortByNum(ixs[..|ixs| - 1]), ixs[|ixs| - 1])
  }

  function PlainSegment(f: IntField): IndexSegment {
    IndexSegment(f.num, 0, false, 0)
  }

  /** One more segment for the index numbered `n`. */
  function AddSegment(ixs: seq<IntIndex>, n: nat, seg: IndexSegment): seq<IntIndex> {
    if ixs == [] then [IntIndex(n, 1, [seg])]
    else if ixs[0].num == n then [IntIndex(n, ixs[0].numSegments + 1, ixs[0].segments + [seg])] + ixs[1..]
    else [ixs[0]] + AddSegment(ixs[1..], n, seg)
  }

  /** The indexes the FIELD_INDEX numbers of the fields name, in the order of their first fields. */
  function Grouped(fields: seq<IntField>): seq<IntIndex> {
    if fields == [] then []
    else
      var f := fields[|fields| - 1];
      var before := Grouped(fields[..|fields| - 1]);
      if f.fieldIndex.Some? then AddSegment(before, f.fieldIndex.value, PlainSegment(f)) else before
  }

  method BuildIndexesFromFieldIndex(fields: seq<IntField>) returns (indexes: seq<IntIndex>)
    ensures indexes == SortByNum(Grouped(fields))
  {
    indexes := [];
    for i := 0 to |fields|
      invariant indexes == Grouped(fields[..i])
    {
      assert fields[..i + 1][..i] == fields[..i];
      if fields[i].fieldIndex.Some? {
        indexes := AddSegment(indexes, fields[i].fieldIndex.value, PlainSegment(fields[i]));
      }
    }
    assert fields[..|fields|] == fields;
    indexes := SortByNum(indexes);
  }

  /** The indexes of a file: those written out, or when there are none those of the FIELD_INDEX numbers. */
  function FinalIndexes(read: seq<IntIndex>, fields: seq<IntField>): seq<IntIndex> {
    SortByNum(if read == [] then SortByNum(Grouped(fields)) else read)
  }

  // ---- the parser ---------------------------------------------------------------------------------------------------------

  function FromParts(m: map<Key, string>, fields: seq<IntField>, indexes: seq<IntIndex>, source: string): Result<IntFile> {
    if TABLE_NAME !in m then Err(ERR_MISSING_TABLE_NAME)
    else
      Ok(IntFile(
        m[TABLE_NAME], GetText(m, SCHEMA_NAME), GetText(m, DATABASE_SPACE_NAME),
        Or(GetNat(m, LOGICAL_RECORD_LENGTH, U32_END), 0), Or(GetNat(m, PAGE_SIZE, U16_END), 0),
        Or(GetNat(m, FILE_FLAGS, U16_END), 0),
        NotZero(m, IGNORE_NULL_VALUES), NotZero(m, TRIM_STRING_FIELDS), NotZero(m, TRANSLATE_OEM_TO_ANSI),
        TrimmedNat(m, PRIMARY_INDEX, U32_END), SaysYes(m, LOCAL_CACHE),
        GetText(m, DRIVER_NAME), GetText(m, SERVER_NAME), SaysYes(m, PERMANENT_INT),
        Or(TrimmedNat(m, NUMBER_DF_FIELDS, U32_END), 0), source, fields, indexes))
  }

  /** What the parser makes of the lines of a file. */
  function FromLines(ls: seq<string>, source: string): Result<IntFile> {
    var fields := Flushed(ScanFields(NO_FIELD, FieldEntries(ls)));
    var read := IndexFlushed(ScanIndexes(NO_INDEX, IndexEntries(ls)));
    FromParts(HeaderScan(map[], HeaderEntries(ls)), fields, FinalIndexes(read, fields), source)
  }

  method Parse(text: string, source: string) returns (res: Result<IntFile>)
    ensures res == FromLines(Lines(text), source)
  {
    var ls := Lines(text);
    var m := ParseKvLines(ls);
    if TABLE_NAME !in m {
      return Err(ERR_MISSING_TABLE_NAME);
    }
    var fields := ParseFields(ls);
    var indexes := ParseIndexes(ls);
    if indexes == [] {
      indexes := BuildIndexesFromFieldIndex(fields);
    }
    res := FromParts(m, fields, SortByNum(indexes), source);
  }

  // ---- the renderer -------------------------------------------------------------------------------------------------------

  function Line(k: Key, val: string): seq<Option<Entry>> {
    [Some(Entry(k, val))]
  }

  function LineIf(c: bool, k: Key, val: string): seq<Option<Entry>> {
    if c then Line(k, val) else []
  }

  const BLANK: seq<Option<Entry>> := [None]

  /** An optional number's text. */
  function OptText(o: Option<nat>): string {
    if o.Some? then NatText(o.value) else ""
  }

  /** Who the table belongs to. */
  function NamesDoc(f: IntFile, server: string): seq<Option<Entry>> {
    LineIf(server != "", DRIVER_NAME, "SQL_BTR") + LineIf(server != "", SERVER_NAME, server)
    + LineIf(f.dbName != "", DATABASE_SPACE_NAME, f.dbName)
    + Line(TABLE_NAME, f.tableName) + Line(SCHEMA_NAME, f.schemaName)
  }

  function SizesDoc(f: IntFile): seq<Option<Entry>> {
    Line(LOGICAL_RECORD_LENGTH, NatText(f.recordLength))
    + LineIf(f.pageSize > 0, PAGE_SIZE, NatText(f.pageSize)) + LineIf(f.fileFlags > 0, FILE_FLAGS, NatText(f.fileFlags))
  }

  function OptionsDoc(f: IntFile): seq<Option<Entry>> {
    LineIf(f.ignoreNullValues, IGNORE_NULL_VALUES, "1") + LineIf(f.trimStringFields, TRIM_STRING_FIELDS, "1")
    + LineIf(f.translateOemToAnsi, TRANSLATE_OEM_TO_ANSI, "1")
  }

  function CacheDoc(f: IntFile): seq<Option<Entry>> {
    LineIf(f.localCache, LOCAL_CACHE, "YES") + LineIf(f.primaryIndex.Some?, PRIMARY_INDEX, OptText(f.primaryIndex)) + BLANK
  }

  function HeaderDoc(f: IntFile, server: string): seq<Option<Entry>> {
    NamesDoc(f, server) + SizesDoc(f) + OptionsDoc(f) + CacheDoc(f)
  }

  function FieldDoc(f: IntField): seq<Option<Entry>> {
    Line(FIELD_NUMBER, NatText(f.num)) + Line(FIELD_NAME, f.name) + Line(FIELD_NATIVE_TYPE, IntText(f.nativeType))
    + Line(FIELD_NATIVE_LENGTH, NatText(f.length)) + Line(FIELD_NATIVE_OFFSET, NatText(f.offset))
    + LineIf(f.fieldIndex.Some?, FIELD_INDEX, OptText(f.fieldIndex))
    + LineIf(f.defaultValue.Some?, FIELD_DEFAULT_VALUE, Or(f.defaultValue, "")) + BLANK
  }

  function FieldsDoc(fields: seq<IntField>): seq<Option<Entry>> {
    if fields == [] then [] else FieldsDoc(fields[..|fields| - 1]) + FieldDoc(fields[|fields| - 1])
  }

  function SegmentDoc(seg: IndexSegment): seq<Option<Entry>> {
    Line(INDEX_SEGMENT_FIELD, NatText(seg.fieldNum)) + LineIf(seg.descending, INDEX_SEGMENT_DIRECTION, "DESCENDING")
    + Line(INDEX_SEGMENT_FLAG, NatText(seg.attrs))
  }

  function SegmentsDoc(segs: seq<IndexSegment>): seq<Option<Entry>> {
    if segs == [] then [] else SegmentsDoc(segs[..|segs| - 1]) + SegmentDoc(segs[|segs| - 1])
  }

  const INDEX_END: seq<Option<Entry>> := Line(INDEX_SEGMENT_FIELD, "0") + Line(INDEX_SEGMENT_FLAG, "-1") + BLANK

  function IndexDoc(ix: IntIndex): seq<Option<Entry>> {
    Line(INDEX_NUMBER, NatText(ix.num)) + Line(INDEX_NUMBER_SEGMENTS, NatText(|ix.segments|))
    + SegmentsDoc(ix.segments) + INDEX_END
  }

  function IndexesDoc(ixs: seq<IntIndex>): seq<Option<Entry>> {
    if ixs == [] then [] else IndexesDoc(ixs[..|ixs| - 1]) + IndexDoc(ixs[|ixs| - 1])
  }

  /** The lines of a rendered file, blank ones as None. */
  function Doc(f: IntFile, server: string): seq<Option<Entry>> {
    HeaderDoc(f, server) + FieldsDoc(f.fields) + IndexesDoc(f.indexes)
  }

  function DocLine(e: Option<Entry>): string {
    if e.None? then "" else LineText(KeyText(e.value.key), e.value.val)
  }

  function DocLines(es: seq<Option<Entry>>): (r: seq<string>)
    ensures |r| == |es|
  {
    seq(|es|, i requires 0 <= i < |es| => DocLine(es[i]))
  }

  /** The text of a document. */
  function DocText(es: seq<Option<Entry>>): string {
    Unlines(DocLines(es))
  }

  lemma {:induction false} DocTextAppend(a: seq<Option<Entry>>, b: seq<Option<Entry>>)
    ensures DocText(a + b) == DocText(a) + DocText(b)
  {
    assert DocLines(a + b) == DocLines(a) + DocLines(b);
    UnlinesAppend(DocLines(a), DocLines(b));
  }

  /** One more line, when it is wanted. */
  method Push(out: string, ghost doc: seq<Option<Entry>>, c: bool, k: Key, val: string)
    returns (out': string, ghost doc': seq<Option<Entry>>)
    requires out == DocText(doc)
    ensures doc' == doc + LineIf(c, k, val) && out' == DocText(doc')
  {
    out', doc' := out, doc + LineIf(c, k, val);
    DocTextAppend(doc, LineIf(c, k, val));
    if c {
      out' := out + (KeyText(k) + " " + val + "\n");
      OneLineText(k, val);
    } else {
      assert DocLines([]) == [];
    }
  }

  lemma {:induction false} OneLineText(k: Key, val: string)
    ensures DocText(Line(k, val)) == KeyText(k) + " " + val + "\n"
  {
    var ls := DocLines(Line(k, val));
    assert ls == [LineText(KeyText(k), val)] && ls[1..] == [];
    assert Unlines(ls) == ls[0] + "\n" + "";
  }

  method PushBlank(out: string, ghost doc: seq<Option<Entry>>) returns (out': string, ghost doc': seq<Option<Entry>>)
    requires out == DocText(doc)
    ensures doc' == doc + BLANK && out' == DocText(doc')
  {
    out', doc' := out + "\n", doc + BLANK;
    DocTextAppend(doc, BLANK);
    var ls := DocLines(BLANK);
    assert ls == [""] && ls[1..] == [];
    assert Unlines(ls) == "" + "\n" + "";
  }

  method RenderNames(f: IntFile, server: string) returns (out: string, ghost doc: seq<Option<Entry>>)
    ensures doc == NamesDoc(f, server) && out == DocText(doc)
  {
    doc, out := [], "";
    assert DocLines([]) == [];
    out, doc := Push(out, doc, server != "", DRIVER_NAME, "SQL_BTR");
    assert doc == LineIf(server != "", DRIVER_NAME, "SQL_BTR");
    out, doc := Push(out, doc, server != "", SERVER_NAME, server);
    out, doc := Push(out, doc, f.dbName != "", DATABASE_SPACE_NAME, f.dbName);
    out, doc := Push(out, doc, true, TABLE_NAME, f.tableName);
    out, doc := Push(out, doc, true, SCHEMA_NAME, f.schemaName);
  }

  method RenderSizes(out: string, ghost doc: seq<Option<Entry>>, f: IntFile)
    returns (out': string, ghost doc': seq<Option<Entry>>)
    requires out == DocText(doc)
    ensures doc' == doc + SizesDoc(f) && out' == DocText(doc')
  {
    out', doc' := Push(out, doc, true, LOGICAL_RECORD_LENGTH, NatText(f.recordLength));
    out', doc' := Push(out', doc', f.pageSize > 0, PAGE_SIZE, NatText(f.pageSize));
    out', doc' := Push(out', doc', f.fileFlags > 0, FILE_FLAGS, NatText(f.fileFlags));
  }

  method RenderOptions(out: string, ghost doc: seq<Option<Entry>>, f: IntFile)
    returns (out': string, ghost doc': seq<Option<Entry>>)
    requires out == DocText(doc)
    ensures doc' == doc + OptionsDoc(f) && out' == DocText(doc')
  {
    out', doc' := Push(out, doc, f.ignoreNullValues, IGNORE_NULL_VALUES, "1");
    out', doc' := Push(out', doc', f.trimStringFields, TRIM_STRING_FIELDS, "1");
    out', doc' := Push(out', doc', f.translateOemToAnsi, TRANSLATE_OEM_TO_ANSI, "1");
  }

  method RenderCache(out: string, ghost doc: seq<Option<Entry>>, f: IntFile)
    returns (out': string, ghost doc': seq<Option<Entry>>)
    requires out == DocText(doc)
    ensures doc' == doc + CacheDoc(f) && out' == DocText(doc')
  {
    out', doc' := Push(out, doc, f.localCache, LOCAL_CACHE, "YES");
    out', doc' := Push(out', doc', f.primaryIndex.Some?, PRIMARY_INDEX, OptText(f.primaryIndex));
    out', doc' := PushBlank(out', doc');
  }

  /** Eight pieces behind a document, and regrouped. */
  lemma {:induction false} EightAfter<T>(doc: seq<T>, a: seq<T>, b: seq<T>, c: seq<T>, d: seq<T>, e: seq<T>, f: seq<T>, g: seq<T>, h: seq<T>)
    ensures doc + a + b + c + d + e + f + g + h == doc + (a + b + c + d + e + f + g + h)
    ensures a + b + c + d + e + f + g + h == a + (b + (c + (d + (e + (f + (g + h))))))
  {
  }

  method RenderField(out: string, ghost doc: seq<Option<Entry>>, f: IntField)
    returns (out': string, ghost doc': seq<Option<Entry>>)
    requires out == DocText(doc)
    ensures doc' == doc + FieldDoc(f) && out' == DocText(doc')
  {
    out', doc' := Push(out, doc, true, FIELD_NUMBER, NatText(f.num));
    out', doc' := Push(out', doc', true, FIELD_NAME, f.name);
    out', doc' := Push(out', doc', true, FIELD_NATIVE_TYPE, IntText(f.nativeType));
    out', doc' := Push(out', doc', true, FIELD_NATIVE_LENGTH, NatText(f.length));
    out', doc' := Push(out', doc', true, FIELD_NATIVE_OFFSET, NatText(f.offset));
    out', doc' := Push(out', doc', f.fieldIndex.Some?, FIELD_INDEX, OptText(f.fieldIndex));
    out', doc' := Push(out', doc', f.defaultValue.Some?, FIELD_DEFAULT_VALUE, Or(f.defaultValue, ""));
    out', doc' := PushBlank(out', doc');
    EightAfter(doc, Line(FIELD_NUMBER, NatText(f.num)), Line(FIELD_NAME, f.name), Line(FIELD_NATIVE_TYPE, IntText(f.nativeType)),
               Line(FIELD_NATIVE_LENGTH, NatText(f.length)), Line(FIELD_NATIVE_OFFSET, NatText(f.offset)),
               LineIf(f.fieldIndex.Some?, FIELD_INDEX, OptText(f.fieldIndex)),
               LineIf(f.defaultValue.Some?, FIELD_DEFAULT_VALUE, Or(f.defaultValue, "")), BLANK);
  }

  lemma {:induction false} SegmentsDocStep(segs: seq<IndexSegment>, i: nat)
    requires i < |segs|
    ensures SegmentsDoc(segs[..i + 1]) == SegmentsDoc(segs[..i]) + SegmentDoc(segs[i])
  {
    assert segs[..i + 1][..i] == segs[..i];
  }

  method RenderSegments(out: string, ghost doc: seq<Option<Entry>>, segs: seq<IndexSegment>)
    returns (out': string, ghost doc': seq<Option<Entry>>)
    requires out == DocText(doc)
    ensures doc' == doc + SegmentsDoc(segs) && out' == DocText(doc')
  {
    out', doc' := out, doc;
    for i := 0 to |segs|
      invariant out' == DocText(doc') && doc' == doc + SegmentsDoc(segs[..i])
    {
      out', doc' := RenderSegment(out', doc', segs[i]);
      SegmentsDocStep(segs, i);
      Regroup(doc, SegmentsDoc(segs[..i]), SegmentDoc(segs[i]));
    }
    assert segs[..|segs|] == segs;
  }

  method RenderSegment(out: string, ghost doc: seq<Option<Entry>>, seg: IndexSegment)
    returns (out': string, ghost doc': seq<Option<Entry>>)
    requires out == DocText(doc)
    ensures doc' == doc + SegmentDoc(seg) && out' == DocText(doc')
  {
    out', doc' := Push(out, doc, true, INDEX_SEGMENT_FIELD, NatText(seg.fieldNum));
    out', doc' := Push(out', doc', seg.descending, INDEX_SEGMENT_DIRECTION, "DESCENDING");
    out', doc' := Push(out', doc', true, INDEX_SEGMENT_FLAG, NatText(seg.attrs));
  }

  method RenderIndex(out: string, ghost doc: seq<Option<Entry>>, ix: IntIndex)
    returns (out': string, ghost doc': seq<Option<Entry>>)
    requires out == DocText(doc)
    ensures doc' == doc + IndexDoc(ix) && out' == DocText(doc')
  {
    out', doc' := Push(out, doc, true, INDEX_NUMBER, NatText(ix.num));
    out', doc' := Push(out', doc', true, INDEX_NUMBER_SEGMENTS, NatText(|ix.segments|));
    out', doc' := RenderSegments(out', doc', ix.segments);
    out', doc' := Push(out', doc', true, INDEX_SEGMENT_FIELD, "0");
    out', doc' := Push(out', doc', true, INDEX_SEGMENT_FLAG, "-1");
    out', doc' := PushBlank(out', doc');
  }

  lemma {:induction false} FieldsDocStep(fields: seq<IntField>, i: nat)
    requires i < |fields|
    ensures FieldsDoc(fields[..i + 1]) == FieldsDoc(fields[..i]) + FieldDoc(fields[i])
  {
    assert fields[..i + 1][..i] == fields[..i];
  }

  method RenderFields(out: string, ghost doc: seq<Option<Entry>>, fields: seq<IntField>)
    returns (out': string, ghost doc': seq<Option<Entry>>)
    requires out == DocText(doc)
    ensures doc' == doc + FieldsDoc(fields) && out' == DocText(doc')
  {
    out', doc' := out, doc;
    for i := 0 to |fields|
      invariant out' == DocText(doc') && doc' == doc + FieldsDoc(fields[..i])
    {
      out', doc' := RenderField(out', doc', fields[i]);
      FieldsDocStep(fields, i);
      Regroup(doc, FieldsDoc(fields[..i]), FieldDoc(fields[i]));
    }
    assert fields[..|fields|] == fields;
  }

  lemma {:induction false} IndexesDocStep(ixs: seq<IntIndex>, i: nat)
    requires i < |ixs|
    ensures IndexesDoc(ixs[..i + 1]) == IndexesDoc(ixs[..i]) + IndexDoc(ixs[i])
  {
    assert ixs[..i + 1][..i] == ixs[..i];
  }

  method RenderIndexes(out: string, ghost doc: seq<Option<Entry>>, ixs: seq<IntIndex>)
    returns (out': string, ghost doc': seq<Option<Entry>>)
    requires out == DocText(doc)
    ensures doc' == doc + IndexesDoc(ixs) && out' == DocText(doc')
  {
    out', doc' := out, doc;
    for i := 0 to |ixs|
      invariant out' == DocText(doc') && doc' == doc + IndexesDoc(ixs[..i])
    {
      out', doc' := RenderIndex(out', doc', ixs[i]);
      IndexesDocStep(ixs, i);
      Regroup(doc, IndexesDoc(ixs[..i]), IndexDoc(ixs[i]));
    }
    assert ixs[..|ixs|] == ixs;
  }

  /** `render_int` */
  method Render(f: IntFile, server: string) returns (out: string)
    ensures out == DocText(Doc(f, server))
  {
    ghost var doc;
    out, doc := RenderNames(f, server);
    out, doc := RenderSizes(out, doc, f);
    out, doc := RenderOptions(out, doc, f);
    out, doc := RenderCache(out, doc, f);
    out, doc := RenderFields(out, doc, f.fields);
    out, doc := RenderIndexes(out, doc, f.indexes);
  }
}
