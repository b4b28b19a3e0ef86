/** INT files as they are spelled: the words the parser knows, and the lines of a segment, which may set a null
    value the renderer never writes. */
module IntLiteral {
  import opened Wrappers
  import SqlText
  import opened Decimal
  import opened TextUtil
  import opened Schema
  import opened RecordCodec
  import opened FieldTypes
  import opened IntLines
  import opened IntFiles

  /** The words of the header, of its options, of a field and of an index. */
  predicate Spells(word: string, k: Key) {
    match k
    case TABLE_NAME => word == "TABLE_NAME"
    case SCHEMA_NAME => word == "SCHEMA_NAME"
    case DATABASE_SPACE_NAME => word == "DATABASE_SPACE_NAME"
    case LOGICAL_RECORD_LENGTH => word == "LOGICAL_RECORD_LENGTH"
    case PAGE_SIZE => word == "PAGE_SIZE"
    case FILE_FLAGS => word == "FILE_FLAGS"
    case IGNORE_NULL_VALUES => word == "IGNORE_NULL_VALUES"
    case TRIM_STRING_FIELDS => word == "TRIM_STRING_FIELDS"
    case TRANSLATE_OEM_TO_ANSI => word == "TRANSLATE_OEM_TO_ANSI"
    case PRIMARY_INDEX => word == "PRIMARY_INDEX"
    case LOCAL_CACHE => word == "LOCAL_CACHE"
    case DRIVER_NAME => word == "DRIVER_NAME"
    case SERVER_NAME => word == "SERVER_NAME"
    case PERMANENT_INT => word == "PERMANENT_INT"
    case NUMBER_DF_FIELDS => word == "NUMBER_DF_FIELDS"
    case FIELD_NUMBER => word == "FIELD_NUMBER"
    case FIELD_NAME => word == "FIELD_NAME"
    case FIELD_NATIVE_TYPE => word == "FIELD_NATIVE_TYPE"
    case FIELD_NATIVE_LENGTH => word == "FIELD_NATIVE_LENGTH"
    case FIELD_NATIVE_OFFSET => word == "FIELD_NATIVE_OFFSET"
    case FIELD_INDEX => word == "FIELD_INDEX"
    case FIELD_DEFAULT_VALUE => word == "FIELD_DEFAULT_VALUE"
    case INDEX_NUMBER => word == "INDEX_NUMBER"
    case INDEX_NUMBER_SEGMENTS => word == "INDEX_NUMBER_SEGMENTS"
    case INDEX_SEGMENT_FIELD => word == "INDEX_SEGMENT_FIELD"
    case INDEX_SEGMENT_DIRECTION => word == "INDEX_SEGMENT_DIRECTION"
    case INDEX_SEGMENT_NULL_VALUE => word == "INDEX_SEGMENT_NULL_VALUE"
    case INDEX_SEGMENT_FLAG => word == "INDEX_SEGMENT_FLAG"
    case OtherKey => false
  }

  /** The parser takes each of them, in any case, for its key. */
  lemma {:induction false} WordIsKey(word: string, k: Key)
    requires Spells(Upper(word), k)
    ensures KeyOf(word) == k
  {
    assert Names(word, k) by {
      assert Upper(word) == KeyText(k);
    }
    KeyTextsDiffer(k, KeyOf(word));
  }

  // ---- lines without an entry ------------------------------------------------------------------------------

  /** The header takes nothing from an empty line, one that starts with a semicolon or a number sign, or one without a value. */
  lemma {:induction false} HeaderSkips(raw: string)
    ensures var l := Trim(raw);
            l == "" || l[0] == ';' || l[0] == '#' || NoWhite(l) ==> HeaderEntry(raw) == None
  {
    if NoWhite(Trim(raw)) {
      FirstWhiteNone(Trim(raw));
    }
  }

  lemma {:induction false} TwoTokens(a: string, b: string)
    requires a != "" && b != "" && NoWhite(a) && NoWhite(b)
    ensures Tokens(" " + a + " " + b) == [a, b]
  {
    OneToken(b);
    FirstWhiteAfter(a, " " + b);
    var s := a + (" " + b);
    assert " " + a + " " + b == " " + s && (" " + s)[1..] == s;
    assert TrimStart(" " + s) == s;
    assert s[..|a|] == a && s[|a|..] == " " + b && (" " + b)[1..] == b;
    assert Tokens(" " + b) == [b] by {
      FirstWhiteNone(b);
      assert TrimStart(" " + b) == b && b[|b|..] == "" && b[..|b|] == b;
      assert Tokens("") == [];
    }
  }

  /** A value of two words in an index line keeps one blank between them. */
  lemma {:induction false} TwoWordValue(key: string, a: string, b: string)
    requires key != "" && a != "" && b != "" && NoWhite(key) && NoWhite(a) && NoWhite(b)
    ensures LaterWords(key + " " + a + " " + b) == a + " " + b
  {
    var rest := " " + a + " " + b;
    var line := key + rest;
    assert line == key + " " + a + " " + b;
    FirstWhiteAfter(key, rest);
    assert line[..|key|] == key && line[|key|..] == rest;
    TwoTokens(a, b);
    assert TrimStart(line) == line;
    assert Tokens(line) == [key] + [a, b];
    assert ([key] + [a, b])[1..] == [a, b] && [a, b][1..] == [b];
    assert SqlText.Join([a, b], " ") == a + " " + SqlText.Join([b], " ");
  }

  // ---- numbers and options ---------------------------------------------------------------------------------

  /** A number below a bound, as it is spelled; 0 for anything else. */
  function Spelled(t: string, end: nat): nat {
    match ParseNat(t)
    case Some(n) => if n < end then n else 0
    case None => 0
  }

  function ValueOf(m: map<Key, string>, k: Key): string {
    if k in m then m[k] else ""
  }

  /** The numbers of a header: 32 bits for the record length, 16 for page size and flags; white space around a value counts there
      and does not in the number of fields. What is no such number, or missing, is 0. */
  lemma {:induction false} HeaderNumbers(m: map<Key, string>, fields: seq<IntField>, indexes: seq<IntIndex>, source: string)
    requires TABLE_NAME in m
    ensures var f := FromParts(m, fields, indexes, source);
            && f.Ok?
            && f.value.recordLength == Spelled(ValueOf(m, LOGICAL_RECORD_LENGTH), 0x1_0000_0000)
            && f.value.pageSize == Spelled(ValueOf(m, PAGE_SIZE), 0x1_0000)
            && f.value.fileFlags == Spelled(ValueOf(m, FILE_FLAGS), 0x1_0000)
            && f.value.numberDfFields == Spelled(Trim(ValueOf(m, NUMBER_DF_FIELDS)), 0x1_0000_0000)
  {
    assert ParseNat("") == None && Trim("") == "";
  }

  /** Its options: three are on for any value but 0, white space aside, and off when missing; two are on for YES in any case
      only. The primary index is a number or none. */
  lemma {:induction false} HeaderOptions(m: map<Key, string>, fields: seq<IntField>, indexes: seq<IntIndex>, source: string)
    requires TABLE_NAME in m
    ensures var f := FromParts(m, fields, indexes, source);
            && f.Ok?
            && (f.value.ignoreNullValues <==> IGNORE_NULL_VALUES in m && Trim(m[IGNORE_NULL_VALUES]) != "0")
            && (f.value.trimStringFields <==> TRIM_STRING_FIELDS in m && Trim(m[TRIM_STRING_FIELDS]) != "0")
            && (f.value.translateOemToAnsi <==> TRANSLATE_OEM_TO_ANSI in m && Trim(m[TRANSLATE_OEM_TO_ANSI]) != "0")
            && (f.value.localCache <==> Upper(Trim(ValueOf(m, LOCAL_CACHE))) == "YES")
            && (f.value.permanentInt <==> Upper(Trim(ValueOf(m, PERMANENT_INT))) == "YES")
            && f.value.primaryIndex == (var n := ParseNat(Trim(ValueOf(m, PRIMARY_INDEX)));
                                        if n.Some? && n.value < 0x1_0000_0000 then n else None)
  {
    assert ParseNat("") == None && Trim("") == "" && Upper("YES") == "YES" && Upper("") == "";
    SameInCapitals(Trim(ValueOf(m, LOCAL_CACHE)), "YES");
    SameInCapitals(Trim(ValueOf(m, PERMANENT_INT)), "YES");
  }

  /** A number text as an unsigned and as a signed 32-bit number. */
  lemma {:induction false} NumberBelow(n: int)
    ensures ParseBelow(IntText(n), U32_END) == if 0 <= n < 0x1_0000_0000 then Some(n) else None
    ensures ParseI32(IntText(n)) == if -0x8000_0000 <= n < 0x8000_0000 then Some(n) else None
  {
    NumberValue(n);
    if n < 0 {
      assert IntText(n)[0] == '-' && !IsDigit('-');
    }
  }

  /** A field's numbers: the type a signed, the others an unsigned 32-bit number, and 0 or nothing for any number beyond. */
  lemma {:induction false} FieldNumbers(s: FieldScan, n: int, t: string)
    requires t == IntText(n)
    ensures FieldStep(s, Entry(FIELD_NATIVE_TYPE, t)) == s.(nativeType := if -0x8000_0000 <= n < 0x8000_0000 then n else 0)
    ensures FieldStep(s, Entry(FIELD_NATIVE_LENGTH, t)) == s.(length := if 0 <= n < 0x1_0000_0000 then n else 0)
    ensures FieldStep(s, Entry(FIELD_NATIVE_OFFSET, t)) == s.(offset := if 0 <= n < 0x1_0000_0000 then n else 0)
    ensures FieldStep(s, Entry(FIELD_INDEX, t)) == s.(fieldIndex := if 0 <= n < 0x1_0000_0000 then Some(n) else None)
  {
    NumberBelow(n);
  }

  /** A field number closes the field before it and opens a new one. */
  lemma {:induction false} FieldOpens(s: FieldScan, n: int, t: string)
    requires t == IntText(n)
    ensures FieldStep(s, Entry(FIELD_NUMBER, t))
         == FieldScan(Flushed(s), if 0 <= n < 0x1_0000_0000 then Some(n) else None, "", 0, 0, 0, None, None)
  {
    NumberBelow(n);
  }

  // ---- the lines of a segment ----------------------------------------------------------------------------

  lemma {:induction false} IndexLine(k: Key, val: string)
    requires k != OtherKey && val != "" && NoWhite(val)
    ensures IndexEntry(KeyText(k) + " " + val) == Some(Entry(k, val))
  {
    KeyOfText(k);
    LineReads(KeyText(k), val);
    LaterWordsRead(KeyText(k), val);
  }

  /** One line more for the index loop. */
  lemma {:induction false} IndexLineStep(s: IndexScan, k: Key, val: string, line: string, more: seq<string>)
    requires k != OtherKey && val != "" && NoWhite(val) && line == KeyText(k) + " " + val
    ensures ScanIndexes(s, IndexEntries([line] + more)) == ScanIndexes(IndexStep(s, Entry(k, val)), IndexEntries(more))
  {
    var e, es, rest := Entry(k, val), IndexEntries([line] + more), IndexEntries(more);
    assert es[0] == Some(e) by {
      IndexLine(k, val);
    }
    assert forall i :: 0 <= i < |rest| ==> rest[i] == es[i + 1];
    ScanOne(s, e, es, rest);
  }

  lemma {:induction false} ScanOne(s: IndexScan, e: Entry, es: seq<Option<Entry>>, more: seq<Option<Entry>>)
    requires |es| == |more| + 1 && es[0] == Some(e) && forall i :: 0 <= i < |more| ==> more[i] == es[i + 1]
    ensures ScanIndexes(s, es) == ScanIndexes(IndexStep(s, e), more)
  {
    assert es[1..] == more;
  }

  lemma {:induction false} FieldLine(s: IndexScan, field: nat, line: string, more: seq<string>)
    requires field < 0x1_0000_0000 && line == "INDEX_SEGMENT_FIELD " + IntText(field)
    ensures ScanIndexes(s, IndexEntries([line] + more))
         == ScanIndexes(s.(field := Some(field), descending := false, nullValue := 0), IndexEntries(more))
  {
    NumberValue(field);
    IndexLineStep(s, INDEX_SEGMENT_FIELD, IntText(field), line, more);
  }

  lemma {:induction false} DirectionLine(s: IndexScan, direction: string, line: string, more: seq<string>)
    requires direction != "" && NoWhite(direction) && line == "INDEX_SEGMENT_DIRECTION " + direction
    ensures ScanIndexes(s, IndexEntries([line] + more))
         == ScanIndexes(s.(descending := SameIgnoringCase(direction, "DESCENDING")), IndexEntries(more))
  {
    TrimTrimmed(direction);
    IndexLineStep(s, INDEX_SEGMENT_DIRECTION, direction, line, more);
  }

  lemma {:induction false} NullLine(s: IndexScan, nullValue: nat, line: string, more: seq<string>)
    requires line == "INDEX_SEGMENT_NULL_VALUE " + IntText(nullValue)
    ensures ScanIndexes(s, IndexEntries([line] + more))
         == ScanIndexes(s.(nullValue := if nullValue < 256 then nullValue else 0), IndexEntries(more))
  {
    NumberValue(nullValue);
    IndexLineStep(s, INDEX_SEGMENT_NULL_VALUE, IntText(nullValue), line, more);
  }

  lemma {:induction false} FlagStep(s: IndexScan, flag: int, s': IndexScan)
    requires -0x8000_0000 <= flag < 0x8000_0000
    requires s' == s.(segments := s.segments + (if s.field.Some? then SegmentAdded(s.field.value, flag, s.descending, s.nullValue) else []),
                      field := None, descending := false, nullValue := 0)
    ensures IndexStep(s, Entry(INDEX_SEGMENT_FLAG, IntText(flag))) == s'
  {
    NumberValue(flag);
    assert s.segments + [] == s.segments;
  }

  /** A flag beyond 32 bits reads as -1, so the segment is dropped. */
  lemma {:induction false} FlagBeyond(s: IndexScan, flag: int)
    requires flag < -0x8000_0000 || flag >= 0x8000_0000
    ensures IndexStep(s, Entry(INDEX_SEGMENT_FLAG, IntText(flag))) == s.(field := None, descending := false, nullValue := 0)
  {
    NumberValue(flag);
  }

  lemma {:induction false} FlagLine(s: IndexScan, flag: int, line: string, more: seq<string>, s': IndexScan)
    requires -0x8000_0000 <= flag < 0x8000_0000 && line == "INDEX_SEGMENT_FLAG " + IntText(flag)
    requires s' == s.(segments := s.segments + (if s.field.Some? then SegmentAdded(s.field.value, flag, s.descending, s.nullValue) else []),
                      field := None, descending := false, nullValue := 0)
    ensures ScanIndexes(s, IndexEntries([line] + more)) == ScanIndexes(s', IndexEntries(more))
  {
    NumberValue(flag);
    FlagStep(s, flag, s');
    IndexLineStep(s, INDEX_SEGMENT_FLAG, IntText(flag), line, more);
  }

  lemma {:induction false} DigitsAreWord(t: string)
    requires AllDigits(t)
    ensures NoWhite(t)
  {
  }

  /** What the four lines add to the segments: nothing for field 0 or flag -1. */
  function SegmentAdded(field: nat, flag: int, descending: bool, nullValue: nat): seq<IndexSegment> {
    if field == 0 || flag == -1 then [] else [IndexSegment(field, flag % 0x1_0000, descending, nullValue)]
  }

  lemma {:induction false} FourLines(a: string, b: string, c: string, d: string, more: seq<string>)
    ensures [a, b, c, d] + more == [a] + ([b] + ([c] + ([d] + more)))
  {
  }

  /** A segment of the file: its field, its direction, its null value and last its flag, each on a line of its own. A
      direction other than DESCENDING, in any case, is ascending; a null value beyond a byte is 0. */
  lemma {:induction false} SegmentLines(s: IndexScan, field: nat, direction: string, nullValue: nat, flag: int,
                                        a: string, b: string, c: string, d: string, more: seq<string>)
    requires field < 0x1_0000_0000 && direction != "" && NoWhite(direction) && -0x8000_0000 <= flag < 0x8000_0000
    requires a == "INDEX_SEGMENT_FIELD " + IntText(field) && b == "INDEX_SEGMENT_DIRECTION " + direction
    requires c == "INDEX_SEGMENT_NULL_VALUE " + IntText(nullValue) && d == "INDEX_SEGMENT_FLAG " + IntText(flag)
    ensures var added := SegmentAdded(field, flag, SameIgnoringCase(direction, "DESCENDING"), if nullValue < 256 then nullValue else 0);
            ScanIndexes(s, IndexEntries([a, b, c, d] + more))
            == ScanIndexes(s.(segments := s.segments + added, field := None, descending := false, nullValue := 0), IndexEntries(more))
  {
    var added := SegmentAdded(field, flag, SameIgnoringCase(direction, "DESCENDING"), if nullValue < 256 then nullValue else 0);
    var s1 := s.(field := Some(field), descending := false, nullValue := 0);
    var s2 := s1.(descending := SameIgnoringCase(direction, "DESCENDING"));
    var s3 := s2.(nullValue := if nullValue < 256 then nullValue else 0);
    var m3 := [d] + more;
    var m2 := [c] + m3;
    var m1 := [b] + m2;
    FourLines(a, b, c, d, more);
    assert ScanIndexes(s, IndexEntries([a] + m1)) == ScanIndexes(s1, IndexEntries(m1)) by {
      FieldLine(s, field, a, m1);
    }
    assert ScanIndexes(s1, IndexEntries(m1)) == ScanIndexes(s2, IndexEntries(m2)) by {
      DirectionLine(s1, direction, b, m2);
    }
    assert ScanIndexes(s2, IndexEntries(m2)) == ScanIndexes(s3, IndexEntries(m3)) by {
      NullLine(s2, nullValue, c, m3);
    }
    FlagLine(s3, flag, d, more, s3.(segments := s.segments + added, field := None, descending := false, nullValue := 0));
  }

  /** A number as a value: one word, trimmed, read back as the number. */
  lemma {:induction false} NumberValue(n: int)
    ensures IntText(n) != "" && NoWhite(IntText(n)) && Trim(IntText(n)) == IntText(n)
    ensures ParseInt(IntText(n)) == Some(n) && (n >= 0 ==> ParseNat(IntText(n)) == Some(n))
  {
    IntTextRoundTrip(n);
    if n >= 0 {
      NatTextRoundTrip(n);
    }
    NatTextDigits(if n < 0 then -n else n);
    DigitsAreWord(NatText(if n < 0 then -n else n));
    TrimTrimmed(IntText(n));
  }

  // ---- indexes from FIELD_INDEX ------------------------------------------------------------------------------

  /** The plain segments of the fields that name index `n`, in order: ascending, without attributes, null value 0. */
  function SegmentsNaming(fields: seq<IntField>, n: nat): seq<IndexSegment> {
    if fields == [] then []
    else
      var f := fields[|fields| - 1];
      SegmentsNaming(fields[..|fields| - 1], n) + if f.fieldIndex == Some(n) then [IndexSegment(f.num, 0, false, 0)] else []
  }

  /** The segments of the index numbered `n`, none when there is none; the numbers are told apart. */
  function SegmentsIn(ixs: seq<IntIndex>, n: nat): seq<IndexSegment> {
    if ixs == [] then [] else if ixs[0].num == n then ixs[0].segments else SegmentsIn(ixs[1..], n)
  }

  predicate HasNum(ixs: seq<IntIndex>, n: nat) {
    ixs != [] && (ixs[0].num == n || HasNum(ixs[1..], n))
  }

  /** No number twice, no index empty, and the segments counted. */
  predicate EachOnce(ixs: seq<IntIndex>) {
    ixs == [] || (!HasNum(ixs[1..], ixs[0].num) && ixs[0].segments != [] && ixs[0].numSegments == |ixs[0].segments| && EachOnce(ixs[1..]))
  }

  lemma {:induction false} AddedNum(ixs: seq<IntIndex>, n: nat, seg: IndexSegment, k: nat)
    ensures HasNum(AddSegment(ixs, n, seg), k) <==> k == n || HasNum(ixs, k)
  {
    var all := AddSegment(ixs, n, seg);
    if ixs == [] {
      assert all[1..] == [];
    } else if ixs[0].num == n {
      assert all[1..] == ixs[1..];
    } else {
      assert all[1..] == AddSegment(ixs[1..], n, seg);
      AddedNum(ixs[1..], n, seg, k);
    }
  }

  lemma {:induction false} AddedOnce(ixs: seq<IntIndex>, n: nat, seg: IndexSegment)
    requires EachOnce(ixs)
    ensures EachOnce(AddSegment(ixs, n, seg))
  {
    var all := AddSegment(ixs, n, seg);
    if ixs == [] {
      assert all[1..] == [];
    } else if ixs[0].num == n {
      assert all[1..] == ixs[1..];
    } else {
      assert all[1..] == AddSegment(ixs[1..], n, seg);
      AddedOnce(ixs[1..], n, seg);
      AddedNum(ixs[1..], n, seg, ixs[0].num);
    }
  }

  lemma {:induction false} AddedSegment(ixs: seq<IntIndex>, n: nat, seg: IndexSegment, k: nat)
    ensures SegmentsIn(AddSegment(ixs, n, seg), k) == SegmentsIn(ixs, k) + if k == n then [seg] else []
  {
    var all := AddSegment(ixs, n, seg);
    if ixs == [] {
      assert all[1..] == [];
    } else if ixs[0].num == n {
      assert all[1..] == ixs[1..];
    } else {
      assert all[1..] == AddSegment(ixs[1..], n, seg);
      AddedSegment(ixs[1..], n, seg, k);
    }
  }

  /** The indexes made of the fields' own index numbers: one for each number named, its segments those of the fields that name
      it, counted. */
  lemma {:induction false} GroupedSegments(fields: seq<IntField>, n: nat)
    ensures EachOnce(Grouped(fields)) && SegmentsIn(Grouped(fields), n) == SegmentsNaming(fields, n)
  {
    if fields != [] {
      var f, front := fields[|fields| - 1], fields[..|fields| - 1];
      GroupedSegments(front, n);
      if f.fieldIndex.Some? {
        AddedOnce(Grouped(front), f.fieldIndex.value, PlainSegment(f));
        AddedSegment(Grouped(front), f.fieldIndex.value, PlainSegment(f), n);
      }
    }
  }
}
