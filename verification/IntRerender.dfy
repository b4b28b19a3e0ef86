/** When rendering, parsing and rendering again gives the same text. */
module IntRerender {
  import opened Wrappers
  import opened Decimal
  import opened Schema
  import opened IntLines
  import opened IntFiles
  import opened IntReading
  import opened IntRoundTrip

  // ---- sorting --------------------------------------------------------------------------------------------------

  predicate SortedByNum(ixs: seq<IntIndex>) {
    forall i, j :: 0 <= i < j < |ixs| ==> ixs[i].num <= ixs[j].num
  }

  lemma {:induction false} InsertMembers(ixs: seq<IntIndex>, ix: IntIndex)
    ensures |Insert(ixs, ix)| == |ixs| + 1
    ensures forall x :: x in Insert(ixs, ix) <==> x in ixs || x == ix
  {
    if ixs != [] && ix.num >= ixs[0].num {
      InsertMembers(ixs[1..], ix);
      assert ixs == [ixs[0]] + ixs[1..];
    }
  }

  lemma {:induction false} InsertPermutes(ixs: seq<IntIndex>, ix: IntIndex)
    ensures multiset(Insert(ixs, ix)) == multiset(ixs) + multiset{ix}
  {
    if ixs != [] && ix.num >= ixs[0].num {
      InsertPermutes(ixs[1..], ix);
      assert ixs == [ixs[0]] + ixs[1..];
    }
  }

  lemma {:induction false} InsertKeepsOrder(ixs: seq<IntIndex>, ix: IntIndex)
    requires SortedByNum(ixs)
    ensures SortedByNum(Insert(ixs, ix))
  {
    if ixs != [] && ix.num >= ixs[0].num {
      var rest := Insert(ixs[1..], ix);
      InsertKeepsOrder(ixs[1..], ix);
      InsertMembers(ixs[1..], ix);
      forall j | 0 <= j < |rest|
        ensures ixs[0].num <= rest[j].num
      {
        assert rest[j] in rest;
      }
    }
  }

  /** The indexes come out in order, and they are the same indexes. */
  lemma {:induction false} SortSorts(ixs: seq<IntIndex>)
    ensures SortedByNum(SortByNum(ixs)) && |SortByNum(ixs)| == |ixs|
    ensures multiset(SortByNum(ixs)) == multiset(ixs)
    ensures forall x :: x in SortByNum(ixs) <==> x in ixs
  {
    if ixs != [] {
      var before, ix := ixs[..|ixs| - 1], ixs[|ixs| - 1];
      SortSorts(before);
      InsertKeepsOrder(SortByNum(before), ix);
      InsertPermutes(SortByNum(before), ix);
      InsertMembers(SortByNum(before), ix);
      assert ixs == before + [ix];
    }
  }

  lemma {:induction false} InsertLast(ixs: seq<IntIndex>, ix: IntIndex)
    requires forall i :: 0 <= i < |ixs| ==> ixs[i].num <= ix.num
    ensures Insert(ixs, ix) == ixs + [ix]
  {
    if ixs != [] {
      InsertLast(ixs[1..], ix);
      assert ixs == [ixs[0]] + ixs[1..];
    }
  }

  /** What is in order stays as it is. */
  lemma {:induction false} SortedStays(ixs: seq<IntIndex>)
    requires SortedByNum(ixs)
    ensures SortByNum(ixs) == ixs
  {
    if ixs != [] {
      SortedStays(ixs[..|ixs| - 1]);
      InsertLast(ixs[..|ixs| - 1], ixs[|ixs| - 1]);
      assert ixs == ixs[..|ixs| - 1] + [ixs[|ixs| - 1]];
    }
  }

  function TotalSegments(ixs: seq<IntIndex>): nat {
    if ixs == [] then 0 else TotalSegments(ixs[..|ixs| - 1]) + |ixs[|ixs| - 1].segments|
  }

  lemma {:induction false} TotalCons(ix: IntIndex, ixs: seq<IntIndex>)
    ensures TotalSegments([ix] + ixs) == |ix.segments| + TotalSegments(ixs)
  {
    var all := [ix] + ixs;
    if ixs == [] {
      assert all == [ix] && all[..0] == [];
    } else {
      TotalCons(ix, ixs[..|ixs| - 1]);
      assert all[..|all| - 1] == [ix] + ixs[..|ixs| - 1] && all[|all| - 1] == ixs[|ixs| - 1];
    }
  }

  lemma {:induction false} InsertTotal(ixs: seq<IntIndex>, ix: IntIndex)
    ensures TotalSegments(Insert(ixs, ix)) == TotalSegments(ixs) + |ix.segments|
  {
    if ixs == [] || ix.num < ixs[0].num {
      TotalCons(ix, ixs);
    } else {
      InsertTotal(ixs[1..], ix);
      TotalCons(ixs[0], Insert(ixs[1..], ix));
      TotalCons(ixs[0], ixs[1..]);
      assert ixs == [ixs[0]] + ixs[1..];
    }
  }

  lemma {:induction false} SortTotal(ixs: seq<IntIndex>)
    ensures TotalSegments(SortByNum(ixs)) == TotalSegments(ixs)
  {
    if ixs != [] {
      SortTotal(ixs[..|ixs| - 1]);
      InsertTotal(SortByNum(ixs[..|ixs| - 1]), ixs[|ixs| - 1]);
    }
  }

  // ---- indexes that are written alike ------------------------------------------------------------------------------

  /** Null values and declared counts are not written. */
  predicate SameSegments(a: seq<IndexSegment>, b: seq<IndexSegment>) {
    |a| == |b| && forall i :: 0 <= i < |a| ==> a[i].(nullValue := 0) == b[i].(nullValue := 0)
  }

  predicate SameIndex(a: IntIndex, b: IntIndex) {
    a.num == b.num && SameSegments(a.segments, b.segments)
  }

  predicate SameIndexes(a: seq<IntIndex>, b: seq<IntIndex>) {
    |a| == |b| && forall i :: 0 <= i < |a| ==> SameIndex(a[i], b[i])
  }

  lemma {:induction false} SameSegmentsDoc(a: seq<IndexSegment>, b: seq<IndexSegment>)
    requires SameSegments(a, b)
    ensures SegmentsDoc(a) == SegmentsDoc(b)
  {
    if a != [] {
      SameSegmentsDoc(a[..|a| - 1], b[..|b| - 1]);
      assert a[|a| - 1].(nullValue := 0) == b[|b| - 1].(nullValue := 0);
    }
  }

  lemma {:induction false} SameIndexesDoc(a: seq<IntIndex>, b: seq<IntIndex>)
    requires SameIndexes(a, b)
    ensures IndexesDoc(a) == IndexesDoc(b)
  {
    if a != [] {
      var x, y := a[|a| - 1], b[|b| - 1];
      SameIndexesDoc(a[..|a| - 1], b[..|b| - 1]);
      assert SameIndex(x, y);
      SameSegmentsDoc(x.segments, y.segments);
    }
  }

  // ---- and only those -------------------------------------------------------------------------------------------------

  lemma {:induction false} NatTextDetermines(m: nat, n: nat)
    requires NatText(m) == NatText(n)
    ensures m == n
  {
    NatTextRoundTrip(m);
    NatTextRoundTrip(n);
  }

  lemma {:induction false} SegmentsDocCons(seg: IndexSegment, segs: seq<IndexSegment>)
    ensures SegmentsDoc([seg] + segs) == SegmentDoc(seg) + SegmentsDoc(segs)
  {
    var all := [seg] + segs;
    if segs == [] {
      assert all == [seg] && all[..0] == [];
      assert SegmentsDoc(all) == [] + SegmentDoc(seg);
    } else {
      SegmentsDocCons(seg, segs[..|segs| - 1]);
      assert all[..|all| - 1] == [seg] + segs[..|segs| - 1] && all[|all| - 1] == segs[|segs| - 1];
      Regroup(SegmentDoc(seg), SegmentsDoc(segs[..|segs| - 1]), SegmentDoc(segs[|segs| - 1]));
    }
  }

  lemma {:induction false} IndexesDocCons(ix: IntIndex, ixs: seq<IntIndex>)
    ensures IndexesDoc([ix] + ixs) == IndexDoc(ix) + IndexesDoc(ixs)
  {
    var all := [ix] + ixs;
    if ixs == [] {
      assert all == [ix] && all[..0] == [];
      assert IndexesDoc(all) == [] + IndexDoc(ix);
    } else {
      IndexesDocCons(ix, ixs[..|ixs| - 1]);
      assert all[..|all| - 1] == [ix] + ixs[..|ixs| - 1] && all[|all| - 1] == ixs[|ixs| - 1];
      Regroup(IndexDoc(ix), IndexesDoc(ixs[..|ixs| - 1]), IndexDoc(ixs[|ixs| - 1]));
    }
  }

  /** One segment is read off the front of a document. */
  lemma {:induction false} SegmentDocDetermines(s: IndexSegment, t: IndexSegment, a: seq<Option<Entry>>, b: seq<Option<Entry>>)
    requires SegmentDoc(s) + a == SegmentDoc(t) + b
    ensures s.(nullValue := 0) == t.(nullValue := 0) && a == b
  {
    var d, e := SegmentDoc(s) + a, SegmentDoc(t) + b;
    assert d[0] == Some(Entry(INDEX_SEGMENT_FIELD, NatText(s.fieldNum)));
    assert e[0] == Some(Entry(INDEX_SEGMENT_FIELD, NatText(t.fieldNum)));
    NatTextDetermines(s.fieldNum, t.fieldNum);
    assert s.descending <==> d[1].value.key == INDEX_SEGMENT_DIRECTION;
    assert t.descending <==> e[1].value.key == INDEX_SEGMENT_DIRECTION;
    var n := if s.descending then 2 else 1;
    assert d[n] == Some(Entry(INDEX_SEGMENT_FLAG, NatText(s.attrs)));
    assert e[n] == Some(Entry(INDEX_SEGMENT_FLAG, NatText(t.attrs)));
    NatTextDetermines(s.attrs, t.attrs);
    assert d[n + 1..] == a && e[n + 1..] == b;
  }

  lemma {:induction false} SegmentsDocDetermine(s: seq<IndexSegment>, t: seq<IndexSegment>, a: seq<Option<Entry>>, b: seq<Option<Entry>>)
    requires |s| == |t| && SegmentsDoc(s) + a == SegmentsDoc(t) + b
    ensures SameSegments(s, t) && a == b
  {
    if s == [] {
      assert [] + a == a && [] + b == b;
    } else {
      assert s == [s[0]] + s[1..] && t == [t[0]] + t[1..];
      SegmentsDocCons(s[0], s[1..]);
      SegmentsDocCons(t[0], t[1..]);
      Regroup(SegmentDoc(s[0]), SegmentsDoc(s[1..]), a);
      Regroup(SegmentDoc(t[0]), SegmentsDoc(t[1..]), b);
      SegmentDocDetermines(s[0], t[0], SegmentsDoc(s[1..]) + a, SegmentsDoc(t[1..]) + b);
      SegmentsDocDetermine(s[1..], t[1..], a, b);
    }
  }

  lemma {:induction false} IndexDocDetermines(x: IntIndex, y: IntIndex, a: seq<Option<Entry>>, b: seq<Option<Entry>>)
    requires IndexDoc(x) + a == IndexDoc(y) + b
    ensures SameIndex(x, y) && a == b
  {
    var d, e := IndexDoc(x) + a, IndexDoc(y) + b;
    assert d[0] == Some(Entry(INDEX_NUMBER, NatText(x.num))) && e[0] == Some(Entry(INDEX_NUMBER, NatText(y.num)));
    NatTextDetermines(x.num, y.num);
    assert d[1] == Some(Entry(INDEX_NUMBER_SEGMENTS, NatText(|x.segments|)));
    assert e[1] == Some(Entry(INDEX_NUMBER_SEGMENTS, NatText(|y.segments|)));
    NatTextDetermines(|x.segments|, |y.segments|);
    assert d[2..] == SegmentsDoc(x.segments) + (INDEX_END + a);
    assert e[2..] == SegmentsDoc(y.segments) + (INDEX_END + b);
    SegmentsDocDetermine(x.segments, y.segments, INDEX_END + a, INDEX_END + b);
    assert (INDEX_END + a)[3..] == a && (INDEX_END + b)[3..] == b;
  }

  lemma {:induction false} IndexDocStarts(ix: IntIndex, a: seq<Option<Entry>>)
    ensures IndexDoc(ix) + a != []
  {
  }

  lemma {:induction false} IndexesDocDetermine(a: seq<IntIndex>, b: seq<IntIndex>)
    requires IndexesDoc(a) == IndexesDoc(b)
    ensures SameIndexes(a, b)
    decreases |a|
  {
    if a != [] {
      assert a == [a[0]] + a[1..];
      IndexesDocCons(a[0], a[1..]);
      IndexDocStarts(a[0], IndexesDoc(a[1..]));
    }
    if b != [] {
      assert b == [b[0]] + b[1..];
      IndexesDocCons(b[0], b[1..]);
      IndexDocStarts(b[0], IndexesDoc(b[1..]));
    }
    if a != [] {
      IndexDocDetermines(a[0], b[0], IndexesDoc(a[1..]), IndexesDoc(b[1..]));
      IndexesDocDetermine(a[1..], b[1..]);
    }
  }

  // ---- the normal form is a table the format is for -------------------------------------------------------------------

  lemma {:induction false} NormFieldsOk(fields: seq<IntField>)
    requires forall i :: 0 <= i < |fields| ==> FieldOk(fields[i])
    ensures |NormFields(fields)| <= |fields| && forall i :: 0 <= i < |NormFields(fields)| ==> FieldOk(NormFields(fields)[i])
  {
    if fields != [] {
      NormFieldsOk(fields[..|fields| - 1]);
      assert FieldOk(NormField(fields[|fields| - 1]));
    }
  }

  /** An index the format can write, with at most `n` segments. */
  predicate IndexFits(ix: IntIndex, n: nat) {
    ix.num < U32_END && |ix.segments| <= n && forall i :: 0 <= i < |ix.segments| ==> SegmentOk(ix.segments[i])
  }

  predicate IndexesFit(ixs: seq<IntIndex>, n: nat) {
    forall ix :: ix in ixs ==> IndexFits(ix, n)
  }

  lemma {:induction false} AddSegmentFits(ixs: seq<IntIndex>, num: nat, seg: IndexSegment, n: nat)
    requires IndexesFit(ixs, n) && num < U32_END && SegmentOk(seg)
    ensures IndexesFit(AddSegment(ixs, num, seg), n + 1)
  {
    if ixs != [] {
      assert ixs[0] in ixs;
      assert forall ix :: ix in ixs[1..] ==> ix in ixs;
      if ixs[0].num != num {
        AddSegmentFits(ixs[1..], num, seg, n);
      }
    }
  }

  lemma {:induction false} GroupedFits(fields: seq<IntField>)
    requires forall i :: 0 <= i < |fields| ==> FieldOk(fields[i])
    ensures IndexesFit(Grouped(fields), |fields|)
  {
    if fields != [] {
      var f := fields[|fields| - 1];
      GroupedFits(fields[..|fields| - 1]);
      if f.fieldIndex.Some? {
        AddSegmentFits(Grouped(fields[..|fields| - 1]), f.fieldIndex.value, PlainSegment(f), |fields| - 1);
      }
    }
  }

  lemma {:induction false} NormSegmentsOk(segs: seq<IndexSegment>)
    requires forall i :: 0 <= i < |segs| ==> SegmentOk(segs[i])
    ensures |NormSegments(segs)| <= |segs|
    ensures forall i :: 0 <= i < |NormSegments(segs)| ==> SegmentOk(NormSegments(segs)[i])
  {
    if segs != [] {
      NormSegmentsOk(segs[..|segs| - 1]);
    }
  }

  lemma {:induction false} NormIndexesFit(ixs: seq<IntIndex>)
    requires forall i :: 0 <= i < |ixs| ==> IndexOk(ixs[i])
    ensures IndexesFit(NormIndexes(ixs), U32_END - 1)
  {
    if ixs != [] {
      NormIndexesFit(ixs[..|ixs| - 1]);
      NormSegmentsOk(ixs[|ixs| - 1].segments);
    }
  }

  lemma {:induction false} NormalFormOk(f: IntFile, server: string, source: string)
    requires FileOk(f, server)
    ensures FileOk(NormalForm(f, server, source), server)
  {
    var fields, read := NormFields(f.fields), NormIndexes(f.indexes);
    NormFieldsOk(f.fields);
    NormIndexesFit(f.indexes);
    GroupedFits(fields);
    SortSorts(Grouped(fields));
    SortSorts(SortByNum(Grouped(fields)));
    SortSorts(read);
    var final := FinalIndexes(read, fields);
    forall i | 0 <= i < |final|
      ensures IndexOk(final[i])
    {
      assert final[i] in final;
    }
  }

  // ---- which fields come back ------------------------------------------------------------------------------------------

  /** Every field has a name, and no default is empty. */
  predicate FieldsSettled(fields: seq<IntField>) {
    forall i :: 0 <= i < |fields| ==> fields[i].name != "" && fields[i].defaultValue != Some("")
  }

  lemma {:induction false} SettledFieldsStay(fields: seq<IntField>)
    requires FieldsSettled(fields)
    ensures NormFields(fields) == fields
  {
    if fields != [] {
      SettledFieldsStay(fields[..|fields| - 1]);
      assert fields == fields[..|fields| - 1] + [fields[|fields| - 1]];
    }
  }

  /** The lines with a key. */
  function Count(es: seq<Option<Entry>>, k: Key): nat {
    if es == [] then 0
    else Count(es[..|es| - 1], k) + if es[|es| - 1].Some? && es[|es| - 1].value.key == k then 1 else 0
  }

  lemma {:induction false} CountAppend(a: seq<Option<Entry>>, b: seq<Option<Entry>>, k: Key)
    ensures Count(a + b, k) == Count(a, k) + Count(b, k)
    decreases |b|
  {
    if b == [] {
      assert a + b == a;
    } else {
      assert (a + b)[|a + b| - 1] == b[|b| - 1] && (a + b)[..|a + b| - 1] == a + b[..|b| - 1];
      CountAppend(a, b[..|b| - 1], k);
    }
  }

  lemma {:induction false} CountElsewhere(part: Part, es: seq<Option<Entry>>, k: Key)
    requires PartOk(part, es) && !KeyIn(part, k)
    ensures Count(es, k) == 0
  {
    if es != [] {
      CountElsewhere(part, es[..|es| - 1], k);
    }
  }

  lemma {:induction false} CountLine(c: bool, l: Key, val: string, k: Key)
    ensures Count(LineIf(c, l, val), k) == if c && l == k then 1 else 0
  {
    assert Line(l, val)[..0] == [];
  }

  lemma {:induction false} CountNext(doc: seq<Option<Entry>>, c: bool, l: Key, val: string, k: Key)
    ensures Count(doc + LineIf(c, l, val), k) == Count(doc, k) + if c && l == k then 1 else 0
  {
    CountAppend(doc, LineIf(c, l, val), k);
    CountLine(c, l, val, k);
  }

  lemma {:induction false} FieldDocCounts(f: IntField)
    ensures Count(FieldDoc(f), FIELD_NUMBER) == 1
    ensures Count(FieldDoc(f), FIELD_DEFAULT_VALUE) == if f.defaultValue.Some? then 1 else 0
  {
    forall k | k == FIELD_NUMBER || k == FIELD_DEFAULT_VALUE
      ensures Count(FieldDoc(f), k) == if k == FIELD_NUMBER then 1 else if f.defaultValue.Some? then 1 else 0
    {
      FieldDocCount(f, k);
    }
  }

  lemma {:induction false} FieldDocCount(f: IntField, k: Key)
    requires k == FIELD_NUMBER || k == FIELD_DEFAULT_VALUE
    ensures Count(FieldDoc(f), k) == if k == FIELD_NUMBER then 1 else if f.defaultValue.Some? then 1 else 0
  {
    var d := Line(FIELD_NUMBER, NatText(f.num));
    CountLine(true, FIELD_NUMBER, NatText(f.num), k);
    CountNext(d, true, FIELD_NAME, f.name, k);
    d := d + Line(FIELD_NAME, f.name);
    CountNext(d, true, FIELD_NATIVE_TYPE, IntText(f.nativeType), k);
    d := d + Line(FIELD_NATIVE_TYPE, IntText(f.nativeType));
    CountNext(d, true, FIELD_NATIVE_LENGTH, NatText(f.length), k);
    d := d + Line(FIELD_NATIVE_LENGTH, NatText(f.length));
    CountNext(d, true, FIELD_NATIVE_OFFSET, NatText(f.offset), k);
    d := d + Line(FIELD_NATIVE_OFFSET, NatText(f.offset));
    CountNext(d, f.fieldIndex.Some?, FIELD_INDEX, OptText(f.fieldIndex), k);
    d := d + LineIf(f.fieldIndex.Some?, FIELD_INDEX, OptText(f.fieldIndex));
    CountNext(d, f.defaultValue.Some?, FIELD_DEFAULT_VALUE, Or(f.defaultValue, ""), k);
    d := d + LineIf(f.defaultValue.Some?, FIELD_DEFAULT_VALUE, Or(f.defaultValue, ""));
    CountAppend(d, BLANK, k);
    assert BLANK[..0] == [];
    assert Count(BLANK, k) == 0;
  }

  function Defaults(fields: seq<IntField>): nat {
    if fields == [] then 0
    else Defaults(fields[..|fields| - 1]) + if fields[|fields| - 1].defaultValue.Some? then 1 else 0
  }

  lemma {:induction false} FieldsDocCounts(fields: seq<IntField>)
    ensures Count(FieldsDoc(fields), FIELD_NUMBER) == |fields|
    ensures Count(FieldsDoc(fields), FIELD_DEFAULT_VALUE) == Defaults(fields)
  {
    if fields != [] {
      var before, f := fields[..|fields| - 1], fields[|fields| - 1];
      FieldsDocCounts(before);
      FieldDocCounts(f);
      CountAppend(FieldsDoc(before), FieldDoc(f), FIELD_NUMBER);
      CountAppend(FieldsDoc(before), FieldDoc(f), FIELD_DEFAULT_VALUE);
    }
  }

  /** An unsettled field costs a field or a default. */
  lemma {:induction false} UnsettledFieldsShrink(fields: seq<IntField>)
    ensures |NormFields(fields)| <= |fields| && Defaults(NormFields(fields)) <= Defaults(fields)
    ensures |NormFields(fields)| == |fields| && Defaults(NormFields(fields)) == Defaults(fields) ==> FieldsSettled(fields)
  {
    if fields != [] {
      var before, f := fields[..|fields| - 1], fields[|fields| - 1];
      UnsettledFieldsShrink(before);
      var norm := NormFields(fields);
      if f.name != "" {
        assert norm[..|norm| - 1] == NormFields(before) && norm[|norm| - 1] == NormField(f);
      } else {
        assert norm == NormFields(before);
      }
    }
  }

  lemma {:induction false} PartsCount(a: seq<Option<Entry>>, b: seq<Option<Entry>>, c: seq<Option<Entry>>, k: Key)
    requires PartOk(HeaderPart, a) && PartOk(IndexPart, c) && IsFieldKey(k)
    ensures Count(a + b + c, k) == Count(b, k)
  {
    CountAppend(a + b, c, k);
    CountAppend(a, b, k);
    CountElsewhere(HeaderPart, a, k);
    CountElsewhere(IndexPart, c, k);
  }

  /** Lines of field keys stand only among the fields. */
  lemma {:induction false} DocCounts(f: IntFile, server: string, k: Key)
    requires FileOk(f, server) && IsFieldKey(k)
    ensures Count(Doc(f, server), k) == Count(FieldsDoc(f.fields), k)
  {
    HeaderDocOk(f, server);
    IndexesDocOk(f.indexes);
    PartsCount(HeaderDoc(f, server), FieldsDoc(f.fields), IndexesDoc(f.indexes), k);
  }

  // ---- which indexes come back ------------------------------------------------------------------------------------------

  predicate RealSegments(segs: seq<IndexSegment>) {
    segs != [] && forall i :: 0 <= i < |segs| ==> segs[i].fieldNum != 0
  }

  /** Every index has a segment, and every segment names a field. */
  predicate AllReal(ixs: seq<IntIndex>) {
    forall i :: 0 <= i < |ixs| ==> RealSegments(ixs[i].segments)
  }

  predicate NamesField(ix: IntIndex) {
    exists j :: 0 <= j < |ix.segments| && ix.segments[j].fieldNum != 0
  }

  /** Some segment names a field. */
  predicate SomeReal(ixs: seq<IntIndex>) {
    exists i :: 0 <= i < |ixs| && NamesField(ixs[i])
  }

  lemma {:induction false} NormSegmentsCount(segs: seq<IndexSegment>)
    ensures |NormSegments(segs)| <= |segs|
    ensures |NormSegments(segs)| == |segs| <==> forall i :: 0 <= i < |segs| ==> segs[i].fieldNum != 0
    ensures NormSegments(segs) == [] <==> forall i :: 0 <= i < |segs| ==> segs[i].fieldNum == 0
    ensures |NormSegments(segs)| == |segs| ==> SameSegments(NormSegments(segs), segs)
  {
    if segs != [] {
      NormSegmentsCount(segs[..|segs| - 1]);
    }
  }

  lemma {:induction false} NormIndexesStep(ixs: seq<IntIndex>)
    requires ixs != []
    ensures var before, ix, norm := ixs[..|ixs| - 1], ixs[|ixs| - 1], NormIndexes(ixs);
            var segs := NormSegments(ix.segments);
            && |norm| == |NormIndexes(before)| + (if segs == [] then 0 else 1)
            && TotalSegments(norm) == TotalSegments(NormIndexes(before)) + |segs|
  {
    var before, ix, norm := ixs[..|ixs| - 1], ixs[|ixs| - 1], NormIndexes(ixs);
    if NormSegments(ix.segments) != [] {
      assert norm[..|norm| - 1] == NormIndexes(before);
    } else {
      assert norm == NormIndexes(before);
    }
  }

  lemma {:induction false} AllRealStep(ixs: seq<IntIndex>)
    requires ixs != []
    ensures AllReal(ixs) <==> AllReal(ixs[..|ixs| - 1]) && RealSegments(ixs[|ixs| - 1].segments)
  {
  }

  lemma {:induction false} NormIndexesCount(ixs: seq<IntIndex>)
    ensures |NormIndexes(ixs)| <= |ixs| && TotalSegments(NormIndexes(ixs)) <= TotalSegments(ixs)
    ensures |NormIndexes(ixs)| == |ixs| && TotalSegments(NormIndexes(ixs)) == TotalSegments(ixs) <==> AllReal(ixs)
  {
    if ixs != [] {
      NormIndexesCount(ixs[..|ixs| - 1]);
      NormSegmentsCount(ixs[|ixs| - 1].segments);
      NormIndexesStep(ixs);
      AllRealStep(ixs);
    }
  }

  lemma {:induction false} RealIndexesStay(ixs: seq<IntIndex>)
    requires AllReal(ixs)
    ensures SameIndexes(NormIndexes(ixs), ixs)
  {
    if ixs != [] {
      AllRealStep(ixs);
      RealIndexesStay(ixs[..|ixs| - 1]);
      NormSegmentsCount(ixs[|ixs| - 1].segments);
    }
  }

  lemma {:induction false} NormIndexesEmpty(ixs: seq<IntIndex>)
    ensures NormIndexes(ixs) == [] <==> !SomeReal(ixs)
  {
    if ixs != [] {
      var before, ix := ixs[..|ixs| - 1], ixs[|ixs| - 1];
      NormIndexesEmpty(before);
      NormSegmentsCount(ix.segments);
      assert NormSegments(ix.segments) == [] <==> !NamesField(ix);
      assert SomeReal(ixs) <==> SomeReal(before) || NamesField(ix) by {
        if SomeReal(before) {
          var i :| 0 <= i < |before| && NamesField(before[i]);
          assert NamesField(ixs[i]);
        }
        if NamesField(ix) {
          assert NamesField(ixs[|ixs| - 1]);
        }
      }
    }
  }

  lemma {:induction false} SameTotals(a: seq<IntIndex>, b: seq<IntIndex>)
    requires SameIndexes(a, b)
    ensures TotalSegments(a) == TotalSegments(b)
  {
    if a != [] {
      SameTotals(a[..|a| - 1], b[..|b| - 1]);
      assert SameIndex(a[|a| - 1], b[|b| - 1]);
    }
  }

  /** When some segment names a field, the indexes come back as written exactly when all of them are
      real and they stand in order. */
  lemma {:induction false} ReadIndexesStayIff(ixs: seq<IntIndex>)
    ensures SameIndexes(SortByNum(NormIndexes(ixs)), ixs) <==> AllReal(ixs) && SortedByNum(ixs)
  {
    var norm := NormIndexes(ixs);
    var sorted := SortByNum(norm);
    NormIndexesCount(ixs);
    SortSorts(norm);
    SortTotal(norm);
    if SameIndexes(sorted, ixs) {
      SameTotals(sorted, ixs);
      forall i, j | 0 <= i < j < |ixs|
        ensures ixs[i].num <= ixs[j].num
      {
        assert SameIndex(sorted[i], ixs[i]) && SameIndex(sorted[j], ixs[j]);
      }
    }
    if AllReal(ixs) && SortedByNum(ixs) {
      RealIndexesStay(ixs);
      forall i, j | 0 <= i < j < |norm|
        ensures norm[i].num <= norm[j].num
      {
        assert SameIndex(norm[i], ixs[i]) && SameIndex(norm[j], ixs[j]);
      }
      SortedStays(norm);
    }
  }

  // ---- rendering again ---------------------------------------------------------------------------------------------------

  /** The table is written the way the parser would leave it: fields have names and no empty defaults;
      when some segment names a field, every index has segments, all of them name fields, and the indexes
      are in order; otherwise the indexes are those the FIELD_INDEX numbers give. */
  predicate Settled(f: IntFile) {
    && FieldsSettled(f.fields)
    && if SomeReal(f.indexes) then AllReal(f.indexes) && SortedByNum(f.indexes)
       else SameIndexes(SortByNum(Grouped(f.fields)), f.indexes)
  }

  lemma {:induction false} SameHeader(f: IntFile, server: string, source: string)
    ensures HeaderDoc(NormalForm(f, server, source), server) == HeaderDoc(f, server)
  {
  }

  lemma {:induction false} FinalIndexesStayIff(f: IntFile, fields: seq<IntField>)
    ensures SameIndexes(FinalIndexes(NormIndexes(f.indexes), fields), f.indexes) <==>
              if SomeReal(f.indexes) then AllReal(f.indexes) && SortedByNum(f.indexes)
              else SameIndexes(SortByNum(Grouped(fields)), f.indexes)
  {
    NormIndexesEmpty(f.indexes);
    ReadIndexesStayIff(f.indexes);
    SortSorts(Grouped(fields));
    SortedStays(SortByNum(Grouped(fields)));
  }

  /** The two texts are equal exactly when the two documents are. */
  lemma {:induction false} TextsAreDocs(f: IntFile, g: IntFile, server: string)
    requires FileOk(f, server) && FileOk(g, server)
    ensures DocText(Doc(f, server)) == DocText(Doc(g, server)) <==> Doc(f, server) == Doc(g, server)
  {
    FileDocOk(f, server);
    FileDocOk(g, server);
    DocLinesSplit(Doc(f, server));
    DocLinesSplit(Doc(g, server));
    FieldEntriesRead(Doc(f, server));
    FieldEntriesRead(Doc(g, server));
  }

  lemma {:induction false} SameDocsSettled(f: IntFile, server: string, source: string)
    requires FileOk(f, server) && Doc(NormalForm(f, server, source), server) == Doc(f, server)
    ensures Settled(f)
  {
    var n := NormalForm(f, server, source);
    NormalFormOk(f, server, source);
    DocCounts(f, server, FIELD_NUMBER);
    DocCounts(f, server, FIELD_DEFAULT_VALUE);
    DocCounts(n, server, FIELD_NUMBER);
    DocCounts(n, server, FIELD_DEFAULT_VALUE);
    FieldsDocCounts(f.fields);
    FieldsDocCounts(n.fields);
    UnsettledFieldsShrink(f.fields);
    SettledFieldsStay(f.fields);
    SameHeader(f, server, source);
    var head := HeaderDoc(f, server) + FieldsDoc(f.fields);
    assert Doc(f, server)[|head|..] == IndexesDoc(f.indexes);
    assert Doc(n, server)[|head|..] == IndexesDoc(n.indexes);
    IndexesDocDetermine(n.indexes, f.indexes);
    FinalIndexesStayIff(f, f.fields);
  }

  /** Render, parse, render: the same text exactly for settled tables. */
  lemma {:induction false} RerenderSameIff(f: IntFile, server: string, source: string)
    requires FileOk(f, server) && f.tableName != ""
    ensures FromLines(Lines(DocText(Doc(f, server))), source) == Ok(NormalForm(f, server, source))
    ensures DocText(Doc(NormalForm(f, server, source), server)) == DocText(Doc(f, server)) <==> Settled(f)
  {
    var n := NormalForm(f, server, source);
    ParseRendered(f, server, source);
    NormalFormOk(f, server, source);
    TextsAreDocs(n, f, server);
    if Settled(f) {
      SettledFieldsStay(f.fields);
      FinalIndexesStayIff(f, f.fields);
      SameIndexesDoc(n.indexes, f.indexes);
      SameHeader(f, server, source);
    }
    if Doc(n, server) == Doc(f, server) {
      SameDocsSettled(f, server, source);
    }
  }

  const ONE_SEGMENT := IndexSegment(1, 0, false, 0)

  /** A table with one field and two indexes, the second before the first. */
  const OUT_OF_ORDER := IntFile(
    "T", "", "", 4, 0, 0, false, false, false, None, false, "", "", false, 0, "",
    [IntField(1, "F", 1, 4, 0, None, None)], [IntIndex(2, 1, [ONE_SEGMENT]), IntIndex(1, 1, [ONE_SEGMENT])])

  lemma {:induction false} OutOfOrderOk()
    ensures FileOk(OUT_OF_ORDER, "")
  {
    assert ValueOk("T") && ValueOk("F") && ValueOk("");
    assert FieldOk(OUT_OF_ORDER.fields[0]);
    assert SegmentOk(ONE_SEGMENT);
  }

  lemma {:induction false} OutOfOrderUnsettled()
    ensures AllReal(OUT_OF_ORDER.indexes) && !Settled(OUT_OF_ORDER)
  {
    var ixs := OUT_OF_ORDER.indexes;
    assert NamesField(ixs[0]) by {
      assert ixs[0].segments[0].fieldNum != 0;
    }
    assert ixs[0].num > ixs[1].num;
  }

  /** Its text changes, although its names are fine and its indexes have segments. */
  lemma {:induction false} OutOfOrderChanges()
    ensures FileOk(OUT_OF_ORDER, "") && AllReal(OUT_OF_ORDER.indexes)
    ensures DocText(Doc(NormalForm(OUT_OF_ORDER, "", ""), "")) != DocText(Doc(OUT_OF_ORDER, ""))
  {
    OutOfOrderOk();
    OutOfOrderUnsettled();
    RerenderSameIff(OUT_OF_ORDER, "", "");
  }

  /** A field the parser keeps that is a segment of some derived index. */
  predicate Carries(f: IntField) {
    f.name != "" && f.fieldIndex.Some?
  }

  predicate AllNumberedZero(fields: seq<IntField>) {
    forall i :: 0 <= i < |fields| && Carries(fields[i]) ==> fields[i].num == 0
  }

  predicate NoneNumberedZero(fields: seq<IntField>) {
    forall i :: 0 <= i < |fields| && Carries(fields[i]) ==> fields[i].num != 0
  }

  predicate NoneEmpty(ixs: seq<IntIndex>) {
    forall i :: 0 <= i < |ixs| ==> ixs[i].segments != []
  }

  lemma {:induction false} RealConses(ix: IntIndex, ixs: seq<IntIndex>)
    ensures AllReal([ix] + ixs) <==> RealSegments(ix.segments) && AllReal(ixs)
    ensures SomeReal([ix] + ixs) <==> NamesField(ix) || SomeReal(ixs)
    ensures NoneEmpty([ix] + ixs) <==> ix.segments != [] && NoneEmpty(ixs)
  {
    var all := [ix] + ixs;
    assert all[0] == ix && forall i :: 0 <= i < |ixs| ==> all[i + 1] == ixs[i];
    assert forall i :: 0 < i < |all| ==> all[i] == ixs[i - 1];
    if SomeReal(ixs) {
      var i :| 0 <= i < |ixs| && NamesField(ixs[i]);
      assert NamesField(all[i + 1]);
    }
    if NamesField(ix) {
      assert NamesField(all[0]);
    }
  }

  lemma {:induction false} OneMoreSegment(ix: IntIndex, seg: IndexSegment, more: IntIndex)
    requires more.segments == ix.segments + [seg]
    ensures NamesField(more) <==> NamesField(ix) || seg.fieldNum != 0
    ensures ix.segments != [] ==> (RealSegments(more.segments) <==> RealSegments(ix.segments) && seg.fieldNum != 0)
  {
    var n := |ix.segments|;
    assert more.segments[n] == seg && forall j :: 0 <= j < n ==> more.segments[j] == ix.segments[j];
    if NamesField(ix) {
      var j :| 0 <= j < n && ix.segments[j].fieldNum != 0;
      assert more.segments[j].fieldNum != 0;
    }
  }

  lemma {:induction false} AddSegmentReal(ixs: seq<IntIndex>, num: nat, seg: IndexSegment)
    requires NoneEmpty(ixs)
    ensures NoneEmpty(AddSegment(ixs, num, seg))
    ensures SomeReal(AddSegment(ixs, num, seg)) <==> SomeReal(ixs) || seg.fieldNum != 0
    ensures AllReal(AddSegment(ixs, num, seg)) <==> AllReal(ixs) && seg.fieldNum != 0
  {
    if ixs == [] {
      var ix := IntIndex(num, 1, [seg]);
      assert [ix] == [ix] + [];
      RealConses(ix, []);
      assert NamesField(ix) <==> seg.fieldNum != 0 by {
        assert ix.segments[0] == seg;
      }
    } else {
      var ix, rest := ixs[0], ixs[1..];
      assert ixs == [ix] + rest;
      RealConses(ix, rest);
      if ix.num == num {
        var more := IntIndex(num, ix.numSegments + 1, ix.segments + [seg]);
        OneMoreSegment(ix, seg, more);
        RealConses(more, rest);
      } else {
        AddSegmentReal(rest, num, seg);
        RealConses(ix, AddSegment(rest, num, seg));
      }
    }
  }

  lemma {:induction false} NumberedZeroGrows(before: seq<IntField>, f: IntField)
    ensures AllNumberedZero(before + [f]) <==> AllNumberedZero(before) && (Carries(f) ==> f.num == 0)
    ensures NoneNumberedZero(before + [f]) <==> NoneNumberedZero(before) && (Carries(f) ==> f.num != 0)
  {
    var more := before + [f];
    assert more[|before|] == f && forall i :: 0 <= i < |before| ==> more[i] == before[i];
  }

  lemma {:induction false} GroupedReal(fields: seq<IntField>)
    ensures var ixs := Grouped(NormFields(fields));
            NoneEmpty(ixs) && (SomeReal(ixs) <==> !AllNumberedZero(fields)) && (AllReal(ixs) <==> NoneNumberedZero(fields))
  {
    if fields != [] {
      var before, f := fields[..|fields| - 1], fields[|fields| - 1];
      GroupedReal(before);
      assert fields == before + [f];
      NumberedZeroGrows(before, f);
      if f.name != "" {
        var kept := NormFields(before);
        assert (kept + [NormField(f)])[..|kept|] == kept;
        if f.fieldIndex.Some? {
          AddSegmentReal(Grouped(kept), f.fieldIndex.value, PlainSegment(NormField(f)));
        }
      } else {
        assert NormFields(fields) == NormFields(before);
      }
    }
  }

  lemma {:induction false} SortedReal(ixs: seq<IntIndex>)
    ensures SomeReal(SortByNum(ixs)) <==> SomeReal(ixs)
    ensures AllReal(SortByNum(ixs)) <==> AllReal(ixs)
  {
    var sorted := SortByNum(ixs);
    SortSorts(ixs);
    if SomeReal(ixs) {
      var i :| 0 <= i < |ixs| && NamesField(ixs[i]);
      assert ixs[i] in sorted;
      var j :| 0 <= j < |sorted| && sorted[j] == ixs[i];
      assert NamesField(sorted[j]);
    }
    if SomeReal(sorted) {
      var i :| 0 <= i < |sorted| && NamesField(sorted[i]);
      assert sorted[i] in ixs;
      var j :| 0 <= j < |ixs| && ixs[j] == sorted[i];
      assert NamesField(ixs[j]);
    }
    assert forall i :: 0 <= i < |sorted| ==> sorted[i] in ixs;
    assert forall i :: 0 <= i < |ixs| ==> ixs[i] in sorted;
  }

  lemma {:induction false} NormIndexesAllReal(ixs: seq<IntIndex>)
    requires SomeReal(ixs)
    ensures AllReal(NormIndexes(ixs)) && SomeReal(NormIndexes(ixs))
  {
    var norm := NormIndexes(ixs);
    NormIndexesEmpty(ixs);
    NormIndexesReal(ixs);
    assert forall i :: 0 <= i < |norm| ==> norm[i] in norm;
    assert RealSegments(norm[0].segments);
    assert NamesField(norm[0]) by {
      assert norm[0].segments[0].fieldNum != 0;
    }
  }

  /** Indexes written out settle. */
  lemma {:induction false} WrittenIndexesSettle(f: IntFile, server: string, source: string)
    requires SomeReal(f.indexes)
    ensures Settled(NormalForm(f, server, source))
  {
    var norm := NormIndexes(f.indexes);
    NormFieldsSettled(f.fields);
    NormIndexesEmpty(f.indexes);
    NormIndexesAllReal(f.indexes);
    SortSorts(norm);
    SortedReal(norm);
    assert NormalForm(f, server, source).indexes == SortByNum(norm);
  }

  /** A second trip changes nothing any more exactly when some index written out has a segment that names
      a field, or of the fields from which the indexes are derived all or none have the number 0. */
  lemma {:induction false} NormalFormSettlesIff(f: IntFile, server: string, source: string)
    ensures Settled(NormalForm(f, server, source)) <==>
              SomeReal(f.indexes) || AllNumberedZero(f.fields) || NoneNumberedZero(f.fields)
  {
    if SomeReal(f.indexes) {
      WrittenIndexesSettle(f, server, source);
    } else {
      var n := NormalForm(f, server, source);
      var grouped := Grouped(n.fields);
      NormIndexesEmpty(f.indexes);
      NormFieldsSettled(f.fields);
      GroupedReal(f.fields);
      SortSorts(grouped);
      SortedStays(SortByNum(grouped));
      SortedReal(grouped);
      assert n.indexes == SortByNum(grouped);
    }
  }

  lemma {:induction false} NormFieldsSettled(fields: seq<IntField>)
    ensures FieldsSettled(NormFields(fields))
  {
    if fields != [] {
      NormFieldsSettled(fields[..|fields| - 1]);
    }
  }

  lemma {:induction false} NormSegmentsReal(segs: seq<IndexSegment>)
    ensures forall i :: 0 <= i < |NormSegments(segs)| ==> NormSegments(segs)[i].fieldNum != 0
  {
    if segs != [] {
      NormSegmentsReal(segs[..|segs| - 1]);
    }
  }

  lemma {:induction false} NormIndexesReal(ixs: seq<IntIndex>)
    ensures forall ix :: ix in NormIndexes(ixs) ==> RealSegments(ix.segments)
  {
    if ixs != [] {
      NormIndexesReal(ixs[..|ixs| - 1]);
      NormSegmentsReal(ixs[|ixs| - 1].segments);
    }
  }
}
