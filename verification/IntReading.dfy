/** How the parser reads rendered lines: every line gives back its key and value, and each scan of the
    lines is a scan of the document they were rendered from. */
module IntReading {
  import opened Wrappers
  import opened TextUtil
  import opened IntLines
  import opened IntFiles

  // ---- one line -----------------------------------------------------------------------------------------------

  /** A value that stands on one line and is not trimmed. */
  predicate ValueOk(s: string) {
    Trimmed(s) && forall i :: 0 <= i < |s| ==> s[i] != '\n'
  }

  predicate IsIndexKey(k: Key) {
    k == INDEX_NUMBER || k == INDEX_NUMBER_SEGMENTS || k == INDEX_SEGMENT_FIELD || k == INDEX_SEGMENT_DIRECTION
    || k == INDEX_SEGMENT_NULL_VALUE || k == INDEX_SEGMENT_FLAG
  }

  predicate IsFieldKey(k: Key) {
    k == FIELD_NUMBER || k == FIELD_NAME || k == FIELD_NATIVE_TYPE || k == FIELD_NATIVE_LENGTH
    || k == FIELD_NATIVE_OFFSET || k == FIELD_INDEX || k == FIELD_DEFAULT_VALUE
  }

  /** A line of a document that reads back. */
  predicate LineOk(e: Option<Entry>) {
    match e
    case None => true
    case Some(x) => x.key != OtherKey && ValueOk(x.val) && (IsIndexKey(x.key) ==> x.val != "" && NoWhite(x.val))
  }

  predicate DocOk(es: seq<Option<Entry>>) {
    forall i :: 0 <= i < |es| ==> LineOk(es[i])
  }

  lemma {:induction false} DocLineReads(e: Entry)
    requires LineOk(Some(e))
    ensures var l := Trim(DocLine(Some(e)));
            l != "" && KeyOf(Word(l)) == e.key && Word(l) == KeyText(e.key) && Rest(l) == e.val
  {
    KeyOfText(e.key);
    LineReads(KeyText(e.key), e.val);
  }

  lemma {:induction false} FieldEntryReads(e: Option<Entry>)
    requires LineOk(e)
    ensures FieldEntry(DocLine(e)) == e
  {
    match e
    case None =>
    case Some(x) => DocLineReads(x);
  }

  lemma {:induction false} IndexEntryReads(e: Option<Entry>, s: IndexScan)
    requires LineOk(e)
    ensures var r := IndexEntry(DocLine(e));
            (r.Some? <==> e.Some?) && (e.Some? ==> IndexStep(s, r.value) == IndexStep(s, e.value))
  {
    match e
    case None =>
    case Some(x) =>
      DocLineReads(x);
      if IsIndexKey(x.key) {
        KeyOfText(x.key);
        LaterWordsRead(KeyText(x.key), x.val);
      }
  }

  /** What the header map takes of a line: nothing when it has no value. */
  function Valued(e: Option<Entry>): Option<Entry> {
    if e.Some? && e.value.val == "" then None else e
  }

  lemma {:induction false} TrimStartIdem(s: string)
    requires Trimmed(s)
    ensures TrimStart(" " + s) == s && Trim(" " + s) == s
  {
    assert (" " + s)[1..] == s;
    assert TrimStart(" " + s) == TrimStart(s) == s;
  }

  lemma {:induction false} ValuelessLine(key: string)
    requires key != "" && NoWhite(key)
    ensures Trim(LineText(key, "")) == key && FirstWhite(key) == |key|
  {
    var line := LineText(key, "");
    assert line[..|line| - 1] == key;
    TrimTrimmed(key);
    assert TrimStart(line) == line;
    FirstWhiteNone(key);
  }

  lemma {:induction false} ValuedLine(key: string, val: string)
    requires key != "" && NoWhite(key) && Trimmed(val) && val != ""
    ensures var l := LineText(key, val);
            Trim(l) == l && FirstWhite(l) == |key| < |l| && Word(l) == key && Trim(l[FirstWhite(l)..]) == val
  {
    var line := LineText(key, val);
    TrimTrimmed(line);
    FirstWhiteAfter(key, " " + val);
    assert line == key + (" " + val);
    assert line[|key|..] == " " + val;
    assert line[..|key|] == key;
    TrimStartIdem(val);
  }

  lemma {:induction false} HeaderLineReads(key: string, val: string)
    requires key != "" && NoWhite(key) && Trimmed(val) && key[0] != ';' && key[0] != '#'
    ensures HeaderEntry(LineText(key, val)) == if val == "" then None else Some(Entry(KeyOf(key), val))
  {
    if val == "" {
      ValuelessLine(key);
    } else {
      ValuedLine(key, val);
    }
  }

  lemma {:induction false} HeaderEntryReads(e: Option<Entry>)
    requires LineOk(e)
    ensures HeaderEntry(DocLine(e)) == Valued(e)
  {
    match e
    case None =>
    case Some(x) =>
      KeyOfText(x.key);
      FirstKeyChar(x.key);
      HeaderLineReads(KeyText(x.key), x.val);
  }

  predicate StartsPlain(t: string) {
    t != "" && t[0] != ';' && t[0] != '#'
  }

  lemma {:induction false} FirstKeyChar(k: Key)
    requires k != OtherKey
    ensures StartsPlain(KeyText(k))
  {
    KeyChars(k);
    TextHasMark(k);
    assert KeyChar(KeyText(k)[0]);
  }

  lemma {:induction false} EntryIsOneLine(x: Entry, t: string, l: string)
    requires LineOk(Some(x)) && t == KeyText(x.key) && l == t + " " + x.val
    ensures OneLine(l)
  {
    KeyChars(x.key);
    forall j | 0 <= j < |l|
      ensures l[j] != '\n'
    {
      if j < |t| {
        assert l[j] == t[j] && KeyChar(t[j]);
      } else if j > |t| {
        assert l[j] == x.val[j - |t| - 1];
      }
    }
    if x.val != "" {
      assert l[|l| - 1] == x.val[|x.val| - 1];
    }
  }

  /** Rendered lines split back into themselves. */
  lemma {:induction false} DocLinesSplit(es: seq<Option<Entry>>)
    requires DocOk(es)
    ensures Lines(DocText(es)) == DocLines(es)
  {
    var ls := DocLines(es);
    forall i | 0 <= i < |ls|
      ensures OneLine(ls[i])
    {
      if es[i].Some? {
        EntryIsOneLine(es[i].value, KeyText(es[i].value.key), ls[i]);
      }
    }
    LinesOfUnlines(ls);
  }

  // ---- the scans ---------------------------------------------------------------------------------------------------

  lemma {:induction false} FieldEntriesRead(es: seq<Option<Entry>>)
    requires DocOk(es)
    ensures FieldEntries(DocLines(es)) == es
  {
    forall i | 0 <= i < |es|
      ensures FieldEntries(DocLines(es))[i] == es[i]
    {
      FieldEntryReads(es[i]);
    }
  }

  lemma {:induction false} IndexEntriesScan(s: IndexScan, es: seq<Option<Entry>>)
    requires DocOk(es)
    ensures ScanIndexes(s, IndexEntries(DocLines(es))) == ScanIndexes(s, es)
    decreases |es|
  {
    if es != [] {
      var rs := IndexEntries(DocLines(es));
      assert rs[1..] == IndexEntries(DocLines(es[1..]));
      IndexEntryReads(es[0], s);
      IndexEntriesScan(if es[0].Some? then IndexStep(s, es[0].value) else s, es[1..]);
    }
  }

  lemma {:induction false} ScanFieldsAppend(s: FieldScan, a: seq<Option<Entry>>, b: seq<Option<Entry>>)
    ensures ScanFields(s, a + b) == ScanFields(ScanFields(s, a), b)
    decreases |a|
  {
    if a == [] {
      assert a + b == b;
    } else {
      assert (a + b)[0] == a[0] && (a + b)[1..] == a[1..] + b;
      ScanFieldsAppend(if a[0].Some? then FieldStep(s, a[0].value) else s, a[1..], b);
    }
  }

  lemma {:induction false} ScanIndexesAppend(s: IndexScan, a: seq<Option<Entry>>, b: seq<Option<Entry>>)
    ensures ScanIndexes(s, a + b) == ScanIndexes(ScanIndexes(s, a), b)
    decreases |a|
  {
    if a == [] {
      assert a + b == b;
    } else {
      assert (a + b)[0] == a[0] && (a + b)[1..] == a[1..] + b;
      ScanIndexesAppend(if a[0].Some? then IndexStep(s, a[0].value) else s, a[1..], b);
    }
  }

  predicate NoFieldKeys(es: seq<Option<Entry>>) {
    forall i :: 0 <= i < |es| && es[i].Some? ==> !IsFieldKey(es[i].value.key)
  }

  predicate NoIndexKeys(es: seq<Option<Entry>>) {
    forall i :: 0 <= i < |es| && es[i].Some? ==> !IsIndexKey(es[i].value.key)
  }

  lemma {:induction false} ScanFieldsIgnores(s: FieldScan, es: seq<Option<Entry>>)
    requires NoFieldKeys(es)
    ensures ScanFields(s, es) == s
    decreases |es|
  {
    if es != [] {
      ScanFieldsIgnores(s, es[1..]);
    }
  }

  lemma {:induction false} ScanIndexesIgnores(s: IndexScan, es: seq<Option<Entry>>)
    requires NoIndexKeys(es)
    ensures ScanIndexes(s, es) == s
    decreases |es|
  {
    if es != [] {
      ScanIndexesIgnores(s, es[1..]);
    }
  }

  // ---- looking a header key up -----------------------------------------------------------------------------------------

  /** The value of the last line with a key and a value. */
  function Lookup(es: seq<Option<Entry>>, k: Key): Option<string> {
    if es == [] then None
    else
      var e := es[|es| - 1];
      if e.Some? && e.value.key == k && e.value.val != "" then Some(e.value.val) else Lookup(es[..|es| - 1], k)
  }

  lemma {:induction false} LookupAppend(a: seq<Option<Entry>>, b: seq<Option<Entry>>, k: Key)
    ensures Lookup(a + b, k) == if Lookup(b, k).Some? then Lookup(b, k) else Lookup(a, k)
    decreases |b|
  {
    if b == [] {
      assert a + b == a;
    } else {
      assert (a + b)[|a + b| - 1] == b[|b| - 1] && (a + b)[..|a + b| - 1] == a + b[..|b| - 1];
      LookupAppend(a, b[..|b| - 1], k);
    }
  }

  lemma {:induction false} LookupLine(c: bool, l: Key, val: string, k: Key)
    ensures Lookup(LineIf(c, l, val), k) == if c && l == k && val != "" then Some(val) else None
  {
    assert Line(l, val)[..0] == [];
  }

  lemma {:induction false} HeaderScanAppend(m: map<Key, string>, a: seq<Option<Entry>>, b: seq<Option<Entry>>)
    ensures HeaderScan(m, a + b) == HeaderScan(HeaderScan(m, a), b)
    decreases |a|
  {
    if a == [] {
      assert a + b == b;
    } else {
      assert (a + b)[0] == a[0] && (a + b)[1..] == a[1..] + b;
      HeaderScanAppend(if a[0].Some? then m[a[0].value.key := a[0].value.val] else m, a[1..], b);
    }
  }

  lemma {:induction false} HeaderScanOne(m: map<Key, string>, e: Option<Entry>)
    ensures HeaderScan(m, [e]) == if e.Some? then m[e.value.key := e.value.val] else m
  {
    assert [e][1..] == [];
  }

  /** The header map of rendered lines holds for every key what looking it up in the document gives. */
  lemma {:induction false} HeaderMapLooksUp(es: seq<Option<Entry>>, k: Key)
    requires DocOk(es)
    ensures Get(HeaderScan(map[], HeaderEntries(DocLines(es))), k) == Lookup(es, k)
    decreases |es|
  {
    if es != [] {
      var before, e := es[..|es| - 1], es[|es| - 1];
      HeaderMapLooksUp(before, k);
      HeaderEntryReads(e);
      var hs := HeaderEntries(DocLines(before));
      HeaderEntriesLast(es);
      HeaderScanAppend(map[], hs, [Valued(e)]);
      HeaderScanOne(HeaderScan(map[], hs), Valued(e));
    }
  }

  lemma {:induction false} HeaderEntriesLast(es: seq<Option<Entry>>)
    requires es != [] && LineOk(es[|es| - 1])
    ensures HeaderEntries(DocLines(es)) == HeaderEntries(DocLines(es[..|es| - 1])) + [Valued(es[|es| - 1])]
  {
    HeaderEntryReads(es[|es| - 1]);
    var ls := DocLines(es);
    assert ls[..|es| - 1] == DocLines(es[..|es| - 1]);
    LastHeaderEntry(ls);
  }

  lemma {:induction false} LastHeaderEntry(ls: seq<string>)
    requires ls != []
    ensures HeaderEntries(ls) == HeaderEntries(ls[..|ls| - 1]) + [HeaderEntry(ls[|ls| - 1])]
  {
  }
}
