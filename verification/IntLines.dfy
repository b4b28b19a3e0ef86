/** The line layer of INT files: splitting text into lines, a line into a key and a value, and the keys
    the parser knows. */
module IntLines {
  import opened Wrappers
  import opened TextUtil
  import SqlText

  // ---- lines ----------------------------------------------------------------------------------------------------

  function FirstNewline(s: string): (k: nat)
    ensures k <= |s| && (k < |s| ==> s[k] == '\n') && forall i :: 0 <= i < k ==> s[i] != '\n'
  {
    if s == "" || s[0] == '\n' then 0 else 1 + FirstNewline(s[1..])
  }

  function ChopCr(s: string): string {
    if s != "" && s[|s| - 1] == '\r' then s[..|s| - 1] else s
  }

  /** `str::lines` */
  function Lines(text: string): seq<string> {
    if text == "" then []
    else
      var k := FirstNewline(text);
      if k == |text| then [text] else [ChopCr(text[..k])] + Lines(text[k + 1..])
  }

  /** Lines pushed one after another, each with its newline. */
  function Unlines(ls: seq<string>): string {
    if ls == [] then "" else ls[0] + "\n" + Unlines(ls[1..])
  }

  /** A line that splitting gives back. */
  predicate OneLine(l: string) {
    (forall i :: 0 <= i < |l| ==> l[i] != '\n') && (l != "" ==> l[|l| - 1] != '\r')
  }

  lemma {:induction false} NewlineAfter(l: string, rest: string)
    requires forall i :: 0 <= i < |l| ==> l[i] != '\n'
    ensures FirstNewline(l + "\n" + rest) == |l|
  {
    if l == "" {
      assert "" + "\n" + rest == "\n" + rest;
    } else {
      NewlineAfter(l[1..], rest);
      assert (l + "\n" + rest)[1..] == l[1..] + "\n" + rest;
    }
  }

  lemma {:induction false} LinesOfUnlines(ls: seq<string>)
    requires forall i :: 0 <= i < |ls| ==> OneLine(ls[i])
    ensures Lines(Unlines(ls)) == ls
  {
    if ls != [] {
      var l, rest := ls[0], Unlines(ls[1..]);
      var text := l + "\n" + rest;
      NewlineAfter(l, rest);
      assert text[..|l|] == l && text[|l| + 1..] == rest;
      LinesOfUnlines(ls[1..]);
      assert ls == [l] + ls[1..];
    }
  }

  /** Lines as other editors write them, each with a carriage return and a newline. */
  function CrLfLines(ls: seq<string>): string {
    if ls == [] then "" else ls[0] + "\r\n" + CrLfLines(ls[1..])
  }

  lemma {:induction false} NoNewline(tail: string)
    requires forall i :: 0 <= i < |tail| ==> tail[i] != '\n'
    ensures FirstNewline(tail) == |tail|
  {
    if tail != "" {
      NoNewline(tail[1..]);
    }
  }

  lemma {:induction false} LastLine(tail: string)
    requires forall i :: 0 <= i < |tail| ==> tail[i] != '\n'
    ensures Lines(tail) == if tail == "" then [] else [tail]
  {
    NoNewline(tail);
  }

  lemma {:induction false} CrLfLine(l: string, rest: string)
    requires OneLine(l)
    ensures Lines(l + "\r\n" + rest) == [l] + Lines(rest)
  {
    var line, text := l + "\r", l + "\r\n" + rest;
    assert text == line + "\n" + rest;
    NewlineAfter(line, rest);
    assert text[..|line|] == line && text[|line| + 1..] == rest;
    assert line[..|line| - 1] == l;
  }

  lemma {:induction false} CrLfHead(ls: seq<string>, tail: string, rest: string)
    requires ls != [] && rest == CrLfLines(ls[1..]) + tail
    ensures CrLfLines(ls) + tail == ls[0] + "\r\n" + rest
  {
    Regroup(ls[0] + "\r\n", CrLfLines(ls[1..]), tail);
  }

  /** They are read the same, and a last line may stand without its end. */
  lemma {:induction false} LinesOfCrLf(ls: seq<string>, tail: string)
    requires forall i :: 0 <= i < |ls| ==> OneLine(ls[i])
    requires forall i :: 0 <= i < |tail| ==> tail[i] != '\n'
    ensures Lines(CrLfLines(ls) + tail) == ls + if tail == "" then [] else [tail]
  {
    var last := if tail == "" then [] else [tail];
    if ls == [] {
      assert CrLfLines(ls) + tail == tail;
      LastLine(tail);
    } else {
      var rest := CrLfLines(ls[1..]) + tail;
      assert Lines(CrLfLines(ls) + tail) == [ls[0]] + Lines(rest) by {
        CrLfHead(ls, tail, rest);
        CrLfLine(ls[0], rest);
      }
      assert Lines(rest) == ls[1..] + last by {
        LinesOfCrLf(ls[1..], tail);
      }
      assert [ls[0]] + (ls[1..] + last) == ls + last;
    }
  }

  lemma {:induction false} UnlinesAppend(a: seq<string>, b: seq<string>)
    ensures Unlines(a + b) == Unlines(a) + Unlines(b)
  {
    if a == [] {
      assert a + b == b;
    } else {
      UnlinesAppend(a[1..], b);
      assert (a + b)[0] == a[0] && (a + b)[1..] == a[1..] + b;
      Regroup(a[0] + "\n", Unlines(a[1..]), Unlines(b));
    }
  }

  // ---- words ------------------------------------------------------------------------------------------------------

  /** Where the first word ends. */
  function FirstWhite(s: string): (k: nat)
    ensures k <= |s| && (k < |s| ==> IsWhite(s[k])) && forall i :: 0 <= i < k ==> !IsWhite(s[i])
  {
    if s == "" || IsWhite(s[0]) then 0 else 1 + FirstWhite(s[1..])
  }

  function Word(s: string): string {
    s[..FirstWhite(s)]
  }

  /** What follows the first word. */
  function Rest(s: string): string {
    TrimStart(s[FirstWhite(s)..])
  }

  lemma {:induction false} TrimStartShorter(s: string)
    ensures |TrimStart(s)| <= |s| && (TrimStart(s) != "" ==> !IsWhite(TrimStart(s)[0]))
  {
    if s != "" && IsWhite(s[0]) {
      TrimStartShorter(s[1..]);
    }
  }

  /** `split_whitespace` */
  function Tokens(s: string): seq<string>
    decreases |s|
  {
    TrimStartShorter(s);
    var t := TrimStart(s);
    if t == "" then [] else [Word(t)] + Tokens(t[FirstWhite(t)..])
  }

  predicate NoWhite(s: string) {
    forall i :: 0 <= i < |s| ==> !IsWhite(s[i])
  }

  lemma {:induction false} FirstWhiteAfter(key: string, rest: string)
    requires NoWhite(key) && rest != "" && IsWhite(rest[0])
    ensures FirstWhite(key + rest) == |key|
  {
    if key == "" {
      assert key + rest == rest;
    } else {
      FirstWhiteAfter(key[1..], rest);
      assert (key + rest)[1..] == key[1..] + rest;
    }
  }

  lemma {:induction false} FirstWhiteNone(key: string)
    requires NoWhite(key)
    ensures FirstWhite(key) == |key|
  {
    if key != "" {
      FirstWhiteNone(key[1..]);
    }
  }

  /** A key and a value on a line of their own. */
  function LineText(key: string, val: string): string {
    key + " " + val
  }

  /** A written line is read back as its key and its value. */
  lemma {:induction false} LineReads(key: string, val: string)
    requires key != "" && NoWhite(key) && Trimmed(val)
    ensures var l := Trim(LineText(key, val)); l != "" && Word(l) == key && Rest(l) == val
  {
    var line := LineText(key, val);
    if val == "" {
      assert line[..|line| - 1] == key;
      TrimTrimmed(key);
      FirstWhiteNone(key);
      assert TrimStart(line) == line && TrimEnd(line) == TrimEnd(key);
    } else {
      TrimTrimmed(line);
      FirstWhiteAfter(key, " " + val);
      assert line == key + (" " + val);
      assert line[|key|..] == " " + val && (" " + val)[1..] == val;
      assert line[..|key|] == key;
      assert TrimStart(" " + val) == TrimStart(val) == val;
    }
  }

  /** The words after the first, with one blank between them. */
  function LaterWords(s: string): string {
    var ts := Tokens(s);
    if ts == [] then "" else SqlText.Join(ts[1..], " ")
  }

  lemma {:induction false} OneToken(val: string)
    requires val != "" && NoWhite(val)
    ensures Tokens(val) == [val]
  {
    FirstWhiteNone(val);
    assert val[|val|..] == "" && val[..|val|] == val;
    assert Tokens("") == [];
  }

  /** For a value of one word the words after the key are that value. */
  lemma {:induction false} LaterWordsRead(key: string, val: string)
    requires key != "" && NoWhite(key) && val != "" && NoWhite(val)
    ensures LaterWords(Trim(LineText(key, val))) == val
  {
    var line := LineText(key, val);
    TrimTrimmed(line);
    FirstWhiteAfter(key, " " + val);
    assert line == key + (" " + val);
    assert line[..|key|] == key && line[|key|..] == " " + val;
    assert (" " + val)[1..] == val && TrimStart(" " + val) == val;
    OneToken(val);
    assert Tokens(" " + val) == [val] by {
      FirstWhiteNone(val);
      assert val[|val|..] == "" && val[..|val|] == val;
    }
    assert Tokens(line) == [key] + [val];
    assert ([key] + [val])[1..] == [val];
  }

  // ---- keys -----------------------------------------------------------------------------------------------------------

  datatype Key =
    | TABLE_NAME | SCHEMA_NAME | DATABASE_SPACE_NAME | LOGICAL_RECORD_LENGTH | PAGE_SIZE | FILE_FLAGS
    | IGNORE_NULL_VALUES | TRIM_STRING_FIELDS | TRANSLATE_OEM_TO_ANSI | PRIMARY_INDEX | LOCAL_CACHE
    | DRIVER_NAME | SERVER_NAME | PERMANENT_INT | NUMBER_DF_FIELDS
    | FIELD_NUMBER | FIELD_NAME | FIELD_NATIVE_TYPE | FIELD_NATIVE_LENGTH | FIELD_NATIVE_OFFSET
    | FIELD_INDEX | FIELD_DEFAULT_VALUE
    | INDEX_NUMBER | INDEX_NUMBER_SEGMENTS | INDEX_SEGMENT_FIELD | INDEX_SEGMENT_DIRECTION
    | INDEX_SEGMENT_NULL_VALUE | INDEX_SEGMENT_FLAG
    | OtherKey

  function KeyText(k: Key): string {
    match k
    case TABLE_NAME => "TABLE_NAME"
    case SCHEMA_NAME => "SCHEMA_NAME"
    case DATABASE_SPACE_NAME => "DATABASE_SPACE_NAME"
    case LOGICAL_RECORD_LENGTH => "LOGICAL_RECORD_LENGTH"
    case PAGE_SIZE => "PAGE_SIZE"
    case FILE_FLAGS => "FILE_FLAGS"
    case IGNORE_NULL_VALUES => "IGNORE_NULL_VALUES"
    case TRIM_STRING_FIELDS => "TRIM_STRING_FIELDS"
    case TRANSLATE_OEM_TO_ANSI => "TRANSLATE_OEM_TO_ANSI"
    case PRIMARY_INDEX => "PRIMARY_INDEX"
    case LOCAL_CACHE => "LOCAL_CACHE"
    case DRIVER_NAME => "DRIVER_NAME"
    case SERVER_NAME => "SERVER_NAME"
    case PERMANENT_INT => "PERMANENT_INT"
    case NUMBER_DF_FIELDS => "NUMBER_DF_FIELDS"
    case FIELD_NUMBER => "FIELD_NUMBER"
    case FIELD_NAME => "FIELD_NAME"
    case FIELD_NATIVE_TYPE => "FIELD_NATIVE_TYPE"
    case FIELD_NATIVE_LENGTH => "FIELD_NATIVE_LENGTH"
    case FIELD_NATIVE_OFFSET => "FIELD_NATIVE_OFFSET"
    case FIELD_INDEX => "FIELD_INDEX"
    case FIELD_DEFAULT_VALUE => "FIELD_DEFAULT_VALUE"
    case INDEX_NUMBER => "INDEX_NUMBER"
    case INDEX_NUMBER_SEGMENTS => "INDEX_NUMBER_SEGMENTS"
    case INDEX_SEGMENT_FIELD => "INDEX_SEGMENT_FIELD"
    case INDEX_SEGMENT_DIRECTION => "INDEX_SEGMENT_DIRECTION"
    case INDEX_SEGMENT_NULL_VALUE => "INDEX_SEGMENT_NULL_VALUE"
    case INDEX_SEGMENT_FLAG => "INDEX_SEGMENT_FLAG"
    case OtherKey => "?"
  }

  /** Length, second and last character tell the keys apart. */
  datatype KeyMark = Mark(len: nat, second: char, last: char)

  function MarkOf(k: Key): KeyMark {
    match k
    case TABLE_NAME => Mark(10, 'A', 'E')
    case SCHEMA_NAME => Mark(11, 'C', 'E')
    case DATABASE_SPACE_NAME => Mark(19, 'A', 'E')
    case LOGICAL_RECORD_LENGTH => Mark(21, 'O', 'H')
    case PAGE_SIZE => Mark(9, 'A', 'E')
    case FILE_FLAGS => Mark(10, 'I', 'S')
    case IGNORE_NULL_VALUES => Mark(18, 'G', 'S')
    case TRIM_STRING_FIELDS => Mark(18, 'R', 'S')
    case TRANSLATE_OEM_TO_ANSI => Mark(21, 'R', 'I')
    case PRIMARY_INDEX => Mark(13, 'R', 'X')
    case LOCAL_CACHE => Mark(11, 'O', 'E')
    case DRIVER_NAME => Mark(11, 'R', 'E')
    case SERVER_NAME => Mark(11, 'E', 'E')
    case PERMANENT_INT => Mark(13, 'E', 'T')
    case NUMBER_DF_FIELDS => Mark(16, 'U', 'S')
    case FIELD_NUMBER => Mark(12, 'I', 'R')
    case FIELD_NAME => Mark(10, 'I', 'E')
    case FIELD_NATIVE_TYPE => Mark(17, 'I', 'E')
    case FIELD_NATIVE_LENGTH => Mark(19, 'I', 'H')
    case FIELD_NATIVE_OFFSET => Mark(19, 'I', 'T')
    case FIELD_INDEX => Mark(11, 'I', 'X')
    case FIELD_DEFAULT_VALUE => Mark(19, 'I', 'E')
    case INDEX_NUMBER => Mark(12, 'N', 'R')
    case INDEX_NUMBER_SEGMENTS => Mark(21, 'N', 'S')
    case INDEX_SEGMENT_FIELD => Mark(19, 'N', 'D')
    case INDEX_SEGMENT_DIRECTION => Mark(23, 'N', 'N')
    case INDEX_SEGMENT_NULL_VALUE => Mark(24, 'N', 'E')
    case INDEX_SEGMENT_FLAG => Mark(18, 'N', 'G')
    case OtherKey => Mark(1, '?', '?')
  }

  predicate HasMark(t: string, m: KeyMark) {
    |t| == m.len && m.len >= 2 && t[1] == m.second && t[|t| - 1] == m.last
  }

  lemma {:induction false} ShortHasMark(k: Key)
    requires k != OtherKey && MarkOf(k).len <= 14
    ensures HasMark(KeyText(k), MarkOf(k))
  {
  }

  lemma {:induction false} MediumHasMark(k: Key)
    requires 14 < MarkOf(k).len <= 18
    ensures HasMark(KeyText(k), MarkOf(k))
  {
  }

  lemma {:induction false} LongHasMark(k: Key)
    requires MarkOf(k).len > 18
    ensures HasMark(KeyText(k), MarkOf(k))
  {
  }

  lemma {:induction false} TextHasMark(k: Key)
    requires k != OtherKey
    ensures HasMark(KeyText(k), MarkOf(k))
  {
    if MarkOf(k).len <= 14 {
      ShortHasMark(k);
    } else if MarkOf(k).len <= 18 {
      MediumHasMark(k);
    } else {
      LongHasMark(k);
    }
  }

  lemma {:induction false} MarksDiffer(a: Key, b: Key)
    requires MarkOf(a) == MarkOf(b)
    ensures a == b
  {
  }

  lemma {:induction false} KeyTextsDiffer(a: Key, b: Key)
    requires a != OtherKey && b != OtherKey && KeyText(a) == KeyText(b)
    ensures a == b
  {
    TextHasMark(a);
    TextHasMark(b);
    MarksDiffer(a, b);
  }

  predicate KeyChar(c: char) {
    'A' <= c <= 'Z' || c == '_'
  }

  predicate AllKeyChars(t: string) {
    forall i :: 0 <= i < |t| ==> KeyChar(t[i])
  }

  lemma {:induction false} ShortKeyChars(k: Key)
    requires k != OtherKey && MarkOf(k).len <= 11
    ensures AllKeyChars(KeyText(k))
  {
  }

  lemma {:induction false} MediumKeyChars(k: Key)
    requires 12 <= MarkOf(k).len <= 14
    ensures AllKeyChars(KeyText(k))
  {
  }

  lemma {:induction false} MiddleKeyChars(k: Key)
    requires 15 <= MarkOf(k).len <= 17
    ensures AllKeyChars(KeyText(k))
  {
  }

  lemma {:induction false} EighteenKeyChars(k: Key)
    requires MarkOf(k).len == 18
    ensures AllKeyChars(KeyText(k))
  {
  }

  lemma {:induction false} LongKeyChars(k: Key)
    requires 19 <= MarkOf(k).len <= 20 && MarkOf(k).second == 'I'
    ensures AllKeyChars(KeyText(k))
  {
  }

  lemma {:induction false} LongOtherKeyChars(k: Key)
    requires 19 <= MarkOf(k).len <= 20 && MarkOf(k).second != 'I'
    ensures AllKeyChars(KeyText(k))
  {
  }

  lemma {:induction false} LongerKeyChars(k: Key)
    requires MarkOf(k).len == 21
    ensures AllKeyChars(KeyText(k))
  {
  }

  lemma {:induction false} LongestKeyChars(k: Key)
    requires 22 <= MarkOf(k).len
    ensures AllKeyChars(KeyText(k))
  {
  }

  lemma {:induction false} KeyChars(k: Key)
    requires k != OtherKey
    ensures AllKeyChars(KeyText(k))
  {
    if MarkOf(k).len <= 11 {
      ShortKeyChars(k);
    } else if MarkOf(k).len <= 14 {
      MediumKeyChars(k);
    } else if MarkOf(k).len <= 17 {
      MiddleKeyChars(k);
    } else if MarkOf(k).len == 18 {
      EighteenKeyChars(k);
    } else if MarkOf(k).len <= 20 {
      if MarkOf(k).second == 'I' {
        LongKeyChars(k);
      } else {
        LongOtherKeyChars(k);
      }
    } else if MarkOf(k).len == 21 {
      LongerKeyChars(k);
    } else {
      LongestKeyChars(k);
    }
  }

  predicate Names(word: string, k: Key) {
    k != OtherKey && KeyText(k) == Upper(word)
  }

  lemma {:induction false} NamesOne(word: string)
    ensures forall a, b :: Names(word, a) && Names(word, b) ==> a == b
  {
    forall a, b | Names(word, a) && Names(word, b)
      ensures a == b
    {
      KeyTextsDiffer(a, b);
    }
  }

  /** The key a word names, in any case. */
  function KeyOf(word: string): Key {
    if exists k :: Names(word, k) then
      NamesOne(word);
      var k :| Names(word, k);
      k
    else OtherKey
  }

  lemma {:induction false} KeyOfText(k: Key)
    requires k != OtherKey
    ensures KeyOf(KeyText(k)) == k && NoWhite(KeyText(k)) && KeyText(k) != ""
  {
    KeyChars(k);
    TextHasMark(k);
    assert Upper(KeyText(k)) == KeyText(k);
    assert Names(KeyText(k), k);
    KeyTextsDiffer(k, KeyOf(KeyText(k)));
  }
}
