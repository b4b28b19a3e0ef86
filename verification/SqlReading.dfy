/** Text written for a condition or a sort list is read back as exactly that condition or list. */
module SqlReading {
  import opened Wrappers
  import opened Decimal
  import opened SqlValues
  import opened SqlText

  function MarkerToken(d: Dialect, arg: nat): Token {
    if d.Postgres? then Dollar(arg + 1) else Positional
  }

  function PrimTokens(d: Dialect, p: Prim): seq<Token> {
    match p
    case Compare(col, cmp, arg) => [Ident(col), Op(cmp), MarkerToken(d, arg)]
    case OneIsOne => [Numeral("1"), Op(Eq), Numeral("1")]
    case Paren(e) => [Open] + CondTokens(d, e) + [Close]
  }

  function ConjTokens(d: Dialect, c: Conj): seq<Token> {
    match c
    case Last(p) => PrimTokens(d, p)
    case And(p, more) => PrimTokens(d, p) + [Word("AND")] + ConjTokens(d, more)
  }

  function CondTokens(d: Dialect, e: Cond): seq<Token> {
    match e
    case Only(c) => ConjTokens(d, c)
    case Or(c, others) => ConjTokens(d, c) + [Word("OR")] + CondTokens(d, others)
  }

  /** The text `s` is lexed as the tokens `ts` followed by whatever `rest` is lexed as. */
  predicate Lexes(d: Dialect, s: string, ts: seq<Token>, rest: string) {
    Lex(d, s) == Prefixed(ts, Lex(d, rest))
  }

  /** What may follow a complete phrase. */
  predicate Boundary(rest: string) {
    rest == "" || rest[0] in " ),"
  }

  lemma {:induction false} Chain(d: Dialect, s: string, ts: seq<Token>, mid: string, us: seq<Token>, rest: string)
    requires Lexes(d, s, ts, mid) && Lexes(d, mid, us, rest)
    ensures Lexes(d, s, ts + us, rest)
  {
    if Lex(d, rest).Some? {
      var vs := Lex(d, rest).value;
      assert ts + us + vs == ts + (us + vs);
    }
  }

  lemma {:induction false} TokenStep(d: Dialect, s: string, t: Token, rest: string)
    requires s != "" && s[0] != ' ' && FirstToken(d, s) == Some((t, rest))
    ensures Lexes(d, s, [t], rest)
  {
  }

  lemma {:induction false} SpaceStep(d: Dialect, rest: string)
    ensures Lexes(d, " " + rest, [], rest)
  {
    assert (" " + rest)[1..] == rest;
    if Lex(d, rest).Some? {
      assert [] + Lex(d, rest).value == Lex(d, rest).value;
    }
  }

  /** A token with a space in front. */
  lemma {:induction false} SpacedToken(d: Dialect, s: string, t: Token, rest: string)
    requires s != "" && s[0] != ' ' && FirstToken(d, s) == Some((t, rest))
    ensures Lexes(d, " " + s, [t], rest)
  {
    SpaceStep(d, s);
    TokenStep(d, s, t, rest);
    Chain(d, " " + s, [], s, [t], rest);
    assert [] + [t] == [t];
  }

  // ---- single tokens ------------------------------------------------------------------

  lemma {:induction false} QuotedBodyReads(name: string, q: char, rest: string)
    requires rest == "" || rest[0] != q
    ensures QuotedBody(Doubled(name, q) + [q] + rest, q) == Some((name, rest))
  {
    var s := Doubled(name, q) + [q] + rest;
    if name == "" {
      assert s[1..] == rest;
    } else {
      var tail := Doubled(name[1..], q) + [q] + rest;
      QuotedBodyReads(name[1..], q, rest);
      assert name == [name[0]] + name[1..];
      if name[0] == q {
        assert s[0] == q && s[1] == q && s[2..] == tail;
      } else {
        assert s[0] == name[0] && s[1..] == tail;
      }
    }
  }

  lemma {:induction false} IdentFirst(d: Dialect, name: string, rest: string)
    requires Boundary(rest)
    ensures FirstToken(d, QuoteIdent(d, name) + rest) == Some((Ident(name), rest))
  {
    var q := if d.Mssql? then ']' else '"';
    var body := Doubled(name, q) + [q] + rest;
    QuotedBodyReads(name, q, rest);
    var o := if d.Mssql? then '[' else '"';
    var s := QuoteIdent(d, name) + rest;
    assert s == [o] + body;
    assert s[1..] == body;
  }

  /** Any name, whatever characters it holds, is read back from its quoted form. */
  lemma {:induction false} IdentReads(d: Dialect, name: string, rest: string)
    requires Boundary(rest)
    ensures Lexes(d, QuoteIdent(d, name) + rest, [Ident(name)], rest)
  {
    IdentFirst(d, name, rest);
    TokenStep(d, QuoteIdent(d, name) + rest, Ident(name), rest);
  }

  lemma {:induction false} DigitRun(digits: string, rest: string)
    requires AllDigits(digits) && (rest == "" || !IsDigit(rest[0]))
    ensures DigitSpan(digits + rest) == |digits|
  {
    var s := digits + rest;
    if digits == "" {
      assert s == rest;
    } else {
      DigitRun(digits[1..], rest);
      assert s[1..] == digits[1..] + rest;
    }
  }

  lemma {:induction false} LetterRun(word: string, rest: string)
    requires (forall i :: 0 <= i < |word| ==> IsLetter(word[i])) && (rest == "" || !IsLetter(rest[0]))
    ensures LetterSpan(word + rest) == |word|
  {
    var s := word + rest;
    if word == "" {
      assert s == rest;
    } else {
      LetterRun(word[1..], rest);
      assert s[1..] == word[1..] + rest;
    }
  }

  lemma {:induction false} DollarFirst(d: Dialect, digits: string, rest: string)
    requires d.Postgres? && digits != "" && AllDigits(digits) && Boundary(rest)
    ensures FirstToken(d, "$" + digits + rest) == Some((Dollar(DigitsValue(digits)), rest))
  {
    DigitRun(digits, rest);
    var u := digits + rest;
    var s := "$" + digits + rest;
    assert s[1..] == u && u[..|digits|] == digits && u[|digits|..] == rest;
  }

  lemma {:induction false} MarkerFirst(d: Dialect, arg: nat, rest: string)
    requires Boundary(rest)
    ensures FirstToken(d, ParamMarker(d, arg + 1) + rest) == Some((MarkerToken(d, arg), rest))
  {
    if d.Postgres? {
      NatTextDigits(arg + 1);
      DollarFirst(d, NatText(arg + 1), rest);
    } else {
      assert ("?" + rest)[1..] == rest;
    }
  }

  lemma {:induction false} MarkerReads(d: Dialect, arg: nat, rest: string)
    requires Boundary(rest)
    ensures Lexes(d, " " + ParamMarker(d, arg + 1) + rest, [MarkerToken(d, arg)], rest)
  {
    var m := ParamMarker(d, arg + 1);
    MarkerFirst(d, arg, rest);
    assert m[0] == if d.Postgres? then '$' else '?';
    SpacedToken(d, m + rest, MarkerToken(d, arg), rest);
    assert " " + (m + rest) == " " + m + rest;
  }

  lemma {:induction false} CmpReads(d: Dialect, cmp: Cmp, rest: string)
    requires rest != "" && rest[0] == ' '
    ensures Lexes(d, " " + CmpText(cmp) + rest, [Op(cmp)], rest)
  {
    var s := CmpText(cmp) + rest;
    assert s[|CmpText(cmp)|..] == rest;
    SpacedToken(d, s, Op(cmp), rest);
    assert " " + s == " " + CmpText(cmp) + rest;
  }

  /** A word with a space in front. */
  lemma {:induction false} WordReads(d: Dialect, w: string, rest: string)
    requires w == "AND" || w == "OR" || w == "ASC" || w == "DESC"
    requires rest == "" || !IsLetter(rest[0])
    ensures Lexes(d, " " + w + rest, [Word(w)], rest)
  {
    var s := w + rest;
    LetterRun(w, rest);
    assert s[..|w|] == w && s[|w|..] == rest;
    assert IsLetter(s[0]);
    SpacedToken(d, s, Word(w), rest);
    assert " " + s == " " + w + rest;
  }

  /** A connecting word with a space on either side. */
  lemma {:induction false} ConnectorReads(d: Dialect, w: string, rest: string)
    requires w == "AND" || w == "OR"
    ensures Lexes(d, " " + w + (" " + rest), [Word(w)], rest)
  {
    WordReads(d, w, " " + rest);
    SpaceStep(d, rest);
    Chain(d, " " + w + (" " + rest), [Word(w)], " " + rest, [], rest);
    assert [Word(w)] + [] == [Word(w)];
  }

  /** `a w b` */
  function Joined(a: string, w: string, b: string): string {
    a + " " + w + " " + b
  }

  /** Two phrases joined by a connecting word. */
  lemma {:induction false} JoinedReads(d: Dialect, a: string, ta: seq<Token>, w: string, b: string, tb: seq<Token>, rest: string)
    requires w == "AND" || w == "OR"
    requires Lexes(d, a + (" " + w + (" " + (b + rest))), ta, " " + w + (" " + (b + rest)))
    requires Lexes(d, b + rest, tb, rest)
    ensures Lexes(d, Joined(a, w, b) + rest, ta + [Word(w)] + tb, rest)
  {
    var s2 := b + rest;
    var s1 := " " + w + (" " + s2);
    var s0 := a + s1;
    ConnectorReads(d, w, s2);
    Chain(d, s0, ta, s1, [Word(w)], s2);
    Chain(d, s0, ta + [Word(w)], s2, tb, rest);
    assert s0 == Joined(a, w, b) + rest;
  }

  // ---- conditions ------------------------------------------------------------------------

  lemma {:induction false} SpacedRest(a: string, b: string, c: string, rest: string)
    ensures Spaced(a, b, c) + rest == a + (" " + b + (" " + c + rest))
  {
  }

  lemma {:induction false} CompareReads(d: Dialect, col: string, cmp: Cmp, arg: nat, rest: string)
    requires Boundary(rest)
    ensures Lexes(d, PrimText(d, Compare(col, cmp, arg)) + rest, PrimTokens(d, Compare(col, cmp, arg)), rest)
  {
    var m, c, q := ParamMarker(d, arg + 1), CmpText(cmp), QuoteIdent(d, col);
    var s2 := " " + m + rest;
    var s1 := " " + c + s2;
    var s0 := q + s1;
    MarkerReads(d, arg, rest);
    CmpReads(d, cmp, s2);
    IdentReads(d, col, s1);
    Chain(d, s0, [Ident(col)], s1, [Op(cmp)], s2);
    Chain(d, s0, [Ident(col)] + [Op(cmp)], s2, [MarkerToken(d, arg)], rest);
    SpacedRest(q, c, m, rest);
    assert [Ident(col)] + [Op(cmp)] + [MarkerToken(d, arg)] == PrimTokens(d, Compare(col, cmp, arg));
  }

  lemma {:induction false} OneReads(d: Dialect, rest: string)
    requires rest == "" || !IsDigit(rest[0])
    ensures Lexes(d, "1" + rest, [Numeral("1")], rest)
  {
    var s := "1" + rest;
    DigitRun("1", rest);
    assert s[..1] == "1" && s[1..] == rest;
    TokenStep(d, s, Numeral("1"), rest);
  }

  lemma {:induction false} OneIsOneReads(d: Dialect, rest: string)
    requires Boundary(rest)
    ensures Lexes(d, "1=1" + rest, PrimTokens(d, OneIsOne), rest)
  {
    OneReads(d, rest);
    var s2 := "1" + rest;
    var s1 := "=" + s2;
    assert s1[1..] == s2;
    TokenStep(d, s1, Op(Eq), s2);
    OneReads(d, s1);
    var s0 := "1" + s1;
    Chain(d, s0, [Numeral("1")], s1, [Op(Eq)], s2);
    Chain(d, s0, [Numeral("1")] + [Op(Eq)], s2, [Numeral("1")], rest);
    assert s0 == "1=1" + rest;
    assert [Numeral("1")] + [Op(Eq)] + [Numeral("1")] == PrimTokens(d, OneIsOne);
  }

  lemma {:induction false} PrimReads(d: Dialect, p: Prim, rest: string)
    requires Boundary(rest)
    ensures Lexes(d, PrimText(d, p) + rest, PrimTokens(d, p), rest)
    decreases p
  {
    match p
    case Compare(col, cmp, arg) => CompareReads(d, col, cmp, arg, rest);
    case OneIsOne => OneIsOneReads(d, rest);
    case Paren(e) =>
      var s2 := ")" + rest;
      var s1 := CondText(d, e) + s2;
      var s0 := "(" + s1;
      assert s2[1..] == rest && s0[1..] == s1;
      TokenStep(d, s2, Close, rest);
      CondReads(d, e, s2);
      TokenStep(d, s0, Open, s1);
      Chain(d, s0, [Open], s1, CondTokens(d, e), s2);
      Chain(d, s0, [Open] + CondTokens(d, e), s2, [Close], rest);
      assert s0 == PrimText(d, p) + rest;
  }

  lemma {:induction false} ConjReads(d: Dialect, c: Conj, rest: string)
    requires Boundary(rest)
    ensures Lexes(d, ConjText(d, c) + rest, ConjTokens(d, c), rest)
    decreases c
  {
    match c
    case Last(p) => PrimReads(d, p, rest);
    case And(p, more) =>
      var b := ConjText(d, more);
      ConjReads(d, more, rest);
      PrimReads(d, p, " " + "AND" + (" " + (b + rest)));
      JoinedReads(d, PrimText(d, p), PrimTokens(d, p), "AND", b, ConjTokens(d, more), rest);
      assert ConjText(d, c) == Joined(PrimText(d, p), "AND", b);
  }

  lemma {:induction false} OrReads(d: Dialect, c: Conj, others: Cond, rest: string)
    requires Boundary(rest) && Lexes(d, CondText(d, others) + rest, CondTokens(d, others), rest)
    ensures Lexes(d, CondText(d, Or(c, others)) + rest, CondTokens(d, Or(c, others)), rest)
    decreases Or(c, others), 0
  {
    var b := CondText(d, others);
    ConjReads(d, c, " " + "OR" + (" " + (b + rest)));
    JoinedReads(d, ConjText(d, c), ConjTokens(d, c), "OR", b, CondTokens(d, others), rest);
    assert CondText(d, Or(c, others)) == Joined(ConjText(d, c), "OR", b);
  }

  lemma {:induction false} CondReads(d: Dialect, e: Cond, rest: string)
    requires Boundary(rest)
    ensures Lexes(d, CondText(d, e) + rest, CondTokens(d, e), rest)
    decreases e, 1
  {
    match e
    case Only(c) => ConjReads(d, c, rest);
    case Or(c, others) =>
      CondReads(d, others, rest);
      OrReads(d, c, others, rest);
  }

  /** Tokens after which a conjunction, or a condition, does not go on. */
  predicate Stops(rest: seq<Token>) {
    rest == [] || rest[0].Close?
  }

  lemma {:induction false} JoinRegroup(a: seq<Token>, w: Token, b: seq<Token>, rest: seq<Token>)
    ensures a + [w] + b + rest == a + ([w] + (b + rest))
    ensures ([w] + (b + rest))[1..] == b + rest
  {
  }

  lemma {:induction false} PrimParses(d: Dialect, p: Prim, rest: seq<Token>, seen: nat)
    requires PrimNumbered(p, seen)
    ensures ParsePrim(PrimTokens(d, p) + rest, seen) == Some(Parsed(p, rest, seen + PrimArgs(p)))
    decreases p
  {
    var ts := PrimTokens(d, p) + rest;
    match p
    case Compare(col, cmp, arg) =>
      assert ts[0] == Ident(col) && ts[1] == Op(cmp) && ts[2] == MarkerToken(d, arg) && ts[3..] == rest;
    case OneIsOne =>
      assert ts[0] == Numeral("1") && ts[1] == Op(Eq) && ts[2] == Numeral("1") && ts[3..] == rest;
    case Paren(e) =>
      CondParses(d, e, [Close] + rest, seen);
      assert ts[1..] == CondTokens(d, e) + ([Close] + rest);
      assert ([Close] + rest)[1..] == rest;
  }

  lemma {:induction false} ConjParses(d: Dialect, c: Conj, rest: seq<Token>, seen: nat)
    requires ConjNumbered(c, seen) && (Stops(rest) || rest[0] == Word("OR"))
    ensures ParseConj(ConjTokens(d, c) + rest, seen) == Some(Parsed(c, rest, seen + ConjArgs(c)))
    decreases c
  {
    match c
    case Last(p) => PrimParses(d, p, rest, seen);
    case And(p, more) =>
      var us := ConjTokens(d, more);
      JoinRegroup(PrimTokens(d, p), Word("AND"), us, rest);
      PrimParses(d, p, [Word("AND")] + (us + rest), seen);
      ConjParses(d, more, rest, seen + PrimArgs(p));
  }

  lemma {:induction false} CondParses(d: Dialect, e: Cond, rest: seq<Token>, seen: nat)
    requires Numbered(e, seen) && Stops(rest)
    ensures ParseCond(CondTokens(d, e) + rest, seen) == Some(Parsed(e, rest, seen + CondArgs(e)))
    decreases e
  {
    match e
    case Only(c) => ConjParses(d, c, rest, seen);
    case Or(c, others) =>
      var us := CondTokens(d, others);
      JoinRegroup(ConjTokens(d, c), Word("OR"), us, rest);
      ConjParses(d, c, [Word("OR")] + (us + rest), seen);
      CondParses(d, others, rest, seen + ConjArgs(c));
  }

  /** Whatever the column names and the dialect, the text of a condition whose placeholders are
      numbered in text order is read back as that very condition: AND and OR group as intended and
      `?` and `$n` bind alike. */
  lemma {:induction false} CondTextRoundTrip(d: Dialect, e: Cond)
    requires Numbered(e, 0)
    ensures ReadCond(d, CondText(d, e)) == Some(e)
  {
    CondReads(d, e, "");
    assert CondText(d, e) + "" == CondText(d, e);
    assert CondTokens(d, e) + [] == CondTokens(d, e);
    CondParses(d, e, [], 0);
  }

  // ---- sort lists ----------------------------------------------------------------------------

  function ItemTokens(it: SortItem): seq<Token> {
    [Ident(it.col), Word(if it.asc then "ASC" else "DESC")]
  }

  function SortTokens(items: seq<SortItem>): seq<Token> {
    if |items| == 0 then []
    else if |items| == 1 then ItemTokens(items[0])
    else ItemTokens(items[0]) + [Comma] + SortTokens(items[1..])
  }

  lemma {:induction false} ItemTextRest(q: string, w: string, rest: string)
    ensures q + " " + w + rest == q + (" " + w + rest)
  {
  }

  lemma {:induction false} ItemReads(d: Dialect, it: SortItem, rest: string)
    requires rest == "" || rest[0] == ','
    ensures Lexes(d, ItemText(d, it) + rest, ItemTokens(it), rest)
  {
    var w := if it.asc then "ASC" else "DESC";
    var s1 := " " + w + rest;
    var s0 := QuoteIdent(d, it.col) + s1;
    WordReads(d, w, rest);
    IdentReads(d, it.col, s1);
    Chain(d, s0, [Ident(it.col)], s1, [Word(w)], rest);
    ItemTextRest(QuoteIdent(d, it.col), w, rest);
    assert [Ident(it.col)] + [Word(w)] == ItemTokens(it);
  }

  /** A comma and the space behind it. */
  lemma {:induction false} CommaReads(d: Dialect, more: string)
    ensures Lexes(d, "," + (" " + more), [Comma], more)
  {
    var s := "," + (" " + more);
    assert s[1..] == " " + more;
    SpaceStep(d, more);
    TokenStep(d, s, Comma, " " + more);
    Chain(d, s, [Comma], " " + more, [], more);
    assert [Comma] + [] == [Comma];
  }

  lemma {:induction false} ItemListReads(d: Dialect, it: SortItem, more: string, ts: seq<Token>)
    requires Lex(d, more) == Some(ts)
    ensures Lex(d, ItemText(d, it) + ", " + more) == Some(ItemTokens(it) + [Comma] + ts)
  {
    var s1 := "," + (" " + more);
    CommaReads(d, more);
    ItemReads(d, it, s1);
    Chain(d, ItemText(d, it) + s1, ItemTokens(it), s1, [Comma], more);
    assert ItemText(d, it) + s1 == ItemText(d, it) + ", " + more;
  }

  lemma {:induction false} SortReads(d: Dialect, items: seq<SortItem>)
    ensures Lex(d, SortText(d, items)) == Some(SortTokens(items))
  {
    if |items| == 1 {
      ItemReads(d, items[0], "");
      assert ItemText(d, items[0]) + "" == SortText(d, items);
      assert ItemTokens(items[0]) + [] == ItemTokens(items[0]);
    } else if |items| > 1 {
      SortReads(d, items[1..]);
      assert ItemTexts(d, items)[1..] == ItemTexts(d, items[1..]);
      ItemListReads(d, items[0], SortText(d, items[1..]), SortTokens(items[1..]));
    }
  }

  lemma {:induction false} SortParses(items: seq<SortItem>)
    requires items != []
    ensures ParseSort(SortTokens(items)) == Some(items)
  {
    var ts := SortTokens(items);
    assert ts[0] == Ident(items[0].col) && ts[1] == Word(if items[0].asc then "ASC" else "DESC");
    assert SortItem(ts[0].name, ts[1] == Word("ASC")) == items[0];
    if |items| == 1 {
      assert items == [items[0]];
    } else {
      SortParses(items[1..]);
      assert ts[2] == Comma && ts[3..] == SortTokens(items[1..]);
      assert items == [items[0]] + items[1..];
    }
  }

  /** An ORDER BY text is read back as the list it was written from. */
  lemma {:induction false} SortTextRoundTrip(d: Dialect, items: seq<SortItem>)
    requires items != []
    ensures ReadSort(d, SortText(d, items)) == Some(items)
  {
    SortReads(d, items);
    SortParses(items);
  }
}
