/** The SQL text the driver emits, and the reading a backend gives it.
    The writing half follows the dialects; the reading half is a lexer and a parser for SQL-92
    search conditions (section 8.12: AND binds tighter than OR), delimited identifiers
    (section 5.2) and sort specification lists. */
module SqlText {
  import opened Wrappers
  import opened Decimal
  import opened SqlValues

  datatype Dialect = Mssql | Postgres | Sqlite

  // ---- writing -----------------------------------------------------------------

  /** Every occurrence of `q` doubled. */
  function Doubled(name: string, q: char): string {
    if name == "" then ""
    else (if name[0] == q then [q, q] else [name[0]]) + Doubled(name[1..], q)
  }

  function QuoteIdent(d: Dialect, name: string): string {
    if d.Mssql? then "[" + Doubled(name, ']') + "]" else "\"" + Doubled(name, '"') + "\""
  }

  /** Placeholder of the `idx`-th parameter, counting from 1. */
  function ParamMarker(d: Dialect, idx: nat): string {
    if d.Postgres? then "$" + NatText(idx) else "?"
  }

  function CmpText(c: Cmp): string {
    match c
    case Eq => "="
    case Gt => ">"
    case Ge => ">="
    case Lt => "<"
    case Le => "<="
    case Ne => "<>"
  }

  /** `parts.join(sep)` */
  function Join(parts: seq<string>, sep: string): string {
    if |parts| == 0 then ""
    else if |parts| == 1 then parts[0]
    else parts[0] + sep + Join(parts[1..], sep)
  }

  // ---- search conditions ---------------------------------------------------------

  /** `arg` is the 0-based position, in the parameter list, of the value compared with. */
  datatype Prim = Compare(col: string, cmp: Cmp, arg: nat) | OneIsOne | Paren(inner: Cond)
  datatype Conj = Last(p: Prim) | And(p: Prim, more: Conj)
  datatype Cond = Only(c: Conj) | Or(c: Conj, others: Cond)

  /** `format!("{} {} {}", a, b, c)` */
  function Spaced(a: string, b: string, c: string): string {
    a + " " + b + " " + c
  }

  /** `format!("({})", s)` */
  function Parens(s: string): string {
    "(" + s + ")"
  }

  function PrimText(d: Dialect, p: Prim): string {
    match p
    case Compare(col, cmp, arg) => Spaced(QuoteIdent(d, col), CmpText(cmp), ParamMarker(d, arg + 1))
    case OneIsOne => "1=1"
    case Paren(e) => Parens(CondText(d, e))
  }

  function ConjText(d: Dialect, c: Conj): string {
    match c
    case Last(p) => PrimText(d, p)
    case And(p, more) => PrimText(d, p) + " AND " + ConjText(d, more)
  }

  function CondText(d: Dialect, e: Cond): string {
    match e
    case Only(c) => ConjText(d, c)
    case Or(c, others) => ConjText(d, c) + " OR " + CondText(d, others)
  }

  /** How many placeholders occur. */
  function PrimArgs(p: Prim): nat {
    match p
    case Compare(_, _, _) => 1
    case OneIsOne => 0
    case Paren(e) => CondArgs(e)
  }

  function ConjArgs(c: Conj): nat {
    match c
    case Last(p) => PrimArgs(p)
    case And(p, more) => PrimArgs(p) + ConjArgs(more)
  }

  function CondArgs(e: Cond): nat {
    match e
    case Only(c) => ConjArgs(c)
    case Or(c, others) => ConjArgs(c) + CondArgs(others)
  }

  /** The placeholders are numbered k, k+1, ... in text order. */
  predicate PrimNumbered(p: Prim, k: nat) {
    match p
    case Compare(_, _, arg) => arg == k
    case OneIsOne => true
    case Paren(e) => Numbered(e, k)
  }

  predicate ConjNumbered(c: Conj, k: nat) {
    match c
    case Last(p) => PrimNumbered(p, k)
    case And(p, more) => PrimNumbered(p, k) && ConjNumbered(more, k + PrimArgs(p))
  }

  predicate Numbered(e: Cond, k: nat) {
    match e
    case Only(c) => ConjNumbered(c, k)
    case Or(c, others) => ConjNumbered(c, k) && Numbered(others, k + ConjArgs(c))
  }

  /** What the condition says of a row whose columns are given by `env`. */
  predicate PrimHolds(p: Prim, env: string -> SqlValue, params: seq<SqlValue>) {
    match p
    case Compare(col, cmp, arg) => arg < |params| && Holds(cmp, env(col), params[arg])
    case OneIsOne => true
    case Paren(e) => CondHolds(e, env, params)
  }

  predicate ConjHolds(c: Conj, env: string -> SqlValue, params: seq<SqlValue>) {
    match c
    case Last(p) => PrimHolds(p, env, params)
    case And(p, more) => PrimHolds(p, env, params) && ConjHolds(more, env, params)
  }

  predicate CondHolds(e: Cond, env: string -> SqlValue, params: seq<SqlValue>) {
    match e
    case Only(c) => ConjHolds(c, env, params)
    case Or(c, others) => ConjHolds(c, env, params) || CondHolds(others, env, params)
  }

  // ---- reading: lexer --------------------------------------------------------------

  datatype Token =
    | Ident(name: string)
    | Positional
    | Dollar(idx: nat)
    | Numeral(digits: string)
    | Word(word: string)
    | Op(cmp: Cmp)
    | Open
    | Close
    | Comma

  predicate IsLetter(c: char) {
    'A' <= c <= 'Z' || 'a' <= c <= 'z'
  }

  function DigitSpan(s: string): (k: nat)
    ensures k <= |s| && AllDigits(s[..k]) && (k < |s| ==> !IsDigit(s[k]))
  {
    if s == "" || !IsDigit(s[0]) then 0
    else
      var k := DigitSpan(s[1..]);
      assert s[..k + 1] == [s[0]] + s[1..][..k];
      k + 1
  }

  function LetterSpan(s: string): (k: nat)
    ensures k <= |s| && (forall i :: 0 <= i < k ==> IsLetter(s[i])) && (k < |s| ==> !IsLetter(s[k]))
  {
    if s == "" || !IsLetter(s[0]) then 0 else 1 + LetterSpan(s[1..])
  }

  /** The body of a delimited identifier, up to the closing `q`; a doubled `q` stands for one. */
  function QuotedBody(s: string, q: char): (r: Option<(string, string)>)
    ensures r.Some? ==> |r.value.1| < |s|
  {
    if s == "" then None
    else if s[0] == q then
      if |s| > 1 && s[1] == q then
        match QuotedBody(s[2..], q)
        case Some((name, rest)) => Some(([q] + name, rest))
        case None => None
      else Some(("", s[1..]))
    else
      match QuotedBody(s[1..], q)
      case Some((name, rest)) => Some(([s[0]] + name, rest))
      case None => None
  }

  /** The first token of a text that does not start with a space. */
  function FirstToken(d: Dialect, s: string): (r: Option<(Token, string)>)
    requires s != ""
    ensures r.Some? ==> |r.value.1| < |s|
  {
    var c := s[0];
    if c == '(' then Some((Open, s[1..]))
    else if c == ')' then Some((Close, s[1..]))
    else if c == ',' then Some((Comma, s[1..]))
    else if c == '=' then Some((Op(Eq), s[1..]))
    else if c == '<' then
      if |s| > 1 && s[1] == '=' then Some((Op(Le), s[2..]))
      else if |s| > 1 && s[1] == '>' then Some((Op(Ne), s[2..]))
      else Some((Op(Lt), s[1..]))
    else if c == '>' then
      if |s| > 1 && s[1] == '=' then Some((Op(Ge), s[2..])) else Some((Op(Gt), s[1..]))
    else if c == '"' || (d.Mssql? && c == '[') then
      match QuotedBody(s[1..], if c == '[' then ']' else '"')
      case Some((name, rest)) => Some((Ident(name), rest))
      case None => None
    else if c == '?' && !d.Postgres? then Some((Positional, s[1..]))
    else if c == '$' && d.Postgres? then
      var k := DigitSpan(s[1..]);
      if k == 0 then None else Some((Dollar(DigitsValue(s[1..][..k])), s[1..][k..]))
    else if IsDigit(c) then
      var k := DigitSpan(s);
      Some((Numeral(s[..k]), s[k..]))
    else if IsLetter(c) then
      var k := LetterSpan(s);
      Some((Word(s[..k]), s[k..]))
    else None
  }

  function Lex(d: Dialect, s: string): Option<seq<Token>>
    decreases |s|
  {
    if s == "" then Some([])
    else if s[0] == ' ' then Lex(d, s[1..])
    else
      match FirstToken(d, s)
      case None => None
      case Some((t, rest)) => Prefixed([t], Lex(d, rest))
  }

  function Prefixed(ts: seq<Token>, more: Option<seq<Token>>): Option<seq<Token>> {
    match more
    case None => None
    case Some(us) => Some(ts + us)
  }

  // ---- reading: parser -------------------------------------------------------------

  /** A parsed phrase, the tokens after it, and the number of placeholders seen so far. */
  datatype Parsed<T> = Parsed(value: T, rest: seq<Token>, seen: nat)

  /** `?` takes the next parameter; `$n` takes the n-th. */
  function MarkerArg(t: Token, seen: nat): Option<nat> {
    match t
    case Positional => Some(seen)
    case Dollar(n) => if n > 0 then Some(n - 1) else None
    case _ => None
  }

  function ParsePrim(ts: seq<Token>, seen: nat): (r: Option<Parsed<Prim>>)
    ensures r.Some? ==> |r.value.rest| < |ts|
    decreases |ts|, 0
  {
    if ts == [] then None
    else match ts[0]
      case Open =>
        (match ParseCond(ts[1..], seen)
         case Some(e) =>
           if e.rest != [] && e.rest[0].Close? then Some(Parsed(Paren(e.value), e.rest[1..], e.seen)) else None
         case None => None)
      case Ident(col) =>
        if |ts| >= 3 && ts[1].Op? then
          match MarkerArg(ts[2], seen)
          case Some(arg) => Some(Parsed(Compare(col, ts[1].cmp, arg), ts[3..], seen + 1))
          case None => None
        else None
      case Numeral(digits) =>
        if |ts| >= 3 && digits == "1" && ts[1] == Op(Eq) && ts[2] == Numeral("1")
        then Some(Parsed(OneIsOne, ts[3..], seen)) else None
      case _ => None
  }

  function ParseConj(ts: seq<Token>, seen: nat): (r: Option<Parsed<Conj>>)
    ensures r.Some? ==> |r.value.rest| < |ts|
    decreases |ts|, 1
  {
    match ParsePrim(ts, seen)
    case None => None
    case Some(p) =>
      if p.rest != [] && p.rest[0] == Word("AND") then
        match ParseConj(p.rest[1..], p.seen)
        case Some(c) => Some(Parsed(And(p.value, c.value), c.rest, c.seen))
        case None => None
      else Some(Parsed(Last(p.value), p.rest, p.seen))
  }

  function ParseCond(ts: seq<Token>, seen: nat): (r: Option<Parsed<Cond>>)
    ensures r.Some? ==> |r.value.rest| < |ts|
    decreases |ts|, 2
  {
    match ParseConj(ts, seen)
    case None => None
    case Some(c) =>
      if c.rest != [] && c.rest[0] == Word("OR") then
        match ParseCond(c.rest[1..], c.seen)
        case Some(e) => Some(Parsed(Or(c.value, e.value), e.rest, e.seen))
        case None => None
      else Some(Parsed(Only(c.value), c.rest, c.seen))
  }

  /** A whole WHERE text. */
  function ReadCond(d: Dialect, s: string): Option<Cond> {
    match Lex(d, s)
    case None => None
    case Some(ts) =>
      match ParseCond(ts, 0)
      case Some(e) => if e.rest == [] then Some(e.value) else None
      case None => None
  }

  // ---- sort specifications -----------------------------------------------------------

  datatype SortItem = SortItem(col: string, asc: bool)

  function ItemText(d: Dialect, it: SortItem): string {
    QuoteIdent(d, it.col) + " " + (if it.asc then "ASC" else "DESC")
  }

  function ItemTexts(d: Dialect, items: seq<SortItem>): (r: seq<string>)
    ensures |r| == |items|
    ensures forall i :: 0 <= i < |items| ==> r[i] == ItemText(d, items[i])
  {
    seq(|items|, i requires 0 <= i < |items| => ItemText(d, items[i]))
  }

  function SortText(d: Dialect, items: seq<SortItem>): string {
    Join(ItemTexts(d, items), ", ")
  }

  function ParseSort(ts: seq<Token>): Option<seq<SortItem>>
    decreases |ts|
  {
    if |ts| >= 2 && ts[0].Ident? && (ts[1] == Word("ASC") || ts[1] == Word("DESC")) then
      var it := SortItem(ts[0].name, ts[1] == Word("ASC"));
      if |ts| == 2 then Some([it])
      else if ts[2].Comma? then
        match ParseSort(ts[3..])
        case Some(items) => Some([it] + items)
        case None => None
      else None
    else None
  }

  /** A whole ORDER BY text. */
  function ReadSort(d: Dialect, s: string): Option<seq<SortItem>> {
    match Lex(d, s)
    case None => None
    case Some(ts) => ParseSort(ts)
  }
}
