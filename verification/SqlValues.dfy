/** Bind parameters and column values, and the order in which SQL compares them. */
module SqlValues {

  /** Floating-point and raw-byte values are not modelled. */
  datatype SqlValue = Null | Bool(b: bool) | I64(n: int) | Text(s: string)

  datatype Cmp = Eq | Gt | Ge | Lt | Le | Ne

  function Rank(v: SqlValue): nat {
    match v
    case Null => 0
    case Bool(_) => 1
    case I64(_) => 2
    case Text(_) => 3
  }

  /** Character-by-character order of text. */
  predicate TextLess(s: string, t: string) {
    if t == "" then false
    else if s == "" then true
    else s[0] < t[0] || (s[0] == t[0] && TextLess(s[1..], t[1..]))
  }

  /** A total order on values; a column only ever compares values of one kind. */
  predicate Less(a: SqlValue, b: SqlValue) {
    match (a, b)
    case (Bool(x), Bool(y)) => !x && y
    case (I64(x), I64(y)) => x < y
    case (Text(x), Text(y)) => TextLess(x, y)
    case _ => Rank(a) < Rank(b)
  }

  /** A WHERE comparison: anything compared with NULL is not true. */
  predicate Holds(cmp: Cmp, a: SqlValue, b: SqlValue) {
    a != Null && b != Null &&
    match cmp
    case Eq => a == b
    case Gt => Less(b, a)
    case Ge => a == b || Less(b, a)
    case Lt => Less(a, b)
    case Le => a == b || Less(a, b)
    case Ne => a != b
  }

  lemma {:induction false} TextLessTransitive(s: string, t: string, u: string)
    requires TextLess(s, t) && TextLess(t, u)
    ensures TextLess(s, u)
  {
    if s != "" && s[0] == t[0] && t[0] == u[0] {
      TextLessTransitive(s[1..], t[1..], u[1..]);
    }
  }

  lemma {:induction false} TextLessTotal(s: string, t: string)
    ensures TextLess(s, t) || TextLess(t, s) || s == t
    ensures !(TextLess(s, t) && TextLess(t, s))
    ensures !TextLess(s, s)
  {
    if s != "" {
      TextLessTotal(s[1..], if t == "" then "" else t[1..]);
      if t != "" {
        assert s == [s[0]] + s[1..] && t == [t[0]] + t[1..];
      }
    }
  }

  lemma {:induction false} LessTransitive(a: SqlValue, b: SqlValue, c: SqlValue)
    requires Less(a, b) && Less(b, c)
    ensures Less(a, c)
  {
    if a.Text? && b.Text? && c.Text? {
      TextLessTransitive(a.s, b.s, c.s);
    }
  }

  lemma {:induction false} LessTotal(a: SqlValue, b: SqlValue)
    ensures Less(a, b) || Less(b, a) || a == b
    ensures !(Less(a, b) && Less(b, a))
    ensures !Less(a, a)
  {
    if a.Text? {
      TextLessTotal(a.s, a.s);
      if b.Text? {
        TextLessTotal(a.s, b.s);
      }
    }
  }

  /** Where two texts part, if the first does not end there. */
  ghost predicate PartsBelow(s: string, t: string, k: nat) {
    k < |t| && k <= |s| && s[..k] == t[..k] && (k == |s| || s[k] < t[k])
  }

  /** One text is less than another when it is a proper beginning of it, or has the smaller character where they first
      differ. */
  lemma {:induction false} TextLessIff(s: string, t: string)
    ensures TextLess(s, t) <==> exists k: nat :: PartsBelow(s, t, k)
  {
    if s == "" || t == "" {
      assert t != "" ==> PartsBelow(s, t, 0);
    } else if s[0] != t[0] {
      assert s[0] < t[0] ==> PartsBelow(s, t, 0);
      assert forall k: nat :: PartsBelow(s, t, k) && k > 0 ==> s[..k][0] == t[..k][0];
    } else {
      TextLessIff(s[1..], t[1..]);
      if k: nat :| PartsBelow(s[1..], t[1..], k) {
        assert s[..k + 1] == [s[0]] + s[1..][..k] && t[..k + 1] == [t[0]] + t[1..][..k];
        assert PartsBelow(s, t, k + 1);
      }
      if k: nat :| PartsBelow(s, t, k) {
        assert k > 0;
        assert s[1..][..k - 1] == s[..k][1..] && t[1..][..k - 1] == t[..k][1..];
        assert PartsBelow(s[1..], t[1..], k - 1);
      }
    }
  }

  /** Numbers by size, false before true, text by characters. */
  lemma {:induction false} LiteralOrder()
    ensures Less(I64(2), I64(10)) && Less(Bool(false), Bool(true)) && !Less(Bool(true), Bool(false))
    ensures Less(Text("10"), Text("2")) && Less(Text("A"), Text("AB"))
  {
    assert PartsBelow("10", "2", 0) && PartsBelow("A", "AB", 1);
    TextLessIff("10", "2");
    TextLessIff("A", "AB");
  }
}
