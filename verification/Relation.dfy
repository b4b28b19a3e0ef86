/** Tables, sort orders, and what a backend answers to `SELECT TOP n ... WHERE ... ORDER BY ...`. */
module Relation {
  import opened Wrappers
  import opened Status
  import opened SqlValues
  import opened SqlText

  /** A table row: its record number and its columns by name. */
  datatype Row = Row(recnum: int, cols: map<string, SqlValue>)

  function Column(rc: string, row: Row, name: string): SqlValue {
    if name == rc then I64(row.recnum)
    else if name in row.cols then row.cols[name]
    else Null
  }

  function Env(rc: string, row: Row): string -> SqlValue {
    name => Column(rc, row, name)
  }

  /** A column the row has no value for is NULL, and no comparison with it holds. */
  lemma {:induction false} NullNeverPasses(rc: string, row: Row, name: string, cmp: Cmp, v: SqlValue)
    requires name != rc && name !in row.cols
    ensures !Holds(cmp, Column(rc, row, name), v) && !Holds(cmp, v, Column(rc, row, name))
  {
  }

  predicate UniqueRecnums(rows: set<Row>) {
    forall a, b :: a in rows && b in rows && a.recnum == b.recnum ==> a == b
  }

  // ---- lexicographic order -----------------------------------------------------------

  predicate TupleLess(asc: seq<bool>, xs: seq<SqlValue>, ys: seq<SqlValue>)
    requires |asc| == |xs| == |ys|
  {
    |xs| > 0 &&
    if xs[0] == ys[0] then TupleLess(asc[1..], xs[1..], ys[1..])
    else if asc[0] then Less(xs[0], ys[0])
    else Less(ys[0], xs[0])
  }

  lemma {:induction false} TupleTransitive(asc: seq<bool>, xs: seq<SqlValue>, ys: seq<SqlValue>, zs: seq<SqlValue>)
    requires |asc| == |xs| == |ys| == |zs|
    requires TupleLess(asc, xs, ys) && TupleLess(asc, ys, zs)
    ensures TupleLess(asc, xs, zs)
  {
    var x, y, z := xs[0], ys[0], zs[0];
    if x == y && y == z {
      TupleTransitive(asc[1..], xs[1..], ys[1..], zs[1..]);
    } else if x != y && y != z {
      if asc[0] { LessTransitive(x, y, z); LessTotal(x, y); }
      else { LessTransitive(z, y, x); LessTotal(x, y); }
    }
  }

  lemma {:induction false} TupleTotal(asc: seq<bool>, xs: seq<SqlValue>, ys: seq<SqlValue>)
    requires |asc| == |xs| == |ys|
    ensures TupleLess(asc, xs, ys) || TupleLess(asc, ys, xs) || xs == ys
    ensures !(TupleLess(asc, xs, ys) && TupleLess(asc, ys, xs))
    ensures !TupleLess(asc, xs, xs)
    decreases |xs|
  {
    if |xs| > 0 {
      LessTotal(xs[0], ys[0]);
      TupleTotal(asc[1..], xs[1..], ys[1..]);
      if xs[1..] == ys[1..] && xs[0] == ys[0] {
        assert xs == [xs[0]] + xs[1..] && ys == [ys[0]] + ys[1..];
      }
    }
  }

  // ---- ORDER BY ------------------------------------------------------------------------

  function Ascs(items: seq<SortItem>): (r: seq<bool>)
    ensures |r| == |items|
  {
    seq(|items|, i requires 0 <= i < |items| => items[i].asc)
  }

  /** The values a row is sorted by. */
  function SortKey(rc: string, items: seq<SortItem>, row: Row): (r: seq<SqlValue>)
    ensures |r| == |items|
  {
    seq(|items|, i requires 0 <= i < |items| => Column(rc, row, items[i].col))
  }

  predicate Before(rc: string, items: seq<SortItem>, a: Row, b: Row) {
    TupleLess(Ascs(items), SortKey(rc, items, a), SortKey(rc, items, b))
  }

  lemma {:induction false} BeforeTransitive(rc: string, items: seq<SortItem>, a: Row, b: Row, c: Row)
    requires Before(rc, items, a, b) && Before(rc, items, b, c)
    ensures Before(rc, items, a, c)
  {
    TupleTransitive(Ascs(items), SortKey(rc, items, a), SortKey(rc, items, b), SortKey(rc, items, c));
  }

  /** The order decides between any two rows. */
  predicate Decides(rc: string, items: seq<SortItem>, rows: set<Row>) {
    forall a, b :: a in rows && b in rows && a != b ==> SortKey(rc, items, a) != SortKey(rc, items, b)
  }

  lemma {:induction false} BeforeTotal(rc: string, items: seq<SortItem>, a: Row, b: Row)
    ensures Before(rc, items, a, b) || Before(rc, items, b, a) || SortKey(rc, items, a) == SortKey(rc, items, b)
    ensures !(Before(rc, items, a, b) && Before(rc, items, b, a))
    ensures !Before(rc, items, a, a)
  {
    TupleTotal(Ascs(items), SortKey(rc, items, a), SortKey(rc, items, b));
    TupleTotal(Ascs(items), SortKey(rc, items, a), SortKey(rc, items, a));
  }

  /** Sorting by the record number last leaves no ties. */
  lemma {:induction false} RecnumDecides(rc: string, items: seq<SortItem>, rows: set<Row>)
    requires items != [] && items[|items| - 1].col == rc && UniqueRecnums(rows)
    ensures Decides(rc, items, rows)
  {
    forall a, b | a in rows && b in rows && a != b
      ensures SortKey(rc, items, a) != SortKey(rc, items, b)
    {
      assert SortKey(rc, items, a)[|items| - 1] == I64(a.recnum);
      assert SortKey(rc, items, b)[|items| - 1] == I64(b.recnum);
    }
  }

  // ---- sorting a set of rows ---------------------------------------------------------------

  /** No row of the set comes before `r`. */
  predicate IsMinimal(rc: string, items: seq<SortItem>, rows: set<Row>, r: Row) {
    r in rows && forall o :: o in rows ==> !Before(rc, items, o, r)
  }

  lemma {:induction false} MinimalExists(rc: string, items: seq<SortItem>, rows: set<Row>)
    requires rows != {}
    ensures exists r :: IsMinimal(rc, items, rows, r)
  {
    var x :| x in rows;
    if rows == {x} {
      BeforeTotal(rc, items, x, x);
      assert IsMinimal(rc, items, rows, x);
    } else {
      var others := rows - {x};
      MinimalExists(rc, items, others);
      var m :| IsMinimal(rc, items, others, m);
      BeforeTotal(rc, items, x, x);
      BeforeTotal(rc, items, x, m);
      if Before(rc, items, x, m) {
        forall o | o in rows
          ensures !Before(rc, items, o, x)
        {
          if o != x && Before(rc, items, o, x) {
            BeforeTransitive(rc, items, o, x, m);
          }
        }
        assert IsMinimal(rc, items, rows, x);
      } else {
        assert IsMinimal(rc, items, rows, m);
      }
    }
  }

  /** The rows in order. */
  ghost function Sorted(rc: string, items: seq<SortItem>, rows: set<Row>): seq<Row>
    decreases |rows|
  {
    if rows == {} then []
    else
      MinimalExists(rc, items, rows);
      var m :| IsMinimal(rc, items, rows, m);
      [m] + Sorted(rc, items, rows - {m})
  }

  ghost function Elements(s: seq<Row>): set<Row> {
    set r | r in s
  }

  /** Strictly increasing, so without repetition. */
  predicate Increasing(rc: string, items: seq<SortItem>, s: seq<Row>) {
    forall i, j :: 0 <= i < j < |s| ==> Before(rc, items, s[i], s[j])
  }

  lemma {:induction false} SortedElements(rc: string, items: seq<SortItem>, rows: set<Row>)
    ensures Elements(Sorted(rc, items, rows)) == rows && |Sorted(rc, items, rows)| == |rows|
    decreases |rows|
  {
    if rows != {} {
      var s := Sorted(rc, items, rows);
      var m := s[0];
      assert s == [m] + s[1..];
      SortedElements(rc, items, rows - {m});
      assert s[1..] == Sorted(rc, items, rows - {m});
      assert Elements(s) == {m} + Elements(s[1..]);
    }
  }

  lemma {:induction false} SortedIncreasing(rc: string, items: seq<SortItem>, rows: set<Row>)
    requires Decides(rc, items, rows)
    ensures Increasing(rc, items, Sorted(rc, items, rows))
    decreases |rows|
  {
    if rows != {} {
      var s := Sorted(rc, items, rows);
      var m := s[0];
      SortedIncreasing(rc, items, rows - {m});
      SortedElements(rc, items, rows - {m});
      var t := Sorted(rc, items, rows - {m});
      assert s == [m] + t;
      forall j | 0 <= j < |t|
        ensures Before(rc, items, m, t[j])
      {
        assert t[j] in Elements(t);
        BeforeTotal(rc, items, m, t[j]);
      }
    }
  }

  /** There is only one way to put the rows in order. */
  lemma {:induction false} SortedUnique(rc: string, items: seq<SortItem>, s: seq<Row>)
    requires Increasing(rc, items, s)
    ensures s == Sorted(rc, items, Elements(s))
    decreases |s|
  {
    if s == [] {
      assert Elements(s) == {};
    } else {
      var rows := Elements(s);
      assert s[0] in rows;
      assert forall j :: 0 < j < |s| ==> Before(rc, items, s[0], s[j]);
      var m := Sorted(rc, items, rows)[0];
      assert IsMinimal(rc, items, rows, m);
      var k :| 0 <= k < |s| && s[k] == m;
      forall j | 1 <= j < |s|
        ensures s[j] != s[0]
      {
        BeforeTotal(rc, items, s[0], s[0]);
        assert Before(rc, items, s[0], s[j]);
      }
      assert Elements(s[1..]) == rows - {m};
      SortedUnique(rc, items, s[1..]);
      assert s == [m] + s[1..];
    }
  }

  /** The rows after the first one of a sorted list are the rest of the list. */
  lemma {:induction false} SortedTail(rc: string, items: seq<SortItem>, rows: set<Row>, rest: set<Row>)
    requires Decides(rc, items, rows) && rows != {}
    requires forall o :: o in rest <==> o in rows && Before(rc, items, Sorted(rc, items, rows)[0], o)
    ensures Sorted(rc, items, rest) == Sorted(rc, items, rows)[1..]
  {
    var m := Sorted(rc, items, rows)[0];
    forall o | o in rows
      ensures o in rest <==> o != m
    {
      BeforeTotal(rc, items, m, o);
      BeforeTotal(rc, items, m, m);
    }
    assert rest == rows - {m};
  }

  lemma {:induction false} MinimalIsFirst(rc: string, items: seq<SortItem>, rows: set<Row>, r: Row)
    requires Decides(rc, items, rows) && IsMinimal(rc, items, rows, r)
    ensures r == Sorted(rc, items, rows)[0]
  {
    BeforeTotal(rc, items, r, Sorted(rc, items, rows)[0]);
  }

  // ---- SELECT --------------------------------------------------------------------------------

  /** A possible answer of `n` rows: in order, and no row left out comes before one returned.
      Rows that tie may come in any order. */
  ghost predicate IsAnswer(rc: string, items: seq<SortItem>, matching: set<Row>, n: nat, s: seq<Row>) {
    && |s| == Min(n, |matching|)
    && Elements(s) <= matching
    && (forall i, j :: 0 <= i < j < |s| ==> s[i] != s[j] && !Before(rc, items, s[j], s[i]))
    && (forall o, i :: o in matching && o !in s && 0 <= i < |s| ==> !Before(rc, items, o, s[i]))
  }

  lemma {:induction false} AnswerHead(rc: string, items: seq<SortItem>, matching: set<Row>, n: nat, s: seq<Row>)
    requires Decides(rc, items, matching) && IsAnswer(rc, items, matching, n, s)
    requires n > 0 && matching != {}
    ensures s != [] && s[0] in matching && s[0] == Sorted(rc, items, matching)[0]
  {
    assert s[0] in Elements(s);
    BeforeTotal(rc, items, s[0], s[0]);
    forall o | o in matching
      ensures !Before(rc, items, o, s[0])
    {
      if o in s {
        var j :| 0 <= j < |s| && s[j] == o;
      }
    }
    MinimalIsFirst(rc, items, matching, s[0]);
  }

  lemma {:induction false} AnswerStep(rc: string, items: seq<SortItem>, matching: set<Row>, n: nat, s: seq<Row>)
    requires IsAnswer(rc, items, matching, n, s) && n > 0 && s != [] && s[0] in matching
    ensures IsAnswer(rc, items, matching - {s[0]}, n - 1, s[1..])
  {
    var t := s[1..];
    forall j | 0 <= j < |t|
      ensures t[j] == s[j + 1] && t[j] in matching - {s[0]}
    {
      assert s[j + 1] in Elements(s);
    }
    forall o, i | o in matching - {s[0]} && o !in t && 0 <= i < |t|
      ensures !Before(rc, items, o, t[i])
    {
      assert s == [s[0]] + t;
    }
  }

  /** Without ties the answer is the first `n` rows in order. */
  lemma {:induction false} AnswerIsPrefix(rc: string, items: seq<SortItem>, matching: set<Row>, n: nat, s: seq<Row>)
    requires Decides(rc, items, matching) && IsAnswer(rc, items, matching, n, s)
    ensures |Sorted(rc, items, matching)| == |matching|
    ensures s == Sorted(rc, items, matching)[..Min(n, |matching|)]
    decreases n
  {
    SortedElements(rc, items, matching);
    if n > 0 && matching != {} {
      AnswerHead(rc, items, matching, n, s);
      AnswerStep(rc, items, matching, n, s);
      var rest := matching - {s[0]};
      AnswerIsPrefix(rc, items, rest, n - 1, s[1..]);
      assert s == [s[0]] + s[1..];
      assert Sorted(rc, items, matching) == [s[0]] + Sorted(rc, items, rest);
    }
  }

  /** How the backend reads a WHERE text: an empty one keeps every row, and a statement whose
      placeholders do not match the parameter list is refused. */
  function WhereCond(d: Dialect, text: string, n: nat): Option<Cond> {
    if text == "" then
      if n == 0 then Some(Only(Last(OneIsOne))) else None
    else
      match ReadCond(d, text)
      case Some(e) => if Numbered(e, 0) && CondArgs(e) == n then Some(e) else None
      case None => None
  }

  function OrderItems(d: Dialect, text: string): Option<seq<SortItem>> {
    if text == "" then Some([]) else ReadSort(d, text)
  }

  function Matching(rc: string, rows: set<Row>, e: Cond, params: seq<SqlValue>): set<Row> {
    set r | r in rows && CondHolds(e, Env(rc, r), params)
  }

  /** Part of an answer: the rows taken so far, and those still left. */
  ghost predicate Selecting(rc: string, items: seq<SortItem>, matching: set<Row>, left: set<Row>, s: seq<Row>) {
    && Elements(s) == matching - left
    && |s| + |left| == |matching|
    && (forall i, j :: 0 <= i < j < |s| ==> s[i] != s[j] && !Before(rc, items, s[j], s[i]))
    && (forall o, i :: o in left && 0 <= i < |s| ==> !Before(rc, items, o, s[i]))
  }

  lemma {:induction false} SelectingStep(rc: string, items: seq<SortItem>, matching: set<Row>, left: set<Row>, s: seq<Row>, m: Row)
    requires left <= matching && Selecting(rc, items, matching, left, s) && IsMinimal(rc, items, left, m)
    ensures Selecting(rc, items, matching, left - {m}, s + [m])
  {
    assert Elements(s + [m]) == Elements(s) + {m};
    assert forall i :: 0 <= i < |s| ==> s[i] in Elements(s);
  }

  /** The database behind the shared connection. */
  class Backend {
    const dialect: Dialect
    const recnumCol: string
    var rows: set<Row>
    /** An open transaction, the rows it started from, and whether it can only be rolled back. */
    var inTxn: bool
    var saved: set<Row>
    var doomed: bool

    constructor (d: Dialect, rc: string, rows: set<Row>)
      ensures dialect == d && recnumCol == rc && this.rows == rows && !inTxn && !doomed
    {
      dialect, recnumCol, this.rows, inTxn, saved, doomed := d, rc, rows, false, {}, false;
    }

    method Select(where: string, params: seq<SqlValue>, order: string, n: nat) returns (res: Result<seq<Row>>)
      ensures var e := WhereCond(dialect, where, |params|);
              var items := OrderItems(dialect, order);
              if e.Some? && items.Some? then
                res.Ok? && IsAnswer(recnumCol, items.value, Matching(recnumCol, rows, e.value, params), n, res.value)
              else res == Err(ERR_CONTEXT_FAILURE)
    {
      var e, order' := WhereCond(dialect, where, |params|), OrderItems(dialect, order);
      if e.None? || order'.None? {
        return Err(ERR_CONTEXT_FAILURE);
      }
      var items := order'.value;
      var matching := Matching(recnumCol, rows, e.value, params);
      var left := matching;
      var s: seq<Row> := [];
      while |s| < n && left != {}
        invariant |s| <= n && left <= matching
        invariant Selecting(recnumCol, items, matching, left, s)
        decreases left
      {
        MinimalExists(recnumCol, items, left);
        var m :| m in left && IsMinimal(recnumCol, items, left, m);
        SelectingStep(recnumCol, items, matching, left, s, m);
        s, left := s + [m], left - {m};
      }
      assert forall o :: o in matching && o !in s ==> o in left by {
        assert forall o :: o in Elements(s) ==> o in s;
      }
      assert |s| == Min(n, |matching|);
      return Ok(s);
    }
  }
}
