/** Percentile lookup and percentile seek over the record number order. */
module Percent {
  import opened Wrappers
  import opened Status
  import opened Bytes
  import opened SqlText
  import opened Relation
  import opened Schema
  import opened Selected
  import opened HandleState
  import opened GetOps
  import opened StepOps
  import opened StepRuns

  // ---- the two formulas -----------------------------------------------------------------------------------

  function Percentile(before: nat, total: nat): nat {
    before * 10000 / if total == 0 then 1 else total
  }

  /** The offset a percentile seeks to. */
  function SeekOffset(pct: nat, total: nat): (k: nat)
    requires total > 0
    ensures k < total
  {
    Min(pct * total / 10000, total - 1)
  }

  lemma {:induction false} DivBounds(a: nat, b: nat)
    requires b > 0
    ensures b * (a / b) <= a < b * (a / b) + b
  {
  }

  lemma {:induction false} MulMonotone(a: nat, b: nat, c: nat)
    requires a <= b
    ensures a * c <= b * c
  {
  }

  /** A percentile is at most 10000. */
  lemma {:induction false} PercentileBounded(before: nat, total: nat)
    requires before <= total
    ensures Percentile(before, total) <= 10000
  {
    if total > 0 {
      DivBounds(before * 10000, total);
      var p := Percentile(before, total);
      assert total * p == p * total;
      if p > 10000 {
        MulMonotone(10001, p, total);
      }
    }
  }

  /** Seeking is monotone in the percentile. */
  lemma {:induction false} SeekMonotone(p: nat, q: nat, total: nat)
    requires total > 0 && p <= q
    ensures SeekOffset(p, total) <= SeekOffset(q, total)
  {
    MulMonotone(p, q, total);
    DivBounds(p * total, 10000);
    DivBounds(q * total, 10000);
  }

  /** From the row at index `i` of `n`, seeking its own percentile lands at most one row after it and less
      than n / 10000 rows before it. */
  lemma {:induction false} SeekInvertsLookup(i: nat, n: nat)
    requires i < n
    ensures var k := SeekOffset(Percentile(i + 1, n), n);
            k <= i + 1 && (i - k) * 10000 < n
  {
    var p := Percentile(i + 1, n);
    var raw := p * n / 10000;
    DivBounds((i + 1) * 10000, n);
    assert n * p == p * n;
    DivBounds(p * n, 10000);
  }

  /** With at most 10000 rows it lands on the row itself, or on the next one when the percentile is
      exact and there is a next one. */
  lemma {:induction false} SeekLandsOn(i: nat, n: nat)
    requires i < n <= 10000
    ensures var k := SeekOffset(Percentile(i + 1, n), n);
            && (k == i || k == i + 1)
            && (k == i <==> i == n - 1 || (i + 1) * 10000 % n != 0)
  {
    SeekInvertsLookup(i, n);
    var p := Percentile(i + 1, n);
    DivBounds((i + 1) * 10000, n);
    assert n * p == p * n;
    DivBounds(p * n, 10000);
    assert (i + 1) * 10000 % n == (i + 1) * 10000 - p * n;
  }

  // ---- the operations -------------------------------------------------------------------------------------------

  /** The rows at or before a record number. */
  function UpTo(rows: set<Row>, recnum: int): set<Row> {
    set r | r in rows && r.recnum <= recnum
  }

  /** What `SELECT COUNT(*)` finds. */
  function PercentOf(rows: set<Row>, last: Option<int>): nat {
    match last
    case None => 0
    case Some(rn) => Percentile(|UpTo(rows, rn)|, |rows|)
  }

  /** Get By Percentage: the percentile of the current row as four bytes. */
  method GetPercent(h: HandleEntry, db: Backend) returns (code: int, data: seq<byte>)
    ensures code == BTR_SUCCESS && data == LeBytes(PercentOf(db.rows, h.lastRecnum), 4)
  {
    var before, total := 0, 1;
    if h.lastRecnum.Some? {
      before := |UpTo(db.rows, h.lastRecnum.value)|;
      total := if |db.rows| == 0 then 1 else |db.rows|;
    }
    var pct := before * 10000 / total;
    code, data := BTR_SUCCESS, LeBytes(pct, 4);
  }

  /** The rows in record number order. */
  ghost function InOrder(rc: string, rows: set<Row>): seq<Row> {
    StepAhead(rc, rows, None, 1, [])
  }

  /** The percentile a buffer asks for; fewer than four bytes ask for 0. */
  function AskedPercent(buf: seq<byte>): nat {
    if |buf| < 4 then 0 else LeNat(buf[..4])
  }

  lemma {:induction false} InOrderHasAll(rc: string, rows: set<Row>)
    ensures |InOrder(rc, rows)| == |rows| && Elements(InOrder(rc, rows)) == rows
  {
    assert StepPending(rc, rows, None, 1, []) == rows;
    SortedElements(rc, StepItems(rc, 1), rows);
  }

  /** The row at an offset of the record number order. */
  method RowAtOffset(db: Backend, offset: nat) returns (r: Row)
    requires UniqueRecnums(db.rows) && offset < |db.rows|
    ensures |InOrder(db.recnumCol, db.rows)| == |db.rows| && r == InOrder(db.recnumCol, db.rows)[offset]
  {
    InOrderHasAll(db.recnumCol, db.rows);
    var rows := FetchStepBatch(db, None, 1, offset + 1, []);
    r := rows[offset];
  }

  /** What Find Percentage finds: the row at the offset the percentile asks for. */
  ghost predicate FoundAt(meta: TableMeta, rows: set<Row>, buf: seq<byte>, code: int, row: Option<Row>) {
    if rows == {} then code == BTR_EOF && row == None
    else if NoColumns(meta) then code == BTR_UNSUPPORTED_OP && row == None
    else
      && |InOrder(meta.recnumCol, rows)| == |rows|
      && code == BTR_SUCCESS && row == Some(InOrder(meta.recnumCol, rows)[SeekOffset(AskedPercent(buf), |rows|)])
  }

  /** The position after Find Percentage found a row. */
  function SoughtPos(meta: TableMeta, p: StepPos, row: Row): StepPos {
    var rn := Some(SeenRecnum(meta, row));
    p.(last := rn, any := rn)
  }

  /** Find Percentage: the row at a percentile's offset, which becomes the physical position; the queue
      of rows read ahead is left alone. */
  method FindPercent(h: HandleEntry, db: Backend, buf: seq<byte>) returns (code: int, row: Option<Row>, data: seq<byte>)
    requires db.recnumCol == h.meta.recnumCol && UniqueRecnums(db.rows)
    modifies h`stepLastRecnum, h`lastRecnum
    ensures FoundAt(h.meta, db.rows, buf, code, row)
    ensures h.StepPosition() == match row
                                case None => old(h.StepPosition())
                                case Some(r) => SoughtPos(h.meta, old(h.StepPosition()), r)
    ensures h.GetCursor() == old(h.GetCursor()).(last := h.lastRecnum)
    ensures data == Got(h.meta, row)
  {
    var pct := if |buf| >= 4 then LeNat(buf[..4]) else 0;
    var total := |db.rows|;
    if total == 0 {
      return BTR_EOF, None, [];
    }
    if NoColumns(h.meta) {
      return BTR_UNSUPPORTED_OP, None, [];
    }
    var offset := Min(pct * total / 10000, total - 1);
    var r := RowAtOffset(db, offset);
    var read := TakeRow(h.meta, r);
    h.stepLastRecnum := Some(read.recnum);
    h.lastRecnum := Some(read.recnum);
    code, row, data := BTR_SUCCESS, Some(r), read.record;
  }

  /** The first step after Find Percentage goes to the neighbour of the row found exactly when the queue
      is empty or runs the other way, or no row lies between the position left and the row found. */
  lemma {:induction false} StepAfterSeekIff(meta: TableMeta, rows: set<Row>, n: nat, p: StepPos, row: Row, dir: int)
    requires UniqueRecnums(rows) && RecnumFirst(meta) && CacheOk(meta.recnumCol, rows, p) && n > 0
    ensures var q := SoughtPos(meta, p, row);
            (CachedStep(meta, rows, n, q, dir).row == CachedStep(meta, rows, n, q.(cache := []), dir).row)
              <==> (p.cache == [] || p.cacheDir != dir
                    || forall r :: r in rows ==> (RecnumBeyond(p.last, dir, r) <==> RecnumBeyond(Some(row.recnum), dir, r)))
  {
    SeenIsRecnum(meta, row);
    MovedUnderQueueIff(meta, rows, n, p, SoughtPos(meta, p, row), dir);
  }

  lemma {:induction false} IncreasingSize(rc: string, items: seq<SortItem>, s: seq<Row>)
    requires Increasing(rc, items, s)
    ensures |Elements(s)| == |s|
    decreases |s|
  {
    if s == [] {
      assert Elements(s) == {};
    } else {
      IncreasingSize(rc, items, s[1..]);
      assert s == [s[0]] + s[1..];
      BeforeTotal(rc, items, s[0], s[0]);
      assert s[0] !in Elements(s[1..]) by {
        assert forall j :: 0 < j < |s| ==> Before(rc, items, s[0], s[j]);
      }
      assert Elements(s) == {s[0]} + Elements(s[1..]);
    }
  }

  lemma {:induction false} RecnumOrder(rc: string, s: seq<Row>, j: nat, i: nat)
    requires Increasing(rc, StepItems(rc, 1), s) && j < |s| && i < |s|
    ensures s[j].recnum <= s[i].recnum <==> j <= i
  {
    if j < i {
      BeforeByRecnum(rc, 1, s[j], s[i]);
    } else if i < j {
      BeforeByRecnum(rc, 1, s[i], s[j]);
    }
  }

  /** The rows up to the one at index `i` are the first `i + 1`. */
  lemma {:induction false} UpToIsPrefix(rc: string, rows: set<Row>, s: seq<Row>, i: nat)
    requires Increasing(rc, StepItems(rc, 1), s) && Elements(s) == rows && i < |s|
    ensures UpTo(rows, s[i].recnum) == Elements(s[..i + 1])
  {
    var t := s[..i + 1];
    forall r | r in Elements(t)
      ensures r in UpTo(rows, s[i].recnum)
    {
      var j :| 0 <= j < |t| && t[j] == r;
      assert s[j] in Elements(s);
      RecnumOrder(rc, s, j, i);
    }
    forall r | r in UpTo(rows, s[i].recnum)
      ensures r in Elements(t)
    {
      assert r in Elements(s);
      var k :| 0 <= k < |s| && s[k] == r;
      RecnumOrder(rc, s, k, i);
      assert t[k] == r;
    }
  }

  /** `i + 1` rows lie at or before the row at index `i`. */
  lemma {:induction false} UpToIndex(rc: string, rows: set<Row>, i: nat)
    requires UniqueRecnums(rows) && i < |InOrder(rc, rows)|
    ensures |UpTo(rows, InOrder(rc, rows)[i].recnum)| == i + 1
  {
    var items, s := StepItems(rc, 1), InOrder(rc, rows);
    InOrderHasAll(rc, rows);
    assert StepPending(rc, rows, None, 1, []) == rows;
    StepDecides(rc, rows, 1);
    SortedIncreasing(rc, items, rows);
    UpToIsPrefix(rc, rows, s, i);
    IncreasingSize(rc, items, s[..i + 1]);
  }

  /** Standing on the row at index `i` of `n`, taking its percentile and seeking it gives the row at an
      index at most `i + 1` and less than n / 10000 below `i`; with at most 10000 rows, `i` or `i + 1`. */
  lemma {:induction false} SeekAfterLookup(rc: string, rows: set<Row>, i: nat)
    requires UniqueRecnums(rows) && i < |rows|
    ensures var s, n := InOrder(rc, rows), |rows|;
            && |s| == n
            && var pct := PercentOf(rows, Some(s[i].recnum));
               var k := SeekOffset(AskedPercent(LeBytes(pct, 4)), n);
               && pct <= 10000 && k <= i + 1 && (i - k) * 10000 < n
               && (n <= 10000 ==> k == i || k == i + 1)
  {
    InOrderHasAll(rc, rows);
    UpToIndex(rc, rows, i);
    var n := |rows|;
    var pct := Percentile(i + 1, n);
    PercentileBounded(i + 1, n);
    assert Pow256(2) == 256 * Pow256(1) == 256 * (256 * Pow256(0));
    assert Pow256(4) == 256 * Pow256(3) == 256 * (256 * Pow256(2));
    LeNatOfBytes(pct, 4);
    assert LeBytes(pct, 4)[..4] == LeBytes(pct, 4);
    SeekInvertsLookup(i, n);
    if n <= 10000 {
      SeekLandsOn(i, n);
    }
  }
}
