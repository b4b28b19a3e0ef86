/** Walks over an index: what repeated Get Next and Get Previous calls visit, and exactly when. */
module Walks {
  import opened Wrappers
  import opened Status
  import opened SqlValues
  import opened SqlText
  import opened Relation
  import opened Schema
  import opened Selected
  import opened Keyset
  import opened KeysetMeaning
  import opened HandleState
  import opened GetOps

  // ---- when a cursor can walk -----------------------------------------------------------------

  /** The flags the continuation will use are those of the index. */
  predicate FlagsAgree(meta: TableMeta, c: Cursor, idx: nat) {
    var refs := IndexColRefs(meta, idx);
    forall i :: 0 <= i < |refs| ==> (i < |c.desc| && c.desc[i]) == refs[i].desc
  }

  /** The index has a segment the table knows, the flags agree, and the key values fit the index. */
  predicate CursorFits(meta: TableMeta, c: Cursor, idx: nat) {
    && IndexColRefs(meta, idx) != []
    && FlagsAgree(meta, c, idx)
    && (Positioned(c) ==> |c.keys| == |IndexColRefs(meta, idx)| && NoNulls(c.keys))
  }

  /** Then the cursor can walk, if the record numbers it is moved to are those of the rows. */
  predicate CanWalk(meta: TableMeta, c: Cursor, idx: nat) {
    CursorFits(meta, c, idx) && RecnumFirst(meta)
  }

  /** Record numbers are unique, and key columns hold values of their fields' kinds and no NULL. */
  predicate RowsOk(meta: TableMeta, rows: set<Row>, idx: nat) {
    UniqueRecnums(rows) && forall r :: r in rows ==> NoNulls(RowKeys(meta, idx, r)) && KeyTyped(meta, idx, r)
  }

  /** The key values kept fit the index. */
  lemma {:induction false} KeptKeysFit(meta: TableMeta, idx: nat, r: Row)
    ensures |KeptKeys(meta, idx, r)| == |IndexColRefs(meta, idx)|
  {
    KeptIsOwnIff(meta, idx, r);
    RowKeysShape(meta, idx, r);
  }

  /** The rows are fine, and the record numbers read are theirs. */
  predicate WalkOk(meta: TableMeta, rows: set<Row>, idx: nat) {
    RowsOk(meta, rows, idx) && RecnumFirst(meta)
  }

  /** And the index is the one the next step walks. */
  predicate CanStep(meta: TableMeta, rows: set<Row>, c: Cursor, idx: nat) {
    ActiveIndex(meta, c) == Some(idx) && !NoColumns(meta) && WalkOk(meta, rows, idx)
  }

  lemma {:induction false} RowKeysShape(meta: TableMeta, idx: nat, r: Row)
    ensures var refs := IndexColRefs(meta, idx);
            && |RowKeys(meta, idx, r)| == |refs|
            && forall i :: 0 <= i < |refs| ==> RowKeys(meta, idx, r)[i] == Column(meta.recnumCol, r, refs[i].col)
  {
    KeyValsAligned(meta, idx, r);
  }

  /** A row's place in the walk order: its key values, then its record number. */
  lemma {:induction false} SortKeyIsPosition(meta: TableMeta, idx: nat, dir: int, r: Row)
    ensures SortKey(meta.recnumCol, WalkItems(meta, idx, dir), r) == RowKeys(meta, idx, r) + [I64(r.recnum)]
  {
    RowKeysShape(meta, idx, r);
  }

  /** The continuation from a cursor is the strict walk order. */
  lemma {:induction false} PassesIsAfter(meta: TableMeta, c: Cursor, idx: nat, dir: int, r: Row)
    requires CursorFits(meta, c, idx) && Positioned(c) && NoNulls(RowKeys(meta, idx, r))
    ensures |WalkItems(meta, idx, dir)| == |c.keys| + 1
    ensures Passes(meta, c, idx, dir, r) <==>
              TupleLess(Ascs(WalkItems(meta, idx, dir)), c.keys + [I64(c.recnum.value)],
                        SortKey(meta.recnumCol, WalkItems(meta, idx, dir), r))
  {
    var rc, refs := meta.recnumCol, IndexColRefs(meta, idx);
    var kc := CursorCols(refs, c);
    var items := WalkItems(meta, idx, dir);
    RowKeysShape(meta, idx, r);
    assert Vals(kc) == c.keys;
    assert KeyEnv(kc, Env(rc, r)) == RowKeys(meta, idx, r);
    ContinuationMeaning(kc, dir, rc, 0, c.recnum.value, Env(rc, r), ContParams(kc, c.recnum.value));
    assert ContAscs(kc, dir) == Ascs(items);
    SortKeyIsPosition(meta, idx, dir, r);
    assert Env(rc, r)(rc) == I64(r.recnum);
  }

  /** The cursor stands on row `p`. */
  predicate StandsOn(meta: TableMeta, c: Cursor, idx: nat, p: Row) {
    c.keys == KeptKeys(meta, idx, p) && c.recnum == Some(p.recnum)
  }

  /** From a cursor standing on a row, exactly the later rows pass. */
  lemma {:induction false} PassesFromRow(meta: TableMeta, c: Cursor, idx: nat, dir: int, p: Row, r: Row)
    requires IndexColRefs(meta, idx) != [] && FlagsAgree(meta, c, idx) && StandsOn(meta, c, idx, p)
    requires NoNulls(RowKeys(meta, idx, p)) && KeyTyped(meta, idx, p) && NoNulls(RowKeys(meta, idx, r))
    ensures CursorFits(meta, c, idx) && Positioned(c)
    ensures Passes(meta, c, idx, dir, r) <==> Before(meta.recnumCol, WalkItems(meta, idx, dir), p, r)
  {
    RowKeysShape(meta, idx, p);
    KeptIsOwnIff(meta, idx, p);
    PassesIsAfter(meta, c, idx, dir, r);
    SortKeyIsPosition(meta, idx, dir, p);
  }

  /** Returning the first row ahead leaves exactly the others ahead. */
  lemma {:induction false} AheadShrinks(meta: TableMeta, rows: set<Row>, c: Cursor, idx: nat, dir: int, terms: seq<Term>, c': Cursor)
    requires RowsOk(meta, rows, idx) && CanWalk(meta, c, idx)
    requires Ahead(meta, rows, c, idx, dir, terms) != []
    requires StandsOn(meta, c', idx, Ahead(meta, rows, c, idx, dir, terms)[0]) && c'.desc == c.desc
    ensures Ahead(meta, rows, c, idx, dir, terms)[0] in rows
    ensures CanWalk(meta, c', idx) && Positioned(c')
    ensures Ahead(meta, rows, c', idx, dir, terms) == Ahead(meta, rows, c, idx, dir, terms)[1..]
  {
    var rc, items := meta.recnumCol, WalkItems(meta, idx, dir);
    var pending := Pending(meta, rows, c, idx, dir, terms);
    var left := Pending(meta, rows, c', idx, dir, terms);
    var s := Ahead(meta, rows, c, idx, dir, terms);
    var p := s[0];
    WalkDecides(meta, rows, idx, dir);
    SortedElements(rc, items, pending);
    assert p in Elements(s);
    PassesFromRow(meta, c', idx, dir, p, p);
    forall o
      ensures o in left <==> o in pending && Before(rc, items, p, o)
    {
      if o in rows {
        PassesFromRow(meta, c', idx, dir, p, o);
        if Positioned(c) && Before(rc, items, p, o) {
          PassesIsAfter(meta, c, idx, dir, p);
          PassesIsAfter(meta, c, idx, dir, o);
          TupleTransitive(Ascs(items), c.keys + [I64(c.recnum.value)], SortKey(rc, items, p), SortKey(rc, items, o));
        }
      }
    }
    SortedTail(rc, items, pending, left);
  }

  // ---- runs of Get Next or Get Previous -----------------------------------------------------------

  /** Successful calls one after another: the cursors between them and the rows returned. */
  ghost predicate IsWalk(meta: TableMeta, rows: set<Row>, dir: int, cs: seq<Cursor>, out: seq<Row>) {
    |cs| == |out| + 1 &&
    forall i :: 0 <= i < |out| ==> Adjacent(meta, rows, cs[i], dir, BTR_SUCCESS, Some(out[i]), cs[i + 1])
  }

  lemma {:induction false} WalkTail(meta: TableMeta, rows: set<Row>, dir: int, cs: seq<Cursor>, out: seq<Row>)
    requires IsWalk(meta, rows, dir, cs, out) && out != []
    ensures IsWalk(meta, rows, dir, cs[1..], out[1..])
    ensures Adjacent(meta, rows, cs[0], dir, BTR_SUCCESS, Some(out[0]), cs[1])
  {
    forall i | 0 <= i < |out| - 1
      ensures Adjacent(meta, rows, cs[1..][i], dir, BTR_SUCCESS, Some(out[1..][i]), cs[1..][i + 1])
    {
      assert Adjacent(meta, rows, cs[i + 1], dir, BTR_SUCCESS, Some(out[i + 1]), cs[i + 1 + 1]);
    }
  }

  /** The first step of a walk returns the first row ahead and leaves the others. */
  lemma {:induction false} FirstStep(meta: TableMeta, rows: set<Row>, idx: nat, dir: int, cs: seq<Cursor>, out: seq<Row>)
    requires IsWalk(meta, rows, dir, cs, out) && out != [] && ActiveIndex(meta, cs[0]) == Some(idx)
    requires RowsOk(meta, rows, idx) && CanWalk(meta, cs[0], idx)
    ensures IsWalk(meta, rows, dir, cs[1..], out[1..])
    ensures ActiveIndex(meta, cs[1]) == Some(idx) && CanWalk(meta, cs[1], idx)
    ensures Ahead(meta, rows, cs[0], idx, dir, []) == [out[0]] + Ahead(meta, rows, cs[1], idx, dir, [])
  {
    WalkTail(meta, rows, dir, cs, out);
    AheadShrinks(meta, rows, cs[0], idx, dir, [], cs[1]);
    var s := Ahead(meta, rows, cs[0], idx, dir, []);
    assert s == [s[0]] + s[1..];
  }

  /** A walk returns the rows ahead in order, without gap or repeat. */
  lemma {:induction false} WalkVisitsAhead(meta: TableMeta, rows: set<Row>, idx: nat, dir: int, cs: seq<Cursor>, out: seq<Row>)
    requires IsWalk(meta, rows, dir, cs, out) && ActiveIndex(meta, cs[0]) == Some(idx)
    requires RowsOk(meta, rows, idx) && CanWalk(meta, cs[0], idx)
    ensures |out| <= |Ahead(meta, rows, cs[0], idx, dir, [])|
    ensures out == Ahead(meta, rows, cs[0], idx, dir, [])[..|out|]
    ensures Ahead(meta, rows, cs[|out|], idx, dir, []) == Ahead(meta, rows, cs[0], idx, dir, [])[|out|..]
    ensures ActiveIndex(meta, cs[|out|]) == Some(idx) && CanWalk(meta, cs[|out|], idx)
    decreases |out|
  {
    if out != [] {
      FirstStep(meta, rows, idx, dir, cs, out);
      WalkVisitsAhead(meta, rows, idx, dir, cs[1..], out[1..]);
      PrefixGrows(out, Ahead(meta, rows, cs[0], idx, dir, []), Ahead(meta, rows, cs[1], idx, dir, []));
      assert cs[1..][|out[1..]|] == cs[|out|];
    }
  }

  lemma {:induction false} PrefixGrows(out: seq<Row>, all: seq<Row>, rest: seq<Row>)
    requires out != [] && all == [out[0]] + rest && |out| - 1 <= |rest| && out[1..] == rest[..|out| - 1]
    ensures out == all[..|out|] && all[|out|..] == rest[|out| - 1..]
  {
    assert out == [out[0]] + out[1..];
  }

  /** The walk ends with status 9 exactly when every row ahead has been returned. */
  lemma {:induction false} WalkEnds(meta: TableMeta, rows: set<Row>, idx: nat, dir: int, cs: seq<Cursor>, out: seq<Row>,
                 code: int, row: Option<Row>, c': Cursor)
    requires IsWalk(meta, rows, dir, cs, out) && ActiveIndex(meta, cs[0]) == Some(idx)
    requires RowsOk(meta, rows, idx) && CanWalk(meta, cs[0], idx) && !NoColumns(meta)
    requires Adjacent(meta, rows, cs[|out|], dir, code, row, c')
    ensures code == BTR_EOF <==> out == Ahead(meta, rows, cs[0], idx, dir, [])
    ensures code == BTR_EOF || code == BTR_SUCCESS
  {
    WalkVisitsAhead(meta, rows, idx, dir, cs, out);
    var s := Ahead(meta, rows, cs[0], idx, dir, []);
    assert s == s[..|out|] + s[|out|..];
  }

  predicate Fresh(c: Cursor) {
    c.keys == [] || c.recnum.None?
  }

  /** From a handle without position, Get Next until 9 returns every row of the table exactly once,
      in the order of the index with ties broken by record number. */
  lemma {:induction false} FreshWalkVisitsAll(meta: TableMeta, rows: set<Row>, idx: nat, dir: int, cs: seq<Cursor>, out: seq<Row>,
                           row: Option<Row>, c': Cursor)
    requires IsWalk(meta, rows, dir, cs, out) && ActiveIndex(meta, cs[0]) == Some(idx) && Fresh(cs[0])
    requires RowsOk(meta, rows, idx) && CanWalk(meta, cs[0], idx) && !NoColumns(meta)
    requires Adjacent(meta, rows, cs[|out|], dir, BTR_EOF, row, c')
    ensures Elements(out) == rows && |out| == |rows|
    ensures Increasing(meta.recnumCol, WalkItems(meta, idx, dir), out)
  {
    WalkEnds(meta, rows, idx, dir, cs, out, BTR_EOF, row, c');
    var rc, items := meta.recnumCol, WalkItems(meta, idx, dir);
    assert Pending(meta, rows, cs[0], idx, dir, []) == rows;
    WalkDecides(meta, rows, idx, dir);
    SortedElements(rc, items, rows);
    SortedIncreasing(rc, items, rows);
  }

  // ---- turning round --------------------------------------------------------------------------------

  lemma {:induction false} TupleReversed(asc: seq<bool>, rev: seq<bool>, xs: seq<SqlValue>, ys: seq<SqlValue>)
    requires |asc| == |rev| == |xs| == |ys| && forall i :: 0 <= i < |asc| ==> rev[i] == !asc[i]
    ensures TupleLess(rev, xs, ys) <==> TupleLess(asc, ys, xs)
  {
    if |xs| > 0 {
      TupleReversed(asc[1..], rev[1..], xs[1..], ys[1..]);
    }
  }

  lemma {:induction false} BeforeReversed(meta: TableMeta, idx: nat, a: Row, b: Row)
    ensures Before(meta.recnumCol, WalkItems(meta, idx, -1), a, b) <==> Before(meta.recnumCol, WalkItems(meta, idx, 1), b, a)
  {
    var fwd, back := WalkItems(meta, idx, 1), WalkItems(meta, idx, -1);
    assert SortKey(meta.recnumCol, fwd, a) == SortKey(meta.recnumCol, back, a);
    assert SortKey(meta.recnumCol, fwd, b) == SortKey(meta.recnumCol, back, b);
    TupleReversed(Ascs(fwd), Ascs(back), SortKey(meta.recnumCol, fwd, a), SortKey(meta.recnumCol, fwd, b));
  }

  lemma {:induction false} BeforeEitherWay(meta: TableMeta, idx: nat, dir: int, a: Row, b: Row)
    requires dir == 1 || dir == -1
    ensures Before(meta.recnumCol, WalkItems(meta, idx, -dir), a, b) <==> Before(meta.recnumCol, WalkItems(meta, idx, dir), b, a)
  {
    BeforeReversed(meta, idx, a, b);
    BeforeReversed(meta, idx, b, a);
  }

  /** The cursor stands on a row of the table, with the flags of an index that has known segments. */
  predicate OnRow(meta: TableMeta, rows: set<Row>, c: Cursor, idx: nat, p: Row) {
    IndexColRefs(meta, idx) != [] && FlagsAgree(meta, c, idx) && p in rows && StandsOn(meta, c, idx, p)
  }

  /** Nothing ahead of the cursor is nearer than the row. */
  predicate NearestAhead(meta: TableMeta, rows: set<Row>, c: Cursor, idx: nat, dir: int, p: Row) {
    IsMinimal(meta.recnumCol, WalkItems(meta, idx, dir), Pending(meta, rows, c, idx, dir, []), p)
  }

  /** A row behind the second of two neighbours is not nearer than the first. */
  lemma {:induction false} NothingBetween(meta: TableMeta, rows: set<Row>, idx: nat, dir: int, c: Cursor, p: Row, q: Row,
                                          c1: Cursor, o: Row)
    requires (dir == 1 || dir == -1) && RowsOk(meta, rows, idx) && IndexColRefs(meta, idx) != []
    requires FlagsAgree(meta, c, idx) && FlagsAgree(meta, c1, idx)
    requires p in rows && q in rows && StandsOn(meta, c, idx, p) && StandsOn(meta, c1, idx, q)
    requires NearestAhead(meta, rows, c, idx, dir, q)
    requires o in Pending(meta, rows, c1, idx, -dir, [])
    ensures !Before(meta.recnumCol, WalkItems(meta, idx, -dir), o, p)
  {
    WalkDecides(meta, rows, idx, dir);
    PassesFromRow(meta, c1, idx, -dir, q, o);
    PassesFromRow(meta, c, idx, dir, p, o);
    BeforeEitherWay(meta, idx, dir, q, o);
    BeforeEitherWay(meta, idx, dir, o, p);
    BeforeTotal(meta.recnumCol, WalkItems(meta, idx, dir), o, q);
  }

  /** A step along the index, on a table where that is right. */
  ghost predicate Steps(meta: TableMeta, rows: set<Row>, idx: nat, dir: int, c: Cursor, code: int, row: Option<Row>, c': Cursor) {
    CanStep(meta, rows, c, idx) && Adjacent(meta, rows, c, dir, code, row, c')
  }

  /** What Get Next returned is the nearest row ahead, and the cursor stands on it. */
  lemma {:induction false} NextIsMinimal(meta: TableMeta, rows: set<Row>, idx: nat, dir: int, c: Cursor, q: Row, c1: Cursor)
    requires Steps(meta, rows, idx, dir, c, BTR_SUCCESS, Some(q), c1)
    ensures NearestAhead(meta, rows, c, idx, dir, q)
    ensures StandsOn(meta, c1, idx, q) && ActiveIndex(meta, c1) == Some(idx) && c1.desc == c.desc
  {
    WalkDecides(meta, rows, idx, dir);
    SortedElements(meta.recnumCol, WalkItems(meta, idx, dir), Pending(meta, rows, c, idx, dir, []));
    assert q in Elements(Ahead(meta, rows, c, idx, dir, []));
    SeenIsRecnum(meta, q);
  }

  /** A row with none nearer is the one returned. */
  lemma {:induction false} MinimalIsNext(meta: TableMeta, rows: set<Row>, idx: nat, dir: int, c: Cursor, p: Row,
                                         code: int, row: Option<Row>, c': Cursor)
    requires Steps(meta, rows, idx, dir, c, code, row, c') && NearestAhead(meta, rows, c, idx, dir, p)
    ensures code == BTR_SUCCESS && row == Some(p) && StandsOn(meta, c', idx, p)
  {
    WalkDecides(meta, rows, idx, dir);
    MinimalIsFirst(meta.recnumCol, WalkItems(meta, idx, dir), Pending(meta, rows, c, idx, dir, []), p);
    SeenIsRecnum(meta, p);
  }

  /** Going one row on and one row back returns to the row left. */
  lemma {:induction false} ThereAndBack(meta: TableMeta, rows: set<Row>, idx: nat, dir: int, c: Cursor, p: Row,
                     q: Row, c1: Cursor, code: int, row: Option<Row>, c2: Cursor)
    requires (dir == 1 || dir == -1) && OnRow(meta, rows, c, idx, p)
    requires Steps(meta, rows, idx, dir, c, BTR_SUCCESS, Some(q), c1)
    requires Adjacent(meta, rows, c1, -dir, code, row, c2)
    ensures code == BTR_SUCCESS && row == Some(p) && StandsOn(meta, c2, idx, p)
  {
    RowLeftIsNearest(meta, rows, idx, dir, c, p, q, c1);
    MinimalIsNext(meta, rows, idx, -dir, c1, p, code, row, c2);
  }

  /** After a step, the row left is the nearest one behind. */
  lemma {:induction false} RowLeftIsNearest(meta: TableMeta, rows: set<Row>, idx: nat, dir: int, c: Cursor, p: Row, q: Row, c1: Cursor)
    requires (dir == 1 || dir == -1) && OnRow(meta, rows, c, idx, p)
    requires Steps(meta, rows, idx, dir, c, BTR_SUCCESS, Some(q), c1)
    ensures CanStep(meta, rows, c1, idx) && NearestAhead(meta, rows, c1, idx, -dir, p)
  {
    NextIsMinimal(meta, rows, idx, dir, c, q, c1);
    assert FlagsAgree(meta, c1, idx) && q in rows;
    LeftIsMinimal(meta, rows, idx, dir, c, p, q, c1);
  }

  lemma {:induction false} LeftIsMinimal(meta: TableMeta, rows: set<Row>, idx: nat, dir: int, c: Cursor, p: Row, q: Row, c1: Cursor)
    requires (dir == 1 || dir == -1) && RowsOk(meta, rows, idx) && IndexColRefs(meta, idx) != []
    requires FlagsAgree(meta, c, idx) && FlagsAgree(meta, c1, idx)
    requires p in rows && q in rows && StandsOn(meta, c, idx, p) && StandsOn(meta, c1, idx, q)
    requires NearestAhead(meta, rows, c, idx, dir, q)
    ensures NearestAhead(meta, rows, c1, idx, -dir, p)
  {
    assert p in Pending(meta, rows, c1, idx, -dir, []) by {
      PassesFromRow(meta, c, idx, dir, p, q);
      PassesFromRow(meta, c1, idx, -dir, q, p);
      BeforeEitherWay(meta, idx, dir, q, p);
    }
    var behind := Pending(meta, rows, c1, idx, -dir, []);
    forall o | o in behind
      ensures !Before(meta.recnumCol, WalkItems(meta, idx, -dir), o, p)
    {
      NothingBetween(meta, rows, idx, dir, c, p, q, c1, o);
    }
  }

  // ---- deleting the current row -------------------------------------------------------------------------

  /** Deleting the row the cursor stands on changes nothing for the next step in either direction:
      it gives the deleted row's old neighbour. */
  lemma {:induction false} DeletedRowKeepsNeighbours(meta: TableMeta, rows: set<Row>, idx: nat, dir: int, c: Cursor, p: Row,
                                  code: int, row: Option<Row>, c': Cursor)
    requires ActiveIndex(meta, c) == Some(idx) && RowsOk(meta, rows, idx)
    requires IndexColRefs(meta, idx) != [] && FlagsAgree(meta, c, idx)
    requires p in rows && StandsOn(meta, c, idx, p)
    ensures Adjacent(meta, rows - {p}, c, dir, code, row, c') <==> Adjacent(meta, rows, c, dir, code, row, c')
  {
    PassesFromRow(meta, c, idx, dir, p, p);
    BeforeTotal(meta.recnumCol, WalkItems(meta, idx, dir), p, p);
    assert Pending(meta, rows - {p}, c, idx, dir, []) == Pending(meta, rows, c, idx, dir, []);
  }

  // ---- a walk begun by Get First or Get Last ----------------------------------------------------------------

  /** Rows with the same key as `first` that the tie-break puts in front of it. */
  function Skipped(meta: TableMeta, rows: set<Row>, idx: nat, dir: int, first: Row): set<Row> {
    set o | o in rows && RowKeys(meta, idx, o) == RowKeys(meta, idx, first)
            && (if Forward(dir) then o.recnum < first.recnum else o.recnum > first.recnum)
  }

  lemma {:induction false} TupleLessExtend(asc: seq<bool>, xs: seq<SqlValue>, ys: seq<SqlValue>, a: bool, x: SqlValue, y: SqlValue)
    requires |asc| == |xs| == |ys|
    ensures TupleLess(asc + [a], xs + [x], ys + [y]) <==>
              TupleLess(asc, xs, ys) || (xs == ys && Beyond(a, x, y))
  {
    if |xs| == 0 {
      LessTotal(x, y);
      LessTotal(x, x);
      assert asc + [a] == [a] && xs + [x] == [x] && ys + [y] == [y];
    } else {
      assert (asc + [a])[1..] == asc[1..] + [a] && (xs + [x])[1..] == xs[1..] + [x] && (ys + [y])[1..] == ys[1..] + [y];
      TupleLessExtend(asc[1..], xs[1..], ys[1..], a, x, y);
      if xs[0] == ys[0] {
        assert xs == ys <==> xs[1..] == ys[1..] by {
          assert xs == [xs[0]] + xs[1..] && ys == [ys[0]] + ys[1..];
        }
      } else {
        assert xs != ys;
      }
    }
  }

  /** Order with the tie-break is order without it, then record number. */
  lemma {:induction false} BeforeWithTie(meta: TableMeta, idx: nat, dir: int, a: Row, b: Row)
    requires IndexColRefs(meta, idx) != []
    ensures var rc := meta.recnumCol;
            Before(rc, WalkItems(meta, idx, dir), a, b) <==>
              Before(rc, OrderItemsOf(IndexColRefs(meta, idx), dir, false, rc), a, b)
              || (RowKeys(meta, idx, a) == RowKeys(meta, idx, b)
                  && (if Forward(dir) then a.recnum < b.recnum else a.recnum > b.recnum))
  {
    var rc, refs := meta.recnumCol, IndexColRefs(meta, idx);
    var plain, full := OrderItemsOf(refs, dir, false, rc), WalkItems(meta, idx, dir);
    SortKeyIsPosition(meta, idx, dir, a);
    SortKeyIsPosition(meta, idx, dir, b);
    RowKeysShape(meta, idx, a);
    RowKeysShape(meta, idx, b);
    assert plain == RefItems(refs, dir);
    assert SortKey(rc, plain, a) == RowKeys(meta, idx, a);
    assert SortKey(rc, plain, b) == RowKeys(meta, idx, b);
    assert Ascs(full) == Ascs(plain) + [Forward(dir)];
    TupleLessExtend(Ascs(plain), RowKeys(meta, idx, a), RowKeys(meta, idx, b), Forward(dir), I64(a.recnum), I64(b.recnum));
  }

  /** What is still ahead after Get First or Get Last: everything but the row returned and the rows skipped. */
  lemma {:induction false} PendingAfterEnd(meta: TableMeta, rows: set<Row>, idx: nat, dir: int, first: Row, c: Cursor)
    requires WalkOk(meta, rows, idx) && IndexColRefs(meta, idx) != []
    requires IsMinimal(meta.recnumCol, OrderItemsOf(IndexColRefs(meta, idx), dir, false, meta.recnumCol), rows, first)
    requires c == PlacedAt(meta, idx, dir, first)
    ensures CanWalk(meta, c, idx) && first in rows && first !in Skipped(meta, rows, idx, dir, first)
    ensures Pending(meta, rows, c, idx, dir, []) == rows - {first} - Skipped(meta, rows, idx, dir, first)
    ensures forall o :: o in Pending(meta, rows, c, idx, dir, []) ==>
              Before(meta.recnumCol, WalkItems(meta, idx, dir), first, o)
  {
    var rc, items := meta.recnumCol, WalkItems(meta, idx, dir);
    SeenIsRecnum(meta, first);
    PassesFromRow(meta, c, idx, dir, first, first);
    var pending, skipped := Pending(meta, rows, c, idx, dir, []), Skipped(meta, rows, idx, dir, first);
    forall o | o in rows
      ensures o in pending <==> Before(rc, items, first, o)
      ensures o in pending <==> o != first && o !in skipped
    {
      PassesFromRow(meta, c, idx, dir, first, o);
      BeforeWithTie(meta, idx, dir, o, first);
      WalkDecides(meta, rows, idx, dir);
      BeforeTotal(rc, items, first, o);
      BeforeTotal(rc, items, first, first);
      BeforeTotal(rc, items, o, o);
    }
  }

  /** Get First has no tie-break, so the walk from it misses exactly the rows with the first key
      and a smaller record number than the row it happened to return (Get Last: a larger one). */
  lemma {:induction false} WalkFromEndMisses(meta: TableMeta, rows: set<Row>, idx: nat, dir: int, c0: Cursor, first: Row, cs: seq<Cursor>,
                          out: seq<Row>, row: Option<Row>, c': Cursor)
    requires WalkOk(meta, rows, idx) && IndexColRefs(meta, idx) != [] && !NoColumns(meta)
    requires IsWalk(meta, rows, dir, cs, out)
    requires Placed(meta, rows, idx, dir, BTR_EOF, c0, BTR_SUCCESS, Some(first), cs[0])
    requires Adjacent(meta, rows, cs[|out|], dir, BTR_EOF, row, c')
    ensures {first} + Elements(out) == rows - Skipped(meta, rows, idx, dir, first)
    ensures Increasing(meta.recnumCol, WalkItems(meta, idx, dir), [first] + out)
  {
    PendingAfterEnd(meta, rows, idx, dir, first, cs[0]);
    assert ActiveIndex(meta, cs[0]) == Some(idx);
    WalkEnds(meta, rows, idx, dir, cs, out, BTR_EOF, row, c');
    WalkDecides(meta, rows, idx, dir);
    FirstThenRest(meta.recnumCol, WalkItems(meta, idx, dir), rows, Pending(meta, rows, cs[0], idx, dir, []),
                  Skipped(meta, rows, idx, dir, first), first, out);
  }

  lemma {:induction false} FirstThenRest(rc: string, items: seq<SortItem>, rows: set<Row>, rest: set<Row>, skipped: set<Row>,
                      first: Row, out: seq<Row>)
    requires out == Sorted(rc, items, rest) && Decides(rc, items, rest)
    requires first in rows && first !in skipped && rest == rows - {first} - skipped
    requires forall o :: o in rest ==> Before(rc, items, first, o)
    ensures {first} + Elements(out) == rows - skipped
    ensures Increasing(rc, items, [first] + out)
  {
    SortedElements(rc, items, rest);
    SortedIncreasing(rc, items, rest);
    IncreasingPrepend(rc, items, first, out);
  }

  lemma {:induction false} IncreasingPrepend(rc: string, items: seq<SortItem>, first: Row, out: seq<Row>)
    requires Increasing(rc, items, out) && forall o :: o in Elements(out) ==> Before(rc, items, first, o)
    ensures Increasing(rc, items, [first] + out)
  {
    forall j | 0 <= j < |out|
      ensures Before(rc, items, first, out[j])
    {
      assert out[j] in Elements(out);
    }
  }

  /** The rows Get First or Get Last may pick. */
  ghost predicate MayBePicked(meta: TableMeta, rows: set<Row>, idx: nat, dir: int, r: Row) {
    IsMinimal(meta.recnumCol, OrderItemsOf(IndexColRefs(meta, idx), dir, false, meta.recnumCol), rows, r)
  }

  lemma {:induction false} SameKeysPicked(meta: TableMeta, rows: set<Row>, idx: nat, dir: int, a: Row, b: Row)
    requires IndexColRefs(meta, idx) != [] && MayBePicked(meta, rows, idx, dir, a) && b in rows
    requires RowKeys(meta, idx, a) == RowKeys(meta, idx, b)
    ensures MayBePicked(meta, rows, idx, dir, b)
  {
    var rc, plain := meta.recnumCol, OrderItemsOf(IndexColRefs(meta, idx), dir, false, meta.recnumCol);
    RowKeysShape(meta, idx, a);
    RowKeysShape(meta, idx, b);
    assert SortKey(rc, plain, a) == RowKeys(meta, idx, a) && SortKey(rc, plain, b) == RowKeys(meta, idx, b);
  }

  lemma {:induction false} BothPicked(meta: TableMeta, rows: set<Row>, idx: nat, dir: int, a: Row, b: Row)
    requires RowsOk(meta, rows, idx) && IndexColRefs(meta, idx) != [] && a != b
    requires MayBePicked(meta, rows, idx, dir, a) && MayBePicked(meta, rows, idx, dir, b)
    ensures RowKeys(meta, idx, a) == RowKeys(meta, idx, b)
    ensures a in Skipped(meta, rows, idx, dir, b) || b in Skipped(meta, rows, idx, dir, a)
  {
    WalkDecides(meta, rows, idx, dir);
    BeforeTotal(meta.recnumCol, WalkItems(meta, idx, dir), a, b);
    BeforeWithTie(meta, idx, dir, a, b);
    BeforeWithTie(meta, idx, dir, b, a);
  }

  /** A walk from Get First or Get Last misses nothing, whatever row is picked, exactly when there is only
      one row to pick. */
  lemma {:induction false} WalkFromEndSafeIff(meta: TableMeta, rows: set<Row>, idx: nat, dir: int)
    requires RowsOk(meta, rows, idx) && IndexColRefs(meta, idx) != []
    ensures (forall first :: MayBePicked(meta, rows, idx, dir, first) ==> Skipped(meta, rows, idx, dir, first) == {})
       <==> (forall a, b :: MayBePicked(meta, rows, idx, dir, a) && MayBePicked(meta, rows, idx, dir, b) ==> a == b)
  {
    if forall first :: MayBePicked(meta, rows, idx, dir, first) ==> Skipped(meta, rows, idx, dir, first) == {} {
      forall a, b | MayBePicked(meta, rows, idx, dir, a) && MayBePicked(meta, rows, idx, dir, b)
        ensures a == b
      {
        if a != b {
          BothPicked(meta, rows, idx, dir, a, b);
        }
      }
    } else {
      var first :| MayBePicked(meta, rows, idx, dir, first) && Skipped(meta, rows, idx, dir, first) != {};
      var o :| o in Skipped(meta, rows, idx, dir, first);
      SameKeysPicked(meta, rows, idx, dir, first, o);
      assert o != first;
    }
  }
}
