/** When the navigation code does what an index walk should, stated as exact conditions. */
module WalkConditions {
  import opened Wrappers
  import opened Status
  import opened SqlValues
  import opened Relation
  import opened Schema
  import opened RecordCodec
  import opened Selected
  import opened Keyset
  import opened KeysetMeaning
  import opened HandleState
  import opened GetOps
  import opened Walks

  // ---- orders that differ in some direction -------------------------------------------------------

  /** A different value of the same kind. */
  function Another(v: SqlValue): (r: SqlValue)
    ensures v != Null ==> r != v && r != Null && Rank(r) == Rank(v)
  {
    match v
    case Null => Null
    case Bool(b) => Bool(!b)
    case I64(n) => I64(n + 1)
    case Text(s) => Text(s + "a")
  }

  /** The first place where two tuples differ, or their length. */
  function FirstDiff(xs: seq<SqlValue>, ys: seq<SqlValue>): (d: nat)
    requires |xs| == |ys|
    ensures d <= |xs| && (d < |xs| ==> xs[d] != ys[d])
    ensures forall k :: 0 <= k < d ==> xs[k] == ys[k]
  {
    if xs == [] || xs[0] != ys[0] then 0 else 1 + FirstDiff(xs[1..], ys[1..])
  }

  /** It decides. */
  lemma {:induction false} FirstDiffDecides(asc: seq<bool>, xs: seq<SqlValue>, ys: seq<SqlValue>)
    requires |asc| == |xs| == |ys|
    ensures var d := FirstDiff(xs, ys);
            TupleLess(asc, xs, ys) <==> d < |xs| && Beyond(asc[d], xs[d], ys[d])
  {
    if xs != [] && xs[0] == ys[0] {
      FirstDiffDecides(asc[1..], xs[1..], ys[1..]);
    }
  }

  lemma {:induction false} DiffAt(xs: seq<SqlValue>, ys: seq<SqlValue>, i: nat)
    requires |xs| == |ys| && i < |xs| && xs[i] != ys[i] && forall k :: 0 <= k < i ==> xs[k] == ys[k]
    ensures FirstDiff(xs, ys) == i
  {
  }

  // ---- rows that differ in one column ----------------------------------------------------------------

  /** The column of segment `i` is not that of an earlier segment, so it can decide the order. */
  predicate FirstUse(refs: seq<ColRef>, i: nat)
    requires i < |refs|
  {
    forall j :: 0 <= j < i ==> refs[j].col != refs[i].col
  }

  /** The row with another value in one column. */
  function Changed(rc: string, p: Row, col: string): Row {
    if col == rc then p.(recnum := p.recnum + 1) else p.(cols := p.cols[col := Another(Column(rc, p, col))])
  }

  lemma {:induction false} ChangedKeys(meta: TableMeta, idx: nat, p: Row, i: nat)
    requires i < |IndexColRefs(meta, idx)| && NoNulls(RowKeys(meta, idx, p))
    ensures var refs, r := IndexColRefs(meta, idx), Changed(meta.recnumCol, p, IndexColRefs(meta, idx)[i].col);
            && |RowKeys(meta, idx, r)| == |RowKeys(meta, idx, p)| == |refs|
            && NoNulls(RowKeys(meta, idx, r))
            && forall k :: 0 <= k < |refs| ==>
                 RowKeys(meta, idx, r)[k] == if refs[k].col == refs[i].col then Another(RowKeys(meta, idx, p)[k]) else RowKeys(meta, idx, p)[k]
  {
    var refs, r := IndexColRefs(meta, idx), Changed(meta.recnumCol, p, IndexColRefs(meta, idx)[i].col);
    RowKeysShape(meta, idx, p);
    RowKeysShape(meta, idx, r);
    forall k | 0 <= k < |refs|
      ensures RowKeys(meta, idx, r)[k] == if refs[k].col == refs[i].col then Another(RowKeys(meta, idx, p)[k]) else RowKeys(meta, idx, p)[k]
    {
      assert RowKeys(meta, idx, p)[k] == Column(meta.recnumCol, p, refs[k].col);
      assert RowKeys(meta, idx, r)[k] == Column(meta.recnumCol, r, refs[k].col);
    }
  }

  /** Keys of two rows differ first in a segment whose column was not used before. */
  lemma {:induction false} DiffersAtFirstUse(meta: TableMeta, idx: nat, p: Row, r: Row)
    ensures |RowKeys(meta, idx, p)| == |RowKeys(meta, idx, r)| == |IndexColRefs(meta, idx)|
    ensures var d := FirstDiff(RowKeys(meta, idx, p), RowKeys(meta, idx, r));
            d < |IndexColRefs(meta, idx)| ==> FirstUse(IndexColRefs(meta, idx), d)
  {
    var refs := IndexColRefs(meta, idx);
    RowKeysShape(meta, idx, p);
    RowKeysShape(meta, idx, r);
    var d := FirstDiff(RowKeys(meta, idx, p), RowKeys(meta, idx, r));
    if d < |refs| {
      forall j | 0 <= j < d
        ensures refs[j].col != refs[d].col
      {
        assert RowKeys(meta, idx, p)[j] == RowKeys(meta, idx, r)[j];
      }
    }
  }

  // ---- stale descending flags --------------------------------------------------------------------------

  /** The continuation from a cursor whose flags need not be those of the index. */
  lemma {:induction false} PassesByFlags(meta: TableMeta, c: Cursor, idx: nat, dir: int, r: Row)
    requires Positioned(c) && |c.keys| == |IndexColRefs(meta, idx)| && NoNulls(c.keys) && NoNulls(RowKeys(meta, idx, r))
    ensures var kc := CursorCols(IndexColRefs(meta, idx), c);
            |kc| == |c.keys| && |RowKeys(meta, idx, r)| == |c.keys| &&
            (Passes(meta, c, idx, dir, r) <==>
              TupleLess(ContAscs(kc, dir), c.keys + [I64(c.recnum.value)], RowKeys(meta, idx, r) + [I64(r.recnum)]))
  {
    var rc := meta.recnumCol;
    var kc := CursorCols(IndexColRefs(meta, idx), c);
    RowKeysShape(meta, idx, r);
    assert Vals(kc) == c.keys;
    assert KeyEnv(kc, Env(rc, r)) == RowKeys(meta, idx, r);
    assert Env(rc, r)(rc) == I64(r.recnum);
    ContinuationMeaning(kc, dir, rc, 0, c.recnum.value, Env(rc, r), ContParams(kc, c.recnum.value));
  }

  /** The row lies after the cursor's position in the order of the index. */
  predicate LiesAfter(meta: TableMeta, c: Cursor, idx: nat, dir: int, r: Row)
    requires Positioned(c) && |c.keys| == |IndexColRefs(meta, idx)|
  {
    RowKeysShape(meta, idx, r);
    TupleLess(Ascs(RefItems(IndexColRefs(meta, idx), dir)) + [Forward(dir)],
              c.keys + [I64(c.recnum.value)], RowKeys(meta, idx, r) + [I64(r.recnum)])
  }

  /** The flags are those of the index in every segment that can decide. */
  predicate FlagsAgreeWhereUsed(meta: TableMeta, c: Cursor, idx: nat) {
    var refs := IndexColRefs(meta, idx);
    forall i :: 0 <= i < |refs| && FirstUse(refs, i) ==> (i < |c.desc| && c.desc[i]) == refs[i].desc
  }

  /** The cursor holds the keys and the number of row `p`. */
  predicate HoldsKeysOf(meta: TableMeta, c: Cursor, idx: nat, p: Row) {
    c.keys == RowKeys(meta, idx, p) && c.recnum == Some(p.recnum)
  }

  /** From the keys and number of any row, the continuation is right about every row exactly when the
      cursor's flags are those of the index in every segment that can decide. Get Next, Get Previous, the
      extended operations and Get Direct never set the flags. */
  lemma {:induction false} ContinuationExactIff(meta: TableMeta, c: Cursor, idx: nat, dir: int, p: Row)
    requires HoldsKeysOf(meta, c, idx, p) && c.keys != [] && NoNulls(c.keys)
    ensures Positioned(c) && |c.keys| == |IndexColRefs(meta, idx)|
    ensures (forall r: Row :: NoNulls(RowKeys(meta, idx, r)) ==>
               (Passes(meta, c, idx, dir, r) <==> LiesAfter(meta, c, idx, dir, r)))
            <==> FlagsAgreeWhereUsed(meta, c, idx)
  {
    RowKeysShape(meta, idx, p);
    var refs := IndexColRefs(meta, idx);
    if FlagsAgreeWhereUsed(meta, c, idx) {
      forall r: Row | NoNulls(RowKeys(meta, idx, r))
        ensures Passes(meta, c, idx, dir, r) <==> LiesAfter(meta, c, idx, dir, r)
      {
        RightWhereUsed(meta, c, idx, dir, p, r);
      }
    } else {
      var i :| 0 <= i < |refs| && FirstUse(refs, i) && (i < |c.desc| && c.desc[i]) != refs[i].desc;
      var r := Changed(meta.recnumCol, p, refs[i].col);
      ChangedKeys(meta, idx, p, i);
      WrongWhereFlagsDiffer(meta, c, idx, dir, p, r, i);
    }
  }

  /** The two orders of a position and a row, side by side. */
  lemma {:induction false} BothOrders(meta: TableMeta, c: Cursor, idx: nat, dir: int, p: Row, r: Row)
    requires HoldsKeysOf(meta, c, idx, p) && c.keys != [] && NoNulls(c.keys) && NoNulls(RowKeys(meta, idx, r))
    ensures var refs, kc := IndexColRefs(meta, idx), CursorCols(IndexColRefs(meta, idx), c);
            && |kc| == |refs| == |c.keys| == |RowKeys(meta, idx, r)|
            && (Passes(meta, c, idx, dir, r) <==>
                 TupleLess(ContAscs(kc, dir), c.keys + [I64(p.recnum)], RowKeys(meta, idx, r) + [I64(r.recnum)]))
            && (LiesAfter(meta, c, idx, dir, r) <==>
                 TupleLess(Ascs(RefItems(refs, dir)) + [Forward(dir)], c.keys + [I64(p.recnum)], RowKeys(meta, idx, r) + [I64(r.recnum)]))
            && forall k :: 0 <= k < |refs| ==>
                 && ContAscs(kc, dir)[k] == (Forward(dir) != (k < |c.desc| && c.desc[k]))
                 && Ascs(RefItems(refs, dir))[k] == (Forward(dir) != refs[k].desc)
  {
    RowKeysShape(meta, idx, p);
    PassesByFlags(meta, c, idx, dir, r);
  }

  lemma {:induction false} DiffOfExtended(xs: seq<SqlValue>, ys: seq<SqlValue>, x: SqlValue, y: SqlValue)
    requires |xs| == |ys|
    ensures FirstDiff(xs, ys) < |xs| ==> FirstDiff(xs + [x], ys + [y]) == FirstDiff(xs, ys)
    ensures FirstDiff(xs, ys) == |xs| ==> FirstDiff(xs + [x], ys + [y]) >= |xs|
  {
    var d := FirstDiff(xs, ys);
    if d < |xs| {
      DiffAt(xs + [x], ys + [y], d);
    } else if x != y {
      DiffAt(xs + [x], ys + [y], d);
    }
  }

  lemma {:induction false} RightWhereUsed(meta: TableMeta, c: Cursor, idx: nat, dir: int, p: Row, r: Row)
    requires HoldsKeysOf(meta, c, idx, p) && c.keys != [] && NoNulls(c.keys) && NoNulls(RowKeys(meta, idx, r))
    requires FlagsAgreeWhereUsed(meta, c, idx)
    ensures |c.keys| == |IndexColRefs(meta, idx)|
    ensures Passes(meta, c, idx, dir, r) <==> LiesAfter(meta, c, idx, dir, r)
  {
    var refs, kc := IndexColRefs(meta, idx), CursorCols(IndexColRefs(meta, idx), c);
    BothOrders(meta, c, idx, dir, p, r);
    DiffersAtFirstUse(meta, idx, p, r);
    DiffOfExtended(c.keys, RowKeys(meta, idx, r), I64(p.recnum), I64(r.recnum));
    FirstDiffDecides(ContAscs(kc, dir), c.keys + [I64(p.recnum)], RowKeys(meta, idx, r) + [I64(r.recnum)]);
    FirstDiffDecides(Ascs(RefItems(refs, dir)) + [Forward(dir)], c.keys + [I64(p.recnum)], RowKeys(meta, idx, r) + [I64(r.recnum)]);
  }

  lemma {:induction false} WrongWhereFlagsDiffer(meta: TableMeta, c: Cursor, idx: nat, dir: int, p: Row, r: Row, i: nat)
    requires HoldsKeysOf(meta, c, idx, p) && c.keys != [] && NoNulls(c.keys) && NoNulls(RowKeys(meta, idx, r))
    requires |RowKeys(meta, idx, r)| == |c.keys| == |IndexColRefs(meta, idx)| && i < |c.keys|
    requires c.keys[i] != RowKeys(meta, idx, r)[i] && forall k :: 0 <= k < i ==> c.keys[k] == RowKeys(meta, idx, r)[k]
    requires (i < |c.desc| && c.desc[i]) != IndexColRefs(meta, idx)[i].desc
    ensures Passes(meta, c, idx, dir, r) <==> !LiesAfter(meta, c, idx, dir, r)
  {
    var refs, kc := IndexColRefs(meta, idx), CursorCols(IndexColRefs(meta, idx), c);
    var pos, end := c.keys + [I64(p.recnum)], RowKeys(meta, idx, r) + [I64(r.recnum)];
    BothOrders(meta, c, idx, dir, p, r);
    DiffAt(pos, end, i);
    FirstDiffDecides(ContAscs(kc, dir), pos, end);
    FirstDiffDecides(Ascs(RefItems(refs, dir)) + [Forward(dir)], pos, end);
    LessTotal(pos[i], end[i]);
  }

  // ---- a record number column that is not selected first -------------------------------------------------

  /** A cursor on a row whose record number was read too small lets the row pass again. */
  lemma {:induction false} PassesAgain(meta: TableMeta, idx: nat, r: Row)
    requires IndexColRefs(meta, idx) != [] && NoNulls(RowKeys(meta, idx, r)) && KeyTyped(meta, idx, r)
    requires SeenRecnum(meta, r) < r.recnum
    ensures Positioned(PlacedAt(meta, idx, 1, r)) && Passes(meta, PlacedAt(meta, idx, 1, r), idx, 1, r)
  {
    var c := PlacedAt(meta, idx, 1, r);
    var kc := CursorCols(IndexColRefs(meta, idx), c);
    RowKeysShape(meta, idx, r);
    KeptIsOwnIff(meta, idx, r);
    PassesByFlags(meta, c, idx, 1, r);
    var asc := ContAscs(kc, 1)[..|kc|];
    assert ContAscs(kc, 1) == asc + [true];
    TupleLessExtend(asc, c.keys, c.keys, true, I64(c.recnum.value), I64(r.recnum));
  }

  /** A table of that one row: Get First finds it, and every Get Next finds it again and leaves the
      cursor where it was. */
  lemma {:induction false} SameRowForEver(meta: TableMeta, idx: nat, r: Row, c0: Cursor)
    requires IndexColRefs(meta, idx) != [] && !NoColumns(meta)
    requires NoNulls(RowKeys(meta, idx, r)) && KeyTyped(meta, idx, r) && SeenRecnum(meta, r) < r.recnum
    ensures var c := PlacedAt(meta, idx, 1, r);
            && RowsOk(meta, {r}, idx) && FlagsAgree(meta, c, idx)
            && Placed(meta, {r}, idx, 1, BTR_EOF, c0, BTR_SUCCESS, Some(r), c)
            && Adjacent(meta, {r}, c, 1, BTR_SUCCESS, Some(r), c)
  {
    var c := PlacedAt(meta, idx, 1, r);
    PassesAgain(meta, idx, r);
    BeforeTotal(meta.recnumCol, OrderItemsOf(IndexColRefs(meta, idx), 1, false, meta.recnumCol), r, r);
    assert Pending(meta, {r}, c, idx, 1, []) == {r};
    SortedElements(meta.recnumCol, WalkItems(meta, idx, 1), {r});
    var ahead := Ahead(meta, {r}, c, idx, 1, []);
    assert ahead[0] in Elements(ahead);
  }

  /** A smallest and a larger value of a field's kind. */
  function Low(f: IntField): (v: SqlValue)
    ensures Typed(f, v)
  {
    if IntKind(f) then I64(0) else Text("")
  }

  function High(f: IntField): (v: SqlValue)
    ensures Typed(f, v) && Less(Low(f), v)
  {
    if IntKind(f) then I64(1) else Text("a")
  }

  /** A record number column that is a field is of an integer kind. */
  predicate RecnumIsInt(meta: TableMeta) {
    forall i :: 0 <= i < |meta.fields| && meta.fields[i].name == meta.recnumCol ==> IntKind(meta.fields[i])
  }

  /** Every field's column holds a value of the field's kind. */
  predicate AllTyped(meta: TableMeta, r: Row) {
    forall i :: 0 <= i < |meta.fields| ==>
      meta.fields[i].name in r.cols && Typed(meta.fields[i], r.cols[meta.fields[i].name])
  }

  function AllLow(fields: seq<IntField>): map<string, SqlValue>
    requires DistinctNames(fields)
  {
    map i | 0 <= i < |fields| :: fields[i].name := Low(fields[i])
  }

  lemma {:induction false} TypedRowOk(meta: TableMeta, idx: nat, r: Row)
    requires RecnumIsInt(meta) && AllTyped(meta, r) && 0 <= r.recnum <= 1
    ensures KeyTyped(meta, idx, r) && NoNulls(RowKeys(meta, idx, r))
  {
    assert forall k :: 0 <= k < |meta.fields| ==> Typed(meta.fields[k], FieldVals(meta, r)[k]);
    RowKeysShape(meta, idx, r);
    RefsAreFields(meta, idx);
    var refs := IndexColRefs(meta, idx);
    forall i | 0 <= i < |refs|
      ensures RowKeys(meta, idx, r)[i] != Null
    {
      assert refs[i] in refs && NamesField(meta.fields, refs[i].col);
      var k :| 0 <= k < |meta.fields| && meta.fields[k].name == refs[i].col;
      assert Typed(meta.fields[k], FieldVals(meta, r)[k]);
    }
  }

  /** Every table layout whose record number column is a field, but not the first, has such a row for
      every index: there the walks are wrong whatever the index. */
  lemma {:induction false} RecnumNotFirstRepeats(meta: TableMeta, idx: nat, c0: Cursor) returns (r: Row, c: Cursor)
    requires !RecnumFirst(meta) && IndexColRefs(meta, idx) != [] && !NoColumns(meta)
    requires DistinctNames(meta.fields) && RecnumIsInt(meta)
    ensures RowsOk(meta, {r}, idx) && FlagsAgree(meta, c, idx)
    ensures Placed(meta, {r}, idx, 1, BTR_EOF, c0, BTR_SUCCESS, Some(r), c)
    ensures Adjacent(meta, {r}, c, 1, BTR_SUCCESS, Some(r), c)
  {
    r := Row(1, AllLow(meta.fields));
    c := PlacedAt(meta, idx, 1, r);
    assert FieldVals(meta, r)[0] == Low(meta.fields[0]);
    assert ParseI64("") == 0;
    TypedRowOk(meta, idx, r);
    SameRowForEver(meta, idx, r, c0);
  }

  predicate NamesField(fields: seq<IntField>, col: string) {
    exists i :: 0 <= i < |fields| && fields[i].name == col
  }

  /** Column references name fields. */
  lemma {:induction false} RefsAreFields(meta: TableMeta, idx: nat)
    ensures forall ref :: ref in IndexColRefs(meta, idx) ==> NamesField(meta.fields, ref.col)
  {
    match FindIndex(meta.indexes, idx)
    case None =>
    case Some(ix) => RefsFromFields(meta.fields, ix.fieldNums, ix.desc);
  }

  lemma {:induction false} RefsFromFields(fields: seq<IntField>, nums: seq<nat>, desc: seq<bool>)
    ensures forall ref :: ref in RefsFrom(fields, nums, desc) ==> NamesField(fields, ref.col)
  {
    if nums != [] {
      RefsFromFields(fields, nums[1..], if desc == [] then [] else desc[1..]);
    }
  }

  /** There the row F1 = 0, F2 = 1 is returned for ever. */
  lemma {:induction false} AutoincSecondRepeats(c0: Cursor)
    ensures var meta, r := AUTOINC_SECOND, Row(1, map["F1" := I64(0)]);
            var c := Cursor(Some(1), [I64(1)], [false], Some(0), 1, Some(0));
            && Placed(meta, {r}, 1, 1, BTR_EOF, c0, BTR_SUCCESS, Some(r), c)
            && Adjacent(meta, {r}, c, 1, BTR_SUCCESS, Some(r), c)
  {
    var meta, r := AUTOINC_SECOND, Row(1, map["F1" := I64(0)]);
    assert SameIgnoringCase(meta.fields[1].name, meta.recnumCol);
    assert FieldVals(meta, r) == [I64(0), I64(1)];
    assert FindIndex(meta.indexes, 1) == Some(meta.indexes[0]);
    assert FieldPos(meta.fields, 2) == Some(1);
    assert RefsFrom(meta.fields, [2], [false]) == [ColRef("F2", false)] by {
      assert [2 as nat][1..] == [] && RefsFrom(meta.fields, [], []) == [];
    }
    assert ValsFrom(meta.fields, [2], FieldVals(meta, r)) == [I64(1)] by {
      assert [2 as nat][1..] == [];
    }
    assert SegDescs([ColRef("F2", false)]) == [false];
    KeptIsOwnIff(meta, 1, r);
    SameRowForEver(meta, 1, r, c0);
  }

  // ---- an index without a known segment ------------------------------------------------------------------

  /** A walk returns the same row a second time exactly when no segment of the index names a field of
      the table: then no key values are kept and every call starts over. */
  lemma {:induction false} RepeatsIffNoSegment(meta: TableMeta, rows: set<Row>, idx: nat, dir: int, c: Cursor, p: Row, c1: Cursor,
                            code: int, row: Option<Row>, c2: Cursor)
    requires ActiveIndex(meta, c) == Some(idx) && RowsOk(meta, rows, idx) && RecnumFirst(meta) && !NoColumns(meta)
    requires FlagsAgree(meta, c, idx) && |c.keys| <= |IndexColRefs(meta, idx)|
    requires Positioned(c) ==> |c.keys| == |IndexColRefs(meta, idx)| && NoNulls(c.keys)
    requires Adjacent(meta, rows, c, dir, BTR_SUCCESS, Some(p), c1)
    requires Adjacent(meta, rows, c1, dir, code, row, c2)
    ensures row == Some(p) <==> IndexColRefs(meta, idx) == []
  {
    SeenIsRecnum(meta, p);
    if IndexColRefs(meta, idx) == [] {
      KeptKeysFit(meta, idx, p);
      assert Pending(meta, rows, c1, idx, dir, []) == Pending(meta, rows, c, idx, dir, []);
    } else {
      AheadShrinks(meta, rows, c, idx, dir, [], c1);
      var rc, items := meta.recnumCol, WalkItems(meta, idx, dir);
      var left := Pending(meta, rows, c1, idx, dir, []);
      SortedElements(rc, items, left);
      PassesFromRow(meta, c1, idx, dir, p, p);
      BeforeTotal(rc, items, p, p);
      assert p !in left;
      if row.Some? {
        assert row.value in Elements(Ahead(meta, rows, c1, idx, dir, []));
      }
    }
  }

  // ---- key search --------------------------------------------------------------------------------------------

  predicate AllAscending(refs: seq<ColRef>) {
    forall i :: 0 <= i < |refs| ==> !refs[i].desc
  }

  /** What stands where the search key has a value. */
  function Known<T>(kf: seq<Option<SqlValue>>, xs: seq<T>): (r: seq<T>)
    requires |kf| == |xs|
  {
    if kf == [] then [] else (if kf[0].Some? then [xs[0]] else []) + Known(kf[1..], xs[1..])
  }

  /** The values of a search key that are not wildcards. */
  function KnownVals(kf: seq<Option<SqlValue>>): seq<SqlValue> {
    if kf == [] then [] else (if kf[0].Some? then [kf[0].value] else []) + KnownVals(kf[1..])
  }

  lemma {:induction false} KnownSizes<T>(kf: seq<Option<SqlValue>>, xs: seq<T>)
    requires |kf| == |xs|
    ensures |Known(kf, xs)| == |KnownVals(kf)|
  {
    if kf != [] {
      KnownSizes(kf[1..], xs[1..]);
    }
  }

  lemma {:induction false} KnownOfSomes<T>(vals: seq<SqlValue>, xs: seq<T>)
    requires |vals| == |xs|
    ensures KnownVals(Somes(vals)) == vals && Known(Somes(vals), xs) == xs
  {
    if vals != [] {
      assert Somes(vals)[1..] == Somes(vals[1..]);
      KnownOfSomes(vals[1..], xs[1..]);
    }
  }

  lemma {:induction false} KnownNoNulls(kf: seq<Option<SqlValue>>, xs: seq<SqlValue>)
    requires |kf| == |xs| && NoNulls(xs)
    ensures NoNulls(Known(kf, xs))
  {
    if kf != [] {
      KnownNoNulls(kf[1..], xs[1..]);
    }
  }

  lemma {:induction false} KnownCols(refs: seq<ColRef>, kf: seq<Option<SqlValue>>, keys: seq<SqlValue>, env: string -> SqlValue)
    requires |refs| == |kf| == |keys| && forall i :: 0 <= i < |refs| ==> keys[i] == env(refs[i].col)
    ensures var kc := SearchCols(refs, kf);
            Vals(kc) == KnownVals(kf) && KeyEnv(kc, env) == Known(kf, keys)
  {
    if refs != [] {
      KnownCols(refs[1..], kf[1..], keys[1..], env);
      var rest := SearchCols(refs[1..], kf[1..]);
      var kc := SearchCols(refs, kf);
      if kf[0].Some? {
        assert kc == [KeyCol(refs[0].col, kf[0].value, refs[0].desc)] + rest;
        assert Vals(kc) == [kf[0].value] + Vals(rest);
        assert KeyEnv(kc, env) == [keys[0]] + KeyEnv(rest, env);
      } else {
        assert kc == rest;
      }
    }
  }

  /** A row qualifies when its keys compare with the search key in the segments that are not wildcards. */
  predicate Qualifies(meta: TableMeta, idx: nat, kf: seq<Option<SqlValue>>, cmp: Cmp, r: Row)
    requires |kf| == |IndexColRefs(meta, idx)|
  {
    RowKeysShape(meta, idx, r);
    KnownSizes(kf, RowKeys(meta, idx, r));
    KeyCompares(cmp, KnownVals(kf), Known(kf, RowKeys(meta, idx, r)))
  }

  /** A key search lets through exactly the rows that qualify. */
  lemma {:induction false} FoundMeaning(meta: TableMeta, rows: set<Row>, idx: nat, kf: seq<Option<SqlValue>>, cmp: Cmp, r: Row)
    requires |kf| == |IndexColRefs(meta, idx)| && KnownVals(kf) != [] && NoNulls(KnownVals(kf)) && cmp != Ne
    requires r in rows && NoNulls(RowKeys(meta, idx, r))
    ensures r in Found(meta, rows, SearchCols(IndexColRefs(meta, idx), kf), cmp) <==> Qualifies(meta, idx, kf, cmp, r)
  {
    var refs, keys, env := IndexColRefs(meta, idx), RowKeys(meta, idx, r), Env(meta.recnumCol, r);
    var kc := SearchCols(refs, kf);
    RowKeysShape(meta, idx, r);
    KnownCols(refs, kf, keys, env);
    KnownNoNulls(kf, keys);
    assert |kc| == |Vals(kc)|;
    KeySearchMeaning(kc, cmp, 0, env, KeyParams(kc, cmp));
  }

  /** No qualifying row is nearer to the start of the search. */
  predicate NearestAmong(meta: TableMeta, rows: set<Row>, idx: nat, kf: seq<Option<SqlValue>>, cmp: Cmp, dir: int, r: Row)
    requires |kf| == |IndexColRefs(meta, idx)|
  {
    forall o :: o in rows && Qualifies(meta, idx, kf, cmp, o) ==> !Nearer(meta, idx, dir, o, r)
  }

  predicate Nearer(meta: TableMeta, idx: nat, dir: int, o: Row, r: Row) {
    RowKeysShape(meta, idx, o);
    RowKeysShape(meta, idx, r);
    var asc := seq(|RowKeys(meta, idx, o)|, _ => true);
    if Forward(dir) then TupleLess(asc, RowKeys(meta, idx, o), RowKeys(meta, idx, r))
    else TupleLess(asc, RowKeys(meta, idx, r), RowKeys(meta, idx, o))
  }

  /** On an ascending index a key search, with or without wildcards, returns a qualifying row with the
      nearest key, or its not-found status exactly when no row qualifies. */
  lemma {:induction false} KeySearchFindsNearest(meta: TableMeta, rows: set<Row>, ix: RuntimeIndex, kf: seq<Option<SqlValue>>, cmp: Cmp,
                              dir: int, notFound: int, c: Cursor, code: int, row: Option<Row>, c': Cursor)
    requires (dir == 1 || dir == -1) && !NoColumns(meta) && cmp != Ne && notFound != BTR_SUCCESS
    requires RowsOk(meta, rows, ix.num) && AllAscending(IndexColRefs(meta, ix.num))
    requires |kf| == |IndexColRefs(meta, ix.num)| && KnownVals(kf) != [] && NoNulls(KnownVals(kf))
    requires ByKey(meta, rows, Some(ix), kf, cmp, dir, notFound, c, code, row, c')
    ensures code == notFound <==> forall o :: o in rows ==> !Qualifies(meta, ix.num, kf, cmp, o)
    ensures code != notFound ==>
              && row.Some? && row.value in rows && Qualifies(meta, ix.num, kf, cmp, row.value)
              && NearestAmong(meta, rows, ix.num, kf, cmp, dir, row.value)
  {
    var idx, refs := ix.num, IndexColRefs(meta, ix.num);
    var kc := SearchCols(refs, kf);
    SearchColsKnown(refs, kf);
    var found := Found(meta, rows, kc, cmp);
    forall o | o in rows
      ensures o in found <==> Qualifies(meta, idx, kf, cmp, o)
    {
      FoundMeaning(meta, rows, idx, kf, cmp, o);
    }
    if found != {} {
      var r := row.value;
      forall o | o in rows && Qualifies(meta, idx, kf, cmp, o)
        ensures !Nearer(meta, idx, dir, o, r)
      {
        BeforeAscending(meta, idx, dir, o, r);
      }
    }
  }

  lemma {:induction false} SearchColsKnown(refs: seq<ColRef>, kf: seq<Option<SqlValue>>)
    requires |refs| == |kf|
    ensures |SearchCols(refs, kf)| == |KnownVals(kf)|
  {
    if kf != [] {
      SearchColsKnown(refs[1..], kf[1..]);
    }
  }

  lemma {:induction false} BeforeAscending(meta: TableMeta, idx: nat, dir: int, a: Row, b: Row)
    requires (dir == 1 || dir == -1) && IndexColRefs(meta, idx) != [] && AllAscending(IndexColRefs(meta, idx))
    ensures |RowKeys(meta, idx, a)| == |RowKeys(meta, idx, b)| == |IndexColRefs(meta, idx)|
    ensures var asc := seq(|IndexColRefs(meta, idx)|, _ => true);
            Before(meta.recnumCol, OrderItemsOf(IndexColRefs(meta, idx), dir, false, meta.recnumCol), a, b) <==>
              if Forward(dir) then TupleLess(asc, RowKeys(meta, idx, a), RowKeys(meta, idx, b))
              else TupleLess(asc, RowKeys(meta, idx, b), RowKeys(meta, idx, a))
  {
    var rc, refs := meta.recnumCol, IndexColRefs(meta, idx);
    var items := OrderItemsOf(refs, dir, false, rc);
    var asc := seq(|refs|, _ => true);
    RowKeysShape(meta, idx, a);
    RowKeysShape(meta, idx, b);
    assert SortKey(rc, items, a) == RowKeys(meta, idx, a);
    assert SortKey(rc, items, b) == RowKeys(meta, idx, b);
    if Forward(dir) {
      assert Ascs(items) == asc;
    } else {
      TupleReversed(asc, Ascs(items), RowKeys(meta, idx, a), RowKeys(meta, idx, b));
    }
  }

  /** No segment that can decide is descending. */
  predicate AscendingWhereUsed(refs: seq<ColRef>) {
    forall i :: 0 <= i < |refs| && FirstUse(refs, i) ==> !refs[i].desc
  }

  /** The row's keys come after those of `p` in the order of the index. */
  predicate KeyAfter(meta: TableMeta, idx: nat, p: Row, r: Row) {
    RowKeysShape(meta, idx, p);
    RowKeysShape(meta, idx, r);
    TupleLess(Ascs(RefItems(IndexColRefs(meta, idx), 1)), RowKeys(meta, idx, p), RowKeys(meta, idx, r))
  }

  /** The search goes forward. */
  predicate Upward(cmp: Cmp) {
    cmp == Gt || cmp == Ge
  }

  /** The row's keys lie on the side of those of `p` that the operator names, in the order of the index. */
  predicate OnSide(meta: TableMeta, idx: nat, cmp: Cmp, p: Row, r: Row) {
    || (if Upward(cmp) then KeyAfter(meta, idx, p, r) else KeyAfter(meta, idx, r, p))
    || ((cmp == Ge || cmp == Le) && RowKeys(meta, idx, r) == RowKeys(meta, idx, p))
  }

  /** A search from the keys of `p` lets the row through. */
  predicate SearchFinds(meta: TableMeta, idx: nat, cmp: Cmp, p: Row, r: Row) {
    r in Found(meta, {r}, SearchCols(IndexColRefs(meta, idx), Somes(RowKeys(meta, idx, p))), cmp)
  }

  lemma {:induction false} FirstDiffSym(xs: seq<SqlValue>, ys: seq<SqlValue>)
    requires |xs| == |ys|
    ensures FirstDiff(xs, ys) == FirstDiff(ys, xs) && (FirstDiff(xs, ys) == |xs| <==> xs == ys)
  {
    var d := FirstDiff(xs, ys);
    if d < |xs| {
      DiffAt(ys, xs, d);
    } else {
      assert xs == ys;
    }
  }

  lemma {:induction false} ComparesAtDiff(cmp: Cmp, xs: seq<SqlValue>, ys: seq<SqlValue>)
    requires cmp in {Gt, Ge, Lt, Le} && |xs| == |ys|
    ensures var d := FirstDiff(xs, ys);
            KeyCompares(cmp, xs, ys) <==> if d == |xs| then cmp == Ge || cmp == Le else Beyond(Upward(cmp), xs[d], ys[d])
  {
    FirstDiffSym(xs, ys);
    FirstDiffDecides(seq(|ys|, _ => true), xs, ys);
    FirstDiffDecides(seq(|ys|, _ => true), ys, xs);
  }

  /** What the search lets through is decided where the keys first differ. */
  lemma {:induction false} SearchByKeys(meta: TableMeta, idx: nat, cmp: Cmp, p: Row, r: Row)
    requires cmp in {Gt, Ge, Lt, Le} && IndexColRefs(meta, idx) != []
    requires NoNulls(RowKeys(meta, idx, p)) && NoNulls(RowKeys(meta, idx, r))
    ensures |RowKeys(meta, idx, p)| == |RowKeys(meta, idx, r)|
    ensures var xs, ys := RowKeys(meta, idx, p), RowKeys(meta, idx, r);
            var d := FirstDiff(xs, ys);
            SearchFinds(meta, idx, cmp, p, r) <==>
              if d == |xs| then cmp == Ge || cmp == Le else Beyond(Upward(cmp), xs[d], ys[d])
  {
    var xs, ys := RowKeys(meta, idx, p), RowKeys(meta, idx, r);
    RowKeysShape(meta, idx, p);
    RowKeysShape(meta, idx, r);
    KnownOfSomes(xs, ys);
    assert SearchFinds(meta, idx, cmp, p, r) <==> KeyCompares(cmp, xs, ys) by {
      FoundMeaning(meta, {r}, idx, Somes(xs), cmp, r);
    }
    ComparesAtDiff(cmp, xs, ys);
  }

  /** So is the side of the index the row lies on, and there by a segment that can decide. */
  lemma {:induction false} SideByKeys(meta: TableMeta, idx: nat, cmp: Cmp, p: Row, r: Row)
    requires cmp in {Gt, Ge, Lt, Le}
    ensures |RowKeys(meta, idx, p)| == |RowKeys(meta, idx, r)| == |IndexColRefs(meta, idx)|
    ensures var refs, xs, ys := IndexColRefs(meta, idx), RowKeys(meta, idx, p), RowKeys(meta, idx, r);
            var d := FirstDiff(xs, ys);
            && (d < |xs| ==> FirstUse(refs, d))
            && (OnSide(meta, idx, cmp, p, r) <==>
                 if d == |xs| then cmp == Ge || cmp == Le else Beyond(Upward(cmp) != refs[d].desc, xs[d], ys[d]))
  {
    var refs, xs, ys := IndexColRefs(meta, idx), RowKeys(meta, idx, p), RowKeys(meta, idx, r);
    RowKeysShape(meta, idx, p);
    RowKeysShape(meta, idx, r);
    DiffersAtFirstUse(meta, idx, p, r);
    FirstDiffSym(xs, ys);
    FirstDiffDecides(Ascs(RefItems(refs, 1)), xs, ys);
    FirstDiffDecides(Ascs(RefItems(refs, 1)), ys, xs);
  }

  /** `build_key_where` takes no direction flags: from the keys of any row, Get Greater, Greater-or-Equal,
      Less and Less-or-Equal select the rows on their side in the order of the index exactly when no
      segment that can decide is descending. */
  lemma {:induction false} KeySearchFollowsIndexIff(meta: TableMeta, idx: nat, cmp: Cmp, p: Row)
    requires cmp in {Gt, Ge, Lt, Le} && IndexColRefs(meta, idx) != [] && NoNulls(RowKeys(meta, idx, p))
    ensures (forall r: Row :: NoNulls(RowKeys(meta, idx, r)) ==>
               (SearchFinds(meta, idx, cmp, p, r) <==> OnSide(meta, idx, cmp, p, r)))
            <==> AscendingWhereUsed(IndexColRefs(meta, idx))
  {
    var refs := IndexColRefs(meta, idx);
    if AscendingWhereUsed(refs) {
      forall r: Row | NoNulls(RowKeys(meta, idx, r))
        ensures SearchFinds(meta, idx, cmp, p, r) <==> OnSide(meta, idx, cmp, p, r)
      {
        SearchByKeys(meta, idx, cmp, p, r);
        SideByKeys(meta, idx, cmp, p, r);
      }
    } else {
      var i :| 0 <= i < |refs| && FirstUse(refs, i) && refs[i].desc;
      var r := Changed(meta.recnumCol, p, refs[i].col);
      ChangedKeys(meta, idx, p, i);
      SearchByKeys(meta, idx, cmp, p, r);
      SideByKeys(meta, idx, cmp, p, r);
      DiffAt(RowKeys(meta, idx, p), RowKeys(meta, idx, r), i);
      LessTotal(RowKeys(meta, idx, p)[i], RowKeys(meta, idx, r)[i]);
    }
  }

  // ---- failing walks -------------------------------------------------------------------------------------

  /** Two rows that agree before a descending segment, where the first has the larger value. */
  predicate PartAt(meta: TableMeta, idx: nat, i: nat, a: Row, b: Row) {
    && i < |IndexColRefs(meta, idx)| && IndexColRefs(meta, idx)[i].desc && a.recnum != b.recnum
    && RowsOk(meta, {a, b}, idx) && |RowKeys(meta, idx, a)| == |RowKeys(meta, idx, b)| == |IndexColRefs(meta, idx)|
    && (forall k :: 0 <= k < i ==> RowKeys(meta, idx, a)[k] == RowKeys(meta, idx, b)[k])
    && Less(RowKeys(meta, idx, b)[i], RowKeys(meta, idx, a)[i])
  }

  lemma {:induction false} LargerReturned(meta: TableMeta, idx: nat, i: nat, c: Cursor, a: Row, b: Row)
    requires Fresh(c) && PartAt(meta, idx, i, a, b)
    ensures var ahead := Ahead(meta, {a, b}, c, idx, 1, []); ahead != [] && ahead[0] == a
  {
    var rc, items, rows := meta.recnumCol, WalkItems(meta, idx, 1), {a, b};
    LargerFirst(meta, idx, i, a, b);
    BeforeTotal(rc, items, a, a);
    assert Pending(meta, rows, c, idx, 1, []) == rows;
    WalkDecides(meta, rows, idx, 1);
    SortedElements(rc, items, rows);
    MinimalIsFirst(rc, items, rows, a);
  }

  lemma {:induction false} NothingAhead(meta: TableMeta, idx: nat, i: nat, c: Cursor, a: Row, b: Row)
    requires HoldsKeysOf(meta, c, idx, a) && c.desc == [] && PartAt(meta, idx, i, a, b)
    ensures Ahead(meta, {a, b}, c, idx, 1, []) == []
  {
    NotPassed(meta, idx, i, c, a, b);
    assert Pending(meta, {a, b}, c, idx, 1, []) == {};
  }

  /** Of two such rows the walk of a handle that carries no flags returns the one with the larger value
      and ends. */
  lemma {:induction false} TwoRowsMiss(meta: TableMeta, idx: nat, i: nat, c: Cursor, a: Row, b: Row, c1: Cursor)
    requires ActiveIndex(meta, c) == Some(idx) && Fresh(c) && c.desc == [] && !NoColumns(meta) && RecnumFirst(meta)
    requires PartAt(meta, idx, i, a, b) && c1 == MovedTo(meta, c, idx, 1, a)
    ensures Adjacent(meta, {a, b}, c, 1, BTR_SUCCESS, Some(a), c1) && Adjacent(meta, {a, b}, c1, 1, BTR_EOF, None, c1)
  {
    LargerReturned(meta, idx, i, c, a, b);
    assert HoldsKeysOf(meta, c1, idx, a) by {
      SeenIsRecnum(meta, a);
      KeptIsOwnIff(meta, idx, a);
    }
    NothingAhead(meta, idx, i, c1, a, b);
  }

  lemma {:induction false} LargerFirst(meta: TableMeta, idx: nat, i: nat, a: Row, b: Row)
    requires i < |IndexColRefs(meta, idx)| && IndexColRefs(meta, idx)[i].desc
    requires |RowKeys(meta, idx, a)| == |RowKeys(meta, idx, b)| == |IndexColRefs(meta, idx)|
    requires forall k :: 0 <= k < i ==> RowKeys(meta, idx, a)[k] == RowKeys(meta, idx, b)[k]
    requires Less(RowKeys(meta, idx, b)[i], RowKeys(meta, idx, a)[i])
    ensures Before(meta.recnumCol, WalkItems(meta, idx, 1), a, b)
    ensures !Before(meta.recnumCol, WalkItems(meta, idx, 1), b, a)
  {
    var rc, items := meta.recnumCol, WalkItems(meta, idx, 1);
    LessTotal(RowKeys(meta, idx, a)[i], RowKeys(meta, idx, b)[i]);
    SortKeyIsPosition(meta, idx, 1, a);
    SortKeyIsPosition(meta, idx, 1, b);
    DiffAt(SortKey(rc, items, a), SortKey(rc, items, b), i);
    FirstDiffDecides(Ascs(items), SortKey(rc, items, a), SortKey(rc, items, b));
    BeforeTotal(rc, items, a, b);
  }

  lemma {:induction false} NotPassed(meta: TableMeta, idx: nat, i: nat, c: Cursor, a: Row, b: Row)
    requires i < |IndexColRefs(meta, idx)| && HoldsKeysOf(meta, c, idx, a) && c.desc == []
    requires |RowKeys(meta, idx, a)| == |RowKeys(meta, idx, b)| == |IndexColRefs(meta, idx)|
    requires NoNulls(RowKeys(meta, idx, a)) && NoNulls(RowKeys(meta, idx, b))
    requires forall k :: 0 <= k < i ==> RowKeys(meta, idx, a)[k] == RowKeys(meta, idx, b)[k]
    requires Less(RowKeys(meta, idx, b)[i], RowKeys(meta, idx, a)[i])
    ensures Positioned(c) && !Passes(meta, c, idx, 1, a) && !Passes(meta, c, idx, 1, b)
  {
    var kc := CursorCols(IndexColRefs(meta, idx), c);
    var pos, end := c.keys + [I64(a.recnum)], RowKeys(meta, idx, b) + [I64(b.recnum)];
    LessTotal(RowKeys(meta, idx, a)[i], RowKeys(meta, idx, b)[i]);
    PassesByFlags(meta, c, idx, 1, a);
    PassesByFlags(meta, c, idx, 1, b);
    TupleTotal(ContAscs(kc, 1), pos, pos);
    DiffAt(pos, end, i);
    FirstDiffDecides(ContAscs(kc, 1), pos, end);
  }

  /** For every index with a descending segment whose column, and the record number, are not used before
      it, there are two rows of which a Get Next walk of a handle without flags returns one and ends with 9. */
  lemma {:induction false} DescendingSegmentMisses(meta: TableMeta, idx: nat, i: nat, c: Cursor) returns (a: Row, b: Row, c1: Cursor)
    requires ActiveIndex(meta, c) == Some(idx) && Fresh(c) && c.desc == [] && !NoColumns(meta) && RecnumFirst(meta)
    requires i < |IndexColRefs(meta, idx)| && IndexColRefs(meta, idx)[i].desc && FirstUse(IndexColRefs(meta, idx), i)
    requires forall j :: 0 <= j < i ==> IndexColRefs(meta, idx)[j].col != meta.recnumCol
    requires DistinctNames(meta.fields) && RecnumIsInt(meta)
    ensures a != b && RowsOk(meta, {a, b}, idx)
    ensures Adjacent(meta, {a, b}, c, 1, BTR_SUCCESS, Some(a), c1) && Adjacent(meta, {a, b}, c1, 1, BTR_EOF, None, c1)
  {
    a, b := RowsThatPart(meta, idx, i);
    c1 := MovedTo(meta, c, idx, 1, a);
    TwoRowsMiss(meta, idx, i, c, a, b, c1);
  }

  /** All low, but for one field. */
  function OneHigh(meta: TableMeta, f: nat): Row
    requires f < |meta.fields| && DistinctNames(meta.fields)
  {
    Row(1, AllLow(meta.fields)[meta.fields[f].name := High(meta.fields[f])])
  }

  lemma {:induction false} LowRows(meta: TableMeta, idx: nat, f: nat)
    requires f < |meta.fields| && DistinctNames(meta.fields) && RecnumIsInt(meta)
    ensures RowsOk(meta, {OneHigh(meta, f), Row(0, AllLow(meta.fields))}, idx)
  {
    assert AllTyped(meta, Row(0, AllLow(meta.fields)));
    TypedRowOk(meta, idx, Row(0, AllLow(meta.fields)));
    assert AllTyped(meta, OneHigh(meta, f));
    TypedRowOk(meta, idx, OneHigh(meta, f));
  }

  lemma {:induction false} LowColumns(meta: TableMeta, f: nat, col: string)
    requires f < |meta.fields| && DistinctNames(meta.fields)
    ensures var a, b := OneHigh(meta, f), Row(0, AllLow(meta.fields));
            && (col == meta.fields[f].name ==> Less(Column(meta.recnumCol, b, col), Column(meta.recnumCol, a, col)))
            && (col != meta.fields[f].name && col != meta.recnumCol ==> Column(meta.recnumCol, a, col) == Column(meta.recnumCol, b, col))
  {
    assert AllLow(meta.fields)[meta.fields[f].name] == Low(meta.fields[f]);
  }

  lemma {:induction false} RowsThatPart(meta: TableMeta, idx: nat, i: nat) returns (a: Row, b: Row)
    requires i < |IndexColRefs(meta, idx)| && IndexColRefs(meta, idx)[i].desc && FirstUse(IndexColRefs(meta, idx), i)
    requires forall j :: 0 <= j < i ==> IndexColRefs(meta, idx)[j].col != meta.recnumCol
    requires DistinctNames(meta.fields) && RecnumIsInt(meta)
    ensures PartAt(meta, idx, i, a, b)
  {
    var refs := IndexColRefs(meta, idx);
    RefsAreFields(meta, idx);
    assert refs[i] in refs && NamesField(meta.fields, refs[i].col);
    var f :| 0 <= f < |meta.fields| && meta.fields[f].name == refs[i].col;
    a, b := OneHigh(meta, f), Row(0, AllLow(meta.fields));
    LowRows(meta, idx, f);
    RowKeysShape(meta, idx, a);
    RowKeysShape(meta, idx, b);
    LowColumns(meta, f, refs[i].col);
    forall k | 0 <= k < i
      ensures RowKeys(meta, idx, a)[k] == RowKeys(meta, idx, b)[k]
    {
      LowColumns(meta, f, refs[k].col);
    }
  }

  /** One INT field with a descending index on it. */
  const DESCENDING_A := TableMeta(
    [IntField(1, "A", TYPE_INT, 4, 0, None, None)], [RuntimeIndex(1, [1], [true], [0], 4)], "MDS_RECNUM", 4, false, false)

  function RowA(rn: int, a: int): Row {
    Row(rn, map["A" := I64(a)])
  }

  lemma {:induction false} DescendingAKeys(r: Row, a: int)
    requires r == RowA(r.recnum, a)
    ensures IndexColRefs(DESCENDING_A, 1) == [ColRef("A", true)] && RowKeys(DESCENDING_A, 1, r) == [I64(a)]
    ensures -0x8000_0000_0000_0000 <= a < 0x8000_0000_0000_0000 ==>
              KeyTyped(DESCENDING_A, 1, r) && KeptKeys(DESCENDING_A, 1, r) == [I64(a)]
    ensures RecnumFirst(DESCENDING_A) && !NoColumns(DESCENDING_A)
  {
    var meta := DESCENDING_A;
    assert [1 as nat][1..] == [] && [true][1..] == [];
    assert FindIndex(meta.indexes, 1) == Some(meta.indexes[0]) && FieldPos(meta.fields, 1) == Some(0);
    assert RefsFrom(meta.fields, [1], [true]) == [ColRef("A", true)];
    assert FieldVals(meta, r) == [I64(a)];
    assert ValsFrom(meta.fields, [1], FieldVals(meta, r)) == [I64(a)];
    KeptIsOwnIff(meta, 1, r);
    assert !RecnumIsField(meta) by {
      assert |"A"| != |"MDS_RECNUM"|;
    }
  }

  lemma {:induction false} DescendingAParts()
    ensures PartAt(DESCENDING_A, 1, 0, RowA(2, 2), RowA(1, 1))
  {
    DescendingAKeys(RowA(1, 1), 1);
    DescendingAKeys(RowA(2, 2), 2);
  }

  /** Of the rows A = 1 and A = 2, Get Next on a handle just opened returns A = 2 and then 9. */
  lemma {:induction false} DescendingAMisses(c: Cursor, c1: Cursor)
    requires c == Cursor(None, [], [], None, 1, None) && c1 == Cursor(None, [I64(2)], [], Some(2), 1, Some(2))
    ensures Adjacent(DESCENDING_A, {RowA(2, 2), RowA(1, 1)}, c, 1, BTR_SUCCESS, Some(RowA(2, 2)), c1)
    ensures Adjacent(DESCENDING_A, {RowA(2, 2), RowA(1, 1)}, c1, 1, BTR_EOF, None, c1)
  {
    DescendingAKeys(RowA(2, 2), 2);
    DescendingAParts();
    SeenIsRecnum(DESCENDING_A, RowA(2, 2));
    TwoRowsMiss(DESCENDING_A, 1, 0, c, RowA(2, 2), RowA(1, 1), c1);
  }

  /** And Get Greater from A = 2 finds nothing, although A = 1 comes after it in the index. */
  lemma {:induction false} DescendingAGreaterMisses(c: Cursor, notFound: int)
    ensures var rows := {RowA(1, 1), RowA(2, 2)};
            && KeyAfter(DESCENDING_A, 1, RowA(2, 2), RowA(1, 1))
            && ByKey(DESCENDING_A, rows, Some(DESCENDING_A.indexes[0]), [Some(I64(2))], Gt, 1, notFound, c, notFound, None, c)
  {
    var meta, rows, a, b := DESCENDING_A, {RowA(1, 1), RowA(2, 2)}, RowA(1, 1), RowA(2, 2);
    DescendingAKeys(a, 1);
    DescendingAKeys(b, 2);
    assert Somes([I64(2)]) == [Some(I64(2))];
    assert FirstDiff(RowKeys(meta, 1, b), RowKeys(meta, 1, a)) == 0;
    SideByKeys(meta, 1, Gt, b, a);
    SearchByKeys(meta, 1, Gt, b, a);
    SearchByKeys(meta, 1, Gt, b, b);
    var kc := SearchCols(IndexColRefs(meta, 1), [Some(I64(2))]);
    SearchColsKnown(IndexColRefs(meta, 1), [Some(I64(2))]);
    assert KnownVals([Some(I64(2))]) == [I64(2)] by {
      KnownOfSomes([I64(2)], [0]);
    }
    assert Found(meta, rows, kc, Gt) == {} by {
      FoundMeaning(meta, rows, 1, [Some(I64(2))], Gt, a);
      FoundMeaning(meta, {a}, 1, [Some(I64(2))], Gt, a);
      FoundMeaning(meta, rows, 1, [Some(I64(2))], Gt, b);
      FoundMeaning(meta, {b}, 1, [Some(I64(2))], Gt, b);
    }
  }

  /** One INT field with an ascending index on it, and an index on a field there is not. */
  const ASCENDING_A := TableMeta(
    [IntField(1, "A", TYPE_INT, 4, 0, None, None)],
    [RuntimeIndex(1, [1], [false], [0], 4), RuntimeIndex(2, [9], [false], [0], 0)], "MDS_RECNUM", 4, false, false)

  lemma {:induction false} AscendingAKeys(r: Row, a: int)
    requires r == RowA(r.recnum, a) && -0x8000_0000_0000_0000 <= a < 0x8000_0000_0000_0000
    ensures IndexColRefs(ASCENDING_A, 1) == [ColRef("A", false)] && RowKeys(ASCENDING_A, 1, r) == [I64(a)]
    ensures KeyTyped(ASCENDING_A, 1, r) && KeptKeys(ASCENDING_A, 1, r) == [I64(a)]
    ensures RecnumFirst(ASCENDING_A) && !NoColumns(ASCENDING_A)
  {
    var meta := ASCENDING_A;
    assert [1 as nat][1..] == [] && [false][1..] == [];
    assert FindIndex(meta.indexes, 1) == Some(meta.indexes[0]) && FieldPos(meta.fields, 1) == Some(0);
    assert RefsFrom(meta.fields, [1], [false]) == [ColRef("A", false)];
    assert FieldVals(meta, r) == [I64(a)];
    assert ValsFrom(meta.fields, [1], FieldVals(meta, r)) == [I64(a)];
    KeptIsOwnIff(meta, 1, r);
    NoRecnumField();
  }

  lemma {:induction false} NoRecnumField()
    ensures !RecnumIsField(ASCENDING_A)
  {
    assert |"A"| != |"MDS_RECNUM"|;
  }

  lemma {:induction false} EqualKeysPicked(a: Row, b: Row)
    requires a == RowA(1, 1) && b == RowA(2, 1)
    ensures RowsOk(ASCENDING_A, {a, b}, 1) && MayBePicked(ASCENDING_A, {a, b}, 1, 1, b)
    ensures a in Skipped(ASCENDING_A, {a, b}, 1, 1, b)
  {
    AscendingAKeys(a, 1);
    AscendingAKeys(b, 1);
    var plain := OrderItemsOf(IndexColRefs(ASCENDING_A, 1), 1, false, ASCENDING_A.recnumCol);
    MinimalExists(ASCENDING_A.recnumCol, plain, {a, b});
    var m :| IsMinimal(ASCENDING_A.recnumCol, plain, {a, b}, m);
    SameKeysPicked(ASCENDING_A, {a, b}, 1, 1, m, b);
  }

  /** Of two rows A = 1 the backend may give the second for Get First; Get Next then returns 9. */
  lemma {:induction false} EqualKeysMiss(c0: Cursor, c: Cursor)
    requires c == Cursor(Some(1), [I64(1)], [false], Some(2), 1, Some(2))
    ensures Placed(ASCENDING_A, {RowA(1, 1), RowA(2, 1)}, 1, 1, BTR_EOF, c0, BTR_SUCCESS, Some(RowA(2, 1)), c)
    ensures Adjacent(ASCENDING_A, {RowA(1, 1), RowA(2, 1)}, c, 1, BTR_EOF, None, c)
  {
    var meta, a, b := ASCENDING_A, RowA(1, 1), RowA(2, 1);
    AscendingAKeys(b, 1);
    EqualKeysPicked(a, b);
    assert c == PlacedAt(meta, 1, 1, b) by {
      SeenIsRecnum(meta, b);
      assert SegDescs([ColRef("A", false)]) == [false];
    }
    PendingAfterEnd(meta, {a, b}, 1, 1, b, c);
    assert Pending(meta, {a, b}, c, 1, 1, []) == {};
  }

  /** Under the index on the missing field, the row A = 1 is returned again and again. */
  lemma {:induction false} MissingFieldRepeats()
    ensures var rows, c := {RowA(1, 1)}, Cursor(Some(2), [], [], Some(1), 1, Some(1));
            Adjacent(ASCENDING_A, rows, c, 1, BTR_SUCCESS, Some(RowA(1, 1)), c)
  {
    var meta, r := ASCENDING_A, RowA(1, 1);
    var rows, c := {r}, Cursor(Some(2), [], [], Some(1), 1, Some(1));
    assert FindIndex(meta.indexes, 2) == Some(meta.indexes[1]) by {
      assert meta.indexes[1..][0] == meta.indexes[1];
    }
    assert [9 as nat][1..] == [];
    assert FieldPos(meta.fields, 9) == None;
    assert RefsFrom(meta.fields, [9], [false]) == RefsFrom(meta.fields, [], [false][1..]);
    assert IndexColRefs(meta, 2) == [];
    KeptKeysFit(meta, 2, r);
    assert KeptKeys(meta, 2, r) == [];
    NoRecnumField();
    SeenIsRecnum(meta, r);
    assert Pending(meta, rows, c, 2, 1, []) == rows;
    SortedElements(meta.recnumCol, WalkItems(meta, 2, 1), rows);
    var ahead := Ahead(meta, rows, c, 2, 1, []);
    assert ahead[0] in Elements(ahead);
  }
}
