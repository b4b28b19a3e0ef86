/** Physical-order stepping, and the rows read ahead of the position. */
module StepOps {
  import opened Wrappers
  import opened Status
  import opened Bytes
  import opened SqlValues
  import opened SqlText
  import opened SqlReading
  import opened Relation
  import opened Schema
  import opened Selected
  import opened Keyset
  import opened FilterMeaning
  import opened HandleState

  const STEP_CHUNK_SIZE := 256

  // ---- what lies beyond a position ----------------------------------------------------------------

  function StepItems(rc: string, dir: int): seq<SortItem> {
    [SortItem(rc, Forward(dir))]
  }

  predicate RecnumBeyond(last: Option<int>, dir: int, r: Row) {
    last.Some? ==> if Forward(dir) then r.recnum > last.value else r.recnum < last.value
  }

  /** The rows beyond a record number that pass the filter. */
  function StepPending(rc: string, rows: set<Row>, last: Option<int>, dir: int, terms: seq<Term>): set<Row> {
    set r | r in rows && RecnumBeyond(last, dir, r) && FilterHolds(terms, Env(rc, r))
  }

  /** The same, in record number order. */
  ghost function StepAhead(rc: string, rows: set<Row>, last: Option<int>, dir: int, terms: seq<Term>): seq<Row> {
    Sorted(rc, StepItems(rc, dir), StepPending(rc, rows, last, dir, terms))
  }

  /** `rc > ?` or `rc < ?`. */
  function StepCond(rc: string, last: Option<int>, dir: int): Option<Cond> {
    if last.None? then None
    else Some(Only(Last(Compare(rc, if Forward(dir) then Gt else Lt, 0))))
  }

  function StepParams(last: Option<int>): seq<SqlValue> {
    if last.None? then [] else [I64(last.value)]
  }

  lemma {:induction false} StepCondOk(rc: string, last: Option<int>, dir: int, r: Row)
    ensures StartOk(StepCond(rc, last, dir), StepParams(last))
    ensures var e := StepCond(rc, last, dir);
            e.Some? ==> (CondHolds(e.value, Env(rc, r), StepParams(last)) <==> RecnumBeyond(last, dir, r))
  {
    match StepCond(rc, last, dir)
    case None =>
    case Some(e) =>
      var p := e.c.p;
      assert PrimNumbered(p, 0) && PrimArgs(p) == 1;
      assert ConjNumbered(Last(p), 0) && ConjArgs(Last(p)) == 1;
      assert ConjHolds(Last(p), Env(rc, r), StepParams(last)) == PrimHolds(p, Env(rc, r), StepParams(last));
  }

  lemma {:induction false} StepDecides(rc: string, rows: set<Row>, dir: int)
    requires UniqueRecnums(rows)
    ensures Decides(rc, StepItems(rc, dir), rows)
  {
    RecnumDecides(rc, StepItems(rc, dir), rows);
  }

  /** The text of the start condition. */
  method StepWhere(d: Dialect, rc: string, last: Option<int>, dir: int) returns (text: Option<string>, params: seq<SqlValue>)
    ensures params == StepParams(last)
    ensures text.Some? <==> last.Some?
    ensures text.Some? ==> text.value == CondText(d, StepCond(rc, last, dir).value)
  {
    var cmp := if Forward(dir) then ">" else "<";
    match last
    case None => text, params := None, [];
    case Some(rn) =>
      params := [I64(rn)];
      text := Some(Spaced(QuoteIdent(d, rc), cmp, ParamMarker(d, |params|)));
      ghost var p := Compare(rc, if Forward(dir) then Gt else Lt, 0);
      assert PrimText(d, p) == text.value;
      assert ConjText(d, Last(p)) == text.value;
  }

  /** The first `n` rows beyond a position that pass the filter. */
  method FetchStepBatch(db: Backend, last: Option<int>, dir: int, n: nat, terms: seq<Term>) returns (rows: seq<Row>)
    requires UniqueRecnums(db.rows)
    ensures var ahead := StepAhead(db.recnumCol, db.rows, last, dir, terms);
            rows == ahead[..Min(n, |ahead|)]
  {
    var d, rc := db.dialect, db.recnumCol;
    var base, params := StepWhere(d, rc, last, dir);
    var filter: Option<string> := None;
    if terms != [] {
      var f;
      f, params := BuildFilterWhere(d, terms, params);
      filter := Some(f);
    }
    var order := QuoteIdent(d, rc) + " " + (if Forward(dir) then "ASC" else "DESC");
    StepOrderReads(d, rc, dir);
    StepTextSelects(d, rc, db.rows, last, dir, terms, base, filter, params);
    var res := db.Select(Combined(base, filter), params, order, n);
    rows := res.value;
    StepDecides(rc, db.rows, dir);
    AnswerIsPrefix(rc, StepItems(rc, dir), StepPending(rc, db.rows, last, dir, terms), n, rows);
  }

  lemma {:induction false} StepOrderReads(d: Dialect, rc: string, dir: int)
    ensures OrderItems(d, QuoteIdent(d, rc) + " " + (if Forward(dir) then "ASC" else "DESC")) == Some(StepItems(rc, dir))
  {
    var it := SortItem(rc, Forward(dir));
    SortTextRoundTrip(d, [it]);
    assert SortText(d, [it]) == ItemText(d, it);
  }

  lemma {:induction false} StepTextSelects(d: Dialect, rc: string, rows: set<Row>, last: Option<int>, dir: int, terms: seq<Term>,
                        b: Option<string>, f: Option<string>, params: seq<SqlValue>)
    requires (b.Some? <==> last.Some?) && (b.Some? ==> b.value == CondText(d, StepCond(rc, last, dir).value))
    requires f.Some? <==> terms != []
    requires f.Some? ==> f.value == CondText(d, FilterCond(terms, |StepParams(last)|))
    requires params == StepParams(last) + TermVals(terms)
    ensures var e := WhereCond(d, Combined(b, f), |params|);
            e.Some? && Matching(rc, rows, e.value, params) == StepPending(rc, rows, last, dir, terms)
  {
    var start, base := StepCond(rc, last, dir), StepParams(last);
    StepCondOk(rc, last, dir, Row(0, map[]));
    CombinedReads(d, start, base, terms, b, f, params);
    var e := CombinedCond(start, |base|, terms);
    forall r | r in rows
      ensures CondHolds(e, Env(rc, r), params) <==> RecnumBeyond(last, dir, r) && FilterHolds(terms, Env(rc, r))
    {
      StepCondOk(rc, last, dir, r);
      CombinedHolds(start, base, terms, Env(rc, r));
    }
  }

  // ---- one step -----------------------------------------------------------------------------------------

  /** What an operation returns and the position it leaves. */
  datatype StepResult = StepResult(code: int, row: Option<Row>, pos: StepPos)

  /** A step served from the rows read ahead, or by reading `n` more; a change of direction throws the
      rows read ahead away. */
  ghost function CachedStep(meta: TableMeta, rows: set<Row>, n: nat, p: StepPos, dir: int): StepResult {
    if p.cacheDir == dir && p.cache != [] then
      var rn := Some(SeenRecnum(meta, p.cache[0]));
      StepResult(BTR_SUCCESS, Some(p.cache[0]), p.(last := rn, any := rn, cache := p.cache[1..]))
    else
      var ahead := StepAhead(meta.recnumCol, rows, p.last, dir, []);
      if n == 0 || ahead == [] then StepResult(BTR_EOF, None, p.(cache := []))
      else
        var rn := Some(SeenRecnum(meta, ahead[0]));
        StepResult(BTR_SUCCESS, Some(ahead[0]), StepPos(rn, dir, ahead[1..Min(n, |ahead|)], dir, rn))
  }

  function ChunkSize(meta: TableMeta): nat {
    if meta.localCache then STEP_CHUNK_SIZE else 1
  }

  /** The record a step hands out. */
  function Handed(meta: TableMeta, row: Option<Row>): seq<byte> {
    match row
    case None => []
    case Some(r) => StepImage(meta, r)
  }

  method StepCached(h: HandleEntry, db: Backend, dir: int) returns (code: int, row: Option<Row>, data: seq<byte>)
    requires db.recnumCol == h.meta.recnumCol && UniqueRecnums(db.rows)
    modifies h`stepLastRecnum, h`lastRecnum, h`stepDir, h`stepCache, h`stepCacheDir
    ensures StepResult(code, row, h.StepPosition()) ==
              CachedStep(h.meta, db.rows, ChunkSize(h.meta), old(h.StepPosition()), dir)
    ensures h.GetCursor() == old(h.GetCursor()).(last := h.lastRecnum)
    ensures data == Handed(h.meta, row)
  {
    if h.stepCacheDir == dir {
      if h.stepCache != [] {
        var r := h.stepCache[0];
        var rn := SeenRecnum(h.meta, r);
        h.stepCache := h.stepCache[1..];
        h.stepLastRecnum := Some(rn);
        h.lastRecnum := Some(rn);
        return BTR_SUCCESS, Some(r), StepImage(h.meta, r);
      }
    } else {
      h.stepCache := [];
    }
    var n := if h.meta.localCache then STEP_CHUNK_SIZE else 1;
    var fetched := FetchStepBatch(db, h.stepLastRecnum, dir, n, []);
    if fetched == [] {
      return BTR_EOF, None, [];
    }
    var first, ahead := fetched[0], fetched[1..];
    var rn := SeenRecnum(h.meta, first);
    h.stepLastRecnum := Some(rn);
    h.lastRecnum := Some(rn);
    h.stepDir := dir;
    h.stepCacheDir := dir;
    h.stepCache := ahead;
    code, row, data := BTR_SUCCESS, Some(first), StepImage(h.meta, first);
  }

  /** Step First (`dir` 1) and Step Last (`dir` -1) forget the position before they step. */
  function Forgotten(p: StepPos): StepPos {
    p.(last := None, cache := [])
  }

  method StepEnd(h: HandleEntry, db: Backend, dir: int) returns (code: int, row: Option<Row>, data: seq<byte>)
    requires db.recnumCol == h.meta.recnumCol && UniqueRecnums(db.rows)
    modifies h`stepLastRecnum, h`lastRecnum, h`stepDir, h`stepCache, h`stepCacheDir
    ensures StepResult(code, row, h.StepPosition()) ==
              CachedStep(h.meta, db.rows, ChunkSize(h.meta), Forgotten(old(h.StepPosition())), dir)
    ensures h.GetCursor() == old(h.GetCursor()).(last := h.lastRecnum)
    ensures data == Handed(h.meta, row)
  {
    h.stepCache := [];
    h.stepLastRecnum := None;
    code, row, data := StepCached(h, db, dir);
  }
}
