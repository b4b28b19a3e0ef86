/** Runs of step operations over a fixed table: reading ahead is invisible, and a walk visits every row
    once in record number order. */
module StepRuns {
  import opened Wrappers
  import opened Status
  import opened Bytes
  import opened SqlValues
  import opened Relation
  import opened Schema
  import opened Selected
  import opened Keyset
  import opened Descriptor
  import opened Reply
  import opened HandleState
  import opened StepOps
  import opened StepExt

  // ---- moving along ---------------------------------------------------------------------------------

  lemma {:induction false} BeforeByRecnum(rc: string, dir: int, a: Row, b: Row)
    ensures Before(rc, StepItems(rc, dir), a, b) <==> RecnumBeyond(Some(a.recnum), dir, b)
  {
    var items := StepItems(rc, dir);
    assert SortKey(rc, items, a) == [I64(a.recnum)] && SortKey(rc, items, b) == [I64(b.recnum)];
    assert Ascs(items) == [Forward(dir)];
    assert !TupleLess(Ascs(items)[1..], SortKey(rc, items, a)[1..], SortKey(rc, items, b)[1..]);
  }

  /** Beyond the first row ahead lie the others. */
  lemma {:induction false} AheadOfFirst(rc: string, rows: set<Row>, last: Option<int>, dir: int, terms: seq<Term>)
    requires UniqueRecnums(rows) && StepAhead(rc, rows, last, dir, terms) != []
    ensures var ahead := StepAhead(rc, rows, last, dir, terms);
            StepAhead(rc, rows, Some(ahead[0].recnum), dir, terms) == ahead[1..]
  {
    var items, pending := StepItems(rc, dir), StepPending(rc, rows, last, dir, terms);
    var first := StepAhead(rc, rows, last, dir, terms)[0];
    var rest := StepPending(rc, rows, Some(first.recnum), dir, terms);
    StepDecides(rc, rows, dir);
    SortedElements(rc, items, pending);
    assert first in Elements(StepAhead(rc, rows, last, dir, terms));
    forall o
      ensures o in rest <==> o in pending && Before(rc, items, first, o)
    {
      BeforeByRecnum(rc, dir, first, o);
    }
    SortedTail(rc, items, pending, rest);
  }

  /** Beyond the `i`-th row ahead lie the rows after it. */
  lemma {:induction false} AheadOfRow(rc: string, rows: set<Row>, last: Option<int>, dir: int, terms: seq<Term>, all: seq<Row>, i: nat)
    requires UniqueRecnums(rows) && all == StepAhead(rc, rows, last, dir, terms) && i < |all|
    ensures StepAhead(rc, rows, Some(all[i].recnum), dir, terms) == all[i + 1..]
  {
    if i == 0 {
      AheadOfFirst(rc, rows, last, dir, terms);
    } else {
      AheadOfRow(rc, rows, last, dir, terms, all, i - 1);
      assert all[i - 1 + 1..][0] == all[i];
      AheadOfFirst(rc, rows, Some(all[i - 1].recnum), dir, terms);
      assert all[i - 1 + 1..][1..] == all[i + 1..];
    }
  }

  // ---- the rows read ahead ------------------------------------------------------------------------------

  /** The queue is always the next rows beyond the position in the direction it was read. */
  ghost predicate CacheOk(rc: string, rows: set<Row>, p: StepPos) {
    var ahead := StepAhead(rc, rows, p.last, p.cacheDir, []);
    && |p.cache| <= |ahead| && p.cache == ahead[..|p.cache|]
    && (p.cache != [] ==> p.dir == p.cacheDir)
  }

  /** Every step keeps the queue right, and returns what a step without read-ahead returns. */
  lemma {:induction false} StepIsUncached(meta: TableMeta, rows: set<Row>, n: nat, p: StepPos, dir: int)
    requires UniqueRecnums(rows) && RecnumFirst(meta) && CacheOk(meta.recnumCol, rows, p) && n > 0
    ensures var r := CachedStep(meta, rows, n, p, dir);
            var ahead := StepAhead(meta.recnumCol, rows, p.last, dir, []);
            && CacheOk(meta.recnumCol, rows, r.pos)
            && if ahead == [] then
                 r.code == BTR_EOF && r.row == None && r.pos.last == p.last && r.pos.any == p.any && r.pos.dir == p.dir
               else
                 && r.code == BTR_SUCCESS && r.row == Some(ahead[0])
                 && r.pos.last == Some(ahead[0].recnum) && r.pos.any == r.pos.last && r.pos.dir == dir
  {
    var r, ahead := CachedStep(meta, rows, n, p, dir), StepAhead(meta.recnumCol, rows, p.last, dir, []);
    if ahead != [] {
      SeenIsRecnum(meta, ahead[0]);
      AheadOfFirst(meta.recnumCol, rows, p.last, dir, []);
      if p.cacheDir == dir && p.cache != [] {
        assert p.cache[0] == ahead[0];
        assert p.cache[1..] == ahead[1..][..|p.cache| - 1];
      } else {
        assert ahead[1..Min(n, |ahead|)] == ahead[1..][..Min(n, |ahead|) - 1];
      }
    }
  }

  // ---- runs of every step operation ---------------------------------------------------------------------------

  datatype Op = First | Last | Next | Prev | NextExtended(buf: seq<byte>) | PrevExtended(buf: seq<byte>)

  /** What the caller sees of an operation. */
  datatype Outcome = Outcome(code: int, rows: seq<Row>, reply: Option<seq<byte>>)

  function RowOutcome(r: StepResult): Outcome {
    Outcome(r.code, if r.row.Some? then [r.row.value] else [], None)
  }

  datatype OpResult = OpResult(outcome: Outcome, pos: StepPos)

  function StepDone(r: StepResult): OpResult {
    OpResult(RowOutcome(r), r.pos)
  }

  function ExtendedDone(r: StepReply): OpResult {
    OpResult(Outcome(r.code, r.out, r.reply), r.pos)
  }

  /** One operation with read-ahead `n`. */
  ghost function Do(meta: TableMeta, rows: set<Row>, n: nat, p: StepPos, op: Op): OpResult {
    match op
    case First => StepDone(CachedStep(meta, rows, n, Forgotten(p), 1))
    case Last => StepDone(CachedStep(meta, rows, n, Forgotten(p), -1))
    case Next => StepDone(CachedStep(meta, rows, n, p, 1))
    case Prev => StepDone(CachedStep(meta, rows, n, p, -1))
    case NextExtended(buf) => ExtendedDone(ExtendedStep(meta, rows, p, 1, buf))
    case PrevExtended(buf) => ExtendedDone(ExtendedStep(meta, rows, p, -1, buf))
  }

  /** What a run of operations from a position shows, and where it ends. */
  ghost function Outcomes(meta: TableMeta, rows: set<Row>, n: nat, p: StepPos, ops: seq<Op>): (r: seq<Outcome>)
    ensures |r| == |ops|
    decreases |ops|
  {
    if ops == [] then []
    else
      var r := Do(meta, rows, n, p, ops[0]);
      [r.outcome] + Outcomes(meta, rows, n, r.pos, ops[1..])
  }

  ghost function EndPos(meta: TableMeta, rows: set<Row>, n: nat, p: StepPos, ops: seq<Op>): StepPos
    decreases |ops|
  {
    if ops == [] then p else EndPos(meta, rows, n, Do(meta, rows, n, p, ops[0]).pos, ops[1..])
  }

  /** The same position, whatever has been read ahead. */
  predicate SamePosition(p: StepPos, q: StepPos) {
    p.last == q.last && p.any == q.any && p.dir == q.dir
  }

  lemma {:induction false} ForgottenOk(rc: string, rows: set<Row>, p: StepPos)
    ensures CacheOk(rc, rows, Forgotten(p))
  {
  }

  lemma {:induction false} ExtendedKeepsCache(meta: TableMeta, rows: set<Row>, p: StepPos, dir: int, buf: seq<byte>)
    requires CacheOk(meta.recnumCol, rows, p)
    ensures CacheOk(meta.recnumCol, rows, ExtendedStep(meta, rows, p, dir, buf).pos)
  {
    if TakeStep(meta, rows, p.last, dir, buf).out != [] {
      assert ExtendedStep(meta, rows, p, dir, buf).pos.cache == [];
    }
  }

  lemma {:induction false} ExtendedAgree(meta: TableMeta, rows: set<Row>, p: StepPos, q: StepPos, dir: int, buf: seq<byte>)
    requires SamePosition(p, q)
    ensures var a, b := ExtendedStep(meta, rows, p, dir, buf), ExtendedStep(meta, rows, q, dir, buf);
            && a.code == b.code && a.out == b.out && a.reply == b.reply && SamePosition(a.pos, b.pos)
  {
    assert TakeStep(meta, rows, p.last, dir, buf) == TakeStep(meta, rows, q.last, dir, buf);
  }

  lemma {:induction false} StepsAgree(meta: TableMeta, rows: set<Row>, n: nat, m: nat, p: StepPos, q: StepPos, dir: int)
    requires UniqueRecnums(rows) && RecnumFirst(meta) && n > 0 && m > 0
    requires CacheOk(meta.recnumCol, rows, p) && CacheOk(meta.recnumCol, rows, q) && SamePosition(p, q)
    ensures var a, b := CachedStep(meta, rows, n, p, dir), CachedStep(meta, rows, m, q, dir);
            && RowOutcome(a) == RowOutcome(b) && SamePosition(a.pos, b.pos)
            && CacheOk(meta.recnumCol, rows, a.pos) && CacheOk(meta.recnumCol, rows, b.pos)
  {
    StepIsUncached(meta, rows, n, p, dir);
    StepIsUncached(meta, rows, m, q, dir);
  }

  lemma {:induction false} OpsAgree(meta: TableMeta, rows: set<Row>, n: nat, m: nat, p: StepPos, q: StepPos, op: Op)
    requires UniqueRecnums(rows) && RecnumFirst(meta) && n > 0 && m > 0
    requires CacheOk(meta.recnumCol, rows, p) && CacheOk(meta.recnumCol, rows, q) && SamePosition(p, q)
    ensures var a, b := Do(meta, rows, n, p, op), Do(meta, rows, m, q, op);
            && a.outcome == b.outcome && SamePosition(a.pos, b.pos)
            && CacheOk(meta.recnumCol, rows, a.pos) && CacheOk(meta.recnumCol, rows, b.pos)
  {
    var rc := meta.recnumCol;
    ForgottenOk(rc, rows, p);
    ForgottenOk(rc, rows, q);
    match op
    case First => StepsAgree(meta, rows, n, m, Forgotten(p), Forgotten(q), 1);
    case Last => StepsAgree(meta, rows, n, m, Forgotten(p), Forgotten(q), -1);
    case Next => StepsAgree(meta, rows, n, m, p, q, 1);
    case Prev => StepsAgree(meta, rows, n, m, p, q, -1);
    case NextExtended(buf) =>
      ExtendedAgree(meta, rows, p, q, 1, buf);
      ExtendedKeepsCache(meta, rows, p, 1, buf);
      ExtendedKeepsCache(meta, rows, q, 1, buf);
    case PrevExtended(buf) =>
      ExtendedAgree(meta, rows, p, q, -1, buf);
      ExtendedKeepsCache(meta, rows, p, -1, buf);
      ExtendedKeepsCache(meta, rows, q, -1, buf);
  }

  /** For every chunk size and every run of step operations, statuses, records, replies and positions
      are those of chunk size 1; the queue stays right throughout. */
  lemma {:induction false} ReadAheadIsInvisible(meta: TableMeta, rows: set<Row>, n: nat, p: StepPos, q: StepPos, ops: seq<Op>)
    requires UniqueRecnums(rows) && RecnumFirst(meta) && n > 0
    requires CacheOk(meta.recnumCol, rows, p) && CacheOk(meta.recnumCol, rows, q) && SamePosition(p, q)
    ensures Outcomes(meta, rows, n, p, ops) == Outcomes(meta, rows, 1, q, ops)
    ensures SamePosition(EndPos(meta, rows, n, p, ops), EndPos(meta, rows, 1, q, ops))
    ensures CacheOk(meta.recnumCol, rows, EndPos(meta, rows, n, p, ops))
    decreases |ops|
  {
    if ops != [] {
      OpsAgree(meta, rows, n, 1, p, q, ops[0]);
      ReadAheadIsInvisible(meta, rows, n, Do(meta, rows, n, p, ops[0]).pos, Do(meta, rows, 1, q, ops[0]).pos, ops[1..]);
    }
  }

  /** In particular from a handle just opened. */
  lemma {:induction false} OpenedHandleReadAheadIsInvisible(meta: TableMeta, rows: set<Row>, ops: seq<Op>)
    requires UniqueRecnums(rows) && RecnumFirst(meta)
    ensures var start := StepPos(None, 1, [], 1, None);
            Outcomes(meta, rows, ChunkSize(meta), start, ops) == Outcomes(meta, rows, 1, start, ops)
  {
    var start := StepPos(None, 1, [], 1, None);
    assert CacheOk(meta.recnumCol, rows, start);
    ReadAheadIsInvisible(meta, rows, ChunkSize(meta), start, start, ops);
  }

  // ---- walks ------------------------------------------------------------------------------------------------

  /** Steps in one direction. */
  function Steps(dir: int, k: nat): seq<Op> {
    seq(k, _ => if Forward(dir) then Next else Prev)
  }

  function Served(outs: seq<Outcome>): seq<Row> {
    if outs == [] then [] else outs[0].rows + Served(outs[1..])
  }

  lemma {:induction false} ServeOne(meta: TableMeta, rows: set<Row>, n: nat, p: StepPos, dir: int, k: nat)
    requires k > 0 && (dir == 1 || dir == -1)
    ensures var r := CachedStep(meta, rows, n, p, dir);
            var outs, more := Outcomes(meta, rows, n, p, Steps(dir, k)), Outcomes(meta, rows, n, r.pos, Steps(dir, k - 1));
            && outs == [RowOutcome(r)] + more && Served(outs) == RowOutcome(r).rows + Served(more)
  {
    assert Steps(dir, k)[1..] == Steps(dir, k - 1);
    var outs := Outcomes(meta, rows, n, p, Steps(dir, k));
    assert outs[1..] == Outcomes(meta, rows, n, CachedStep(meta, rows, n, p, dir).pos, Steps(dir, k - 1));
  }

  lemma {:induction false} FirstOf(ahead: seq<Row>, k: nat)
    requires ahead != [] && k > 0
    ensures [ahead[0]] + ahead[1..][..Min(k - 1, |ahead| - 1)] == ahead[..Min(k, |ahead|)]
  {
  }

  /** `k` steps serve the rows ahead in order, with status 9 once there are none left. */
  predicate ServedInOrder(ahead: seq<Row>, outs: seq<Outcome>) {
    && Served(outs) == ahead[..Min(|outs|, |ahead|)]
    && forall i :: 0 <= i < |outs| ==> outs[i].code == if i < |ahead| then BTR_SUCCESS else BTR_EOF
  }

  lemma {:induction false} StepsServeAhead(meta: TableMeta, rows: set<Row>, n: nat, p: StepPos, dir: int, k: nat)
    requires UniqueRecnums(rows) && RecnumFirst(meta) && n > 0 && CacheOk(meta.recnumCol, rows, p) && (dir == 1 || dir == -1)
    ensures ServedInOrder(StepAhead(meta.recnumCol, rows, p.last, dir, []), Outcomes(meta, rows, n, p, Steps(dir, k)))
    decreases k
  {
    if k > 0 {
      var rc := meta.recnumCol;
      var ahead := StepAhead(rc, rows, p.last, dir, []);
      var r := CachedStep(meta, rows, n, p, dir);
      StepIsUncached(meta, rows, n, p, dir);
      StepsServeAhead(meta, rows, n, r.pos, dir, k - 1);
      ServeOne(meta, rows, n, p, dir, k);
      if ahead != [] {
        AheadOfFirst(rc, rows, p.last, dir, []);
        FirstOf(ahead, k);
      }
      ServedCons(ahead, RowOutcome(r), Outcomes(meta, rows, n, r.pos, Steps(dir, k - 1)));
    }
  }

  lemma {:induction false} ServedCons(ahead: seq<Row>, o: Outcome, more: seq<Outcome>)
    requires ServedInOrder(if ahead == [] then [] else ahead[1..], more)
    requires o.rows == (if ahead == [] then [] else [ahead[0]]) && o.code == if ahead == [] then BTR_EOF else BTR_SUCCESS
    ensures ServedInOrder(ahead, [o] + more)
  {
    assert ([o] + more)[1..] == more;
    if ahead != [] {
      FirstOf(ahead, |more| + 1);
    }
  }

  /** Moving onto a row ahead takes the rows up to it off the front. */
  lemma {:induction false} TakenAdvances(meta: TableMeta, rows: set<Row>, last: Option<int>, dir: int, terms: seq<Term>, ahead: seq<Row>, k: nat)
    requires UniqueRecnums(rows) && RecnumFirst(meta) && 0 < k <= |ahead|
    requires ahead == StepAhead(meta.recnumCol, rows, last, dir, terms)
    ensures ahead == ahead[..k] + StepAhead(meta.recnumCol, rows, Some(SeenRecnum(meta, ahead[k - 1])), dir, terms)
  {
    SeenIsRecnum(meta, ahead[k - 1]);
    AheadOfRow(meta.recnumCol, rows, last, dir, terms, ahead, k - 1);
    assert ahead == ahead[..k] + ahead[k..];
  }

  /** One extended step takes the rows it returns off the front of those ahead; the walk is over
      (status 9) exactly when nothing is ahead. */
  lemma {:induction false} ExtendedStepAdvances(meta: TableMeta, rows: set<Row>, p: StepPos, dir: int, buf: seq<byte>, g: Gne, r: StepReply)
    requires UniqueRecnums(rows) && RecnumFirst(meta) && |buf| >= 8 && ReadGne(meta.fields, buf) == Some(g)
    requires r == ExtendedStep(meta, rows, p, dir, buf)
    ensures var ahead := StepAhead(meta.recnumCol, rows, p.last, dir, g.terms);
            && ahead == r.out + StepAhead(meta.recnumCol, rows, r.pos.last, dir, g.terms)
            && (r.code == BTR_EOF <==> ahead == [])
    ensures r.code == BTR_SUCCESS <==> r.out != []
    ensures r.code != BTR_SUCCESS ==> r.pos == p && r.reply == None
  {
    var ahead := StepAhead(meta.recnumCol, rows, p.last, dir, g.terms);
    var k := StepTaken(StepRead(meta), ahead, g, |buf|);
    if k > 0 {
      assert ahead[..k][k - 1] == ahead[k - 1];
      TakenAdvances(meta, rows, p.last, dir, g.terms, ahead, k);
    } else {
      assert [] + ahead == ahead;
    }
  }

  /** A successful extended step's reply fits and decodes to the projected records returned. */
  lemma {:induction false} ExtendedStepReply(meta: TableMeta, rows: set<Row>, p: StepPos, dir: int, buf: seq<byte>)
    requires ExtendedStep(meta, rows, p, dir, buf).code == BTR_SUCCESS
    ensures ReadGne(meta.fields, buf).Some?
    ensures var r, g := ExtendedStep(meta, rows, p, dir, buf), ReadGne(meta.fields, buf).value;
            && r.reply.Some?
            && ExactReply(StepRead(meta), StepAhead(meta.recnumCol, rows, p.last, dir, g.terms), g.extracts,
                          StepMaxRecs(g), |buf|, r.out, r.reply.value)
  {
    var g := ReadGne(meta.fields, buf).value;
    var ahead := StepAhead(meta.recnumCol, rows, p.last, dir, g.terms);
    FittingReply(StepRead(meta), ahead, g.extracts, StepMaxRecs(g), |buf|, StepTaken(StepRead(meta), ahead, g, |buf|));
  }

  /** A step that finds no row read ahead in its direction reads 256 of those beyond the position, or all when there are fewer;
      one when the table is not cached. The first is handed out and the others wait. */
  lemma {:induction false} StepReadsAhead(meta: TableMeta, rows: set<Row>, p: StepPos, dir: int)
    requires p.cache == [] || p.cacheDir != dir
    requires StepAhead(meta.recnumCol, rows, p.last, dir, []) != []
    ensures var ahead, r := StepAhead(meta.recnumCol, rows, p.last, dir, []), CachedStep(meta, rows, ChunkSize(meta), p, dir);
            && r.code == 0 && r.row == Some(ahead[0])
            && [ahead[0]] + r.pos.cache == ahead[..if !meta.localCache then 1 else if |ahead| < 256 then |ahead| else 256]
  {
    var ahead := StepAhead(meta.recnumCol, rows, p.last, dir, []);
    var k := if !meta.localCache then 1 else if |ahead| < 256 then |ahead| else 256;
    assert [ahead[0]] + ahead[1..k] == ahead[..k];
  }

  // ---- positions moved under the queue ------------------------------------------------------------------

  lemma {:induction false} BeyondIsUpper(rc: string, dir: int, last: Option<int>, a: Row, b: Row)
    requires RecnumBeyond(last, dir, a) && !RecnumBeyond(last, dir, b)
    ensures Before(rc, StepItems(rc, dir), b, a)
  {
    BeforeByRecnum(rc, dir, b, a);
  }

  /** The first rows beyond two positions are the same row exactly when the same rows lie beyond them. */
  lemma {:induction false} SameFirstIff(rc: string, rows: set<Row>, p: Option<int>, q: Option<int>, dir: int)
    requires UniqueRecnums(rows) && StepAhead(rc, rows, p, dir, []) != []
    ensures var a, b := StepAhead(rc, rows, p, dir, []), StepAhead(rc, rows, q, dir, []);
            (b != [] && a[0] == b[0]) <==> forall r :: r in rows ==> (RecnumBeyond(p, dir, r) <==> RecnumBeyond(q, dir, r))
  {
    var items := StepItems(rc, dir);
    var beyondP, beyondQ := StepPending(rc, rows, p, dir, []), StepPending(rc, rows, q, dir, []);
    var a, b := StepAhead(rc, rows, p, dir, []), StepAhead(rc, rows, q, dir, []);
    SortedElements(rc, items, beyondP);
    SortedElements(rc, items, beyondQ);
    assert a[0] in Elements(a);
    if b != [] {
      assert b[0] in Elements(b);
    }
    if forall r :: r in rows ==> (RecnumBeyond(p, dir, r) <==> RecnumBeyond(q, dir, r)) {
      assert beyondP == beyondQ;
    } else {
      var r :| r in rows && !(RecnumBeyond(p, dir, r) <==> RecnumBeyond(q, dir, r));
      if b != [] && a[0] == b[0] {
        if RecnumBeyond(p, dir, r) {
          assert r in beyondP;
          BeyondIsUpper(rc, dir, q, a[0], r);
        } else {
          assert r in beyondQ;
          BeyondIsUpper(rc, dir, p, a[0], r);
        }
      }
    }
  }

  /** An operation that moves the position and leaves the queue: the next step is the one from the new
      position exactly when the queue is empty or runs the other way, or the same rows lie beyond both
      positions. */
  lemma {:induction false} MovedUnderQueueIff(meta: TableMeta, rows: set<Row>, n: nat, p: StepPos, q: StepPos, dir: int)
    requires UniqueRecnums(rows) && CacheOk(meta.recnumCol, rows, p) && n > 0
    requires q.cache == p.cache && q.cacheDir == p.cacheDir
    ensures (CachedStep(meta, rows, n, q, dir).row == CachedStep(meta, rows, n, q.(cache := []), dir).row)
              <==> (p.cache == [] || p.cacheDir != dir
                    || forall r :: r in rows ==> (RecnumBeyond(p.last, dir, r) <==> RecnumBeyond(q.last, dir, r)))
  {
    if p.cache != [] && p.cacheDir == dir {
      assert p.cache[0] == StepAhead(meta.recnumCol, rows, p.last, dir, [])[0];
      SameFirstIff(meta.recnumCol, rows, p.last, q.last, dir);
    }
  }

  /** Reset forgets the position but not the queue. */
  function Reset(p: StepPos): StepPos {
    p.(last := None, any := None)
  }

  /** So the first step after Reset gives the table's first row in its direction exactly when the queue
      is empty or runs the other way, or no row lies at or before the position left. */
  lemma {:induction false} ResetRestartsIff(meta: TableMeta, rows: set<Row>, n: nat, p: StepPos, dir: int)
    requires UniqueRecnums(rows) && CacheOk(meta.recnumCol, rows, p) && n > 0
    ensures (CachedStep(meta, rows, n, Reset(p), dir).row == CachedStep(meta, rows, n, Forgotten(p), dir).row)
              <==> (p.cache == [] || p.cacheDir != dir || forall r :: r in rows ==> RecnumBeyond(p.last, dir, r))
  {
    MovedUnderQueueIff(meta, rows, n, p, Reset(p), dir);
  }

  /** The position after Insert stored a row. */
  function InsertedPos(p: StepPos, row: Row): StepPos {
    p.(last := Some(row.recnum), any := Some(row.recnum))
  }

  /** The first step after Insert goes to the neighbour of the new row exactly when the queue is empty or
      runs the other way, or none of the other rows lies between the position left and the new row. */
  lemma {:induction false} StepAfterInsertIff(meta: TableMeta, rows: set<Row>, n: nat, p: StepPos, row: Row, dir: int)
    requires UniqueRecnums(rows) && CacheOk(meta.recnumCol, rows, p) && n > 0
    requires forall r :: r in rows ==> r.recnum != row.recnum
    ensures var q, now := InsertedPos(p, row), rows + {row};
            (CachedStep(meta, now, n, q, dir).row == CachedStep(meta, now, n, q.(cache := []), dir).row)
              <==> (p.cache == [] || p.cacheDir != dir
                    || forall r :: r in rows ==> (RecnumBeyond(p.last, dir, r) <==> RecnumBeyond(Some(row.recnum), dir, r)))
  {
    var q := InsertedPos(p, row);
    MovedUnderQueueIff(meta, rows, n, p, q, dir);
    assert StepPending(meta.recnumCol, rows + {row}, q.last, dir, []) == StepPending(meta.recnumCol, rows, q.last, dir, []);
  }

  /** Two rows in order. */
  lemma {:induction false} TwoAhead(rc: string, a: Row, b: Row)
    requires a.recnum < b.recnum
    ensures UniqueRecnums({a, b}) && StepAhead(rc, {a, b}, None, 1, []) == [a, b]
  {
    BeforeByRecnum(rc, 1, a, b);
    SortedUnique(rc, StepItems(rc, 1), [a, b]);
    assert Elements([a, b]) == {a, b};
    assert StepPending(rc, {a, b}, None, 1, []) == {a, b};
  }

  /** With two rows and read-ahead: Step First, Reset, Step Next gives the second row instead of the first. */
  lemma {:induction false} ResetSkips(meta: TableMeta, a: Row, b: Row, n: nat)
    requires RecnumFirst(meta) && a.recnum < b.recnum && n >= 2
    ensures var rows, start := {a, b}, StepPos(None, 1, [], 1, None);
            var first := CachedStep(meta, rows, n, start, 1);
            && first.row == Some(a)
            && CachedStep(meta, rows, n, Reset(first.pos), 1).row == Some(b)
            && CachedStep(meta, rows, n, Reset(start), 1).row == Some(a)
  {
    TwoAhead(meta.recnumCol, a, b);
  }
}
