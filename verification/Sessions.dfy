/** Whole sessions: reads, steps, writes and transactions of any number of handles, one after another on a
    table that the writes change and a connection on which statements can fail. */
module Sessions {
  import opened Wrappers
  import opened Status
  import opened Bytes
  import opened Relation
  import opened Schema
  import opened Selected
  import opened Descriptor
  import opened Batches
  import opened Reply
  import opened HandleState
  import opened GetOps
  import opened GetExt
  import opened UpdateOps
  import opened StepOps
  import opened StepExt
  import opened StepRuns
  import opened Percent
  import opened Txn
  import opened CursorRuns

  /** A handle's two positions. */
  datatype Hand = Hand(c: Cursor, p: StepPos)

  /** The table with its transaction, and the open handles. */
  datatype Session = Session(txn: TxnState, hands: map<nat, Hand>)

  /** What an operation whose statement failed leaves of the handle: nothing changes; a step has dropped its
      queue; Step First and Last have forgotten the position too; an extended Get has moved over the `k` rows
      fetched before, which it does not return. */
  datatype Damage = Untouched | QueueDropped | PositionForgotten | BatchBroken(dir: int, buf: seq<byte>, k: nat)

  /** An operation with what it returned. */
  datatype Act =
    | Moved(op: CursorOp)
    | Restarted
    | Stepped(first: bool, dir: int, code: int, row: Option<Row>)
    | SteppedBatch(dir: int, buf: seq<byte>, out: seq<Row>, code: int)
    | Sought(buf: seq<byte>, code: int, row: Option<Row>)
    | Updated(record: seq<byte>, code: int)
    | Chunked(desc: seq<byte>, code: int)
    | Deleted(code: int)
    | Inserted(added: Row)
    | Failed(damage: Damage, exec: Exec)
    | Began(exec: Exec, code: int)
    | Ended(exec: Exec, code: int)
    | Aborted(exec: Exec, code: int)

  // ---- one operation ---------------------------------------------------------------------------------

  function Wrote(txn: TxnState, rows: set<Row>): TxnState {
    Step(txn, Write(rows), Fine)
  }

  /** Reads, steps and writes whose statements are carried out: the table and the handle afterwards. */
  ghost predicate Served(meta: TableMeta, txn: TxnState, x: Hand, act: Act, txn': TxnState, x': Hand)
    requires UniqueRecnums(txn.rows)
  {
    var rows := txn.rows;
    match act
    case Moved(op) =>
      && !op.ToReset? && !op.ToAborted? && CursorStep(meta, rows, x.c, op, x'.c)
      && x'.p == x.p.(any := x'.c.last) && txn' == txn
    case Restarted => x' == Hand(ResetCursor(x.c), Reset(x.p)) && txn' == txn
    case Stepped(first, dir, code, row) =>
      var r := CachedStep(meta, rows, ChunkSize(meta), if first then Forgotten(x.p) else x.p, dir);
      code == r.code && row == r.row && x' == Hand(x.c.(last := r.pos.any), r.pos) && txn' == txn
    case SteppedBatch(dir, buf, out, code) =>
      var r := ExtendedStep(meta, rows, x.p, dir, buf);
      code == r.code && out == r.out && x' == Hand(x.c.(last := r.pos.any), r.pos) && txn' == txn
    case Sought(buf, code, row) =>
      && FoundAt(meta, rows, buf, code, row) && txn' == txn
      && x' == if row.None? then x
               else Hand(x.c.(last := Some(SeenRecnum(meta, row.value))), SoughtPos(meta, x.p, row.value))
    case Updated(record, code) =>
      && code == UpdateStatus(meta, x.c.last, record) && x' == x
      && txn' == if code == BTR_SUCCESS then Wrote(txn, AfterUpdate(meta, rows, x.c.last.value, record)) else txn
    case Chunked(desc, code) =>
      x' == x &&
      (match ChunkOutcome(meta, rows, x.c.last, desc)
       case Err(e) => code == e && txn' == txn
       case Ok(record) => code == BTR_SUCCESS && txn' == Wrote(txn, AfterUpdate(meta, rows, x.c.last.value, record)))
    case Deleted(code) =>
      && code == DeleteStatus(x.c.last) && x' == x
      && txn' == if code == BTR_SUCCESS then Wrote(txn, WithoutRecnum(rows, x.c.last.value)) else txn
    case Inserted(row) =>
      && (forall r :: r in rows ==> r.recnum != row.recnum)
      && txn' == Wrote(txn, rows + {row}) && x' == Hand(x.c.(last := Some(row.recnum)), InsertedPos(x.p, row))
    case _ => false
  }

  /** The cursor of an extended Get that failed after `k` rows. */
  ghost predicate BrokenAfter(meta: TableMeta, rows: set<Row>, c: Cursor, dir: int, buf: seq<byte>, k: nat, c': Cursor) {
    match ReadGne(meta.fields, buf)
    case None => false
    case Some(g) =>
      && ActiveIndex(meta, c).Some? && !NoColumns(meta) && k < MaxRecs(g)
      && var ahead := AheadOf(meta, rows, ActiveIndex(meta, c).value, dir, g.terms);
         var move := MoveOf(meta, ActiveIndex(meta, c).value, dir);
         && |BatchRows(ahead, move, SizeOf(GetRead(meta), g.extracts), |buf|, k, c, 2, 0)| == k
         && c' == BatchEnd(ahead, move, SizeOf(GetRead(meta), g.extracts), |buf|, k, c, 2, 0)
  }

  ghost predicate Damaged(meta: TableMeta, rows: set<Row>, x: Hand, damage: Damage, x': Hand) {
    match damage
    case Untouched => x' == x
    case QueueDropped => x' == x.(p := x.p.(cache := []))
    case PositionForgotten => x' == x.(p := Forgotten(x.p))
    case BatchBroken(dir, buf, k) =>
      BrokenAfter(meta, rows, x.c, dir, buf, k, x'.c) && x'.p == x.p.(any := x'.c.last)
  }

  /** The operation got a row out of the backend, or a write into it. */
  predicate Works(x: Hand, act: Act) {
    match act
    case Stepped(first, dir, _, row) => row.Some? && (first || x.p.cacheDir != dir || x.p.cache == [])
    case Updated(_, code) => code == BTR_SUCCESS
    case Chunked(_, code) => code == BTR_SUCCESS
    case Deleted(code) => code == BTR_SUCCESS
    case _ => Brings(act)
  }

  /** The operation returned a row, inserted one, or moved over one before it failed. */
  predicate Brings(act: Act) {
    match act
    case Moved(op) =>
      (match op
       case ToEnd(_, _, _, row) => row.Some?
       case ToKey(_, _, _, _, _, _, row) => row.Some?
       case ToNeighbour(_, _, row) => row.Some?
       case ToBatch(_, _, out, _, _) => out != []
       case ToDirect(_, _, row) => row.Some?
       case _ => false)
    case Stepped(_, _, _, row) => row.Some?
    case SteppedBatch(_, _, out, _) => out != []
    case Sought(_, _, row) => row.Some?
    case Inserted(_) => true
    case Failed(damage, _) => damage.BatchBroken? && damage.k > 0
    case _ => false
  }

  /** One operation of one handle. In a doomed transaction the backend serves nothing. */
  ghost predicate HandActs(meta: TableMeta, txn: TxnState, x: Hand, act: Act, txn': TxnState, x': Hand) {
    UniqueRecnums(txn.rows) && x.c.last == x.p.any && (txn.doomed ==> !Works(x, act)) &&
    match act
    case Failed(damage, exec) =>
      !exec.Fine? && Damaged(meta, txn.rows, x, damage, x') && txn' == Step(txn, Write(txn.rows), exec)
    case Began(exec, code) => code == StatusOf(txn, Begin, exec) && txn' == Step(txn, Begin, exec) && x' == x
    case Ended(exec, code) => code == StatusOf(txn, TxnOp.End, exec) && txn' == Step(txn, TxnOp.End, exec) && x' == x
    case Aborted(exec, code) =>
      && code == StatusOf(txn, Abort, exec) && txn' == Step(txn, Abort, exec)
      && x' == if RollsBack(txn, act) then NoHand(x) else x
    case _ => Served(meta, txn, x, act, txn', x')
  }

  /** The Abort takes every handle's positions. */
  predicate RollsBack(txn: TxnState, act: Act) {
    act.Aborted? && act.exec.Fine? && txn.active
  }

  function NoHand(x: Hand): Hand {
    Hand(NoCursor(x.c), NoStepPos(x.p))
  }

  /** The same among all open handles: the others keep theirs, unless a rollback takes them. */
  ghost predicate Acts(meta: TableMeta, s: Session, h: nat, act: Act, s': Session) {
    && h in s.hands && s'.hands.Keys == s.hands.Keys
    && HandActs(meta, s.txn, s.hands[h], act, s'.txn, s'.hands[h])
    && forall k :: k in s.hands && k != h ==>
         s'.hands[k] == if RollsBack(s.txn, act) then NoHand(s.hands[k]) else s.hands[k]
  }

  /** An operation and the handle it was called on. */
  datatype Call = Call(h: nat, act: Act)

  ghost predicate SessionRun(meta: TableMeta, calls: seq<Call>, ss: seq<Session>) {
    && |ss| == |calls| + 1
    && forall i :: 0 <= i < |calls| ==> Acts(meta, ss[i], calls[i].h, calls[i].act, ss[i + 1])
  }

  // ---- what every operation keeps ------------------------------------------------------------------

  predicate SessionOk(s: Session) {
    && UniqueRecnums(s.txn.rows) && UniqueRecnums(s.txn.saved)
    && forall k :: k in s.hands ==> s.hands[k].c.last == s.hands[k].p.any
  }

  lemma {:induction false} UpdateKeepsUnique(meta: TableMeta, rows: set<Row>, recnum: int, record: seq<byte>)
    requires UniqueRecnums(rows)
    ensures UniqueRecnums(AfterUpdate(meta, rows, recnum, record))
  {
    var now := AfterUpdate(meta, rows, recnum, record);
    forall a, b | a in now && b in now && a.recnum == b.recnum
      ensures a == b
    {
      var x :| x in rows && a == if x.recnum == recnum then Stored(meta, x, record) else x;
      var y :| y in rows && b == if y.recnum == recnum then Stored(meta, y, record) else y;
      assert x.recnum == y.recnum;
    }
  }

  lemma {:induction false} ServedKeeps(meta: TableMeta, txn: TxnState, x: Hand, act: Act, txn': TxnState, x': Hand)
    requires UniqueRecnums(txn.rows) && UniqueRecnums(txn.saved) && x.c.last == x.p.any
    requires Served(meta, txn, x, act, txn', x')
    ensures UniqueRecnums(txn'.rows) && UniqueRecnums(txn'.saved) && x'.c.last == x'.p.any
  {
    match act
    case Updated(record, code) =>
      if code == BTR_SUCCESS {
        UpdateKeepsUnique(meta, txn.rows, x.c.last.value, record);
      }
    case Chunked(desc, code) =>
      var outcome := ChunkOutcome(meta, txn.rows, x.c.last, desc);
      if outcome.Ok? {
        UpdateKeepsUnique(meta, txn.rows, x.c.last.value, outcome.value);
      }
    case _ =>
  }

  lemma {:induction false} HandKeeps(meta: TableMeta, txn: TxnState, x: Hand, act: Act, txn': TxnState, x': Hand)
    requires UniqueRecnums(txn.saved) && HandActs(meta, txn, x, act, txn', x')
    ensures UniqueRecnums(txn'.rows) && UniqueRecnums(txn'.saved) && x'.c.last == x'.p.any
  {
    match act
    case Failed(_, _) =>
    case Began(_, _) =>
    case Ended(_, _) =>
    case Aborted(_, _) =>
    case _ => ServedKeeps(meta, txn, x, act, txn', x');
  }

  /** Whatever is done and however it ends, record numbers stay unique and each handle's positions stay
      together, so a session can always go on. */
  lemma {:induction false} ActKeepsSession(meta: TableMeta, s: Session, h: nat, act: Act, s': Session)
    requires SessionOk(s) && Acts(meta, s, h, act, s')
    ensures SessionOk(s')
  {
    HandKeeps(meta, s.txn, s.hands[h], act, s'.txn, s'.hands[h]);
    forall k | k in s'.hands
      ensures s'.hands[k].c.last == s'.hands[k].p.any
    {
      assert k in s.hands;
    }
  }

  // ---- the flag ----------------------------------------------------------------------------------------

  /** The call parts the driver's flag from the backend. */
  predicate PartsCall(txn: TxnState, act: Act) {
    match act
    case Failed(_, exec) => Parts(txn, Write(txn.rows), exec)
    case Ended(exec, _) => Parts(txn, TxnOp.End, exec)
    case Aborted(exec, _) => Parts(txn, Abort, exec)
    case _ => false
  }

  lemma {:induction false} HandKeepsFlag(meta: TableMeta, txn: TxnState, x: Hand, act: Act, txn': TxnState, x': Hand)
    requires HandActs(meta, txn, x, act, txn', x') && Agrees(txn)
    ensures Agrees(txn') <==> !PartsCall(txn, act)
  {
    match act
    case Failed(_, exec) => AgreementKeptIff(txn, Write(txn.rows), exec);
    case Began(exec, _) => AgreementKeptIff(txn, Begin, exec);
    case Ended(exec, _) => AgreementKeptIff(txn, TxnOp.End, exec);
    case Aborted(exec, _) => AgreementKeptIff(txn, Abort, exec);
    case _ =>
  }

  /** Over a whole session the flag is up exactly when a transaction is open, as long as no statement ends
      the transaction and no commit or rollback is refused. */
  lemma {:induction false} SessionKeepsFlag(meta: TableMeta, calls: seq<Call>, ss: seq<Session>, n: nat)
    requires SessionRun(meta, calls, ss) && Agrees(ss[0].txn) && n <= |calls|
    requires forall i :: 0 <= i < n ==> !PartsCall(ss[i].txn, calls[i].act)
    ensures Agrees(ss[n].txn)
    decreases n
  {
    if n > 0 {
      SessionKeepsFlag(meta, calls, ss, n - 1);
      var h := calls[n - 1].h;
      assert Acts(meta, ss[n - 1], h, calls[n - 1].act, ss[n]);
      HandKeepsFlag(meta, ss[n - 1].txn, ss[n - 1].hands[h], calls[n - 1].act, ss[n].txn, ss[n].hands[h]);
    }
  }

  // ---- nothing to write on ---------------------------------------------------------------------------

  lemma {:induction false} EmptyBatchStays(meta: TableMeta, rows: set<Row>, c: Cursor, dir: int, buf: seq<byte>, code: int,
                                           reply: Option<seq<byte>>, c': Cursor)
    requires ExtendedCall(meta, rows, c, dir, buf, [], code, reply, c')
    ensures c' == c
  {
    var g := ReadGne(meta.fields, buf);
    if |buf| >= 8 && g.Some? && ActiveIndex(meta, c).Some? && !NoColumns(meta) {
      var idx := ActiveIndex(meta, c).value;
      var ahead, move := AheadOf(meta, rows, idx, dir, g.value.terms), MoveOf(meta, idx, dir);
      var size, max := SizeOf(GetRead(meta), g.value.extracts), MaxRecs(g.value);
      assert BatchRows(ahead, move, size, |buf|, max, c, 2, 0) == [];
      assert BatchEnd(ahead, move, size, |buf|, max, c, 2, 0) == c;
    }
  }

  lemma {:induction false} ServedWithoutRow(meta: TableMeta, txn: TxnState, x: Hand, act: Act, txn': TxnState, x': Hand)
    requires UniqueRecnums(txn.rows) && x.c.last == x.p.any == None && Served(meta, txn, x, act, txn', x') && !Brings(act)
    ensures x'.c.last == None
  {
    if act.Moved? && act.op.ToBatch? {
      EmptyBatchStays(meta, txn.rows, x.c, act.op.dir, act.op.buf, act.op.code, act.op.reply, x'.c);
    }
  }

  /** Without a row there is no position to stand on. */
  lemma {:induction false} NoRowNoPosition(meta: TableMeta, txn: TxnState, x: Hand, act: Act, txn': TxnState, x': Hand)
    requires HandActs(meta, txn, x, act, txn', x') && x.c.last == None && !Brings(act)
    ensures x'.c.last == None
  {
    match act
    case Failed(_, _) =>
    case Began(_, _) =>
    case Ended(_, _) =>
    case Aborted(_, _) =>
    case _ => ServedWithoutRow(meta, txn, x, act, txn', x');
  }

  /** And nothing to write on: 8, and neither table nor handle changes. */
  lemma {:induction false} NoPositionNoWrite(meta: TableMeta, txn: TxnState, x: Hand, act: Act, txn': TxnState, x': Hand)
    requires HandActs(meta, txn, x, act, txn', x') && x.c.last == None
    ensures act.Updated? || act.Chunked? || act.Deleted? ==> act.code == BTR_INVALID_POS && txn' == txn && x' == x
  {
  }

  lemma {:induction false} NoPositionAfterAbort(meta: TableMeta, calls: seq<Call>, ss: seq<Session>, h: nat, n: nat)
    requires SessionRun(meta, calls, ss) && 0 < n <= |calls| && calls[0].act == Aborted(Fine, BTR_SUCCESS)
    requires h in ss[0].hands && forall i :: 0 < i < n && calls[i].h == h ==> !Brings(calls[i].act)
    ensures h in ss[n].hands && ss[n].hands[h].c.last == None
    decreases n
  {
    if n == 1 {
      assert Acts(meta, ss[0], calls[0].h, calls[0].act, ss[1]);
    } else {
      NoPositionAfterAbort(meta, calls, ss, h, n - 1);
      StaysWithout(meta, ss[n - 1], calls[n - 1].h, calls[n - 1].act, ss[n], h);
    }
  }

  /** After a rollback by any handle, whatever is done, Update, Update Chunk and Delete return 8 on every
      handle and change nothing until an operation of that handle has brought a row. */
  lemma {:induction false} NoWritesAfterAbort(meta: TableMeta, calls: seq<Call>, ss: seq<Session>, h: nat, n: nat)
    requires SessionRun(meta, calls, ss) && 0 < n < |calls| && calls[0].act == Aborted(Fine, BTR_SUCCESS)
    requires h in ss[0].hands && forall i :: 0 < i < n && calls[i].h == h ==> !Brings(calls[i].act)
    requires calls[n].h == h && (calls[n].act.Updated? || calls[n].act.Chunked? || calls[n].act.Deleted?)
    ensures calls[n].act.code == BTR_INVALID_POS && ss[n + 1] == ss[n]
  {
    NoPositionAfterAbort(meta, calls, ss, h, n);
    assert Acts(meta, ss[n], h, calls[n].act, ss[n + 1]);
    NoPositionNoWrite(meta, ss[n].txn, ss[n].hands[h], calls[n].act, ss[n + 1].txn, ss[n + 1].hands[h]);
    assert ss[n + 1].hands == ss[n].hands;
  }

  lemma {:induction false} StaysWithout(meta: TableMeta, s: Session, k: nat, act: Act, s': Session, h: nat)
    requires Acts(meta, s, k, act, s') && h in s.hands && s.hands[h].c.last == None && (k == h ==> !Brings(act))
    ensures h in s'.hands && s'.hands[h].c.last == None
  {
    if k == h {
      NoRowNoPosition(meta, s.txn, s.hands[h], act, s'.txn, s'.hands[h]);
    }
  }

  // ---- transactions from Begin to their end ------------------------------------------------------------

  /** Nothing in the calls from 1 up to `n` ends the transaction. */
  predicate StaysInside(calls: seq<Call>, n: nat)
    requires n <= |calls|
  {
    forall i :: 0 < i < n ==>
      var act := calls[i].act;
      !act.Ended? && !act.Aborted? && !(act.Failed? && (act.exec.Lost? || act.exec.Undone?))
  }

  /** Nothing but the end of a transaction touches its starting point, and doom stays. */
  lemma {:induction false} HandKeepsSaved(meta: TableMeta, txn: TxnState, x: Hand, act: Act, txn': TxnState, x': Hand)
    requires HandActs(meta, txn, x, act, txn', x') && txn.active && txn.open
    requires !act.Ended? && !act.Aborted? && !(act.Failed? && (act.exec.Lost? || act.exec.Undone?))
    ensures txn'.active && txn'.open && txn'.saved == txn.saved
    ensures txn'.doomed <==> txn.doomed || (act.Failed? && act.exec.Doomed?)
  {
  }

  /** Some statement between Begin and call `n` was refused in a way that dooms the transaction. */
  predicate SomeDooms(calls: seq<Call>, n: nat)
    requires n <= |calls|
  {
    exists i :: 0 < i < n && calls[i].act.Failed? && calls[i].act.exec.Doomed?
  }

  lemma {:induction false} StaysBegun(meta: TableMeta, calls: seq<Call>, ss: seq<Session>, n: nat)
    requires SessionRun(meta, calls, ss) && Agrees(ss[0].txn) && calls != [] && calls[0].act == Began(Fine, BTR_SUCCESS)
    requires 0 < n <= |calls| && StaysInside(calls, n)
    ensures ss[n].txn.active && ss[n].txn.open && ss[n].txn.saved == ss[0].txn.rows
    ensures ss[n].txn.doomed <==> SomeDooms(calls, n)
    decreases n
  {
    if n == 1 {
      assert Acts(meta, ss[0], calls[0].h, calls[0].act, ss[1]);
    } else {
      StaysBegun(meta, calls, ss, n - 1);
      var h, act := calls[n - 1].h, calls[n - 1].act;
      assert Acts(meta, ss[n - 1], h, act, ss[n]);
      HandKeepsSaved(meta, ss[n - 1].txn, ss[n - 1].hands[h], act, ss[n].txn, ss[n].hands[h]);
      assert SomeDooms(calls, n) <==> SomeDooms(calls, n - 1) || (act.Failed? && act.exec.Doomed?);
    }
  }

  /** Begin, any reads, steps, updates, chunk updates, deletes and inserts of any handles, refused or not,
      then Abort: the table is as it was at Begin, and no handle has a position or rows read ahead. */
  lemma {:induction false} SessionRolledBack(meta: TableMeta, calls: seq<Call>, ss: seq<Session>, n: nat, h: nat)
    requires SessionRun(meta, calls, ss) && Agrees(ss[0].txn) && calls != [] && calls[0].act == Began(Fine, BTR_SUCCESS)
    requires 0 < n < |calls| && StaysInside(calls, n) && calls[n].act.Aborted? && calls[n].act.exec.Fine? && h in ss[n].hands
    ensures calls[n].act.code == BTR_SUCCESS && ss[n + 1].txn.rows == ss[0].txn.rows && h in ss[n + 1].hands
    ensures var x := ss[n + 1].hands[h]; x.c.keys == [] && x.c.last == None && x.p.last == None && x.p.cache == []
  {
    StaysBegun(meta, calls, ss, n);
    assert Acts(meta, ss[n], calls[n].h, calls[n].act, ss[n + 1]);
  }

  /** The same up to End, which reports success: the writes are kept if and only if no refused statement
      doomed the transaction. If one did, the table is as at Begin, while every handle keeps the positions
      and the rows read ahead that it got inside. */
  lemma {:induction false} SessionEnds(meta: TableMeta, calls: seq<Call>, ss: seq<Session>, n: nat)
    requires SessionRun(meta, calls, ss) && Agrees(ss[0].txn) && calls != [] && calls[0].act == Began(Fine, BTR_SUCCESS)
    requires 0 < n < |calls| && StaysInside(calls, n) && calls[n].act.Ended? && calls[n].act.exec.Fine?
    ensures calls[n].act.code == BTR_SUCCESS && ss[n + 1].hands == ss[n].hands
    ensures ss[n + 1].txn.rows == if SomeDooms(calls, n) then ss[0].txn.rows else ss[n].txn.rows
  {
    StaysBegun(meta, calls, ss, n);
    assert Acts(meta, ss[n], calls[n].h, calls[n].act, ss[n + 1]);
    assert forall k :: k in ss[n].hands ==> ss[n + 1].hands[k] == ss[n].hands[k];
  }
}
