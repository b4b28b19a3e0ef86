/** Transactions on the shared connection, the flag that tracks them, and currency after a rollback. */
module Txn {
  import opened Wrappers
  import opened Status
  import opened Relation
  import opened Bytes
  import opened RecordCodec
  import opened UpdateOps
  import opened HandleState

  /** How a statement sent to the backend ends: carried out; refused, and the transaction can go on;
      refused, and the transaction can only be rolled back from here, as PostgreSQL has it; refused, and
      the transaction is rolled back at once, as for a deadlock's victim; or lost with the connection,
      which makes the backend roll back. */
  datatype Exec = Fine | Refused(code: int) | Doomed(code: int) | Undone(code: int) | Lost(code: int)

  /** The driver's flag, whether the backend has a transaction open, the table, the table the open
      transaction started from, and whether it can only be rolled back. */
  datatype TxnState = TxnState(active: bool, open: bool, rows: set<Row>, saved: set<Row>, doomed: bool)

  datatype TxnOp = Begin | End | Abort | Write(rows: set<Row>)

  function Dropped(s: TxnState): TxnState {
    if s.open then s.(open := false, rows := s.saved, doomed := false) else s
  }

  function CodeOf(e: Exec): int {
    match e
    case Fine => BTR_SUCCESS
    case Refused(code) => code
    case Doomed(code) => code
    case Undone(code) => code
    case Lost(code) => code
  }

  /** What a statement does when it is carried out. A doomed transaction takes no writes, and its End
      rolls back. */
  function CarriedOut(s: TxnState, op: TxnOp): TxnState {
    match op
    case Begin => s.(open := true, saved := s.rows, doomed := false)
    case End => if s.doomed then Dropped(s) else s.(open := false)
    case Abort => Dropped(s)
    case Write(rows) => if s.doomed then s else s.(rows := rows)
  }

  function Executed(s: TxnState, op: TxnOp, e: Exec): TxnState {
    match e
    case Fine => CarriedOut(s, op)
    case Refused(_) => s
    case Doomed(_) => s.(doomed := s.open)
    case Undone(_) => Dropped(s)
    case Lost(_) => Dropped(s)
  }

  /** One operation: its status and the state after it. End and Abort take the flag down whatever the
      backend says. */
  function Step(s: TxnState, op: TxnOp, e: Exec): TxnState {
    match op
    case Begin => if s.active then s else Executed(s, op, e).(active := e.Fine?)
    case End => if !s.active then s else Executed(s, op, e).(active := false)
    case Abort => if !s.active then s else Executed(s, op, e).(active := false)
    case Write(_) => Executed(s, op, e)
  }

  function StatusOf(s: TxnState, op: TxnOp, e: Exec): int {
    match op
    case Begin => if s.active then BTR_TXN_ACTIVE else CodeOf(e)
    case End => if !s.active then BTR_NO_TXN else CodeOf(e)
    case Abort => if !s.active then BTR_NO_TXN else CodeOf(e)
    case Write(_) => CodeOf(e)
  }

  /** Begin with the flag up gives 37, End and Abort with it down 39; nothing changes, and the backend is not asked. */
  lemma {:induction false} OutOfTurn(s: TxnState, e: Exec)
    ensures s.active ==> StatusOf(s, Begin, e) == 37 && Step(s, Begin, e) == s
    ensures !s.active ==> StatusOf(s, End, e) == 39 && Step(s, End, e) == s
    ensures !s.active ==> StatusOf(s, Abort, e) == 39 && Step(s, Abort, e) == s
    ensures StatusOf(s, if s.active then End else Begin, Fine) == 0
  {
  }

  // ---- the flag and the backend -----------------------------------------------------------------------------

  /** The flag is up exactly when the backend has a transaction open. */
  predicate Agrees(s: TxnState) {
    s.active <==> s.open
  }

  /** The steps that part the two: a write in a transaction that ends it, with or without the connection,
      and a commit or rollback the backend refused. */
  predicate Parts(s: TxnState, op: TxnOp, e: Exec) {
    s.active && if op.Write? then e.Lost? || e.Undone? else !op.Begin? && (e.Refused? || e.Doomed?)
  }

  /** From agreement, one step keeps it exactly when it is none of those. */
  lemma {:induction false} AgreementKeptIff(s: TxnState, op: TxnOp, e: Exec)
    requires Agrees(s)
    ensures Agrees(Step(s, op, e)) <==> !Parts(s, op, e)
  {
  }

  /** The next End or Abort takes the flag down, so a lost connection is forgotten then. */
  lemma {:induction false} LostIsForgotten(s: TxnState, op: TxnOp, e: Exec)
    requires s.active && !s.open && (op == End || op == Abort)
    ensures Agrees(Step(s, op, e)) && Step(s, op, e).rows == s.rows
    ensures StatusOf(s, Begin, e) == BTR_TXN_ACTIVE
  {
  }

  /** A statement of a run and how it ended. */
  datatype Event = Event(op: TxnOp, exec: Exec)

  function Run(s: TxnState, events: seq<Event>): TxnState
    decreases |events|
  {
    if events == [] then s else Run(Step(s, events[0].op, events[0].exec), events[1..])
  }

  /** No event of the run parts the flag from the backend. */
  predicate Together(s: TxnState, events: seq<Event>)
    decreases |events|
  {
    events != [] ==> !Parts(s, events[0].op, events[0].exec) && Together(Step(s, events[0].op, events[0].exec), events[1..])
  }

  predicate AllFine(events: seq<Event>) {
    forall i :: 0 <= i < |events| ==> events[i].exec.Fine?
  }

  /** Over any run without such an event, in particular any without a backend failure, the flag is up
      exactly when a transaction is open. */
  lemma {:induction false} FlagTracksBackend(s: TxnState, events: seq<Event>)
    requires Agrees(s)
    ensures AllFine(events) ==> Together(s, events)
    ensures Together(s, events) ==> Agrees(Run(s, events))
    decreases |events|
  {
    if events != [] {
      var next := Step(s, events[0].op, events[0].exec);
      AgreementKeptIff(s, events[0].op, events[0].exec);
      if Agrees(next) {
        FlagTracksBackend(next, events[1..]);
      }
    }
  }

  /** Nothing in the run ends the transaction. */
  predicate StaysOpen(events: seq<Event>) {
    forall i :: 0 <= i < |events| ==>
      (events[i].op.Begin? || events[i].op.Write?) && !events[i].exec.Lost? && !events[i].exec.Undone?
  }

  lemma {:induction false} OpenKeepsSaved(s: TxnState, events: seq<Event>)
    requires s.active && s.open && StaysOpen(events)
    ensures var t := Run(s, events); t.active && t.open && t.saved == s.saved
    decreases |events|
  {
    if events != [] {
      assert events[0] in events;
      OpenKeepsSaved(Step(s, events[0].op, events[0].exec), events[1..]);
    }
  }

  lemma {:induction false} RunAppend(s: TxnState, a: seq<Event>, b: seq<Event>)
    ensures Run(s, a + b) == Run(Run(s, a), b)
    decreases |a|
  {
    if a == [] {
      assert a + b == b;
    } else {
      assert (a + b)[0] == a[0] && (a + b)[1..] == a[1..] + b;
      RunAppend(Step(s, a[0].op, a[0].exec), a[1..], b);
    }
  }

  /** Begin, any writes and any further Begins, then Abort: the table is as it was at Begin, even when
      the connection is lost by the Abort itself. */
  lemma {:induction false} AbortRestores(s: TxnState, events: seq<Event>, e: Exec)
    requires Agrees(s) && !s.active && StaysOpen(events) && !e.Refused? && !e.Doomed?
    ensures Run(s, [Event(Begin, Fine)] + events + [Event(Abort, e)]) == s.(saved := s.rows, doomed := false)
  {
    var begun := Step(s, Begin, Fine);
    var first, last := [Event(Begin, Fine)], [Event(Abort, e)];
    RunAppend(s, first + events, last);
    RunAppend(s, first, events);
    assert Run(s, first) == begun by {
      assert first[1..] == [];
    }
    OpenKeepsSaved(begun, events);
    assert last[1..] == [];
  }

  /** End keeps what was written, exactly as it stands at the time, unless a refused write has doomed the
      transaction: then the table is as it was at Begin, though End reports success. */
  lemma {:induction false} EndKeeps(s: TxnState, events: seq<Event>)
    requires Agrees(s) && !s.active && StaysOpen(events)
    ensures var t := Run(s, [Event(Begin, Fine)] + events);
            var u := Run(s, [Event(Begin, Fine)] + events + [Event(End, Fine)]);
            u.rows == (if t.doomed then s.rows else t.rows) && Agrees(u) && !u.active
  {
    var first, last := [Event(Begin, Fine)], [Event(End, Fine)];
    RunAppend(s, first + events, last);
    RunAppend(s, first, events);
    assert Run(s, first) == Step(s, Begin, Fine) by {
      assert first[1..] == [];
    }
    OpenKeepsSaved(Step(s, Begin, Fine), events);
    assert last[1..] == [];
  }

  // ---- the driver ---------------------------------------------------------------------------------------------

  function NoCursor(c: Cursor): Cursor {
    c.(keys := [], desc := [], recnum := None, last := None)
  }

  function NoStepPos(p: StepPos): StepPos {
    p.(last := None, cache := [], any := None)
  }

  class Driver {
    var txnActive: bool
    const db: Backend
    var handles: map<nat, HandleEntry>

    constructor (db: Backend)
      ensures this.db == db && !txnActive && handles == map[]
    {
      this.db, txnActive, handles := db, false, map[];
    }

    function State(): TxnState
      reads this, db
    {
      TxnState(txnActive, db.inTxn, db.rows, db.saved, db.doomed)
    }

    /** Every open handle. */
    function Open(): set<HandleEntry>
      reads this
    {
      set k | k in handles :: handles[k]
    }

    /** What the backend does when a transaction is rolled back. */
    method RollBack()
      modifies db`inTxn, db`rows, db`doomed
      ensures State() == Dropped(old(State()))
    {
      if db.inTxn {
        db.rows, db.inTxn, db.doomed := db.saved, false, false;
      }
    }

    /** Send a statement; how it ends comes from outside. */
    method Execute(op: TxnOp, e: Exec) returns (code: int)
      modifies db`inTxn, db`rows, db`saved, db`doomed
      ensures code == CodeOf(e) && State() == Executed(old(State()), op, e)
    {
      match e
      case Refused(c) => return c;
      case Doomed(c) =>
        db.doomed := db.inTxn;
        return c;
      case Undone(c) =>
        RollBack();
        return c;
      case Lost(c) =>
        RollBack();
        return c;
      case Fine =>
        match op {
          case Begin => db.saved, db.inTxn, db.doomed := db.rows, true, false;
          case End =>
            if db.doomed {
              RollBack();
            } else {
              db.inTxn := false;
            }
          case Abort => RollBack();
          case Write(rows) =>
            if !db.doomed {
              db.rows := rows;
            }
        }
        code := BTR_SUCCESS;
    }

    method BeginTxn(e: Exec) returns (code: int)
      modifies this`txnActive, db`inTxn, db`rows, db`saved, db`doomed
      ensures code == StatusOf(old(State()), Begin, e) && State() == Step(old(State()), Begin, e)
    {
      if txnActive {
        return BTR_TXN_ACTIVE;
      }
      code := Execute(Begin, e);
      if e.Fine? {
        txnActive := true;
      }
    }

    method EndTxn(e: Exec) returns (code: int)
      modifies this`txnActive, db`inTxn, db`rows, db`saved, db`doomed
      ensures code == StatusOf(old(State()), End, e) && State() == Step(old(State()), End, e)
    {
      if !txnActive {
        return BTR_NO_TXN;
      }
      code := Execute(End, e);
      txnActive := false;
    }

    /** Abort; when the backend rolled back, every open handle loses its positions and the rows read
        ahead, but keeps its index in use. */
    method AbortTxn(e: Exec) returns (code: int)
      modifies this`txnActive, db`inTxn, db`rows, db`saved, db`doomed, Open()
      ensures code == StatusOf(old(State()), Abort, e) && State() == Step(old(State()), Abort, e)
      ensures handles == old(handles)
      ensures forall h :: h in Open() ==>
                h.GetCursor() == if old(txnActive) && e.Fine? then NoCursor(old(h.GetCursor())) else old(h.GetCursor())
      ensures forall h :: h in Open() ==>
                h.StepPosition() == if old(txnActive) && e.Fine? then NoStepPos(old(h.StepPosition())) else old(h.StepPosition())
    {
      if !txnActive {
        return BTR_NO_TXN;
      }
      code := Execute(Abort, e);
      txnActive := false;
      if e.Fine? {
        InvalidateAllCurrency();
      }
    }

    /** Update, Update Chunk and Delete through an open handle: the writes of a transaction. */
    method UpdateRow(h: HandleEntry, record: seq<byte>) returns (code: int)
      requires h in Open() && NoFloats(h.meta.fields) && !db.doomed
      modifies db`rows
      ensures code == UpdateStatus(h.meta, h.lastRecnum, record)
      ensures State() == if code != BTR_SUCCESS then old(State())
                         else Step(old(State()), Write(AfterUpdate(h.meta, old(db.rows), h.lastRecnum.value, record)), Fine)
    {
      code := Update(h, db, record);
    }

    method UpdateRowChunk(h: HandleEntry, desc: seq<byte>) returns (code: int)
      requires h in Open() && !db.doomed && db.recnumCol == h.meta.recnumCol && UniqueRecnums(db.rows) && NoFloats(h.meta.fields)
      modifies db`rows
      ensures match ChunkOutcome(h.meta, old(db.rows), h.lastRecnum, desc)
              case Err(e) => code == e && State() == old(State())
              case Ok(record) =>
                && code == BTR_SUCCESS
                && State() == Step(old(State()), Write(AfterUpdate(h.meta, old(db.rows), h.lastRecnum.value, record)), Fine)
    {
      code := UpdateChunk(h, db, desc);
    }

    method DeleteRow(h: HandleEntry) returns (code: int)
      requires h in Open() && !db.doomed
      modifies db`rows
      ensures code == DeleteStatus(h.lastRecnum)
      ensures State() == if code != BTR_SUCCESS then old(State())
                         else Step(old(State()), Write(WithoutRecnum(old(db.rows), h.lastRecnum.value)), Fine)
    {
      code := Delete(h, db);
    }

    method InvalidateAllCurrency()
      modifies Open()
      ensures forall h :: h in Open() ==> h.GetCursor() == NoCursor(old(h.GetCursor()))
      ensures forall h :: h in Open() ==> h.StepPosition() == NoStepPos(old(h.StepPosition()))
    {
      ghost var all := Open();
      var left := handles.Keys;
      while left != {}
        invariant left <= handles.Keys && Open() == all
        invariant forall k :: k in handles && k !in left ==> Cleared(handles[k])
        invariant forall h :: h in all ==> MaybeCleared(h)
        decreases left
      {
        var k :| k in left;
        Invalidate(handles[k]);
        left := left - {k};
      }
    }
  }

  method Invalidate(h: HandleEntry)
    modifies h
    ensures h.GetCursor() == NoCursor(old(h.GetCursor())) && h.StepPosition() == NoStepPos(old(h.StepPosition()))
  {
    h.stepLastRecnum, h.stepCache := None, [];
    h.getLastKeys, h.getLastDesc, h.getLastRecnum, h.lastRecnum := [], [], None, None;
  }

  /** The handle lost its positions. */
  twostate predicate Cleared(h: HandleEntry)
    reads h
  {
    h.GetCursor() == NoCursor(old(h.GetCursor())) && h.StepPosition() == NoStepPos(old(h.StepPosition()))
  }

  twostate predicate MaybeCleared(h: HandleEntry)
    reads h
  {
    Cleared(h) || (h.GetCursor() == old(h.GetCursor()) && h.StepPosition() == old(h.StepPosition()))
  }
}
