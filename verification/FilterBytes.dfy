/** What the bytes of a descriptor's filter ask of a row, read straight off the buffer, and that extended
    operations return by exactly that. */
module FilterBytes {
  import opened Wrappers
  import opened Bytes
  import opened SqlValues
  import opened SqlText
  import opened Relation
  import opened Schema
  import opened Selected
  import opened RecordCodec
  import opened Keyset
  import opened FilterMeaning
  import opened Descriptor
  import opened Reply
  import opened HandleState
  import opened GetOps
  import opened Walks
  import opened GetExt
  import opened StepOps
  import opened StepExt
  import opened StepRuns

  // ---- the chain as it stands in the buffer ------------------------------------------------------------

  /** A term: field type, length of the value, offset, comparison code, connector, value. */
  predicate TermFits(buf: seq<byte>, at: nat) {
    at + 7 <= |buf| && at + 7 + TwoBytes(buf, at + 1) <= |buf|
  }

  function NextTerm(buf: seq<byte>, at: nat): nat
    requires TermFits(buf, at)
  {
    at + 7 + TwoBytes(buf, at + 1)
  }

  predicate Starts(f: IntField, offset: nat) {
    f.offset % 0x1_0000 == offset
  }

  predicate Covers(f: IntField, offset: nat) {
    f.offset <= offset < f.offset + f.length
  }

  /** A term's offset names the first field that starts there, and where none does the first that covers it. */
  predicate Names(fields: seq<IntField>, offset: nat, p: int) {
    && 0 <= p < |fields|
    && (|| (Starts(fields[p], offset) && forall q :: 0 <= q < p ==> !Starts(fields[q], offset))
        || ((forall q :: 0 <= q < |fields| ==> !Starts(fields[q], offset))
            && Covers(fields[p], offset) && forall q :: 0 <= q < p ==> !Covers(fields[q], offset)))
  }

  /** The value's bytes, cut to the field's length or followed by zeros. */
  function ValueBytes(buf: seq<byte>, at: nat, length: nat): (r: seq<byte>)
    requires TermFits(buf, at)
    ensures |r| == length
  {
    seq(length, j requires 0 <= j < length => if j < TwoBytes(buf, at + 1) then buf[at + 7 + j] else 0)
  }

  /** Code 0 is equal, 1 greater, 2 not less, 3 less, 4 not greater, 5 different; NULL compares with nothing. */
  predicate Compares(code: byte, a: SqlValue, b: SqlValue) {
    && a != Null && b != Null
    && (code == 0 ==> a == b)
    && (code == 1 ==> Less(b, a))
    && (code == 2 ==> !Less(a, b))
    && (code == 3 ==> Less(a, b))
    && (code == 4 ==> !Less(b, a))
    && (code == 5 ==> a != b)
  }

  /** The term at a byte holds of a row. */
  predicate TermSays(meta: TableMeta, row: Row, buf: seq<byte>, at: nat)
    requires TermFits(buf, at)
  {
    exists p :: 0 <= p < |meta.fields| && Names(meta.fields, TwoBytes(buf, at + 3), p)
                && Compares(buf[at + 5], Column(meta.recnumCol, row, meta.fields[p].name),
                            DecodeField(meta.fields[p], ValueBytes(buf, at, meta.fields[p].length)))
  }

  /** `n` terms from a byte on: connector 2 is OR, any other AND, which binds tighter; that of the last term does not
      count. `sofar` says whether the terms since the last OR hold. */
  predicate ChainSays(meta: TableMeta, row: Row, buf: seq<byte>, at: nat, n: nat, sofar: bool)
    decreases n
  {
    && n > 0 && TermFits(buf, at)
    && var now := sofar && TermSays(meta, row, buf, at);
       if n == 1 then now
       else if buf[at + 6] == 2 then now || ChainSays(meta, row, buf, NextTerm(buf, at), n - 1, true)
       else ChainSays(meta, row, buf, NextTerm(buf, at), n - 1, now)
  }

  /** The filter of a descriptor: the count of its terms at byte 6, the terms from byte 8 on. */
  predicate Asks(meta: TableMeta, row: Row, buf: seq<byte>) {
    |buf| >= 8 && (TwoBytes(buf, 6) == 0 || ChainSays(meta, row, buf, 8, TwoBytes(buf, 6), true))
  }

  // ---- and as it is parsed ---------------------------------------------------------------------------

  lemma {:induction false} WordAt(buf: seq<byte>, at: nat, k: nat)
    requires at + k + 2 <= |buf|
    ensures U16(buf[at..], k) == TwoBytes(buf, at + k)
  {
    assert buf[at..][k..k + 2] == buf[at + k..at + k + 2];
    LeNatTwo(buf[at + k..at + k + 2]);
  }

  lemma {:induction false} StartsAtNames(fields: seq<IntField>, offset: nat) returns (p: int)
    ensures StartsAt(fields, offset).Some? ==>
              0 <= p < |fields| && fields[p] == StartsAt(fields, offset).value && Starts(fields[p], offset)
              && forall q :: 0 <= q < p ==> !Starts(fields[q], offset)
    ensures StartsAt(fields, offset).None? ==> forall q :: 0 <= q < |fields| ==> !Starts(fields[q], offset)
  {
    p := 0;
    if fields != [] && !Starts(fields[0], offset) {
      p := StartsAtNames(fields[1..], offset);
      assert forall q :: 0 < q < |fields| ==> fields[q] == fields[1..][q - 1];
      p := p + 1;
    }
  }

  lemma {:induction false} CoveringNames(fields: seq<IntField>, offset: nat) returns (p: int)
    ensures Covering(fields, offset).Some? ==>
              0 <= p < |fields| && fields[p] == Covering(fields, offset).value && Covers(fields[p], offset)
              && forall q :: 0 <= q < p ==> !Covers(fields[q], offset)
    ensures Covering(fields, offset).None? ==> forall q :: 0 <= q < |fields| ==> !Covers(fields[q], offset)
  {
    p := 0;
    if fields != [] && !Covers(fields[0], offset) {
      p := CoveringNames(fields[1..], offset);
      assert forall q :: 0 < q < |fields| ==> fields[q] == fields[1..][q - 1];
      p := p + 1;
    }
  }

  lemma {:induction false} FieldNamed(fields: seq<IntField>, offset: nat) returns (p: int)
    ensures FieldAtOffset(fields, offset).Some? ==> Names(fields, offset, p) && FieldAtOffset(fields, offset).value == fields[p]
    ensures FieldAtOffset(fields, offset).None? ==> forall q :: !Names(fields, offset, q)
  {
    p := StartsAtNames(fields, offset);
    if StartsAt(fields, offset).None? {
      p := CoveringNames(fields, offset);
    }
  }

  lemma {:induction false} NamesOne(fields: seq<IntField>, offset: nat, p: int, q: int)
    requires Names(fields, offset, p) && Names(fields, offset, q)
    ensures p == q
  {
  }

  lemma {:induction false} CodeCompares(code: byte, a: SqlValue, b: SqlValue)
    requires CmpForCode(code).Some?
    ensures Holds(CmpForCode(code).value, a, b) <==> Compares(code, a, b)
  {
    LessTotal(a, b);
    LessTotal(b, b);
  }

  lemma {:induction false} ValueReads(f: IntField, buf: seq<byte>, at: nat, value: seq<byte>)
    requires TermFits(buf, at) && value == buf[at + 7..NextTerm(buf, at)]
    ensures DecodeTermValue(f, value) == DecodeField(f, ValueBytes(buf, at, f.length))
  {
    var n := Min(|value|, f.length);
    assert value[..n] + Zeros(f.length - n) == ValueBytes(buf, at, f.length);
  }

  lemma {:induction false} RawAt(buf: seq<byte>, at: nat)
    requires at <= |buf|
    ensures FirstRaw(buf[at..]).Some? <==> TermFits(buf, at)
    ensures TermFits(buf, at) ==>
              FirstRaw(buf[at..]) == Some(RawTerm(buf[at], TwoBytes(buf, at + 3), buf[at + 5], buf[at + 6], buf[at + 7..NextTerm(buf, at)]))
  {
    if at + 7 <= |buf| {
      WordAt(buf, at, 1);
      WordAt(buf, at, 3);
      if TermFits(buf, at) {
        assert buf[at..][7..7 + TwoBytes(buf, at + 1)] == buf[at + 7..NextTerm(buf, at)];
      }
    }
  }

  lemma {:induction false} TermMeaning(meta: TableMeta, row: Row, buf: seq<byte>, at: nat, t: RawTerm, last: bool)
    requires at <= |buf| && FirstRaw(buf[at..]) == Some(t) && Resolvable(meta.fields, t)
    ensures TermFits(buf, at)
    ensures TermHolds(Resolve(meta.fields, t, last), Env(meta.recnumCol, row)) <==> TermSays(meta, row, buf, at)
  {
    RawAt(buf, at);
    var p := FieldNamed(meta.fields, t.offset);
    var f := meta.fields[p];
    ValueReads(f, buf, at, t.value);
    CodeCompares(t.cmpCode, Column(meta.recnumCol, row, f.name), DecodeTermValue(f, t.value));
    if TermSays(meta, row, buf, at) {
      var q :| 0 <= q < |meta.fields| && Names(meta.fields, TwoBytes(buf, at + 3), q)
               && Compares(buf[at + 5], Column(meta.recnumCol, row, meta.fields[q].name),
                           DecodeField(meta.fields[q], ValueBytes(buf, at, meta.fields[q].length)));
      NamesOne(meta.fields, t.offset, p, q);
    }
  }

  lemma {:induction false} ResolvedCons(fields: seq<IntField>, t: RawTerm, us: seq<RawTerm>, n: nat)
    requires AllResolvable(fields, [t] + us)
    ensures Resolvable(fields, t) && AllResolvable(fields, us)
    ensures ResolveAll(fields, [t] + us, n + 1) == [Resolve(fields, t, n == 0)] + ResolveAll(fields, us, n)
  {
    var ts := [t] + us;
    assert ts[0] == t && forall i :: 0 <= i < |us| ==> us[i] == ts[i + 1];
  }

  /** One term and those after it, if they ask the same of the row in both forms. */
  lemma {:induction false} OneTermOn(meta: TableMeta, row: Row, buf: seq<byte>, at: nat, n: nat, sofar: bool, t: Term, more: seq<Term>)
    requires TermFits(buf, at) && n == |more| + 1
    requires t.connector == OrNext <==> n > 1 && buf[at + 6] == 2
    requires TermHolds(t, Env(meta.recnumCol, row)) <==> TermSays(meta, row, buf, at)
    requires var env, now, next := Env(meta.recnumCol, row), sofar && TermSays(meta, row, buf, at), NextTerm(buf, at);
             n > 1 ==>
               && (RunsHold(more, true, env) <==> ChainSays(meta, row, buf, next, n - 1, true))
               && (RunsHold(more, now, env) <==> ChainSays(meta, row, buf, next, n - 1, now))
    ensures RunsHold([t] + more, sofar, Env(meta.recnumCol, row)) <==> ChainSays(meta, row, buf, at, n, sofar)
  {
    assert ([t] + more)[1..] == more;
  }

  lemma {:induction false} RawTail(buf: seq<byte>, at: nat, n: nat, t: RawTerm)
    requires at <= |buf| && n > 0 && RawTerms(buf[at..], n).Some? && FirstRaw(buf[at..]) == Some(t)
    ensures TermFits(buf, at) && t.connector == buf[at + 6]
    ensures RawTerms(buf[NextTerm(buf, at)..], n - 1).Some?
    ensures RawTerms(buf[at..], n).value.0 == [t] + RawTerms(buf[NextTerm(buf, at)..], n - 1).value.0
  {
    RawAt(buf, at);
    assert buf[at..][TermSize(t)..] == buf[NextTerm(buf, at)..];
  }

  /** The first of `n` terms, resolved, and the others. */
  lemma {:induction false} FirstOfChain(meta: TableMeta, row: Row, buf: seq<byte>, at: nat, n: nat, ts: seq<RawTerm>)
    returns (t: Term, us: seq<RawTerm>)
    requires at <= |buf| && n > 0 && RawTerms(buf[at..], n).Some? && ts == RawTerms(buf[at..], n).value.0
    requires AllResolvable(meta.fields, ts)
    ensures TermFits(buf, at) && (t.connector == OrNext <==> n > 1 && buf[at + 6] == 2)
    ensures TermHolds(t, Env(meta.recnumCol, row)) <==> TermSays(meta, row, buf, at)
    ensures RawTerms(buf[NextTerm(buf, at)..], n - 1).Some? && us == RawTerms(buf[NextTerm(buf, at)..], n - 1).value.0
    ensures AllResolvable(meta.fields, us) && ResolveAll(meta.fields, ts, n) == [t] + ResolveAll(meta.fields, us, n - 1)
  {
    var raw := FirstRaw(buf[at..]).value;
    RawTail(buf, at, n, raw);
    us := RawTerms(buf[NextTerm(buf, at)..], n - 1).value.0;
    ResolvedCons(meta.fields, raw, us, n - 1);
    t := Resolve(meta.fields, raw, n == 1);
    TermMeaning(meta, row, buf, at, raw, n == 1);
  }

  lemma {:induction false} ChainMeaning(meta: TableMeta, row: Row, buf: seq<byte>, at: nat, n: nat, ts: seq<RawTerm>, sofar: bool)
    requires at <= |buf| && n > 0 && RawTerms(buf[at..], n).Some? && ts == RawTerms(buf[at..], n).value.0
    requires AllResolvable(meta.fields, ts)
    ensures RunsHold(ResolveAll(meta.fields, ts, n), sofar, Env(meta.recnumCol, row)) <==> ChainSays(meta, row, buf, at, n, sofar)
    decreases n
  {
    var t, us := FirstOfChain(meta, row, buf, at, n, ts);
    if n > 1 {
      ChainMeaning(meta, row, buf, NextTerm(buf, at), n - 1, us, true);
      ChainMeaning(meta, row, buf, NextTerm(buf, at), n - 1, us, sofar && TermSays(meta, row, buf, at));
    }
    OneTermOn(meta, row, buf, at, n, sofar, t, ResolveAll(meta.fields, us, n - 1));
  }

  /** The terms parsed from a descriptor ask of a row exactly what its bytes ask. */
  lemma {:induction false} ParsedAsks(meta: TableMeta, row: Row, buf: seq<byte>)
    requires ReadGne(meta.fields, buf).Some?
    ensures FilterHolds(ReadGne(meta.fields, buf).value.terms, Env(meta.recnumCol, row)) <==> Asks(meta, row, buf)
    ensures ReadGne(meta.fields, buf).value.terms == [] <==> TwoBytes(buf, 6) == 0
  {
    LeNatTwo(buf[6..8]);
    var n := TwoBytes(buf, 6);
    if n > 0 {
      ChainMeaning(meta, row, buf, 8, n, RawTerms(buf[8..], n).value.0, true);
    }
  }

  // ---- the rows extended operations return -----------------------------------------------------------

  lemma {:induction false} PendingAsks(meta: TableMeta, rows: set<Row>, c: Cursor, idx: nat, dir: int, buf: seq<byte>, row: Row)
    requires ReadGne(meta.fields, buf).Some?
    ensures row in Elements(Ahead(meta, rows, c, idx, dir, ReadGne(meta.fields, buf).value.terms)) <==>
              row in rows && Asks(meta, row, buf) && (Positioned(c) ==> Passes(meta, c, idx, dir, row))
  {
    var terms := ReadGne(meta.fields, buf).value.terms;
    ParsedAsks(meta, row, buf);
    SortedElements(meta.recnumCol, WalkItems(meta, idx, dir), Pending(meta, rows, c, idx, dir, terms));
  }

  /** A successful extended call returns rows the buffer's bytes ask for, and of those ahead of the cursor it leaves out
      only such as come after the last one returned. */
  lemma {:induction false} ExtendedReturnsAsked(meta: TableMeta, rows: set<Row>, idx: nat, c: Cursor, dir: int, buf: seq<byte>,
                                                out: seq<Row>, reply: Option<seq<byte>>, c': Cursor, row: Row)
    requires ExtendedCall(meta, rows, c, dir, buf, out, 0, reply, c') && ActiveIndex(meta, c) == Some(idx)
    requires RowsOk(meta, rows, idx) && CanWalk(meta, c, idx)
    ensures out != []
    ensures row in out ==> row in rows && Asks(meta, row, buf) && (Positioned(c) ==> Passes(meta, c, idx, dir, row))
    ensures row in rows && Asks(meta, row, buf) && (Positioned(c) ==> Passes(meta, c, idx, dir, row)) && row !in out ==>
              Before(meta.recnumCol, WalkItems(meta, idx, dir), out[|out| - 1], row)
  {
    CallIsFitting(meta, rows, c, dir, buf, out, 0, reply, c');
    var terms := ReadGne(meta.fields, buf).value.terms;
    var ahead := Ahead(meta, rows, c, idx, dir, terms);
    PendingAsks(meta, rows, c, idx, dir, buf, row);
    WalkDecides(meta, rows, idx, dir);
    SortedIncreasing(meta.recnumCol, WalkItems(meta, idx, dir), Pending(meta, rows, c, idx, dir, terms));
    assert row in out ==> row in ahead;
    if row in ahead && row !in out {
      var i :| 0 <= i < |ahead| && ahead[i] == row;
      assert i >= |out|;
    }
  }

  /** A call whose descriptor can be read either returns rows, or has no room for the first (22), or ends the walk: 9
      without terms, 64 with terms, exactly when the bytes ask for no row ahead. */
  lemma {:induction false} ExtendedEndsIff(meta: TableMeta, rows: set<Row>, idx: nat, c: Cursor, dir: int, buf: seq<byte>,
                                           out: seq<Row>, code: int, reply: Option<seq<byte>>, c': Cursor)
    requires ExtendedCall(meta, rows, c, dir, buf, out, code, reply, c') && ActiveIndex(meta, c) == Some(idx)
    requires RowsOk(meta, rows, idx) && CanWalk(meta, c, idx) && !NoColumns(meta)
    requires |buf| >= 8 && ReadGne(meta.fields, buf).Some?
    ensures var ends := if TwoBytes(buf, 6) == 0 then 9 else 64;
            && (code == 0 || code == 22 || code == ends)
            && (code == ends <==> forall r :: r in rows && Asks(meta, r, buf) ==> Positioned(c) && !Passes(meta, c, idx, dir, r))
  {
    CallIsFitting(meta, rows, c, dir, buf, out, code, reply, c');
    var ahead := Ahead(meta, rows, c, idx, dir, ReadGne(meta.fields, buf).value.terms);
    forall r
      ensures r in Elements(ahead) <==> r in rows && Asks(meta, r, buf) && (Positioned(c) ==> Passes(meta, c, idx, dir, r))
    {
      PendingAsks(meta, rows, c, idx, dir, buf, r);
    }
    ParsedAsks(meta, Row(0, map[]), buf);
    if ahead != [] {
      assert ahead[0] in Elements(ahead);
    } else {
      assert Elements(ahead) == {};
    }
  }

  /** What the position of a step operation leaves ahead. */
  predicate Beyond(last: Option<int>, dir: int, row: Row) {
    last.Some? ==> if dir >= 0 then row.recnum > last.value else row.recnum < last.value
  }

  lemma {:induction false} StepPendingAsks(meta: TableMeta, rows: set<Row>, last: Option<int>, dir: int, buf: seq<byte>, row: Row)
    requires ReadGne(meta.fields, buf).Some?
    ensures row in Elements(StepAhead(meta.recnumCol, rows, last, dir, ReadGne(meta.fields, buf).value.terms)) <==>
              row in rows && Asks(meta, row, buf) && Beyond(last, dir, row)
  {
    var terms := ReadGne(meta.fields, buf).value.terms;
    ParsedAsks(meta, row, buf);
    SortedElements(meta.recnumCol, StepItems(meta.recnumCol, dir), StepPending(meta.recnumCol, rows, last, dir, terms));
  }

  /** A successful extended step returns rows beyond the position that the bytes ask for, and leaves out only such as lie
      beyond the last one returned. */
  lemma {:induction false} StepReturnsAsked(meta: TableMeta, rows: set<Row>, last: Option<int>, dir: int, buf: seq<byte>, row: Row)
    requires UniqueRecnums(rows) && TakeStep(meta, rows, last, dir, buf).code == 0
    ensures var out := TakeStep(meta, rows, last, dir, buf).out;
            && out != []
            && (row in out ==> row in rows && Asks(meta, row, buf) && Beyond(last, dir, row))
            && (row in rows && Asks(meta, row, buf) && Beyond(last, dir, row) && row !in out ==>
                  Beyond(Some(out[|out| - 1].recnum), dir, row))
  {
    var rc, out, terms := meta.recnumCol, TakeStep(meta, rows, last, dir, buf).out, ReadGne(meta.fields, buf).value.terms;
    var ahead := StepAhead(rc, rows, last, dir, terms);
    StepPendingAsks(meta, rows, last, dir, buf, row);
    StepDecides(rc, rows, dir);
    SortedIncreasing(rc, StepItems(rc, dir), StepPending(rc, rows, last, dir, terms));
    assert out <= ahead;
    if row in ahead && row !in out {
      var i :| 0 <= i < |ahead| && ahead[i] == row;
      assert i >= |out| && out[|out| - 1] == ahead[|out| - 1];
      BeforeByRecnum(rc, dir, ahead[|out| - 1], row);
    }
  }

  /** It ends with 9 exactly when the bytes ask for no row beyond the position. */
  lemma {:induction false} StepEndsIff(meta: TableMeta, rows: set<Row>, last: Option<int>, dir: int, buf: seq<byte>)
    requires |buf| >= 8 && ReadGne(meta.fields, buf).Some?
    ensures var code := TakeStep(meta, rows, last, dir, buf).code;
            && (code == 0 || code == 22 || code == 9)
            && (code == 9 <==> forall r :: r in rows && Asks(meta, r, buf) ==> !Beyond(last, dir, r))
  {
    var ahead := StepAhead(meta.recnumCol, rows, last, dir, ReadGne(meta.fields, buf).value.terms);
    forall r
      ensures r in Elements(ahead) <==> r in rows && Asks(meta, r, buf) && Beyond(last, dir, r)
    {
      StepPendingAsks(meta, rows, last, dir, buf, r);
    }
    if ahead != [] {
      assert ahead[0] in Elements(ahead);
    } else {
      assert Elements(ahead) == {};
    }
  }

  // ---- which descriptors can be read --------------------------------------------------------------------

  predicate SomeField(fields: seq<IntField>, offset: nat) {
    exists p :: 0 <= p < |fields| && (Starts(fields[p], offset) || Covers(fields[p], offset))
  }

  /** `n` terms from a byte on that fit the buffer, each with a known comparison and a field at its offset. */
  predicate ChainReadable(fields: seq<IntField>, buf: seq<byte>, at: nat, n: nat)
    decreases n
  {
    n == 0 || (TermFits(buf, at) && buf[at + 5] <= 5 && SomeField(fields, TwoBytes(buf, at + 3))
               && ChainReadable(fields, buf, NextTerm(buf, at), n - 1))
  }

  function ChainEnd(fields: seq<IntField>, buf: seq<byte>, at: nat, n: nat): nat
    requires ChainReadable(fields, buf, at, n)
    decreases n
  {
    if n == 0 then at else ChainEnd(fields, buf, NextTerm(buf, at), n - 1)
  }

  lemma {:induction false} ResolvableIff(fields: seq<IntField>, buf: seq<byte>, at: nat)
    requires at <= |buf| && TermFits(buf, at)
    ensures FirstRaw(buf[at..]).Some?
    ensures Resolvable(fields, FirstRaw(buf[at..]).value) <==> buf[at + 5] <= 5 && SomeField(fields, TwoBytes(buf, at + 3))
  {
    RawAt(buf, at);
    var offset := TwoBytes(buf, at + 3);
    var p := StartsAtNames(fields, offset);
    var q := CoveringNames(fields, offset);
  }

  lemma {:induction false} ChainReads(fields: seq<IntField>, buf: seq<byte>, at: nat, n: nat)
    requires at <= |buf|
    ensures Terms(fields, buf[at..], n).Some? <==> ChainReadable(fields, buf, at, n)
    ensures Terms(fields, buf[at..], n).Some? ==> at + Terms(fields, buf[at..], n).value.1 == ChainEnd(fields, buf, at, n)
    decreases n
  {
    RawAt(buf, at);
    if n > 0 && TermFits(buf, at) {
      var t, next := FirstRaw(buf[at..]).value, NextTerm(buf, at);
      assert buf[at..][TermSize(t)..] == buf[next..];
      ChainReads(fields, buf, next, n - 1);
      ResolvableIff(fields, buf, at);
      AllResolvableCons(fields, buf[at..], n);
    }
  }

  lemma {:induction false} AllResolvableCons(fields: seq<IntField>, b: seq<byte>, n: nat)
    requires n > 0 && FirstRaw(b).Some?
    ensures var t, rest := FirstRaw(b).value, b[TermSize(FirstRaw(b).value)..];
            && (Terms(fields, b, n).Some? <==> Resolvable(fields, t) && Terms(fields, rest, n - 1).Some?)
            && (Terms(fields, b, n).Some? ==> Terms(fields, b, n).value.1 == TermSize(t) + Terms(fields, rest, n - 1).value.1)
  {
    var t := FirstRaw(b).value;
    match RawTerms(b[TermSize(t)..], n - 1)
    case None =>
    case Some((ts, _)) =>
      assert AllResolvable(fields, [t] + ts) <==> Resolvable(fields, t) && AllResolvable(fields, ts) by {
        assert ([t] + ts)[0] == t;
        assert forall i :: 0 <= i < |ts| ==> ([t] + ts)[i + 1] == ts[i];
      }
  }

  lemma {:induction false} ExtractsFitIff(b: seq<byte>, n: nat)
    ensures Extracts(b, n).Some? <==> 4 * n <= |b|
    decreases n
  {
    if n > 0 && |b| >= 4 {
      ExtractsFitIff(b[4..], n - 1);
    }
  }

  lemma {:induction false} RetrievalFitsIff(buf: seq<byte>, end: nat)
    requires end <= |buf|
    ensures ReadRetrieval(buf[end..]).Some? <==> end + 4 <= |buf| && end + 4 + 4 * TwoBytes(buf, end + 2) <= |buf|
  {
    if end + 4 <= |buf| {
      WordAt(buf, end, 2);
      ExtractsFitIff(buf[end..][4..], TwoBytes(buf, end + 2));
    }
  }

  /** A descriptor can be read exactly when its terms can, and behind them there is room for the record limit, the number of
      extracts and the extracts. */
  lemma {:induction false} ReadableIff(fields: seq<IntField>, buf: seq<byte>)
    requires |buf| >= 8
    ensures ReadGne(fields, buf).Some? <==>
              && ChainReadable(fields, buf, 8, TwoBytes(buf, 6))
              && var end := ChainEnd(fields, buf, 8, TwoBytes(buf, 6)); end + 4 <= |buf| && end + 4 + 4 * TwoBytes(buf, end + 2) <= |buf|
  {
    var n := TwoBytes(buf, 6);
    assert U16(buf, 6) == n by {
      LeNatTwo(buf[6..8]);
    }
    ChainReads(fields, buf, 8, n);
    if ChainReadable(fields, buf, 8, n) {
      var end, size := ChainEnd(fields, buf, 8, n), Terms(fields, buf[8..], n).value.1;
      assert buf[8 + size..] == buf[end..];
      RetrievalFitsIff(buf, end);
    }
  }

  // ---- the record limit ---------------------------------------------------------------------------------

  lemma {:induction false} LimitRead(fields: seq<IntField>, buf: seq<byte>)
    requires ReadGne(fields, buf).Some?
    ensures |buf| >= 8 && ChainReadable(fields, buf, 8, TwoBytes(buf, 6))
    ensures var end := ChainEnd(fields, buf, 8, TwoBytes(buf, 6));
            end + 2 <= |buf| && ReadGne(fields, buf).value.maxRecs == TwoBytes(buf, end)
  {
    var n := TwoBytes(buf, 6);
    assert U16(buf, 6) == n by {
      LeNatTwo(buf[6..8]);
    }
    ChainReads(fields, buf, 8, n);
    var end, size := ChainEnd(fields, buf, 8, n), Terms(fields, buf[8..], n).value.1;
    assert buf[8 + size..] == buf[end..];
    WordAt(buf, end, 0);
  }

  /** The record limit stands behind the terms; an extended Get reads 0 as 65535. */
  lemma {:induction false} ExtendedReplyLimit(meta: TableMeta, rows: set<Row>, idx: nat, c: Cursor, dir: int, buf: seq<byte>,
                                              out: seq<Row>, reply: Option<seq<byte>>, c': Cursor)
    requires ExtendedCall(meta, rows, c, dir, buf, out, 0, reply, c') && ActiveIndex(meta, c) == Some(idx)
    requires RowsOk(meta, rows, idx) && CanWalk(meta, c, idx)
    ensures |buf| >= 8 && ChainReadable(meta.fields, buf, 8, TwoBytes(buf, 6)) && ReadGne(meta.fields, buf).Some? && reply.Some?
    ensures var g, end := ReadGne(meta.fields, buf).value, ChainEnd(meta.fields, buf, 8, TwoBytes(buf, 6));
            && end + 2 <= |buf|
            && var limit := TwoBytes(buf, end);
               ExactReply(GetRead(meta), Ahead(meta, rows, c, idx, dir, g.terms), g.extracts, if limit == 0 then 65535 else limit,
                          |buf|, out, reply.value)
  {
    ReplyIsExact(meta, rows, idx, c, dir, buf, out, reply, c');
    LimitRead(meta.fields, buf);
  }

  /** An extended step reads 0 as 256 and takes at most 1024. */
  lemma {:induction false} StepReplyLimit(meta: TableMeta, rows: set<Row>, p: StepPos, dir: int, buf: seq<byte>)
    requires ExtendedStep(meta, rows, p, dir, buf).code == 0
    ensures |buf| >= 8 && ChainReadable(meta.fields, buf, 8, TwoBytes(buf, 6)) && ReadGne(meta.fields, buf).Some?
    ensures var r, g, end := ExtendedStep(meta, rows, p, dir, buf), ReadGne(meta.fields, buf).value,
                             ChainEnd(meta.fields, buf, 8, TwoBytes(buf, 6));
            && end + 2 <= |buf| && r.reply.Some?
            && var limit := TwoBytes(buf, end);
               ExactReply(StepRead(meta), StepAhead(meta.recnumCol, rows, p.last, dir, g.terms), g.extracts,
                          if limit == 0 then 256 else if limit > 1024 then 1024 else limit, |buf|, r.out, r.reply.value)
  {
    ExtendedStepReply(meta, rows, p, dir, buf);
    LimitRead(meta.fields, buf);
  }

  /** With any other an extended operation gives status 62, with a buffer below 8 bytes 22, and nothing changes. */
  lemma {:induction false} UnreadableRefused(meta: TableMeta, rows: set<Row>, c: Cursor, dir: int, buf: seq<byte>,
                                             out: seq<Row>, code: int, reply: Option<seq<byte>>, c': Cursor, last: Option<int>)
    requires ExtendedCall(meta, rows, c, dir, buf, out, code, reply, c')
    requires |buf| < 8 || ReadGne(meta.fields, buf).None?
    ensures code == (if |buf| < 8 then 22 else 62) && out == [] && reply == None && c' == c
    ensures TakeStep(meta, rows, last, dir, buf) == StepTake(code, [], None)
  {
  }
}
