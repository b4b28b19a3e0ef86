/** Position tokens: Get Position hands one out, Get Direct goes back to it. */
module DirectOps {
  import opened Wrappers
  import opened Status
  import opened Bytes
  import opened SqlValues
  import opened SqlText
  import opened Relation
  import opened Schema
  import opened Selected
  import opened HandleState
  import opened GetOps
  import opened UpdateOps

  /** The token of the current row: its record number in four bytes, 0 when there is none. */
  function PositionToken(last: Option<int>): (r: seq<byte>)
    ensures |r| == 4
  {
    LeBytes(match last { case Some(rn) => rn case None => 0 }, 4)
  }

  /** Get Position: a token that reads back as the record number, if four bytes can hold it. */
  method GetPosition(h: HandleEntry) returns (code: int, data: seq<byte>)
    ensures code == BTR_SUCCESS && data == PositionToken(h.lastRecnum)
    ensures h.lastRecnum.Some? && 0 <= h.lastRecnum.value < 0x1_0000_0000 ==> LeNat(data) == h.lastRecnum.value
    ensures h.lastRecnum.None? ==> LeNat(data) == 0
  {
    var rn := match h.lastRecnum { case Some(n) => n case None => 0 };
    code, data := BTR_SUCCESS, LeBytes(rn, 4);
    if 0 <= rn < 0x1_0000_0000 {
      assert Pow256(2) == 256 * Pow256(1) == 256 * (256 * Pow256(0));
      assert Pow256(4) == 256 * Pow256(3) == 256 * (256 * Pow256(2));
      LeNatOfBytes(rn, 4);
    }
  }

  /** The index whose keys a direct read keeps: the one in use, else the first; 0 names none. */
  function DirectIndex(meta: TableMeta, c: Cursor): nat {
    match ActiveIndex(meta, c)
    case Some(n) => n
    case None => 0
  }

  /** A direct read keeps index, flags and direction as they were. */
  function DirectCursor(meta: TableMeta, c: Cursor, row: Row): Cursor {
    var rn := Some(SeenRecnum(meta, row));
    c.(keys := KeptKeys(meta, DirectIndex(meta, c), row), recnum := rn, last := rn)
  }

  ghost predicate Directed(meta: TableMeta, rows: set<Row>, c: Cursor, buf: seq<byte>, code: int, row: Option<Row>, c': Cursor)
    requires UniqueRecnums(rows)
  {
    if |buf| < 4 then code == BTR_DATA_TOO_SHORT && row == None && c' == c
    else if NoColumns(meta) then code == BTR_UNSUPPORTED_OP && row == None && c' == c
    else
      match RowAt(rows, LeNat(buf[..4]))
      case None => code == BTR_EOF && row == None && c' == c
      case Some(r) => code == BTR_SUCCESS && row == Some(r) && c' == DirectCursor(meta, c, r)
  }

  /** Get Direct: the row a position token names. */
  method GetDirect(h: HandleEntry, db: Backend, buf: seq<byte>) returns (code: int, row: Option<Row>, data: seq<byte>)
    requires db.recnumCol == h.meta.recnumCol && UniqueRecnums(db.rows)
    modifies h`getLastKeys, h`getLastRecnum, h`lastRecnum
    ensures Directed(h.meta, db.rows, old(h.GetCursor()), buf, code, row, h.GetCursor())
    ensures h.StepPosition() == old(h.StepPosition()).(any := h.lastRecnum)
    ensures data == Got(h.meta, row)
  {
    if |buf| < 4 {
      return BTR_DATA_TOO_SHORT, None, [];
    }
    var recnum: int := LeNat(buf[..4]);
    var rc := h.meta.recnumCol;
    var where := Spaced(QuoteIdent(db.dialect, rc), "=", ParamMarker(db.dialect, 1));
    RecnumCondReads(db.dialect, db.rows, rc, recnum, where, Only(Last(Compare(rc, Eq, 0))));
    var res, read := FetchKeysetOne(h.meta, db, where, [I64(recnum)], "");
    ghost var at := RowAt(db.rows, recnum);
    if at.Some? {
      assert at.value in Matching(rc, db.rows, Only(Last(Compare(rc, Eq, 0))), [I64(recnum)]);
    }
    match res
    case Err(e) => code, row, data := if e == BTR_KEY_NOT_FOUND then BTR_EOF else e, None, [];
    case Ok(r) =>
      assert at == Some(r);
      var idx := DirectIndex(h.meta, h.GetCursor());
      h.getLastKeys := KeysOfTexts(h.meta, idx, read.texts);
      h.getLastRecnum := Some(read.recnum);
      h.lastRecnum := Some(read.recnum);
      code, row, data := BTR_SUCCESS, Some(r), read.record;
  }

  /** The token of a row leads back to it, from any cursor, while the row exists and its number fits in
      four bytes. */
  lemma {:induction false} TokenLeadsBack(meta: TableMeta, rows: set<Row>, c: Cursor, p: Row, more: seq<byte>,
                                          code: int, row: Option<Row>, c': Cursor)
    requires UniqueRecnums(rows) && p in rows && 0 <= p.recnum < 0x1_0000_0000 && !NoColumns(meta) && RecnumFirst(meta)
    requires Directed(meta, rows, c, PositionToken(Some(p.recnum)) + more, code, row, c')
    ensures code == BTR_SUCCESS && row == Some(p) && c'.recnum == Some(p.recnum)
    ensures c'.keys == KeptKeys(meta, DirectIndex(meta, c), p) && c'.index == c.index && c'.desc == c.desc
  {
    assert Pow256(2) == 256 * Pow256(1) == 256 * (256 * Pow256(0));
    assert Pow256(4) == 256 * Pow256(3) == 256 * (256 * Pow256(2));
    LeNatOfBytes(p.recnum, 4);
    var token := PositionToken(Some(p.recnum));
    assert (token + more)[..4] == token;
  }
}
