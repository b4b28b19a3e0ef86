/** What Update and Update Chunk leave in the table, told by type numbers and column names: on ordinary tables the
    record comes back byte for byte, and field by field on all tables. */
module UpdateStores {
  import opened Wrappers
  import opened Bytes
  import opened Relation
  import opened Schema
  import opened RecordCodec
  import opened Selected
  import opened CodecRoundTrip
  import opened Chunks
  import opened UpdateOps

  /** Types 14 and 15 are auto-increment fields; a record number column other than MDS_RECNUM may be a field, whose name is
      compared ignoring case. */
  predicate KeptByUpdate(meta: TableMeta, f: IntField) {
    f.nativeType == 14 || f.nativeType == 15 || (meta.recnumCol != "MDS_RECNUM" && SameIgnoringCase(f.name, meta.recnumCol))
  }

  lemma {:induction false} KeptIffNotSettable(meta: TableMeta, f: IntField)
    ensures KeptByUpdate(meta, f) <==> !Settable(meta, f)
  {
  }

  /** Field by field, on every table with distinct names: these fields keep their values, any other holds what the record
      has for it. */
  lemma {:induction false} UpdatedColumn(meta: TableMeta, row: Row, record: seq<byte>, k: nat)
    requires DistinctNames(meta.fields) && k < |meta.fields|
    requires meta.fields[k].name == meta.recnumCol ==> KeptByUpdate(meta, meta.fields[k])
    ensures var f := meta.fields[k];
            Column(meta.recnumCol, Stored(meta, row, record), f.name)
              == if KeptByUpdate(meta, f) then Column(meta.recnumCol, row, f.name)
                 else DecodeField(f, if f.offset + f.length <= |record| then record[f.offset..f.offset + f.length] else [])
  {
    KeptIffNotSettable(meta, meta.fields[k]);
    StoredColumns(meta, row, record, k);
  }

  // ---- the whole operation ---------------------------------------------------------------------------

  /** 8 without a position, 22 for an empty record or a table of which every field keeps its value, else 0. */
  lemma {:induction false} UpdateStatusIs(meta: TableMeta, rows: set<Row>, last: Option<int>, record: seq<byte>, code: int, after: set<Row>)
    requires Updated(meta, rows, last, record, code, after)
    ensures code == if last.None? then 8
                    else if record == [] || forall i :: 0 <= i < |meta.fields| ==> KeptByUpdate(meta, meta.fields[i]) then 22
                    else 0
    ensures code != 0 ==> after == rows
  {
    forall i | 0 <= i < |meta.fields|
      ensures KeptByUpdate(meta, meta.fields[i]) <==> !Settable(meta, meta.fields[i])
    {
      KeptIffNotSettable(meta, meta.fields[i]);
    }
  }

  /** A table with distinct field names, no auto-increment field, and no field for the record number. */
  predicate Ordinary(meta: TableMeta) {
    && meta.fields != [] && DistinctNames(meta.fields) && NoFloats(meta.fields)
    && forall i :: 0 <= i < |meta.fields| ==> PlainField(meta, meta.fields[i])
  }

  predicate PlainField(meta: TableMeta, f: IntField) {
    f.nativeType != 14 && f.nativeType != 15 && f.name != meta.recnumCol
    && (meta.recnumCol == "MDS_RECNUM" || !SameIgnoringCase(f.name, meta.recnumCol))
  }

  /** The row's image has the record's byte wherever some field writes, and zero elsewhere. */
  predicate HoldsRecord(meta: TableMeta, row: Row, record: seq<byte>) {
    var image := ImageOf(meta, row);
    |image| == |record| && forall j :: 0 <= j < |record| ==> image[j] == if Covered(meta.fields, |record|, j) then record[j] else 0
  }

  /** The table with one row replaced. */
  predicate Replaced(rows: set<Row>, row: Row, now: Row, after: set<Row>) {
    now.recnum == row.recnum && after == rows - {row} + {now}
  }

  lemma {:induction false} StoresRecord(meta: TableMeta, rows: set<Row>, row: Row, record: seq<byte>, now: Row)
    requires Ordinary(meta) && UniqueRecnums(rows) && row in rows
    requires ExactRecord(meta.fields, record) && |record| == meta.recordLength && now == Stored(meta, row, record)
    ensures !NothingSettable(meta) && HoldsRecord(meta, now, record)
    ensures Replaced(rows, row, now, AfterUpdate(meta, rows, row.recnum, record))
  {
    forall i | 0 <= i < |meta.fields|
      ensures Settable(meta, meta.fields[i])
    {
      assert PlainField(meta, meta.fields[i]);
    }
    assert forall i :: 0 <= i < |meta.fields| ==> meta.fields[i].name != meta.recnumCol by {
      assert forall i :: 0 <= i < |meta.fields| ==> PlainField(meta, meta.fields[i]);
    }
    StoredImage(meta, row, record);
    assert Settable(meta, meta.fields[0]);
    OneReplaced(meta, rows, row, record);
  }

  lemma {:induction false} OneReplaced(meta: TableMeta, rows: set<Row>, row: Row, record: seq<byte>)
    requires UniqueRecnums(rows) && row in rows
    ensures Replaced(rows, row, Stored(meta, row, record), AfterUpdate(meta, rows, row.recnum, record))
  {
    var now, after := Stored(meta, row, record), AfterUpdate(meta, rows, row.recnum, record);
    forall r
      ensures r in after <==> r in rows - {row} + {now}
    {
      if r in after {
        var o :| o in rows && r == if o.recnum == row.recnum then Stored(meta, o, record) else o;
      }
      if r in rows - {row} {
        assert r.recnum != row.recnum;
      }
    }
  }

  /** Update on such a table, with a record in the codec's exact range and the handle on a row: status 0, the row then holds
      the record, and every other row is as it was. */
  lemma {:induction false} UpdateHolds(meta: TableMeta, rows: set<Row>, row: Row, record: seq<byte>, code: int, after: set<Row>)
    returns (now: Row)
    requires Updated(meta, rows, Some(row.recnum), record, code, after)
    requires Ordinary(meta) && UniqueRecnums(rows) && row in rows
    requires ExactRecord(meta.fields, record) && |record| == meta.recordLength && record != []
    ensures code == 0 && Replaced(rows, row, now, after) && HoldsRecord(meta, now, record)
  {
    now := Stored(meta, row, record);
    StoresRecord(meta, rows, row, record, now);
  }

  /** Update Chunk likewise: the row then holds its old record with the chunks laid over it. */
  lemma {:induction false} ChunkUpdateHolds(meta: TableMeta, rows: set<Row>, row: Row, desc: seq<byte>, chunks: seq<Chunk>, start: nat,
                                             record: seq<byte>, code: int, after: set<Row>) returns (now: Row)
    requires Ordinary(meta) && UniqueRecnums(rows) && row in rows
    requires ChunkUpdated(meta, rows, Some(row.recnum), desc, code, after)
    requires |desc| >= 12 && ReadPlan(desc, meta.recordLength) == Lay(chunks, start)
    requires Laid(ImageOf(meta, row), desc, chunks, start) == Ok(record) && ExactRecord(meta.fields, record)
    ensures code == 0 && Replaced(rows, row, now, after) && HoldsRecord(meta, now, record)
  {
    now := Stored(meta, row, record);
    assert RowAt(rows, row.recnum) == Some(row);
    StoresRecord(meta, rows, row, record, now);
  }

  // ---- descriptors that lay no chunks ------------------------------------------------------------------

  lemma {:induction false} FourBytesAt(desc: seq<byte>, at: nat)
    requires at + 4 <= |desc|
    ensures U32(desc, at) == TwoBytes(desc, at) + 0x1_0000 * TwoBytes(desc, at + 2)
  {
    LeNatFour(desc[at..at + 4]);
  }

  /** With a position, the first four bytes decide: 0xFFFF_FFFE and 0x4000_0000 truncate, which is 28 below the record length
      and 0 from it on and changes nothing; other signatures from 0x8000_0000 on are rectangles, 22 below 20 bytes; any other
      but 0 is 62. */
  lemma {:induction false} SignatureDecides(meta: TableMeta, rows: set<Row>, recnum: int, desc: seq<byte>, code: int, after: set<Row>)
    requires UniqueRecnums(rows) && |desc| >= 12 && ChunkUpdated(meta, rows, Some(recnum), desc, code, after)
    ensures var sig, length := TwoBytes(desc, 0) + 0x1_0000 * TwoBytes(desc, 2), TwoBytes(desc, 4) + 0x1_0000 * TwoBytes(desc, 6);
            && (sig == 0xFFFF_FFFE || sig == 0x4000_0000 ==> code == (if length < meta.recordLength then 28 else 0) && after == rows)
            && (sig >= 0x8000_0000 && sig != 0xFFFF_FFFE && |desc| < 20 ==> code == 22 && after == rows)
            && (0 < sig < 0x8000_0000 && sig != 0x4000_0000 ==> code == 62 && after == rows)
  {
    FourBytesAt(desc, 0);
    FourBytesAt(desc, 4);
  }
}
