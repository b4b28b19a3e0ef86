/** A Btrieve file laid out from given records, byte by byte, and read back. */
module BFileWriter {
  import opened Wrappers
  import opened Bytes
  import opened BFile
  import opened BFileRoundTrip

  /** The low and the high byte of a number at byte `at` and the one behind it. */
  function Half(v: nat, at: nat, i: nat): byte {
    if i == at then v % 256 else v / 256 % 256
  }

  function HeaderByte6(h: FileHeader, i: nat): byte {
    if i == 0 then 0x46
    else if i == 1 then 0x43
    else if i == 0x08 || i == 0x09 then Half(h.pageSize, 0x08, i)
    else if i == 0x14 || i == 0x15 then Half(h.keyCount, 0x14, i)
    else if i == 0x16 || i == 0x17 then Half(h.logicalLen, 0x16, i)
    else if i == 0x18 || i == 0x19 then Half(h.physicalLen, 0x18, i)
    else if i == 0x1A || i == 0x1B then Half(h.recordCount, 0x1A, i)
    else if i == 0x1C then h.recordCount / 0x1_0000 % 256
    else if i == 0x26 || i == 0x27 then Half(h.pageCount, 0x26, i)
    else if i == 0x28 then h.pageCount / 0x1_0000 % 256
    else 0
  }

  function HeaderByte5(h: FileHeader, i: nat): byte {
    if i == 0x06 then 5
    else if i == 0x08 || i == 0x09 then Half(h.pageSize, 0x08, i)
    else if i == 0x0E || i == 0x0F then Half(h.logicalLen, 0x0E, i)
    else if i == 0x10 || i == 0x11 then Half(h.physicalLen, 0x10, i)
    else if i == 0x12 || i == 0x13 then Half(h.keyCount, 0x12, i)
    else if i == 0x14 || i == 0x15 then Half(h.pageCount, 0x14, i)
    else if i == 0x1C || i == 0x1D then Half(h.recordCount, 0x1C, i)
    else if i == 0x1E || i == 0x1F then Half(h.recordCount / 0x1_0000, 0x1E, i)
    else 0
  }

  /** Byte `k` of the slot a record is written into: version 6 puts the usage count 1 in front. */
  function SlotByte(h: FileHeader, record: seq<byte>, k: nat): byte {
    if h.version == 5 then (if k < |record| then record[k] else 0)
    else if k == 0 then 1
    else if 2 <= k < 2 + |record| then record[k - 2]
    else 0
  }

  /** Byte `off` of a page of records: version 6 sets the flag, and the slots start behind the page's header. */
  function PageByte(h: FileHeader, records: seq<seq<byte>>, page: nat, off: nat): byte
    requires ValidHeader(h) && page > 0
  {
    var head := if h.version == 6 then 6 else 4;
    if off < head then (if h.version == 6 && off == 5 then 0x80 else 0)
    else
      var p := Place(page, (off - head) / h.physicalLen);
      if p.slot < SlotsPerPage(h) && IndexOf(SlotsPerPage(h), p) < |records|
      then SlotByte(h, records[IndexOf(SlotsPerPage(h), p)], (off - head) % h.physicalLen)
      else 0
  }

  function FileByte(h: FileHeader, records: seq<seq<byte>>, i: nat): byte
    requires ValidHeader(h)
  {
    if i < h.pageSize then (if h.version == 6 then HeaderByte6(h, i) else HeaderByte5(h, i))
    else
      QuotientAtLeast(1, i, h.pageSize);
      PageByte(h, records, i / h.pageSize, i % h.pageSize)
  }

  /** Pages behind the header page. */
  function PagesFor(m: nat, n: nat): nat
    requires m > 0
  {
    (n + m - 1) / m
  }

  /** The file that holds the records. */
  function FileOf(h: FileHeader, records: seq<seq<byte>>): (data: seq<byte>)
    requires ValidHeader(h) && SlotsPerPage(h) > 0
    ensures |data| == (1 + PagesFor(SlotsPerPage(h), |records|)) * h.pageSize
  {
    seq((1 + PagesFor(SlotsPerPage(h), |records|)) * h.pageSize, i requires 0 <= i => FileByte(h, records, i))
  }

  /** The numbers fit their places in the header, the records their slots, and a page holds at least one. */
  predicate Writable(h: FileHeader, records: seq<seq<byte>>) {
    && ValidHeader(h) && SlotsPerPage(h) > 0
    && h.pageSize < 0x1_0000 && h.physicalLen < 0x1_0000 && h.keyCount < 0x1_0000
    && h.recordCount == |records| && (forall i :: 0 <= i < |records| ==> |records[i]| == h.logicalLen)
    && if h.version == 6 then h.physicalLen >= 2 + h.logicalLen && h.recordCount < 0x100_0000 && h.pageCount < 0x100_0000
       else h.recordCount < 0x1_0000_0000 && h.pageCount < 0x1_0000
  }

  lemma {:induction false} HeaderPage(h: FileHeader, records: seq<seq<byte>>, data: seq<byte>)
    requires ValidHeader(h) && SlotsPerPage(h) > 0 && data == FileOf(h, records)
    ensures |data| >= h.pageSize
    ensures forall i :: 0 <= i < h.pageSize ==> data[i] == if h.version == 6 then HeaderByte6(h, i) else HeaderByte5(h, i)
  {
    Multiples(1, 1 + PagesFor(SlotsPerPage(h), |records|), h.pageSize);
  }

  lemma {:induction false} Halves(v: nat)
    requires v < 0x1_0000
    ensures v % 256 + 256 * (v / 256 % 256) == v
  {
  }

  lemma {:induction false} Thirds(v: nat)
    requires v < 0x100_0000
    ensures v % 256 + 256 * (v / 256 % 256) + 0x1_0000 * (v / 0x1_0000 % 256) == v
  {
  }

  lemma {:induction false} Fourths(v: nat)
    requires v < 0x1_0000_0000
    ensures var high := v / 0x1_0000;
            v % 256 + 256 * (v / 256 % 256) + 0x1_0000 * (high % 256 + 256 * (high / 256 % 256)) == v
  {
    Halves(v % 0x1_0000);
    Halves(v / 0x1_0000);
  }

  predicate StartsWithHeader6(h: FileHeader, data: seq<byte>) {
    |data| >= 512 && forall i :: 0 <= i < 512 ==> data[i] == HeaderByte6(h, i)
  }

  predicate StartsWithHeader5(h: FileHeader, data: seq<byte>) {
    |data| >= 512 && forall i :: 0 <= i < 512 ==> data[i] == HeaderByte5(h, i)
  }

  lemma {:induction false} HeaderNumbers6(h: FileHeader, data: seq<byte>)
    requires h.version == 6 && 512 <= h.pageSize < 0x1_0000 && StartsWithHeader6(h, data)
    requires h.keyCount < 0x1_0000 && h.logicalLen < 0x1_0000 && h.physicalLen < 0x1_0000
    requires h.recordCount < 0x100_0000 && h.pageCount < 0x100_0000
    ensures HeaderIs(data, h)
  {
    Halves(h.pageSize);
    Halves(h.keyCount);
    Halves(h.logicalLen);
    Halves(h.physicalLen);
    Thirds(h.recordCount);
    Thirds(h.pageCount);
  }

  lemma {:induction false} HeaderNumbers5(h: FileHeader, data: seq<byte>)
    requires h.version == 5 && 512 <= h.pageSize < 0x1_0000 && StartsWithHeader5(h, data)
    requires h.keyCount < 0x1_0000 && h.logicalLen < 0x1_0000 && h.physicalLen < 0x1_0000
    requires h.recordCount < 0x1_0000_0000 && h.pageCount < 0x1_0000
    ensures HeaderIs(data, h)
  {
    Halves(h.pageSize);
    Halves(h.keyCount);
    Halves(h.logicalLen);
    Halves(h.physicalLen);
    Fourths(h.recordCount);
    Halves(h.pageCount);
  }

  lemma {:induction false} HeaderWritten(h: FileHeader, data: seq<byte>, records: seq<seq<byte>>)
    requires Writable(h, records) && data == FileOf(h, records)
    ensures HeaderIs(data, h)
  {
    HeaderPage(h, records, data);
    if h.version == 6 {
      HeaderNumbers6(h, data);
    } else {
      HeaderNumbers5(h, data);
    }
  }

  /** A byte of a page behind the header page. */
  lemma {:induction false} PageWritten(h: FileHeader, data: seq<byte>, records: seq<seq<byte>>, page: nat, off: nat)
    requires ValidHeader(h) && SlotsPerPage(h) > 0 && data == FileOf(h, records)
    requires page > 0 && off < h.pageSize && page * h.pageSize + off < |data|
    ensures data[page * h.pageSize + off] == PageByte(h, records, page, off)
  {
    DivMod(page, h.pageSize, off);
    Multiples(1, page, h.pageSize);
  }

  /** A byte of a slot. */
  lemma {:induction false} SlotWritten(h: FileHeader, data: seq<byte>, records: seq<seq<byte>>, p: Place, k: nat)
    requires ValidHeader(h) && SlotsPerPage(h) > 0 && data == FileOf(h, records)
    requires p.page > 0 && InFile(h, data, p) && k < h.physicalLen
    ensures PageOff(h, p.page) + SlotOff(h, p.slot) + k < |data|
    ensures data[PageOff(h, p.page) + SlotOff(h, p.slot) + k]
         == if IndexOf(SlotsPerPage(h), p) < |records| then SlotByte(h, records[IndexOf(SlotsPerPage(h), p)], k) else 0
  {
    PlaceInBounds(h, data, p);
    PageWritten(h, data, records, p.page, SlotOff(h, p.slot) + k);
    DivMod(p.slot, h.physicalLen, k);
  }

  lemma {:induction false} RecordInFile(h: FileHeader, data: seq<byte>, records: seq<seq<byte>>, i: nat)
    requires ValidHeader(h) && SlotsPerPage(h) > 0 && data == FileOf(h, records) && i < |records|
    ensures (PlaceOf(SlotsPerPage(h), i).page + 1) * h.pageSize <= |data|
    ensures InFile(h, data, PlaceOf(SlotsPerPage(h), i))
  {
    var m, n := SlotsPerPage(h), |records|;
    assert i == i / m * m + i % m;
    Distributes(i / m, 1, m);
    QuotientAtLeast(i / m + 1, n + m - 1, m);
    Multiples(2 + i / m, 1 + PagesFor(m, n), h.pageSize);
    PageInFile(h, data, 1 + i / m);
  }

  lemma {:induction false} RecordByteWritten(h: FileHeader, data: seq<byte>, records: seq<seq<byte>>, i: nat, j: nat, p: Place)
    requires Writable(h, records) && data == FileOf(h, records) && i < |records| && j < h.logicalLen
    requires p == PlaceOf(SlotsPerPage(h), i) && InFile(h, data, p)
    ensures HoldsByte(h, data, p, records[i], j)
  {
    var k := if h.version == 6 then 2 + j else j;
    IndexOfPlace(SlotsPerPage(h), i);
    SlotWritten(h, data, records, p, k);
    assert RecordByte(h, p.page, p.slot) + j == PageOff(h, p.page) + SlotOff(h, p.slot) + k;
  }

  lemma {:induction false} RecordWritten(h: FileHeader, data: seq<byte>, records: seq<seq<byte>>, i: nat)
    requires Writable(h, records) && data == FileOf(h, records) && i < |records|
    ensures HoldsAt(h, data, PlaceOf(SlotsPerPage(h), i), records[i])
  {
    var p := PlaceOf(SlotsPerPage(h), i);
    RecordInFile(h, data, records, i);
    forall j | 0 <= j < h.logicalLen
      ensures HoldsByte(h, data, p, records[i], j)
    {
      RecordByteWritten(h, data, records, i, j, p);
    }
  }

  lemma {:induction false} HoldsWritten(h: FileHeader, data: seq<byte>, records: seq<seq<byte>>)
    requires Writable(h, records) && data == FileOf(h, records)
    ensures Holds(h, data, records)
  {
    HeaderPage(h, records, data);
    forall i | 0 <= i < |records|
      ensures HoldsAt(h, data, PlaceOf(SlotsPerPage(h), i), records[i])
    {
      RecordWritten(h, data, records, i);
    }
  }

  /** Version 6: the records written are the records read. */
  lemma {:induction false} WriteThenRead6(h: FileHeader, records: seq<seq<byte>>)
    requires Writable(h, records) && h.version == 6
    ensures ReadFile(FileOf(h, records)) == Ok(records)
  {
    var data := FileOf(h, records);
    HeaderWritten(h, data, records);
    HoldsWritten(h, data, records);
    forall p | InFile(h, data, p) && p.page > 0
      ensures InUse(h, data, p) <==> IndexOf(SlotsPerPage(h), p) < |records|
    {
      UsageWritten(h, data, records, p);
    }
    ReadsVersion6(h, data, records);
    assert records[..|records|] == records;
  }

  lemma {:induction false} UsageWritten(h: FileHeader, data: seq<byte>, records: seq<seq<byte>>, p: Place)
    requires Writable(h, records) && h.version == 6 && data == FileOf(h, records) && InFile(h, data, p) && p.page > 0
    ensures InUse(h, data, p) <==> IndexOf(SlotsPerPage(h), p) < |records|
  {
    PlaceInBounds(h, data, p);
    PageWritten(h, data, records, p.page, 5);
    SlotWritten(h, data, records, p, 0);
    SlotWritten(h, data, records, p, 1);
    var at := RecordByte(h, p.page, p.slot) - 2;
    assert at == PageOff(h, p.page) + SlotOff(h, p.slot);
  }

  /** A chain whose head lies behind the end of the file names nothing in it. */
  lemma {:induction false} ChainLeaves(data: seq<byte>, start: nat, x: nat)
    requires start >= |data| > x
    ensures !OnChain(data, start, CHAIN_LIMIT, x)
  {
    forall k: nat
      ensures Pointer(data, start, k) != Some(x)
    {
    }
  }

  /** The first record of every page has a second byte from 0x80 on. */
  predicate FlagsSet(m: nat, records: seq<seq<byte>>)
    requires m > 0
  {
    forall i :: 0 <= i < |records| && i % m == 0 ==> |records[i]| >= 2 && records[i][1] >= 0x80
  }

  lemma {:induction false} FlagOfPage(m: nat, records: seq<seq<byte>>, i: nat)
    requires m > 0 && FlagsSet(m, records) && i < |records|
    ensures 0 <= i - i % m && |records[i - i % m]| >= 2 && records[i - i % m][1] >= 0x80
  {
    FirstOfPage(m, i);
  }

  lemma {:induction false} WriteThenReadFlagged5(h: FileHeader, records: seq<seq<byte>>)
    requires Writable(h, records) && h.version == 5 && h.logicalLen >= 2 && records != []
    requires h.physicalLen + 0x1_0000 * h.keyCount >= |FileOf(h, records)|
    requires FlagsSet(SlotsPerPage(h), records)
    ensures ReadFile(FileOf(h, records)) == Ok(records)
  {
    var data := FileOf(h, records);
    var start := h.physicalLen + 0x1_0000 * h.keyCount;
    HeaderWritten(h, data, records);
    HoldsWritten(h, data, records);
    forall i | 0 <= i < |records|
      ensures Reached(h, data, records, i, start)
    {
      FlagOfPage(SlotsPerPage(h), records, i);
      OffChain(h, data, records, i, start);
    }
    ReadsVersion5(h, data, records, start);
    assert records[..|records|] == records;
  }

  lemma {:induction false} OffChain(h: FileHeader, data: seq<byte>, records: seq<seq<byte>>, i: nat, start: nat)
    requires ValidHeader(h) && h.version == 5 && Holds(h, data, records) && i < |records| && start >= |data|
    ensures var p := PlaceOf(SlotsPerPage(h), i); !OnChain(data, start, CHAIN_LIMIT, RecordByte(h, p.page, p.slot))
  {
    var p := PlaceOf(SlotsPerPage(h), i);
    assert HoldsAt(h, data, p, records[i]);
    assert HoldsByte(h, data, p, records[i], 0);
    ChainLeaves(data, start, RecordByte(h, p.page, p.slot));
  }

  lemma {:induction false} FirstOfPage(m: nat, i: nat)
    requires m > 0
    ensures 0 <= i - i % m <= i && (i - i % m) % m == 0
  {
    assert i - i % m == i / m * m + 0;
    DivMod(i / m, m, 0);
  }

  lemma {:induction false} PageCount(h: FileHeader, records: seq<seq<byte>>)
    requires ValidHeader(h) && SlotsPerPage(h) > 0
    ensures TotalPages(h, FileOf(h, records)) == 1 + PagesFor(SlotsPerPage(h), |records|)
  {
    DivMod(1 + PagesFor(SlotsPerPage(h), |records|), h.pageSize, 0);
  }

  lemma {:induction false} PagesNeeded(m: nat, n: nat)
    requires m > 0 && n > 0
    ensures PagesFor(m, n) > 0 && (PagesFor(m, n) - 1) * m < n
  {
    QuotientAtLeast(1, n + m - 1, m);
    Distributes(PagesFor(m, n) - 1, 1, m);
    assert (n + m - 1) / m * m <= n + m - 1;
  }

  lemma {:induction false} FewerPlaces(h: FileHeader, data: seq<byte>, records: seq<seq<byte>>, deleted: set<nat>, page: nat)
    requires Writable(h, records) && data == FileOf(h, records) && records != []
    requires 0 < page < TotalPages(h, data) && !Flagged(h, data, 0) && !Flagged(h, data, page)
    ensures |LiveFrom(h, data, deleted, Place(0, 0))| < |records|
  {
    PageCount(h, records);
    PagesNeeded(SlotsPerPage(h), |records|);
    UnflaggedPage(h, data, deleted, Place(0, 0));
    LostPage(h, data, deleted, 1, page);
  }

  lemma {:induction false} UnsetFlags(h: FileHeader, data: seq<byte>, records: seq<seq<byte>>, i: nat, page: nat)
    requires Writable(h, records) && h.version == 5 && h.logicalLen >= 2 && data == FileOf(h, records)
    requires i < |records| && i % SlotsPerPage(h) == 0 && records[i][1] < 0x80 && page == PlaceOf(SlotsPerPage(h), i).page
    ensures 0 < page < TotalPages(h, data) && !Flagged(h, data, 0) && !Flagged(h, data, page)
  {
    HoldsWritten(h, data, records);
    FlagIsRecordByte(h, data, records, i);
    PageInFile(h, data, 0);
  }

  /** A page whose first record leaves the flag unset is not read. */
  lemma {:induction false} FewerRead(h: FileHeader, records: seq<seq<byte>>, i: nat)
    requires Writable(h, records) && h.version == 5 && h.logicalLen >= 2
    requires i < |records| && i % SlotsPerPage(h) == 0 && records[i][1] < 0x80
    ensures ReadFile(FileOf(h, records)).Ok? && |ReadFile(FileOf(h, records)).value| < |records|
  {
    var data, page := FileOf(h, records), PlaceOf(SlotsPerPage(h), i).page;
    HeaderWritten(h, data, records);
    HeaderReadIff(data, h);
    UnsetFlags(h, data, records, i, page);
    FewerPlaces(h, data, records, DeletedOf(h, data), page);
  }

  /** Version 5, with a key count that leads the chain out of the file: the records written are the records read exactly when
      the first record of every page has a second byte from 0x80 on. */
  lemma {:induction false} WriteThenRead5Iff(h: FileHeader, records: seq<seq<byte>>)
    requires Writable(h, records) && h.version == 5 && h.logicalLen >= 2 && records != []
    requires h.physicalLen + 0x1_0000 * h.keyCount >= |FileOf(h, records)|
    ensures ReadFile(FileOf(h, records)) == Ok(records) <==> FlagsSet(SlotsPerPage(h), records)
  {
    if FlagsSet(SlotsPerPage(h), records) {
      WriteThenReadFlagged5(h, records);
    } else {
      var i :| 0 <= i < |records| && i % SlotsPerPage(h) == 0 && !(|records[i]| >= 2 && records[i][1] >= 0x80);
      FewerRead(h, records, i);
    }
  }

  /** And where all second bytes are below 0x80, none is read. */
  lemma {:induction false} WriteThenReadAscii5(h: FileHeader, records: seq<seq<byte>>)
    requires Writable(h, records) && h.version == 5 && h.logicalLen >= 2
    requires forall i :: 0 <= i < |records| ==> |records[i]| >= 2 && records[i][1] < 0x80
    ensures ReadFile(FileOf(h, records)) == Ok([])
  {
    var data := FileOf(h, records);
    HeaderWritten(h, data, records);
    HoldsWritten(h, data, records);
    forall page: nat | 0 < page < TotalPages(h, data)
      ensures StartsWithRecord(h, records, page)
    {
      PageStarts(h, records, page);
    }
    AsciiVersion5GivesNothing(h, data, records);
  }

  lemma {:induction false} PageStarts(h: FileHeader, records: seq<seq<byte>>, page: nat)
    requires ValidHeader(h) && SlotsPerPage(h) > 0 && 0 < page < TotalPages(h, FileOf(h, records))
    ensures StartsWithRecord(h, records, page)
  {
    var m, n := SlotsPerPage(h), |records|;
    PageCount(h, records);
    assert page <= PagesFor(m, n);
    Multiples(page, PagesFor(m, n), m);
    assert (n + m - 1) / m * m <= n + m - 1;
    Distributes(page - 1, 1, m);
  }
}
