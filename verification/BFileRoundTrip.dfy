/** Writing a Btrieve file and reading it: which bytes of the file a record is made of, and when the records
    written are the records read. */
module BFileRoundTrip {
  import opened Wrappers
  import opened Bytes
  import opened BFile

  // ---- the header ------------------------------------------------------------------------------------

  function Three(data: seq<byte>, at: nat): nat
    requires at + 3 <= |data|
  {
    TwoBytes(data, at) + 0x1_0000 * data[at + 2] as int
  }

  function Four(data: seq<byte>, at: nat): nat
    requires at + 4 <= |data|
  {
    TwoBytes(data, at) + 0x1_0000 * TwoBytes(data, at + 2)
  }

  /** The numbers of the header, byte by byte. */
  predicate HeaderIs(data: seq<byte>, h: FileHeader) {
    && |data| >= 512
    && h.pageSize == (if TwoBytes(data, 0x08) < 512 then 512 else TwoBytes(data, 0x08))
    && if data[0] == 0x46 && data[1] == 0x43 then
         && h.version == 6 && h.keyCount == TwoBytes(data, 0x14)
         && h.logicalLen == TwoBytes(data, 0x16) && h.physicalLen == TwoBytes(data, 0x18)
         && h.recordCount == Three(data, 0x1A) && h.pageCount == Three(data, 0x26)
       else
         && 1 <= data[6] <= 5 && h.version == 5 && h.keyCount == TwoBytes(data, 0x12)
         && h.logicalLen == TwoBytes(data, 0x0E) && h.physicalLen == TwoBytes(data, 0x10)
         && h.recordCount == Four(data, 0x1C) && h.pageCount == TwoBytes(data, 0x14)
  }

  lemma {:induction false} LeThree(data: seq<byte>, off: nat)
    requires off + 3 <= |data|
    ensures Le(data, off, 3) == Three(data, off)
  {
    var b := data[off..off + 3];
    LeNatTwo(b[1..]);
  }

  lemma {:induction false} LeFour(data: seq<byte>, off: nat)
    requires off + 4 <= |data|
    ensures Le(data, off, 4) == Four(data, off)
  {
    LeNatFour(data[off..off + 4]);
  }

  lemma {:induction false} Header6Is(data: seq<byte>, h: FileHeader)
    requires |data| >= 512 && data[0] == 0x46 && data[1] == 0x43
    ensures HeaderV6(data) == h <==> HeaderIs(data, h)
  {
    HeaderNumber(data, 0x08);
    HeaderNumber(data, 0x14);
    HeaderNumber(data, 0x16);
    HeaderNumber(data, 0x18);
    LeThree(data, 0x1A);
    LeThree(data, 0x26);
  }

  lemma {:induction false} Header5Is(data: seq<byte>, h: FileHeader)
    requires |data| >= 512 && !(data[0] == 0x46 && data[1] == 0x43)
    ensures HeaderV5(data) == h && 1 <= data[6] <= 5 <==> HeaderIs(data, h)
    ensures Le(data, 0x06, 2) % 256 == data[6]
  {
    HeaderNumber(data, 0x06);
    HeaderNumber(data, 0x08);
    HeaderNumber(data, 0x0E);
    HeaderNumber(data, 0x10);
    HeaderNumber(data, 0x12);
    HeaderNumber(data, 0x14);
    LeFour(data, 0x1C);
  }

  /** A header is accepted with exactly these numbers, the lengths being in order. */
  lemma {:induction false} HeaderReadIff(data: seq<byte>, h: FileHeader)
    ensures ReadHeader(data) == Ok(h) <==> HeaderIs(data, h) && 0 < h.logicalLen <= h.physicalLen
  {
    if |data| < 512 {
    } else if data[0] == 0x46 && data[1] == 0x43 {
      Header6Is(data, h);
    } else {
      Header5Is(data, h);
    }
  }

  // ---- the bytes of a record -----------------------------------------------------------------------------

  /** Where the record in a slot of a page starts: in version 6 behind six bytes of page header and two of usage count, in
      version 5 behind four bytes of page header. */
  function RecordByte(h: FileHeader, page: nat, slot: nat): nat {
    page * h.pageSize + slot * h.physicalLen + if h.version == 6 then 8 else 4
  }

  lemma {:induction false} RecordBytes(h: FileHeader, data: seq<byte>, p: Place, j: nat)
    requires ValidHeader(h) && HasRecord(h, data, p) && j < h.logicalLen
    ensures RecordByte(h, p.page, p.slot) + j < |data|
    ensures RecordAt(h, data, p)[j] == data[RecordByte(h, p.page, p.slot) + j]
  {
    PlaceInBounds(h, data, p);
  }

  /** A slot counts in version 6 when its page's byte 5 has the top bit set and its usage count is not zero, given room for
      both; in version 5 when its page's byte 5 has and its offset is not on the chain. */
  lemma {:induction false} LiveBytes(h: FileHeader, data: seq<byte>, deleted: set<nat>, p: Place)
    requires ValidHeader(h) && InFile(h, data, p)
    ensures p.page * h.pageSize + 5 < |data| && (h.physicalLen >= 2 ==> RecordByte(h, p.page, p.slot) <= |data|)
    ensures h.version == 6 ==>
              (Live(h, data, deleted, p) <==>
                 && data[p.page * h.pageSize + 5] >= 0x80 && h.physicalLen >= 2 + h.logicalLen
                 && TwoBytes(data, RecordByte(h, p.page, p.slot) - 2) != 0)
    ensures h.version == 5 ==>
              (Live(h, data, deleted, p) <==> data[p.page * h.pageSize + 5] >= 0x80 && RecordByte(h, p.page, p.slot) !in deleted)
  {
    PlaceInBounds(h, data, p);
    if h.version == 6 && h.physicalLen >= 2 {
      var at := RecordByte(h, p.page, p.slot) - 2;
      assert SlotBytes(h, data, p)[0..2] == data[at..at + 2];
      LeNatTwo(data[at..at + 2]);
    }
  }

  /** The chain of deleted records, from a pointer on: it ends at 0 and at 0xFFFF_FFFF, and where the data ends; the next
      pointer is made of the four bytes at the last. */
  lemma {:induction false} PointerIs(data: seq<byte>, ptr: nat, k: nat)
    ensures Pointer(data, ptr, k)
         == if ptr == 0 || ptr == 0xFFFF_FFFF then None
            else if k == 0 then Some(ptr)
            else if ptr + 4 <= |data| then Pointer(data, Four(data, ptr), k - 1)
            else None
  {
    if ptr + 4 <= |data| {
      LeFour(data, ptr);
    }
  }

  /** In version 5 an offset counts as deleted exactly when it is one of the first million pointers of the chain that starts
      with the four bytes at 0x10; in version 6 none does. */
  lemma {:induction false} DeletedIff(h: FileHeader, data: seq<byte>, x: nat)
    requires |data| >= 512
    ensures x in DeletedOf(h, data) <==> h.version != 6 && OnChain(data, Four(data, 0x10), 1_000_000, x)
  {
    LeFour(data, 0x10);
    ChainMembers(data, Four(data, 0x10), 1_000_000, x);
  }

  // ---- records one after another -------------------------------------------------------------------------

  /** The place of the `i`-th record when `m` go on a page and the first page is the header's. */
  function PlaceOf(m: nat, i: nat): Place
    requires m > 0
  {
    Place(1 + i / m, i % m)
  }

  function PlacesFrom(m: nat, i: nat, n: nat): (r: seq<Place>)
    requires m > 0 && i <= n
    ensures |r| == n - i
  {
    seq(n - i, k requires 0 <= k < n - i => PlaceOf(m, i + k))
  }

  lemma {:induction false} Distributes(a: int, b: int, m: int)
    ensures (a + b) * m == a * m + b * m
  {
  }

  lemma {:induction false} Multiples(a: nat, b: nat, m: nat)
    requires a <= b
    ensures a * m <= b * m
  {
    Distributes(b - a, a, m);
    assert (b - a) * m >= 0;
  }

  lemma {:induction false} Difference(a: nat, b: nat, m: nat, r: nat)
    requires r < m && b * m <= a * m + r < (b + 1) * m
    ensures a == b
  {
    Distributes(a, 1, m);
    if a < b {
      Multiples(a + 1, b, m);
    } else if b < a {
      Multiples(b + 1, a, m);
    }
  }

  lemma {:induction false} DivMod(q: nat, m: nat, r: nat)
    requires r < m
    ensures (q * m + r) / m == q && (q * m + r) % m == r
  {
    var x := q * m + r;
    var d := x / m;
    assert d * m <= x < (d + 1) * m by {
      assert x == d * m + x % m && (d + 1) * m == d * m + m;
    }
    Difference(q, d, m, r);
  }

  lemma {:induction false} QuotientAtLeast(a: nat, b: nat, m: nat)
    requires m > 0 && a * m <= b
    ensures a <= b / m
  {
    var c := b - a * m;
    assert c == c / m * m + c % m;
    assert b == (a + c / m) * m + c % m;
    DivMod(a + c / m, m, c % m);
  }

  lemma {:induction false} NextPlace(m: nat, i: nat)
    requires m > 0
    ensures PlaceOf(m, i + 1) == if i % m + 1 == m then Place(2 + i / m, 0) else Place(1 + i / m, i % m + 1)
  {
    assert i == i / m * m + i % m;
    if i % m + 1 == m {
      assert (i / m + 1) * m == i + 1;
      DivMod(i / m + 1, m, 0);
    } else {
      DivMod(i / m, m, i % m + 1);
    }
  }

  /** The number of the record whose place it is. */
  function IndexOf(m: nat, p: Place): nat
    requires p.page > 0
  {
    (p.page - 1) * m + p.slot
  }

  lemma {:induction false} IndexOfPlace(m: nat, i: nat)
    requires m > 0
    ensures IndexOf(m, PlaceOf(m, i)) == i
  {
    assert i == i / m * m + i % m;
  }

  lemma {:induction false} PlaceOfIndex(m: nat, p: Place)
    requires p.page > 0 && p.slot < m
    ensures PlaceOf(m, IndexOf(m, p)) == p
  {
    DivMod(p.page - 1, m, p.slot);
  }

  lemma {:induction false} PlacesOrdered(m: nat, i: nat, n: nat)
    requires m > 0 && i < n
    ensures Earlier(PlaceOf(m, i), PlaceOf(m, n))
    decreases n - i
  {
    NextPlace(m, i);
    if i + 1 < n {
      PlacesOrdered(m, i + 1, n);
    }
  }

  predicate LiveAt(h: FileHeader, data: seq<byte>, deleted: set<nat>, p: Place)
    requires ValidHeader(h)
  {
    InFile(h, data, p) && Live(h, data, deleted, p)
  }

  /** A live place comes first, and then what comes from the next one on. */
  lemma {:induction false} LiveStep(h: FileHeader, data: seq<byte>, deleted: set<nat>, m: nat, i: nat)
    requires ValidHeader(h) && m == SlotsPerPage(h) > 0 && LiveAt(h, data, deleted, PlaceOf(m, i))
    ensures PlaceOf(m, i + 1).page <= TotalPages(h, data)
    ensures LiveFrom(h, data, deleted, PlaceOf(m, i)) == [PlaceOf(m, i)] + LiveFrom(h, data, deleted, PlaceOf(m, i + 1))
  {
    var p := PlaceOf(m, i);
    NextPlace(m, i);
    assert LiveFrom(h, data, deleted, Place(p.page, p.slot + 1)) == LiveFrom(h, data, deleted, PlaceOf(m, i + 1));
  }

  /** Live places in a row are listed one after another. */
  lemma {:induction false} LiveRun(h: FileHeader, data: seq<byte>, deleted: set<nat>, m: nat, i: nat, n: nat)
    requires ValidHeader(h) && m == SlotsPerPage(h) > 0 && i <= n && PlaceOf(m, i).page <= TotalPages(h, data)
    requires forall k :: i <= k < n ==> LiveAt(h, data, deleted, PlaceOf(m, k))
    ensures PlaceOf(m, n).page <= TotalPages(h, data)
    ensures LiveFrom(h, data, deleted, PlaceOf(m, i)) == PlacesFrom(m, i, n) + LiveFrom(h, data, deleted, PlaceOf(m, n))
    decreases n - i
  {
    if i < n {
      LiveStep(h, data, deleted, m, i);
      LiveRun(h, data, deleted, m, i + 1, n);
      assert PlacesFrom(m, i, n) == [PlaceOf(m, i)] + PlacesFrom(m, i + 1, n);
    } else {
      assert PlacesFrom(m, i, n) == [];
    }
  }

  /** From a place behind which none is live, nothing is listed. */
  lemma {:induction false} DeadRun(h: FileHeader, data: seq<byte>, deleted: set<nat>, p: Place)
    requires ValidHeader(h) && p.page <= TotalPages(h, data) && p.slot <= SlotsPerPage(h)
    requires forall q :: LiveAt(h, data, deleted, q) ==> Earlier(q, p)
    ensures LiveFrom(h, data, deleted, p) == []
  {
    var r := LiveFrom(h, data, deleted, p);
    LiveFromOrdered(h, data, deleted, p);
    if r != [] {
      assert LiveAt(h, data, deleted, r[0]);
    }
  }

  // ---- a file that holds records ---------------------------------------------------------------------------

  /** The records fill the pages behind the header page, in order, each with its bytes where a reader looks for them. */
  predicate Holds(h: FileHeader, data: seq<byte>, records: seq<seq<byte>>)
    requires ValidHeader(h)
  {
    && SlotsPerPage(h) > 0 && |data| >= h.pageSize && data[5] < 0x80
    && (h.version == 6 ==> h.physicalLen >= 2 + h.logicalLen)
    && forall i :: 0 <= i < |records| ==> HoldsAt(h, data, PlaceOf(SlotsPerPage(h), i), records[i])
  }

  predicate HoldsAt(h: FileHeader, data: seq<byte>, p: Place, record: seq<byte>) {
    && |record| == h.logicalLen && (p.page + 1) * h.pageSize <= |data|
    && forall j :: 0 <= j < |record| ==> HoldsByte(h, data, p, record, j)
  }

  predicate HoldsByte(h: FileHeader, data: seq<byte>, p: Place, record: seq<byte>, j: nat)
    requires j < |record|
  {
    RecordByte(h, p.page, p.slot) + j < |data| && data[RecordByte(h, p.page, p.slot) + j] == record[j]
  }

  lemma {:induction false} PageInFile(h: FileHeader, data: seq<byte>, page: nat)
    requires ValidHeader(h) && (page + 1) * h.pageSize <= |data|
    ensures page < TotalPages(h, data)
  {
    QuotientAtLeast(page + 1, |data|, h.pageSize);
  }

  lemma {:induction false} HeldRecord(h: FileHeader, data: seq<byte>, p: Place, record: seq<byte>)
    requires ValidHeader(h) && HoldsAt(h, data, p, record) && p.slot < SlotsPerPage(h)
    requires h.version == 6 ==> h.physicalLen >= 2 + h.logicalLen
    ensures HasRecord(h, data, p) && RecordAt(h, data, p) == record
  {
    PageInFile(h, data, p.page);
    forall j | 0 <= j < h.logicalLen
      ensures RecordAt(h, data, p)[j] == record[j]
    {
      RecordBytes(h, data, p, j);
      assert HoldsByte(h, data, p, record, j);
    }
  }

  /** With every record live, the places listed start with theirs. */
  lemma {:induction false} HeldPlaces(h: FileHeader, data: seq<byte>, deleted: set<nat>, records: seq<seq<byte>>)
    requires ValidHeader(h) && Holds(h, data, records)
    requires forall i :: 0 <= i < |records| ==> LiveAt(h, data, deleted, PlaceOf(SlotsPerPage(h), i))
    ensures var m, n := SlotsPerPage(h), |records|;
            && PlaceOf(m, n).page <= TotalPages(h, data)
            && LiveFrom(h, data, deleted, Place(0, 0)) == PlacesFrom(m, 0, n) + LiveFrom(h, data, deleted, PlaceOf(m, n))
  {
    PageInFile(h, data, 0);
    UnflaggedPage(h, data, deleted, Place(0, 0));
    DivMod(0, SlotsPerPage(h), 0);
    LiveRun(h, data, deleted, SlotsPerPage(h), 0, |records|);
  }

  lemma {:induction false} RecordsHeld(h: FileHeader, data: seq<byte>, records: seq<seq<byte>>, places: seq<Place>)
    requires ValidHeader(h) && Holds(h, data, records)
    requires |places| <= |records| && forall i :: 0 <= i < |places| ==> places[i] == PlaceOf(SlotsPerPage(h), i)
    ensures forall i :: 0 <= i < |places| ==> HasRecord(h, data, places[i])
    ensures Records(h, data, places) == records[..|places|]
  {
    forall i | 0 <= i < |places|
      ensures HasRecord(h, data, places[i]) && RecordAt(h, data, places[i]) == records[i]
    {
      HeldRecord(h, data, places[i], records[i]);
    }
  }

  /** How many records are read when the header declares a number of them, or none. */
  function Declared(h: FileHeader, n: nat): nat {
    if h.recordCount == 0 then n else Min(h.recordCount, n)
  }

  lemma {:induction false} CutOfRecords(h: FileHeader, m: nat, n: nat, tail: seq<Place>)
    requires m > 0 && (tail == [] || 0 < h.recordCount <= n)
    ensures var cut := Cut(h, PlacesFrom(m, 0, n) + tail, 0);
            |cut| == Declared(h, n) && forall i :: 0 <= i < |cut| ==> cut[i] == PlaceOf(m, i)
  {
  }

  /** Then the file is read as the records, up to the number the header declares. */
  lemma {:induction false} ReadsHeld(h: FileHeader, data: seq<byte>, records: seq<seq<byte>>)
    requires HeaderIs(data, h) && ValidHeader(h) && Holds(h, data, records)
    requires forall i :: 0 <= i < |records| ==> LiveAt(h, data, DeletedOf(h, data), PlaceOf(SlotsPerPage(h), i))
    requires 0 < h.recordCount <= |records|
             || forall q :: LiveAt(h, data, DeletedOf(h, data), q) ==> Earlier(q, PlaceOf(SlotsPerPage(h), |records|))
    ensures ReadFile(data) == Ok(records[..Declared(h, |records|)])
  {
    var m, n, deleted := SlotsPerPage(h), |records|, DeletedOf(h, data);
    HeaderReadIff(data, h);
    HeldPlaces(h, data, deleted, records);
    if !(0 < h.recordCount <= n) {
      DeadRun(h, data, deleted, PlaceOf(m, n));
    }
    var tail := LiveFrom(h, data, deleted, PlaceOf(m, n));
    CutOfRecords(h, m, n, tail);
    RecordsHeld(h, data, records, FilePlaces(h, data));
  }

  // ---- version 6 -----------------------------------------------------------------------------------------

  /** The page's flag is set and the slot's usage count is not zero. */
  predicate InUse(h: FileHeader, data: seq<byte>, p: Place)
    requires ValidHeader(h) && h.version == 6 && h.physicalLen >= 2 && InFile(h, data, p)
  {
    LiveBytes(h, data, {}, p);
    data[p.page * h.pageSize + 5] >= 0x80 && TwoBytes(data, RecordByte(h, p.page, p.slot) - 2) != 0
  }

  /** The slots in use behind the header page are those of the first `n` places. */
  ghost predicate UsesFirst(h: FileHeader, data: seq<byte>, n: nat)
    requires ValidHeader(h) && h.version == 6 && h.physicalLen >= 2
  {
    forall p :: InFile(h, data, p) && p.page > 0 ==> (InUse(h, data, p) <==> IndexOf(SlotsPerPage(h), p) < n)
  }

  lemma {:induction false} UsedIsLive(h: FileHeader, data: seq<byte>, n: nat, m: nat, i: nat)
    requires ValidHeader(h) && h.version == 6 && h.physicalLen >= 2 + h.logicalLen && UsesFirst(h, data, n)
    requires m == SlotsPerPage(h) > 0 && i < n && InFile(h, data, PlaceOf(m, i))
    ensures LiveAt(h, data, {}, PlaceOf(m, i))
  {
    IndexOfPlace(m, i);
    assert InUse(h, data, PlaceOf(m, i));
    LiveBytes(h, data, {}, PlaceOf(m, i));
  }

  lemma {:induction false} LiveIsUsed(h: FileHeader, data: seq<byte>, n: nat, m: nat, q: Place)
    requires ValidHeader(h) && h.version == 6 && h.physicalLen >= 2 + h.logicalLen && UsesFirst(h, data, n)
    requires m == SlotsPerPage(h) > 0 && LiveAt(h, data, {}, q)
    ensures Earlier(q, PlaceOf(m, n))
  {
    if q.page > 0 {
      LiveBytes(h, data, {}, q);
      assert InUse(h, data, q);
      PlaceOfIndex(m, q);
      PlacesOrdered(m, IndexOf(m, q), n);
    }
  }

  /** A version 6 file whose slots in use are those of the records is read as the records, up to the number the header
      declares; a header that declares none gives them all. */
  lemma {:induction false} ReadsVersion6(h: FileHeader, data: seq<byte>, records: seq<seq<byte>>)
    requires HeaderIs(data, h) && ValidHeader(h) && h.version == 6 && Holds(h, data, records) && UsesFirst(h, data, |records|)
    ensures ReadFile(data) == Ok(records[..Declared(h, |records|)])
  {
    var m, n := SlotsPerPage(h), |records|;
    forall i | 0 <= i < n
      ensures LiveAt(h, data, {}, PlaceOf(m, i))
    {
      HeldRecord(h, data, PlaceOf(m, i), records[i]);
      UsedIsLive(h, data, n, m, i);
    }
    forall q | LiveAt(h, data, {}, q)
      ensures Earlier(q, PlaceOf(m, n))
    {
      LiveIsUsed(h, data, n, m, q);
    }
    ReadsHeld(h, data, records);
  }

  // ---- version 5 -----------------------------------------------------------------------------------------

  /** In version 5 the flag of a page is the second byte of its first record. */
  lemma {:induction false} FlagIsRecordByte(h: FileHeader, data: seq<byte>, records: seq<seq<byte>>, i: nat)
    requires ValidHeader(h) && h.version == 5 && h.logicalLen >= 2 && Holds(h, data, records) && i < |records|
    ensures var p := PlaceOf(SlotsPerPage(h), i);
            && InFile(h, data, p) && p.page * h.pageSize + 5 < |data|
            && data[p.page * h.pageSize + 5] == records[i - i % SlotsPerPage(h)][1]
  {
    var m := SlotsPerPage(h);
    var first := i - i % m;
    assert first == i / m * m + 0 by {
      assert i == i / m * m + i % m;
    }
    DivMod(i / m, m, 0);
    HeldRecord(h, data, PlaceOf(m, i), records[i]);
    assert HoldsAt(h, data, PlaceOf(m, first), records[first]);
    assert HoldsByte(h, data, PlaceOf(m, first), records[first], 1);
    assert RecordByte(h, 1 + i / m, 0) + 1 == (1 + i / m) * h.pageSize + 5;
  }

  /** The second byte of the first record on the page is at least 0x80, and the record's own offset is not on the chain that
      starts at `start`. */
  ghost predicate Reached(h: FileHeader, data: seq<byte>, records: seq<seq<byte>>, i: nat, start: nat)
    requires ValidHeader(h) && SlotsPerPage(h) > 0 && i < |records|
  {
    var m := SlotsPerPage(h);
    && 0 <= i - i % m && |records[i - i % m]| >= 2 && records[i - i % m][1] >= 0x80
    && !OnChain(data, start, CHAIN_LIMIT, RecordByte(h, PlaceOf(m, i).page, PlaceOf(m, i).slot))
  }

  /** So a record of a version 5 file is read exactly when the second byte of the first record of its page is at least
      0x80, and its own offset is not on the chain. */
  lemma {:induction false} Version5RecordReadIff(h: FileHeader, data: seq<byte>, records: seq<seq<byte>>, i: nat, start: nat)
    requires HeaderIs(data, h) && ValidHeader(h) && h.version == 5 && h.logicalLen >= 2 && Holds(h, data, records) && i < |records|
    requires start == h.physicalLen + 0x1_0000 * h.keyCount
    ensures LiveAt(h, data, DeletedOf(h, data), PlaceOf(SlotsPerPage(h), i)) <==> Reached(h, data, records, i, start)
  {
    var p := PlaceOf(SlotsPerPage(h), i);
    HeaderReadIff(data, h);
    FlagIsRecordByte(h, data, records, i);
    LiveBytes(h, data, DeletedOf(h, data), p);
    ChainOf(h, data, start, RecordByte(h, p.page, p.slot));
  }

  /** Where that holds of all of them, as many records are read as the header declares. */
  lemma {:induction false} ReadsVersion5(h: FileHeader, data: seq<byte>, records: seq<seq<byte>>, start: nat)
    requires HeaderIs(data, h) && ValidHeader(h) && h.version == 5 && h.logicalLen >= 2 && Holds(h, data, records)
    requires start == h.physicalLen + 0x1_0000 * h.keyCount && 0 < h.recordCount <= |records|
    requires forall i :: 0 <= i < |records| ==> Reached(h, data, records, i, start)
    ensures ReadFile(data) == Ok(records[..h.recordCount])
  {
    forall i | 0 <= i < |records|
      ensures LiveAt(h, data, DeletedOf(h, data), PlaceOf(SlotsPerPage(h), i))
    {
      Version5RecordReadIff(h, data, records, i, start);
    }
    ReadsHeld(h, data, records);
  }

  /** A page behind the header page starts with a record of the list. */
  predicate StartsWithRecord(h: FileHeader, records: seq<seq<byte>>, page: nat)
    requires ValidHeader(h) && page > 0
  {
    IndexOf(SlotsPerPage(h), Place(page, 0)) < |records|
  }

  lemma {:induction false} UnflaggedByRecord(h: FileHeader, data: seq<byte>, records: seq<seq<byte>>, page: nat)
    requires ValidHeader(h) && h.version == 5 && h.logicalLen >= 2 && Holds(h, data, records)
    requires 0 < page < TotalPages(h, data) && StartsWithRecord(h, records, page)
    requires forall i :: 0 <= i < |records| ==> |records[i]| >= 2 && records[i][1] < 0x80
    ensures !Flagged(h, data, page)
  {
    var m := SlotsPerPage(h);
    var first := IndexOf(m, Place(page, 0));
    PlaceOfIndex(m, Place(page, 0));
    FlagIsRecordByte(h, data, records, first);
    assert 0 <= first - first % m <= first;
  }

  /** A version 5 file whose every page but the header's starts with a record of the list, and whose records all have a
      second byte below 0x80, as any ASCII text has, gives no records at all. */
  lemma {:induction false} AsciiVersion5GivesNothing(h: FileHeader, data: seq<byte>, records: seq<seq<byte>>)
    requires HeaderIs(data, h) && ValidHeader(h) && h.version == 5 && h.logicalLen >= 2 && Holds(h, data, records)
    requires forall page: nat :: 0 < page < TotalPages(h, data) ==> StartsWithRecord(h, records, page)
    requires forall i :: 0 <= i < |records| ==> |records[i]| >= 2 && records[i][1] < 0x80
    ensures ReadFile(data) == Ok([])
  {
    HeaderReadIff(data, h);
    forall page: nat | page < TotalPages(h, data)
      ensures !Flagged(h, data, page)
    {
      if page > 0 {
        UnflaggedByRecord(h, data, records, page);
      }
    }
    NothingFlagged(h, data, DeletedOf(h, data), 0);
  }

  lemma {:induction false} NothingFlagged(h: FileHeader, data: seq<byte>, deleted: set<nat>, page: nat)
    requires ValidHeader(h) && page <= TotalPages(h, data)
    requires forall q: nat :: page <= q < TotalPages(h, data) ==> !Flagged(h, data, q)
    ensures LiveFrom(h, data, deleted, Place(page, 0)) == []
    decreases TotalPages(h, data) - page
  {
    if page < TotalPages(h, data) {
      UnflaggedPage(h, data, deleted, Place(page, 0));
      NothingFlagged(h, data, deleted, page + 1);
    }
  }

  // ---- how many places there are ---------------------------------------------------------------------------

  lemma {:induction false} PageBound(h: FileHeader, data: seq<byte>, deleted: set<nat>, page: nat, slot: nat)
    requires ValidHeader(h) && page < TotalPages(h, data) && slot <= SlotsPerPage(h)
    ensures |LiveFrom(h, data, deleted, Place(page, slot))| <= SlotsPerPage(h) - slot + |LiveFrom(h, data, deleted, Place(page + 1, 0))|
    decreases SlotsPerPage(h) - slot
  {
    if slot < SlotsPerPage(h) {
      PageBound(h, data, deleted, page, slot + 1);
    }
  }

  lemma {:induction false} PagesBound(h: FileHeader, data: seq<byte>, deleted: set<nat>, page: nat)
    requires ValidHeader(h) && page <= TotalPages(h, data)
    ensures |LiveFrom(h, data, deleted, Place(page, 0))| <= (TotalPages(h, data) - page) * SlotsPerPage(h)
    decreases TotalPages(h, data) - page
  {
    if page < TotalPages(h, data) {
      PageBound(h, data, deleted, page, 0);
      PagesBound(h, data, deleted, page + 1);
      Distributes(TotalPages(h, data) - page - 1, 1, SlotsPerPage(h));
    }
  }

  /** A page without the flag costs a page of places. */
  lemma {:induction false} LostPage(h: FileHeader, data: seq<byte>, deleted: set<nat>, page: nat, lost: nat)
    requires ValidHeader(h) && page <= lost < TotalPages(h, data) && !Flagged(h, data, lost)
    ensures |LiveFrom(h, data, deleted, Place(page, 0))| <= (TotalPages(h, data) - page - 1) * SlotsPerPage(h)
    decreases lost - page
  {
    if page == lost {
      UnflaggedPage(h, data, deleted, Place(page, 0));
      PagesBound(h, data, deleted, page + 1);
    } else {
      PageBound(h, data, deleted, page, 0);
      LostPage(h, data, deleted, page + 1, lost);
      Distributes(TotalPages(h, data) - page - 2, 1, SlotsPerPage(h));
    }
  }
}
