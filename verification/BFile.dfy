/** Reading records out of a Btrieve .B file: the file control record, the chain of deleted records of
    version 5, and the record iterator. */
module BFile {
  import opened Wrappers
  import opened Bytes

  const ERR_TOO_SMALL := 1
  const ERR_UNKNOWN_FORMAT := 2
  const ERR_NO_RECORD_LENGTH := 3
  const ERR_LENGTHS := 4

  datatype FileHeader = FileHeader(
    version: nat, pageSize: nat, logicalLen: nat, physicalLen: nat, keyCount: nat, recordCount: nat, pageCount: nat)

  /** Little-endian numbers; 0 past the end of the data. */
  function Le(data: seq<byte>, off: nat, n: nat): nat {
    if off + n > |data| then 0 else LeNat(data[off..off + n])
  }

  function Max(a: nat, b: nat): nat {
    if a >= b then a else b
  }

  function HeaderV6(data: seq<byte>): FileHeader {
    FileHeader(6, Max(Le(data, 0x08, 2), 512), Le(data, 0x16, 2), Le(data, 0x18, 2), Le(data, 0x14, 2),
               Le(data, 0x1A, 3), Le(data, 0x26, 3))
  }

  function HeaderV5(data: seq<byte>): FileHeader {
    FileHeader(5, Max(Le(data, 0x08, 2), 512), Le(data, 0x0E, 2), Le(data, 0x10, 2), Le(data, 0x12, 2),
               Le(data, 0x1C, 4), Le(data, 0x14, 2))
  }

  function ReadHeader(data: seq<byte>): (r: Result<FileHeader>)
    ensures r.Ok? ==> ValidHeader(r.value) && |data| >= 512
  {
    if |data| < 512 then Err(ERR_TOO_SMALL)
    else
      var v6 := data[0] == 'F' as int && data[1] == 'C' as int;
      var ver := Le(data, 0x06, 2) % 256;
      if !v6 && (ver == 0 || ver > 5) then Err(ERR_UNKNOWN_FORMAT)
      else
        var h := if v6 then HeaderV6(data) else HeaderV5(data);
        if h.logicalLen == 0 then Err(ERR_NO_RECORD_LENGTH)
        else if h.physicalLen < h.logicalLen then Err(ERR_LENGTHS)
        else Ok(h)
  }

  predicate ValidHeader(h: FileHeader) {
    (h.version == 5 || h.version == 6) && h.pageSize >= 512 && 0 < h.logicalLen <= h.physicalLen
  }

  // ---- where records are ----------------------------------------------------------------------------------------

  function RecStart(h: FileHeader): nat {
    if h.version == 6 then 6 else 4
  }

  function SlotsPerPage(h: FileHeader): nat
    requires ValidHeader(h)
  {
    (h.pageSize - RecStart(h)) / h.physicalLen
  }

  function TotalPages(h: FileHeader, data: seq<byte>): nat
    requires ValidHeader(h)
  {
    |data| / h.pageSize
  }

  /** A place for a record. */
  datatype Place = Place(page: nat, slot: nat)

  predicate InFile(h: FileHeader, data: seq<byte>, p: Place)
    requires ValidHeader(h)
  {
    p.page < TotalPages(h, data) && p.slot < SlotsPerPage(h)
  }

  lemma {:induction false} Products(a: nat, b: nat, m: nat)
    requires m > 0 && a < b / m
    ensures a * m + m <= b
  {
    assert (a + 1) * m <= b / m * m <= b;
  }

  function PageOff(h: FileHeader, page: nat): nat {
    page * h.pageSize
  }

  function SlotOff(h: FileHeader, slot: nat): nat {
    RecStart(h) + slot * h.physicalLen
  }

  /** Every page and every slot lies inside the data, so no index is out of bounds and the iterator's
      guard against slots that overflow their page never fires. */
  lemma {:induction false} PlaceInBounds(h: FileHeader, data: seq<byte>, p: Place)
    requires ValidHeader(h)
    ensures p.page < TotalPages(h, data) ==> PageOff(h, p.page) + h.pageSize <= |data|
    ensures p.slot < SlotsPerPage(h) ==> SlotOff(h, p.slot) + h.physicalLen <= h.pageSize
  {
    if p.page < TotalPages(h, data) {
      Products(p.page, |data|, h.pageSize);
    }
    if p.slot < SlotsPerPage(h) {
      Products(p.slot, h.pageSize - RecStart(h), h.physicalLen);
    }
  }

  /** Byte 5 of a page that holds records has its top bit set. */
  predicate Flagged(h: FileHeader, data: seq<byte>, page: nat)
    requires ValidHeader(h) && page < TotalPages(h, data)
  {
    PlaceInBounds(h, data, Place(page, 0));
    data[PageOff(h, page) + 5] >= 0x80
  }

  function SlotBytes(h: FileHeader, data: seq<byte>, p: Place): (r: seq<byte>)
    requires ValidHeader(h) && InFile(h, data, p)
    ensures |r| == h.physicalLen
  {
    PlaceInBounds(h, data, p);
    var at := PageOff(h, p.page) + SlotOff(h, p.slot);
    data[at..at + h.physicalLen]
  }

  /** A slot that holds a record: in version 6 a usage count that is not zero and room for the record
      behind it, in version 5 an offset that is not in the chain of deleted records. */
  predicate Live(h: FileHeader, data: seq<byte>, deleted: set<nat>, p: Place)
    requires ValidHeader(h) && InFile(h, data, p)
  {
    && Flagged(h, data, p.page)
    && if h.version == 6 then
         2 + h.logicalLen <= h.physicalLen && LeNat(SlotBytes(h, data, p)[0..2]) != 0
       else PageOff(h, p.page) + SlotOff(h, p.slot) !in deleted
  }

  function RecordAt(h: FileHeader, data: seq<byte>, p: Place): (r: seq<byte>)
    requires ValidHeader(h) && InFile(h, data, p) && (h.version == 6 ==> 2 + h.logicalLen <= h.physicalLen)
    ensures |r| == h.logicalLen
  {
    var slot := SlotBytes(h, data, p);
    if h.version == 6 then slot[2..2 + h.logicalLen] else slot[..h.logicalLen]
  }

  // ---- the live places in order -------------------------------------------------------------------------------------

  /** The live places from `p` on, page by page and slot by slot. */
  function LiveFrom(h: FileHeader, data: seq<byte>, deleted: set<nat>, p: Place): (r: seq<Place>)
    requires ValidHeader(h) && p.page <= TotalPages(h, data) && p.slot <= SlotsPerPage(h)
    ensures forall i :: 0 <= i < |r| ==> InFile(h, data, r[i]) && Live(h, data, deleted, r[i])
    decreases TotalPages(h, data) - p.page, SlotsPerPage(h) - p.slot
  {
    if p.page == TotalPages(h, data) then []
    else if p.slot == SlotsPerPage(h) then LiveFrom(h, data, deleted, Place(p.page + 1, 0))
    else
      var more := LiveFrom(h, data, deleted, Place(p.page, p.slot + 1));
      if Live(h, data, deleted, p) then [p] + more else more
  }

  predicate Earlier(p: Place, q: Place) {
    p.page < q.page || (p.page == q.page && p.slot < q.slot)
  }

  /** The place the iterator looks at after `p`. */
  function After(h: FileHeader, p: Place): Place
    requires ValidHeader(h)
  {
    if p.slot == SlotsPerPage(h) then Place(p.page + 1, 0) else Place(p.page, p.slot + 1)
  }

  predicate NoneEarlier(r: seq<Place>, p: Place) {
    forall i :: 0 <= i < |r| ==> !Earlier(r[i], p)
  }

  predicate InOrder(r: seq<Place>) {
    forall i, j :: 0 <= i < j < |r| ==> Earlier(r[i], r[j])
  }

  lemma {:induction false} InOrderCons(p: Place, more: seq<Place>)
    requires InOrder(more) && NoneEarlier(more, Place(p.page, p.slot + 1))
    ensures InOrder([p] + more) && NoneEarlier([p] + more, p)
  {
    var r := [p] + more;
    assert forall i :: 0 < i < |r| ==> r[i] == more[i - 1];
  }

  /** The live places are listed in order, so each at most once. */
  lemma {:induction false} LiveFromOrdered(h: FileHeader, data: seq<byte>, deleted: set<nat>, p: Place)
    requires ValidHeader(h) && p.page <= TotalPages(h, data) && p.slot <= SlotsPerPage(h)
    ensures NoneEarlier(LiveFrom(h, data, deleted, p), p) && InOrder(LiveFrom(h, data, deleted, p))
    decreases TotalPages(h, data) - p.page, SlotsPerPage(h) - p.slot
  {
    if p.page < TotalPages(h, data) {
      LiveFromOrdered(h, data, deleted, After(h, p));
      if p.slot < SlotsPerPage(h) {
        InOrderCons(p, LiveFrom(h, data, deleted, After(h, p)));
      }
    }
  }

  /** Every live place from `p` on is listed. */
  lemma {:induction false} LiveFromComplete(h: FileHeader, data: seq<byte>, deleted: set<nat>, p: Place, q: Place)
    requires ValidHeader(h) && p.page <= TotalPages(h, data) && p.slot <= SlotsPerPage(h)
    requires InFile(h, data, q) && Live(h, data, deleted, q) && !Earlier(q, p)
    ensures q in LiveFrom(h, data, deleted, p)
    decreases TotalPages(h, data) - p.page, SlotsPerPage(h) - p.slot
  {
    if q != p {
      LiveFromComplete(h, data, deleted, After(h, p), q);
    }
  }

  /** A place is listed exactly when it is live. */
  lemma {:induction false} ListedIff(h: FileHeader, data: seq<byte>, deleted: set<nat>, p: Place)
    requires ValidHeader(h) && InFile(h, data, p)
    ensures p in LiveFrom(h, data, deleted, Place(0, 0)) <==> Live(h, data, deleted, p)
  {
    if Live(h, data, deleted, p) {
      LiveFromComplete(h, data, deleted, Place(0, 0), p);
    }
  }

  predicate HasRecord(h: FileHeader, data: seq<byte>, p: Place)
    requires ValidHeader(h)
  {
    InFile(h, data, p) && (h.version == 6 ==> 2 + h.logicalLen <= h.physicalLen)
  }

  /** The records at some places. */
  function Records(h: FileHeader, data: seq<byte>, places: seq<Place>): (r: seq<seq<byte>>)
    requires ValidHeader(h) && forall i :: 0 <= i < |places| ==> HasRecord(h, data, places[i])
    ensures |r| == |places|
    ensures forall i :: 0 <= i < |r| ==> HasRecord(h, data, places[i]) && r[i] == RecordAt(h, data, places[i])
    ensures forall i :: 0 <= i < |r| ==> |r[i]| == h.logicalLen
  {
    seq(|places|, i requires 0 <= i < |places| => assert HasRecord(h, data, places[i]); RecordAt(h, data, places[i]))
  }

  function Cut(h: FileHeader, places: seq<Place>, yielded: nat): seq<Place> {
    if h.recordCount == 0 then places
    else if yielded >= h.recordCount then []
    else places[..Min(h.recordCount - yielded, |places|)]
  }

  class RecordIter {
    const h: FileHeader
    const data: seq<byte>
    const deleted: set<nat>
    var pageNum: nat
    var slotIdx: nat
    var yielded: nat

    constructor (h: FileHeader, data: seq<byte>, deleted: set<nat>)
      requires ValidHeader(h)
      ensures this.h == h && this.data == data && this.deleted == deleted
      ensures Valid() && Remaining() == Cut(h, LiveFrom(h, data, deleted, Place(0, 0)), 0)
    {
      this.h, this.data, this.deleted := h, data, deleted;
      pageNum, slotIdx, yielded := 0, 0, 0;
    }

    ghost predicate Valid()
      reads this
    {
      ValidHeader(h) && pageNum <= TotalPages(h, data) && slotIdx <= SlotsPerPage(h)
    }

    /** The places still to come. */
    ghost function Remaining(): seq<Place>
      reads this
      requires Valid()
    {
      Cut(h, LiveFrom(h, data, deleted, Place(pageNum, slotIdx)), yielded)
    }

    /** The record of the next live place, or None when all have been returned. */
    method Next() returns (r: Option<seq<byte>>)
      requires Valid()
      modifies this`pageNum, this`slotIdx, this`yielded
      ensures Valid()
      ensures if old(Remaining()) == [] then r == None && Remaining() == []
              else
                var p := old(Remaining()[0]);
                && InFile(h, data, p) && Live(h, data, deleted, p)
                && r == Some(RecordAt(h, data, p)) && |r.value| == h.logicalLen
                && Remaining() == old(Remaining()[1..])
    {
      var slotsPp := SlotsPerPage(h);
      if slotsPp == 0 {
        NoSlots(h, data, deleted, Place(pageNum, slotIdx));
        return None;
      }
      if yielded >= h.recordCount && h.recordCount > 0 {
        return None;
      }
      ghost var start := LiveFrom(h, data, deleted, Place(pageNum, slotIdx));
      while true
        invariant Valid() && yielded == old(yielded)
        invariant LiveFrom(h, data, deleted, Place(pageNum, slotIdx)) == start
        decreases TotalPages(h, data) - pageNum
      {
        if pageNum >= TotalPages(h, data) {
          return None;
        }
        r := NextInPage(slotsPp);
        if r.Some? {
          YieldStep(h, data, deleted, Place(pageNum, slotIdx - 1), yielded);
          yielded := yielded + 1;
          return;
        }
        pageNum := pageNum + 1;
        slotIdx := 0;
      }
    }

    /** The next live slot of the current page, if any; the position moves past the slots looked at. */
    method NextInPage(slotsPp: nat) returns (r: Option<seq<byte>>)
      requires Valid() && pageNum < TotalPages(h, data) && slotsPp == SlotsPerPage(h)
      modifies this`slotIdx
      ensures Valid()
      ensures match r
              case None =>
                LiveFrom(h, data, deleted, Place(pageNum, old(slotIdx))) == LiveFrom(h, data, deleted, Place(pageNum + 1, 0))
              case Some(record) =>
                slotIdx > 0
                && var p := Place(pageNum, slotIdx - 1);
                   && InFile(h, data, p) && Live(h, data, deleted, p) && record == RecordAt(h, data, p)
                   && LiveFrom(h, data, deleted, Place(pageNum, old(slotIdx))) == LiveFrom(h, data, deleted, p)
    {
      if !Flagged(h, data, pageNum) {
        UnflaggedPage(h, data, deleted, Place(pageNum, slotIdx));
        return None;
      }
      while slotIdx < slotsPp
        invariant Valid()
        invariant LiveFrom(h, data, deleted, Place(pageNum, slotIdx)) == LiveFrom(h, data, deleted, Place(pageNum, old(slotIdx)))
        decreases slotsPp - slotIdx
      {
        var p := Place(pageNum, slotIdx);
        slotIdx := slotIdx + 1;
        var live := IsLive(p);
        if live {
          return Some(RecordAt(h, data, p));
        }
      }
      r := None;
    }

    /** The checks on one slot of a flagged page. */
    method IsLive(p: Place) returns (live: bool)
      requires ValidHeader(h) && InFile(h, data, p) && Flagged(h, data, p.page)
      ensures live <==> Live(h, data, deleted, p)
    {
      var slot := SlotBytes(h, data, p);
      if h.version == 6 {
        if |slot| < 2 {
          return false;
        }
        live := LeNat(slot[0..2]) != 0 && 2 + h.logicalLen <= |slot|;
      } else {
        live := PageOff(h, p.page) + SlotOff(h, p.slot) !in deleted;
      }
    }
  }

  /** Taking a live place off the front of what remains. */
  lemma {:induction false} YieldStep(h: FileHeader, data: seq<byte>, deleted: set<nat>, p: Place, yielded: nat)
    requires ValidHeader(h) && InFile(h, data, p) && Live(h, data, deleted, p)
    requires h.recordCount == 0 || yielded < h.recordCount
    ensures var left := Cut(h, LiveFrom(h, data, deleted, p), yielded);
            && left != [] && left[0] == p
            && left[1..] == Cut(h, LiveFrom(h, data, deleted, Place(p.page, p.slot + 1)), yielded + 1)
  {
    var more := LiveFrom(h, data, deleted, Place(p.page, p.slot + 1));
    assert LiveFrom(h, data, deleted, p) == [p] + more;
    assert ([p] + more)[1..] == more;
    if h.recordCount > 0 {
      var n := Min(h.recordCount - yielded, |more| + 1);
      assert ([p] + more)[..n][1..] == more[..n - 1];
    }
  }

  /** A page without the flag has no live places. */
  lemma {:induction false} UnflaggedPage(h: FileHeader, data: seq<byte>, deleted: set<nat>, p: Place)
    requires ValidHeader(h) && p.page < TotalPages(h, data) && p.slot <= SlotsPerPage(h) && !Flagged(h, data, p.page)
    ensures LiveFrom(h, data, deleted, p) == LiveFrom(h, data, deleted, Place(p.page + 1, 0))
    decreases SlotsPerPage(h) - p.slot
  {
    if p.slot < SlotsPerPage(h) {
      UnflaggedPage(h, data, deleted, Place(p.page, p.slot + 1));
    }
  }

  lemma {:induction false} NoSlots(h: FileHeader, data: seq<byte>, deleted: set<nat>, p: Place)
    requires ValidHeader(h) && p.page <= TotalPages(h, data) && p.slot <= SlotsPerPage(h) == 0
    ensures LiveFrom(h, data, deleted, p) == []
    decreases TotalPages(h, data) - p.page
  {
    if p.page < TotalPages(h, data) {
      NoSlots(h, data, deleted, Place(p.page + 1, 0));
    }
  }

  // ---- the chain of deleted records, version 5 ------------------------------------------------------------------------

  const CHAIN_START := 0x10
  const CHAIN_END := 0xFFFF_FFFF
  const CHAIN_LIMIT: nat := 1_000_000

  predicate ChainGoesOn(ptr: nat) {
    ptr != CHAIN_END && ptr != 0
  }

  /** The offsets on the chain from `ptr` on, at most `n` of them. */
  function Chain(data: seq<byte>, ptr: nat, n: nat): set<nat>
    decreases n
  {
    if n == 0 || !ChainGoesOn(ptr) then {}
    else {ptr} + if ptr + 4 <= |data| then Chain(data, Le(data, ptr, 4), n - 1) else {}
  }

  function DeletedOf(h: FileHeader, data: seq<byte>): set<nat> {
    if h.version == 6 then {} else Chain(data, Le(data, CHAIN_START, 4), CHAIN_LIMIT)
  }

  method FollowChain(data: seq<byte>) returns (deleted: set<nat>)
    ensures deleted == Chain(data, Le(data, CHAIN_START, 4), CHAIN_LIMIT)
  {
    deleted := {};
    var ptr: nat := Le(data, CHAIN_START, 4);
    var guard: nat := 0;
    while ptr != CHAIN_END && ptr != 0 && guard < CHAIN_LIMIT
      invariant guard <= CHAIN_LIMIT && deleted + Chain(data, ptr, CHAIN_LIMIT - guard) == Chain(data, Le(data, CHAIN_START, 4), CHAIN_LIMIT)
      decreases CHAIN_LIMIT - guard
    {
      deleted := deleted + {ptr};
      if ptr + 4 <= |data| {
        ptr := Le(data, ptr, 4);
      } else {
        break;
      }
      guard := guard + 1;
    }
  }

  /** The `k`-th pointer of the chain. */
  function Pointer(data: seq<byte>, ptr: nat, k: nat): Option<nat>
    decreases k
  {
    if !ChainGoesOn(ptr) then None
    else if k == 0 then Some(ptr)
    else if ptr + 4 <= |data| then Pointer(data, Le(data, ptr, 4), k - 1)
    else None
  }

  lemma {:induction false} PointerInChain(data: seq<byte>, ptr: nat, n: nat, x: nat, k: nat)
    requires k < n && Pointer(data, ptr, k) == Some(x)
    ensures x in Chain(data, ptr, n)
    decreases k
  {
    assert ptr in Chain(data, ptr, n);
    if k > 0 {
      PointerInChain(data, Le(data, ptr, 4), n - 1, x, k - 1);
    }
  }

  /** One of the first `n` pointers of the chain. */
  ghost predicate OnChain(data: seq<byte>, ptr: nat, n: nat, x: nat) {
    exists k: nat :: k < n && Pointer(data, ptr, k) == Some(x)
  }

  lemma {:induction false} ChainOnPointers(data: seq<byte>, ptr: nat, n: nat, x: nat) returns (k: nat)
    requires x in Chain(data, ptr, n)
    ensures k < n && Pointer(data, ptr, k) == Some(x)
    decreases n
  {
    if x == ptr {
      k := 0;
    } else {
      k := ChainOnPointers(data, Le(data, ptr, 4), n - 1, x);
      k := k + 1;
    }
  }

  /** The set holds exactly the pointers of the chain's first `n` steps, also when the chain runs in a
      circle. */
  lemma {:induction false} ChainMembers(data: seq<byte>, ptr: nat, n: nat, x: nat)
    ensures x in Chain(data, ptr, n) <==> OnChain(data, ptr, n, x)
  {
    if x in Chain(data, ptr, n) {
      var k := ChainOnPointers(data, ptr, n, x);
      assert OnChain(data, ptr, n, x);
    }
    if OnChain(data, ptr, n, x) {
      var k: nat :| k < n && Pointer(data, ptr, k) == Some(x);
      PointerInChain(data, ptr, n, x, k);
    }
  }

  lemma {:induction false} LeSplit(data: seq<byte>, off: nat)
    requires off + 4 <= |data|
    ensures Le(data, off, 4) == Le(data, off, 2) + 0x1_0000 * Le(data, off + 2, 2)
  {
    var b := data[off..off + 4];
    assert b[..2] == data[off..off + 2] && b[2..] == data[off + 2..off + 4];
    LeNatFour(b);
    LeNatTwo(b[..2]);
    LeNatTwo(b[2..]);
  }

  /** The four bytes the chain is started from are those of the physical record length and the key
      count, so the chain never starts empty in a readable version 5 file: unless both numbers are
      0xFFFF, one offset made of the two counts as deleted. */
  lemma {:induction false} ChainStartAliasesLengths(data: seq<byte>)
    requires ReadHeader(data).Ok? && ReadHeader(data).value.version == 5
    ensures var h := ReadHeader(data).value;
            var start := h.physicalLen + 0x1_0000 * h.keyCount;
            && Le(data, CHAIN_START, 4) == start
            && (start in DeletedOf(h, data) <==> start != CHAIN_END)
  {
    LeSplit(data, CHAIN_START);
    var start := Le(data, CHAIN_START, 4);
    ChainMembers(data, start, CHAIN_LIMIT, start);
    if start != CHAIN_END {
      assert Pointer(data, start, 0) == Some(start);
    }
  }

  /** A version 6 file whose slots have no room for the usage count in front of the record gives no
      records at all, although its header is accepted. */
  lemma {:induction false} TightSlotsGiveNothing(h: FileHeader, data: seq<byte>, deleted: set<nat>, p: Place)
    requires ValidHeader(h) && p.page <= TotalPages(h, data) && p.slot <= SlotsPerPage(h)
    requires h.version == 6 && h.physicalLen < 2 + h.logicalLen
    ensures LiveFrom(h, data, deleted, p) == []
    decreases TotalPages(h, data) - p.page, SlotsPerPage(h) - p.slot
  {
    if p.page < TotalPages(h, data) {
      TightSlotsGiveNothing(h, data, deleted, After(h, p));
    }
  }

  /** The slot is marked as used: its page is flagged and its usage count is not zero. */
  predicate Used(h: FileHeader, data: seq<byte>, p: Place)
    requires ValidHeader(h) && InFile(h, data, p) && h.physicalLen >= 2
  {
    Flagged(h, data, p.page) && LeNat(SlotBytes(h, data, p)[0..2]) != 0
  }

  /** In version 6 a used slot is read exactly when it has room for the usage count and the record. */
  lemma {:induction false} UsedSlotReadIff(h: FileHeader, data: seq<byte>, p: Place)
    requires ValidHeader(h) && h.version == 6 && h.physicalLen >= 2 && InFile(h, data, p) && Used(h, data, p)
    ensures p in LiveFrom(h, data, DeletedOf(h, data), Place(0, 0)) <==> h.physicalLen >= 2 + h.logicalLen
  {
    ListedIff(h, data, {}, p);
  }

  /** In version 5 a slot of a flagged page is read exactly when its offset is not on the chain, which
      starts at the number made of the record length and the key count. */
  lemma {:induction false} SlotReadIff(h: FileHeader, data: seq<byte>, p: Place, start: nat)
    requires ReadHeader(data) == Ok(h) && h.version == 5 && start == h.physicalLen + 0x1_0000 * h.keyCount
    requires InFile(h, data, p) && Flagged(h, data, p.page)
    ensures var listed := p in LiveFrom(h, data, DeletedOf(h, data), Place(0, 0));
            listed <==> !OnChain(data, start, CHAIN_LIMIT, PageOff(h, p.page) + SlotOff(h, p.slot))
  {
    var deleted := DeletedOf(h, data);
    ListedIff(h, data, deleted, p);
    ChainOf(h, data, start, PageOff(h, p.page) + SlotOff(h, p.slot));
  }

  lemma {:induction false} ChainOf(h: FileHeader, data: seq<byte>, start: nat, x: nat)
    requires ReadHeader(data) == Ok(h) && h.version == 5 && start == h.physicalLen + 0x1_0000 * h.keyCount
    ensures x in DeletedOf(h, data) <==> OnChain(data, start, CHAIN_LIMIT, x)
  {
    ChainStartAliasesLengths(data);
    ChainMembers(data, start, CHAIN_LIMIT, x);
  }

  /** So the slot at that offset is never read, whatever it holds. */
  lemma {:induction false} AliasedSlotLost(h: FileHeader, data: seq<byte>, p: Place)
    requires ReadHeader(data) == Ok(h) && h.version == 5 && InFile(h, data, p)
    requires PageOff(h, p.page) + SlotOff(h, p.slot) == h.physicalLen + 0x1_0000 * h.keyCount != CHAIN_END
    ensures p !in LiveFrom(h, data, DeletedOf(h, data), Place(0, 0))
  {
    ChainStartAliasesLengths(data);
    ListedIff(h, data, DeletedOf(h, data), p);
  }

  /** A version 5 file of one flagged page with records of 4 bytes and no keys. */
  function FileOfFours(): (data: seq<byte>)
    ensures |data| == 512
  {
    seq(512, i => if i == 5 then 0x80 else if i == 6 then 5 else if i == 0x0E || i == 0x10 then 4 else 0)
  }

  /** Two header bytes as a number. */
  lemma {:induction false} HeaderNumber(data: seq<byte>, off: nat)
    requires off + 2 <= |data|
    ensures Le(data, off, 2) == TwoBytes(data, off)
  {
    LeNatTwo(data[off..off + 2]);
  }

  lemma {:induction false} FoursNumbers(data: seq<byte>)
    requires data == FileOfFours()
    ensures Le(data, 0x06, 2) == 5 && Le(data, 0x08, 2) == 0 && Le(data, 0x0E, 2) == 4 && Le(data, 0x10, 2) == 4
    ensures Le(data, 0x12, 2) == 0 && Le(data, 0x14, 2) == 0 && Le(data, 0x1C, 4) == 0
  {
    HeaderNumber(data, 0x06);
    HeaderNumber(data, 0x08);
    HeaderNumber(data, 0x0E);
    HeaderNumber(data, 0x10);
    HeaderNumber(data, 0x12);
    HeaderNumber(data, 0x14);
    assert Le(data, 0x1C, 4) == 0 by {
      LeNatFour(data[0x1C..0x20]);
    }
  }

  lemma {:induction false} FoursHeader()
    ensures ReadHeader(FileOfFours()) == Ok(FileHeader(5, 512, 4, 4, 0, 0, 0))
  {
    FoursNumbers(FileOfFours());
  }

  /** Its first slot is lost: it starts at 4, which is also its record length. */
  lemma {:induction false} FirstSlotLost(h: FileHeader, data: seq<byte>)
    requires data == FileOfFours() && h == FileHeader(5, 512, 4, 4, 0, 0, 0)
    ensures ReadHeader(data) == Ok(h) && InFile(h, data, Place(0, 0)) && Flagged(h, data, 0)
    ensures Place(0, 0) !in LiveFrom(h, data, DeletedOf(h, data), Place(0, 0))
  {
    FoursHeader();
    AliasedSlotLost(h, data, Place(0, 0));
  }

  /** A version 6 file of one flagged page with records of 4 bytes in slots of 5, the first one in use. */
  function FileOfFives(): (data: seq<byte>)
    ensures |data| == 512
  {
    seq(512, i => if i == 0 then 'F' as int else if i == 1 then 'C' as int else if i == 5 then 0x80
                  else if i == 6 then 1 else if i == 0x16 then 4 else if i == 0x18 then 5 else 0)
  }

  lemma {:induction false} FivesNumbers(data: seq<byte>)
    requires data == FileOfFives()
    ensures Le(data, 0x08, 2) == 0 && Le(data, 0x14, 2) == 0 && Le(data, 0x16, 2) == 4 && Le(data, 0x18, 2) == 5
    ensures Le(data, 0x1A, 3) == 0 && Le(data, 0x26, 3) == 0
  {
    HeaderNumber(data, 0x08);
    HeaderNumber(data, 0x14);
    HeaderNumber(data, 0x16);
    HeaderNumber(data, 0x18);
    ThreeZeros(data[0x1A..0x1D]);
    ThreeZeros(data[0x26..0x29]);
  }

  lemma {:induction false} FivesHeader()
    ensures ReadHeader(FileOfFives()) == Ok(FileHeader(6, 512, 4, 5, 0, 0, 0))
  {
    FivesNumbers(FileOfFives());
  }

  lemma {:induction false} ThreeZeros(b: seq<byte>)
    requires |b| == 3 && b[0] == b[1] == b[2] == 0
    ensures LeNat(b) == 0
  {
    LeNatTwo(b[1..]);
  }

  lemma {:induction false} FirstFiveUsed(h: FileHeader, data: seq<byte>)
    requires data == FileOfFives() && h == FileHeader(6, 512, 4, 5, 0, 0, 0)
    ensures InFile(h, data, Place(0, 0)) && Used(h, data, Place(0, 0))
  {
    PlaceInBounds(h, data, Place(0, 0));
    var usage := SlotBytes(h, data, Place(0, 0))[0..2];
    assert usage[0] == data[6] == 1 && usage[1] == data[7] == 0;
    LeNatTwo(usage);
  }

  /** Its used slot is not read. */
  lemma {:induction false} UsedSlotLost(h: FileHeader, data: seq<byte>)
    requires data == FileOfFives() && h == FileHeader(6, 512, 4, 5, 0, 0, 0)
    ensures ReadHeader(data) == Ok(h) && InFile(h, data, Place(0, 0)) && Used(h, data, Place(0, 0))
    ensures LiveFrom(h, data, DeletedOf(h, data), Place(0, 0)) == []
  {
    FivesHeader();
    FirstFiveUsed(h, data);
    TightSlotsGiveNothing(h, data, {}, Place(0, 0));
  }

  // ---- reading a whole file ----------------------------------------------------------------------------------------------

  /** Those of the live places, in order, cut at the declared count when there is one. */
  ghost function FilePlaces(h: FileHeader, data: seq<byte>): (r: seq<Place>)
    requires ValidHeader(h)
    ensures forall i :: 0 <= i < |r| ==> HasRecord(h, data, r[i])
  {
    Cut(h, LiveFrom(h, data, DeletedOf(h, data), Place(0, 0)), 0)
  }

  /** What is read of a file. */
  ghost function ReadFile(data: seq<byte>): Result<seq<seq<byte>>> {
    match ReadHeader(data)
    case Err(e) => Err(e)
    case Ok(h) => Ok(Records(h, data, FilePlaces(h, data)))
  }

  /** Iterate to the end. */
  method Drain(it: RecordIter) returns (out: seq<seq<byte>>)
    requires it.Valid() && forall i :: 0 <= i < |it.Remaining()| ==> HasRecord(it.h, it.data, it.Remaining()[i])
    modifies it
    ensures out == old(Records(it.h, it.data, it.Remaining()))
  {
    ghost var places := it.Remaining();
    out := [];
    var more := true;
    while more
      invariant it.Valid() && |out| <= |places| && it.Remaining() == places[|out|..]
      invariant forall i :: 0 <= i < |out| ==> out[i] == RecordAt(it.h, it.data, places[i])
      invariant !more ==> |out| == |places|
      decreases |places| - |out|, more
    {
      if |out| < |places| {
        assert places[|out|..][0] == places[|out|] && places[|out|..][1..] == places[|out| + 1..];
      }
      var r := it.Next();
      match r
      case None => more := false;
      case Some(record) => out := out + [record];
    }
  }

  /** Open a file and read all its records. */
  method ReadAll(data: seq<byte>) returns (res: Result<seq<seq<byte>>>)
    ensures res == ReadFile(data)
  {
    var header := ReadHeader(data);
    if header.Err? {
      return Err(header.code);
    }
    var h := header.value;
    var deleted := {};
    if h.version == 5 {
      deleted := FollowChain(data);
    }
    var it := new RecordIter(h, data, deleted);
    assert it.Remaining() == FilePlaces(h, data);
    var out := Drain(it);
    res := Ok(out);
  }
}
