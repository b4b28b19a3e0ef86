/** Chunk descriptors of Update Chunk, and laying chunks over a record. */
module Chunks {
  import opened Wrappers
  import opened Status
  import opened Bytes
  import opened RecordCodec

  /** A byte range of the record. */
  datatype Chunk = Chunk(off: nat, len: nat)

  datatype Flavor = Random | Rectangle | Truncate | Unknown

  /** The signature's flavour: any other number with the top bit set is a rectangle. */
  function FlavorOf(sig: nat): Flavor {
    if sig == 0 then Random
    else if sig == 0xFFFF_FFFE || sig == 0x4000_0000 then Truncate
    else if sig >= 0x8000_0000 then Rectangle
    else Unknown
  }

  /** What a descriptor asks for: chunks whose data starts at a byte, or a status at once. */
  datatype Plan = Lay(chunks: seq<Chunk>, dataStart: nat) | Done(code: int)

  function U32(b: seq<byte>, at: nat): nat
    requires at + 4 <= |b|
  {
    LeNat(b[at..at + 4])
  }

  /** `n` chunk headers at the head of `b`. */
  function Headers(b: seq<byte>, n: nat): (r: Option<seq<Chunk>>)
    ensures r.Some? ==> |r.value| == n && 8 * n <= |b|
    decreases n
  {
    if n == 0 then Some([])
    else if |b| < 8 then None
    else
      match Headers(b[8..], n - 1)
      case None => None
      case Some(cs) => Some([Chunk(U32(b, 0), U32(b, 4))] + cs)
  }

  /** `n` equally spaced chunks of one size. */
  function Grid(first: nat, stride: nat, size: nat, n: nat): (r: seq<Chunk>)
    ensures |r| == n
  {
    seq(n, i requires 0 <= i < n => Chunk(first + i * stride, size))
  }

  function ReadPlan(desc: seq<byte>, recordLength: nat): (p: Plan)
    requires |desc| >= 12
    ensures p.Lay? ==> p.dataStart <= |desc|
  {
    match FlavorOf(U32(desc, 0))
    case Unknown => Done(STATUS_BAD_DESCRIPTOR)
    case Truncate => Done(if U32(desc, 4) < recordLength then STATUS_BELOW_FIXED else 0)
    case Random =>
      (match Headers(desc[12..], U32(desc, 4))
       case None => Done(STATUS_BAD_DESCRIPTOR)
       case Some(cs) => Lay(cs, 12 + 8 * |cs|))
    case Rectangle =>
      if |desc| < 20 then Done(BTR_DATA_TOO_SHORT)
      else Lay(Grid(U32(desc, 16), U32(desc, 12), U32(desc, 8), U32(desc, 4)), 20)
  }

  lemma {:induction false} HeadersStep(b: seq<byte>, n: nat)
    requires n > 0 && |b| >= 8
    ensures Headers(b, n) ==
              match Headers(b[8..], n - 1)
              case None => None
              case Some(cs) => Some([Chunk(U32(b, 0), U32(b, 4))] + cs)
  {
  }

  /** Reading the headers of a Random descriptor. */
  method ParseHeaders(desc: seq<byte>, n: nat) returns (res: Option<seq<Chunk>>)
    requires |desc| >= 12
    ensures res == Headers(desc[12..], n)
  {
    var chunks: seq<Chunk> := [];
    var off: nat := 12;
    ghost var whole := Headers(desc[12..], n);
    assert forall cs: seq<Chunk> :: [] + cs == cs;
    for i := 0 to n
      invariant 12 <= off <= |desc|
      invariant match Headers(desc[off..], n - i)
                case None => whole == None
                case Some(cs) => whole == Some(chunks + cs)
    {
      if off + 8 > |desc| {
        return None;
      }
      ghost var b := desc[off..];
      HeadersStep(b, n - i);
      assert b[0..4] == desc[off..off + 4] && b[4..8] == desc[off + 4..off + 8] && b[8..] == desc[off + 8..];
      var c := Chunk(U32(desc, off), U32(desc, off + 4));
      assert forall cs: seq<Chunk> :: chunks + ([c] + cs) == chunks + [c] + cs;
      chunks := chunks + [c];
      off := off + 8;
    }
    assert chunks + [] == chunks;
    res := Some(chunks);
  }

  method ParsePlan(desc: seq<byte>, recordLength: nat) returns (plan: Plan)
    requires |desc| >= 12
    ensures plan == ReadPlan(desc, recordLength)
  {
    var flavor := FlavorOf(U32(desc, 0));
    match flavor
    case Unknown => plan := Done(STATUS_BAD_DESCRIPTOR);
    case Truncate => plan := Done(if U32(desc, 4) < recordLength then STATUS_BELOW_FIXED else 0);
    case Random =>
      var headers := ParseHeaders(desc, U32(desc, 4));
      match headers {
        case None => plan := Done(STATUS_BAD_DESCRIPTOR);
        case Some(cs) => plan := Lay(cs, 12 + 8 * |cs|);
      }
    case Rectangle =>
      if |desc| < 20 {
        return Done(BTR_DATA_TOO_SHORT);
      }
      var n, size, stride, first := U32(desc, 4), U32(desc, 8), U32(desc, 12), U32(desc, 16);
      var chunks: seq<Chunk> := [];
      for i := 0 to n
        invariant chunks == Grid(first, stride, size, i)
      {
        chunks := chunks + [Chunk(first + i * stride, size)];
      }
      plan := Lay(chunks, 20);
  }

  // ---- laying chunks -------------------------------------------------------------------------------------

  /** The record after the chunks were laid on it one after another, their data taken from `ptr` on. */
  function Laid(record: seq<byte>, desc: seq<byte>, chunks: seq<Chunk>, ptr: nat): (r: Result<seq<byte>>)
    ensures r.Ok? ==> |r.value| == |record|
    decreases |chunks|
  {
    if chunks == [] then Ok(record)
    else
      var c := chunks[0];
      if ptr + c.len > |desc| then Err(BTR_DATA_TOO_SHORT)
      else if c.off + c.len > |record| then Err(STATUS_BEYOND_END)
      else Laid(Splice(record, c.off, desc[ptr..ptr + c.len]), desc, chunks[1..], ptr + c.len)
  }

  /** Laying the chunks in place. */
  method LayChunks(buf: array<byte>, desc: seq<byte>, chunks: seq<Chunk>, start: nat) returns (code: int)
    modifies buf
    ensures match Laid(old(buf[..]), desc, chunks, start)
            case Ok(record) => code == 0 && buf[..] == record
            case Err(e) => code == e && code != 0
  {
    var ptr: nat := start;
    for i := 0 to |chunks|
      invariant Laid(old(buf[..]), desc, chunks, start) == Laid(buf[..], desc, chunks[i..], ptr)
    {
      var c := chunks[i];
      assert chunks[i..][0] == c && chunks[i..][1..] == chunks[i + 1..];
      if ptr + c.len > |desc| {
        return BTR_DATA_TOO_SHORT;
      }
      if c.off + c.len > buf.Length {
        return STATUS_BEYOND_END;
      }
      WriteAt(buf, c.off, desc[ptr..ptr + c.len]);
      ptr := ptr + c.len;
    }
    code := 0;
  }

  // ---- what comes out ---------------------------------------------------------------------------------------

  predicate CoversByte(c: Chunk, j: nat) {
    c.off <= j < c.off + c.len
  }

  /** Where the data of chunk `i` starts. */
  function DataAt(chunks: seq<Chunk>, start: nat, i: nat): nat
    requires i <= |chunks|
  {
    if i == 0 then start else DataAt(chunks[1..], start + chunks[0].len, i - 1)
  }

  /** The last chunk over byte `j`. */
  function LastOver(chunks: seq<Chunk>, j: nat): (r: Option<nat>)
    ensures r.Some? ==> r.value < |chunks| && CoversByte(chunks[r.value], j)
                        && forall i :: r.value < i < |chunks| ==> !CoversByte(chunks[i], j)
    ensures r.None? ==> forall i :: 0 <= i < |chunks| ==> !CoversByte(chunks[i], j)
  {
    if chunks == [] then None
    else
      match LastOver(chunks[1..], j)
      case Some(i) =>
        assert forall k :: 0 < k < |chunks| ==> chunks[1..][k - 1] == chunks[k];
        Some(i + 1)
      case None =>
        assert forall k :: 0 < k < |chunks| ==> chunks[1..][k - 1] == chunks[k];
        if CoversByte(chunks[0], j) then Some(0) else None
  }

  /** The data of every chunk is in the buffer. */
  lemma {:induction false} LaidDataInside(record: seq<byte>, desc: seq<byte>, chunks: seq<Chunk>, start: nat, i: nat)
    requires i < |chunks| && Laid(record, desc, chunks, start).Ok?
    ensures DataAt(chunks, start, i) + chunks[i].len <= |desc|
    decreases |chunks|
  {
    var c := chunks[0];
    if i > 0 {
      LaidDataInside(Splice(record, c.off, desc[start..start + c.len]), desc, chunks[1..], start + c.len, i - 1);
    }
  }

  /** Every byte of the result is that of the last chunk over it, or the record's own: later chunks win,
      and the rest of the record is unchanged. */
  lemma {:induction false} LaterChunksWin(record: seq<byte>, desc: seq<byte>, chunks: seq<Chunk>, start: nat, j: nat)
    requires j < |record| && Laid(record, desc, chunks, start).Ok?
    ensures match LastOver(chunks, j)
            case None => Laid(record, desc, chunks, start).value[j] == record[j]
            case Some(i) =>
              && DataAt(chunks, start, i) + chunks[i].len <= |desc|
              && Laid(record, desc, chunks, start).value[j] == desc[DataAt(chunks, start, i) + (j - chunks[i].off)]
    decreases |chunks|
  {
    if chunks != [] {
      var c := chunks[0];
      var data := desc[start..start + c.len];
      var next := Splice(record, c.off, data);
      assert next[j] == if CoversByte(c, j) then data[j - c.off] else record[j];
      LaterChunksWin(next, desc, chunks[1..], start + c.len, j);
    }
  }

  /** The data of the first `j` + 1 chunks is there, and the last of them lies inside `n` bytes. */
  predicate LaidAt(n: nat, desc: seq<byte>, chunks: seq<Chunk>, start: nat, j: nat)
    requires j < |chunks|
  {
    DataAt(chunks, start, j + 1) <= |desc| && chunks[j].off + chunks[j].len <= n
  }

  lemma {:induction false} LaidAtNext(n: nat, desc: seq<byte>, chunks: seq<Chunk>, start: nat, j: nat)
    requires 0 < j < |chunks|
    ensures LaidAt(n, desc, chunks, start, j) <==> LaidAt(n, desc, chunks[1..], start + chunks[0].len, j - 1)
  {
  }

  /** The first chunk that cannot be laid decides the status: 22 when its data runs out, else 103. */
  lemma {:induction false} LaidFails(record: seq<byte>, desc: seq<byte>, chunks: seq<Chunk>, start: nat) returns (i: nat)
    requires start <= |desc| && Laid(record, desc, chunks, start).Err?
    ensures i < |chunks| && !LaidAt(|record|, desc, chunks, start, i)
    ensures forall j :: 0 <= j < i ==> LaidAt(|record|, desc, chunks, start, j)
    ensures Laid(record, desc, chunks, start) == Err(if DataAt(chunks, start, i + 1) > |desc| then 22 else 103)
    decreases |chunks|
  {
    var c := chunks[0];
    assert DataAt(chunks, start, 1) == start + c.len;
    i := 0;
    if LaidAt(|record|, desc, chunks, start, 0) {
      i := LaidFails(Splice(record, c.off, desc[start..start + c.len]), desc, chunks[1..], start + c.len);
      i := i + 1;
      forall j | 0 < j <= i
        ensures LaidAt(|record|, desc, chunks, start, j) <==> LaidAt(|record|, desc, chunks[1..], start + c.len, j - 1)
      {
        LaidAtNext(|record|, desc, chunks, start, j);
      }
    }
  }

  /** Chunks can be laid exactly when each lies inside the record and the data is all there. */
  lemma {:induction false} LaidIff(record: seq<byte>, desc: seq<byte>, chunks: seq<Chunk>, start: nat)
    requires start <= |desc|
    ensures Laid(record, desc, chunks, start).Ok? <==>
              DataAt(chunks, start, |chunks|) <= |desc| && forall i :: 0 <= i < |chunks| ==> chunks[i].off + chunks[i].len <= |record|
    decreases |chunks|
  {
    if chunks != [] {
      var c := chunks[0];
      assert forall k :: 0 < k < |chunks| ==> chunks[1..][k - 1] == chunks[k];
      DataGrows(chunks[1..], start + c.len);
      if start + c.len <= |desc| && c.off + c.len <= |record| {
        LaidIff(Splice(record, c.off, desc[start..start + c.len]), desc, chunks[1..], start + c.len);
        assert forall k :: 0 <= k < |chunks| - 1 ==> chunks[1..][k] == chunks[k + 1];
      }
    }
  }

  lemma {:induction false} DataGrows(chunks: seq<Chunk>, start: nat)
    ensures DataAt(chunks, start, |chunks|) >= start
    decreases |chunks|
  {
    if chunks != [] {
      DataGrows(chunks[1..], start + chunks[0].len);
    }
  }

  /** Only the data counts, not what stands before it. */
  lemma {:induction false} LaidFromData(record: seq<byte>, desc: seq<byte>, chunks: seq<Chunk>, start: nat, data: seq<byte>, at: nat)
    requires at <= start <= |desc| && data == desc[at..]
    ensures Laid(record, desc, chunks, start) == Laid(record, data, chunks, start - at)
    decreases |chunks|
  {
    if chunks != [] {
      var c := chunks[0];
      if start + c.len <= |desc| && c.off + c.len <= |record| {
        assert data[start - at..start - at + c.len] == desc[start..start + c.len];
        LaidFromData(Splice(record, c.off, desc[start..start + c.len]), desc, chunks[1..], start + c.len, data, at);
      }
    }
  }

  // ---- a rectangle is the random descriptor of its chunks ----------------------------------------------------

  function EncodeRectangle(sig: nat, n: nat, size: nat, stride: nat, first: nat, data: seq<byte>): seq<byte> {
    LeBytes(sig, 4) + LeBytes(n, 4) + LeBytes(size, 4) + LeBytes(stride, 4) + LeBytes(first, 4) + data
  }

  function EncodeHeaders(chunks: seq<Chunk>): (r: seq<byte>)
    ensures |r| == 8 * |chunks|
  {
    if chunks == [] then [] else LeBytes(chunks[0].off, 4) + LeBytes(chunks[0].len, 4) + EncodeHeaders(chunks[1..])
  }

  /** `next` is the descriptor's next-offset word, which is not used. */
  function EncodeRandom(chunks: seq<Chunk>, next: nat, data: seq<byte>): seq<byte> {
    LeBytes(0, 4) + LeBytes(|chunks|, 4) + LeBytes(next, 4) + EncodeHeaders(chunks) + data
  }

  predicate Fits32(chunks: seq<Chunk>) {
    forall i :: 0 <= i < |chunks| ==> chunks[i].off < 0x1_0000_0000 && chunks[i].len < 0x1_0000_0000
  }

  lemma {:induction false} Pow256Four()
    ensures Pow256(4) == 0x1_0000_0000
  {
    assert Pow256(2) == 256 * Pow256(1) == 256 * (256 * Pow256(0));
    assert Pow256(4) == 256 * Pow256(3) == 256 * (256 * Pow256(2));
  }

  lemma {:induction false} U32Reads(b: seq<byte>, at: nat, v: nat)
    requires at + 4 <= |b| && b[at..at + 4] == LeBytes(v, 4) && v < 0x1_0000_0000
    ensures U32(b, at) == v
  {
    Pow256Four();
    LeNatOfBytes(v, 4);
  }

  lemma {:induction false} TwoWords(a: seq<byte>, b: seq<byte>, rest: seq<byte>)
    requires |a| == |b| == 4
    ensures var d := a + b + rest; d[0..4] == a && d[4..8] == b && d[8..] == rest
  {
  }

  lemma {:induction false} HeaderReads(c: Chunk, rest: seq<byte>)
    requires c.off < 0x1_0000_0000 && c.len < 0x1_0000_0000
    ensures var b := LeBytes(c.off, 4) + LeBytes(c.len, 4) + rest;
            U32(b, 0) == c.off && U32(b, 4) == c.len && b[8..] == rest
  {
    var b := LeBytes(c.off, 4) + LeBytes(c.len, 4) + rest;
    TwoWords(LeBytes(c.off, 4), LeBytes(c.len, 4), rest);
    U32Reads(b, 0, c.off);
    U32Reads(b, 4, c.len);
  }

  lemma {:induction false} HeadersCons(b: seq<byte>, c: Chunk, tail: seq<byte>, more: seq<Chunk>)
    requires b == LeBytes(c.off, 4) + LeBytes(c.len, 4) + tail && c.off < 0x1_0000_0000 && c.len < 0x1_0000_0000
    requires Headers(tail, |more|) == Some(more)
    ensures Headers(b, |more| + 1) == Some([c] + more)
  {
    HeaderReads(c, tail);
    HeadersStep(b, |more| + 1);
  }

  lemma {:induction false} HeadersRoundTrip(chunks: seq<Chunk>, rest: seq<byte>, b: seq<byte>)
    requires Fits32(chunks) && b == EncodeHeaders(chunks) + rest
    ensures Headers(b, |chunks|) == Some(chunks)
  {
    if chunks != [] {
      var c, more := chunks[0], chunks[1..];
      var tail := EncodeHeaders(more) + rest;
      HeadersRoundTrip(more, rest, tail);
      Regroup(LeBytes(c.off, 4) + LeBytes(c.len, 4), EncodeHeaders(more), rest);
      HeadersCons(b, c, tail, more);
      assert chunks == [c] + more;
    }
  }

  lemma {:induction false} RandomLayout(a: seq<byte>, b: seq<byte>, c: seq<byte>, headers: seq<byte>, data: seq<byte>)
    requires |a| == |b| == |c| == 4
    ensures var d := a + b + c + headers + data;
            d[0..4] == a && d[4..8] == b && d[12..] == headers + data && d[12 + |headers|..] == data
  {
    var head, d := a + b + c, a + b + c + headers + data;
    assert |head| == 12 && head[0..4] == a && head[4..8] == b;
    assert d == head + (headers + data);
    assert d[0..4] == head[0..4] && d[4..8] == head[4..8];
  }

  lemma {:induction false} PlanOfRandom(d: seq<byte>, chunks: seq<Chunk>, recordLength: nat)
    requires |d| >= 12 && U32(d, 0) == 0 && U32(d, 4) == |chunks| && Headers(d[12..], |chunks|) == Some(chunks)
    ensures ReadPlan(d, recordLength) == Lay(chunks, 12 + 8 * |chunks|)
  {
  }

  /** A Random descriptor is read back as its chunks and its data. */
  lemma {:induction false} RandomReads(chunks: seq<Chunk>, next: nat, data: seq<byte>, recordLength: nat)
    requires Fits32(chunks) && |chunks| < 0x1_0000_0000
    ensures var d := EncodeRandom(chunks, next, data);
            && |d| >= 12 && ReadPlan(d, recordLength) == Lay(chunks, 12 + 8 * |chunks|)
            && d[12 + 8 * |chunks|..] == data
  {
    var d := EncodeRandom(chunks, next, data);
    RandomLayout(LeBytes(0, 4), LeBytes(|chunks|, 4), LeBytes(next, 4), EncodeHeaders(chunks), data);
    U32Reads(d, 0, 0);
    U32Reads(d, 4, |chunks|);
    HeadersRoundTrip(chunks, data, d[12..]);
    PlanOfRandom(d, chunks, recordLength);
  }

  lemma {:induction false} RectangleLayout(a: seq<byte>, b: seq<byte>, c: seq<byte>, e: seq<byte>, f: seq<byte>, data: seq<byte>)
    requires |a| == |b| == |c| == |e| == |f| == 4
    ensures var d := a + b + c + e + f + data;
            d[0..4] == a && d[4..8] == b && d[8..12] == c && d[12..16] == e && d[16..20] == f && d[20..] == data
  {
  }

  lemma {:induction false} RectangleReads(sig: nat, n: nat, size: nat, stride: nat, first: nat, data: seq<byte>, recordLength: nat)
    requires 0x8000_0000 <= sig < 0x1_0000_0000 && sig != 0xFFFF_FFFE
    requires n < 0x1_0000_0000 && size < 0x1_0000_0000 && stride < 0x1_0000_0000 && first < 0x1_0000_0000
    ensures var d := EncodeRectangle(sig, n, size, stride, first, data);
            && |d| >= 20 && ReadPlan(d, recordLength) == Lay(Grid(first, stride, size, n), 20) && d[20..] == data
  {
    var d := EncodeRectangle(sig, n, size, stride, first, data);
    RectangleLayout(LeBytes(sig, 4), LeBytes(n, 4), LeBytes(size, 4), LeBytes(stride, 4), LeBytes(first, 4), data);
    U32Reads(d, 0, sig);
    U32Reads(d, 4, n);
    U32Reads(d, 8, size);
    U32Reads(d, 12, stride);
    U32Reads(d, 16, first);
  }

  /** A Rectangle descriptor and the Random descriptor listing its chunks make the same of any record. */
  lemma {:induction false} RectangleIsRandom(sig: nat, n: nat, size: nat, stride: nat, first: nat, next: nat, data: seq<byte>,
                          recordLength: nat, record: seq<byte>)
    requires 0x8000_0000 <= sig < 0x1_0000_0000 && sig != 0xFFFF_FFFE
    requires n < 0x1_0000_0000 && size < 0x1_0000_0000 && stride < 0x1_0000_0000 && first < 0x1_0000_0000
    requires Fits32(Grid(first, stride, size, n))
    ensures var rect, rand := EncodeRectangle(sig, n, size, stride, first, data),
                              EncodeRandom(Grid(first, stride, size, n), next, data);
            && |rect| >= 12 && |rand| >= 12
            && var p, q := ReadPlan(rect, recordLength), ReadPlan(rand, recordLength);
               && p.Lay? && q.Lay? && p.chunks == q.chunks
               && Laid(record, rect, p.chunks, p.dataStart) == Laid(record, rand, q.chunks, q.dataStart)
  {
    var grid := Grid(first, stride, size, n);
    var rect, rand := EncodeRectangle(sig, n, size, stride, first, data), EncodeRandom(grid, next, data);
    RectangleReads(sig, n, size, stride, first, data, recordLength);
    RandomReads(grid, next, data, recordLength);
    LaidFromData(record, rect, grid, 20, data, 20);
    LaidFromData(record, rand, grid, 12 + 8 * n, data, 12 + 8 * n);
  }
}
