/** Packing column text into a fixed-width record, and unpacking a record into column values.
    FLOAT and MONEY columns are not modelled. */
module RecordCodec {
  import opened Wrappers
  import opened Bytes
  import opened Decimal
  import opened TextUtil
  import opened SqlValues
  import opened Schema

  const TYPE_STRING := 0
  const TYPE_INT := 1
  const TYPE_FLOAT := 2
  const TYPE_DATE := 3
  const TYPE_TIME := 4
  const TYPE_DECIMAL := 5
  const TYPE_MONEY := 6
  const TYPE_LOGICAL := 7
  const TYPE_LSTRING := 10
  const TYPE_ZSTRING := 11
  const TYPE_ZSTRING_12 := 12
  const TYPE_AUTOINC := 14
  const TYPE_AUTOINCREMENT := 15

  // ---- text into a slot ----------------------------------------------------------------------

  function Zeros(n: nat): (r: seq<byte>)
    ensures |r| == n
  {
    seq(n, _ => 0)
  }

  function Fill(n: nat, b: byte): (r: seq<byte>)
    ensures |r| == n
  {
    seq(n, _ => b)
  }

  /** `val.trim().parse::<i64>().unwrap_or(0)` */
  function ParseI64(val: string): int {
    match ParseInt(Trim(val))
    case Some(n) => if -0x8000_0000_0000_0000 <= n < 0x8000_0000_0000_0000 then n else 0
    case None => 0
  }

  function Lower(c: char): char {
    if 'A' <= c <= 'Z' then (c as int + 32) as char else c
  }

  /** `eq_ignore_ascii_case` */
  predicate SameIgnoringCase(s: string, t: string) {
    |s| == |t| && forall i :: 0 <= i < |s| ==> Lower(s[i]) == Lower(t[i])
  }

  /** The first bytes of a slot replaced, the rest kept. */
  function Overwrite(slot: seq<byte>, b: seq<byte>): (r: seq<byte>)
    requires |b| <= |slot|
    ensures |r| == |slot|
  {
    b + slot[|b|..]
  }

  function PadText(b: seq<byte>, n: nat, pad: byte): (r: seq<byte>)
    ensures |r| == n
  {
    var k := Min(|b|, n);
    b[..k] + Fill(n - k, pad)
  }

  /** The low bytes of the parsed integer, at most eight of them. */
  function IntSlot(slot: seq<byte>, val: string): (r: seq<byte>)
    ensures |r| == |slot|
  {
    Overwrite(slot, LeBytes(ParseI64(val), 8)[..Min(|slot|, 8)])
  }

  /** Digits of a piece of text as a number. */
  function DigitsOr0(s: string): nat {
    match ParseNat(s)
    case Some(n) => n
    case None => 0
  }

  function DateSlot(slot: seq<byte>, val: string): (r: seq<byte>)
    ensures |r| == |slot|
  {
    var digits := OnlyDigits(Trim(val));
    if SameIgnoringCase(Trim(val), "NULL") then slot
    else if |slot| >= 4 && |digits| >= 8 then
      var year, month, day := DigitsOr0(digits[0..4]), DigitsOr0(digits[4..6]), DigitsOr0(digits[6..8]);
      Overwrite(slot, [day % 256, month % 256] + LeBytes(year, 2))
    else slot
  }

  /** The packed form of a time's digits; the hundredths are always zero. */
  function TimeOf(digits: string): nat
    requires |digits| >= 6
  {
    var hh, mm, ss := DigitsOr0(digits[0..2]), DigitsOr0(digits[2..4]), DigitsOr0(digits[4..6]);
    hh * 1_000_000 + mm * 10_000 + ss * 100
  }

  function TimeSlot(slot: seq<byte>, val: string): (r: seq<byte>)
    ensures |r| == |slot|
  {
    var digits := OnlyDigits(Trim(val));
    if SameIgnoringCase(Trim(val), "NULL") then slot
    else if |slot| >= 4 && |digits| >= 6 then Overwrite(slot, LeBytes(TimeOf(digits), 4))
    else slot
  }

  predicate IsTrue(v: string) {
    v == "1" || SameIgnoringCase(v, "true") || SameIgnoringCase(v, "yes")
  }

  /** A field's slot after a column value was packed into it. */
  function PackSlot(nativeType: int, slot: seq<byte>, val: string): (r: seq<byte>)
    ensures |r| == |slot|
  {
    if slot == [] then slot
    else if nativeType == TYPE_LSTRING then
      if |slot| >= 2 then
        var b := Utf8(val);
        [Min(|b|, |slot| - 1) % 256] + PadText(b, |slot| - 1, 32)
      else slot
    else if nativeType == TYPE_ZSTRING || nativeType == TYPE_ZSTRING_12 then
      PadText(Utf8(val), |slot| - 1, 0) + [0]
    else if nativeType == TYPE_INT || nativeType == TYPE_AUTOINC || nativeType == TYPE_AUTOINCREMENT
         || nativeType == TYPE_DECIMAL then
      IntSlot(slot, val)
    else if nativeType == TYPE_LOGICAL then Overwrite(slot, [if IsTrue(Trim(val)) then 0xFF else 0])
    else if nativeType == TYPE_DATE then DateSlot(slot, val)
    else if nativeType == TYPE_TIME then TimeSlot(slot, val)
    else PadText(Utf8(val), |slot|, 32)
  }

  predicate Fits(f: IntField, n: nat) {
    f.offset + f.length <= n
  }

  /** The buffer with `b` copied in from byte `at` on. */
  function Splice(buf: seq<byte>, at: nat, b: seq<byte>): (r: seq<byte>)
    requires at + |b| <= |buf|
    ensures |r| == |buf|
  {
    seq(|buf|, j requires 0 <= j < |buf| => if at <= j < at + |b| then b[j - at] else buf[j])
  }

  /** The buffer after one field; a field that does not fit is skipped. */
  function PackField(f: IntField, val: string, buf: seq<byte>): (r: seq<byte>)
    ensures |r| == |buf|
  {
    if Fits(f, |buf|) then Splice(buf, f.offset, PackSlot(f.nativeType, buf[f.offset..f.offset + f.length], val)) else buf
  }

  /** The fields packed one after another, a later one over an earlier one. */
  function PackAll(fields: seq<IntField>, vals: seq<string>, buf: seq<byte>): (r: seq<byte>)
    ensures |r| == |buf|
  {
    if fields == [] || vals == [] then buf
    else PackAll(fields[1..], vals[1..], PackField(fields[0], vals[0], buf))
  }

  predicate NoFloats(fields: seq<IntField>) {
    forall i :: 0 <= i < |fields| ==> fields[i].nativeType != TYPE_FLOAT && fields[i].nativeType != TYPE_MONEY
  }

  /** `copy_from_slice` into part of a buffer. */
  method WriteAt(buf: array<byte>, at: nat, b: seq<byte>)
    requires at + |b| <= buf.Length
    modifies buf
    ensures buf[..] == Splice(old(buf[..]), at, b)
  {
    for j := 0 to |b|
      invariant forall k :: 0 <= k < buf.Length ==>
                  buf[k] == if at <= k < at + j then b[k - at] else old(buf[k])
    {
      buf[at + j] := b[j];
    }
  }

  method WriteField(f: IntField, val: string, buf: array<byte>)
    requires f.nativeType != TYPE_FLOAT && f.nativeType != TYPE_MONEY
    modifies buf
    ensures buf[..] == PackField(f, val, old(buf[..]))
  {
    if f.offset + f.length <= buf.Length {
      assert buf[..][f.offset..f.offset + f.length] == buf[f.offset..f.offset + f.length];
      var slot := PackSlot(f.nativeType, buf[f.offset..f.offset + f.length], val);
      WriteAt(buf, f.offset, slot);
    }
  }

  lemma {:induction false} PackAllStep(fields: seq<IntField>, vals: seq<string>, i: nat, buf: seq<byte>)
    requires i < |fields| && i < |vals|
    ensures PackAll(fields[i..], vals[i..], buf) == PackAll(fields[i + 1..], vals[i + 1..], PackField(fields[i], vals[i], buf))
  {
    assert fields[i..][1..] == fields[i + 1..] && vals[i..][1..] == vals[i + 1..];
  }

  /** `pack_row`: the record is always `recordLength` bytes long. */
  method PackRow(fields: seq<IntField>, columns: seq<string>, recordLength: nat) returns (record: seq<byte>)
    requires NoFloats(fields)
    ensures |record| == recordLength
    ensures record == PackAll(fields, columns, Zeros(recordLength))
  {
    var buf := new byte[recordLength](_ => 0);
    assert buf[..] == Zeros(recordLength);
    var n := Min(|fields|, |columns|);
    ghost var whole := PackAll(fields, columns, buf[..]);
    assert fields[0..] == fields && columns[0..] == columns;
    for i := 0 to n
      invariant whole == PackAll(fields[i..], columns[i..], buf[..])
    {
      PackAllStep(fields, columns, i, buf[..]);
      WriteField(fields[i], columns[i], buf);
    }
    record := buf[..];
  }

  // ---- a slot into a value ---------------------------------------------------------------------

  /** `field_slice`: empty when the record is too short. */
  function FieldSlice(record: seq<byte>, offset: nat, length: nat): seq<byte> {
    if offset + length <= |record| then record[offset..offset + length] else []
  }

  function FirstZero(b: seq<byte>): (k: nat)
    ensures k <= |b| && (forall i :: 0 <= i < k ==> b[i] != 0) && (k < |b| ==> b[k] == 0)
  {
    if b == [] || b[0] == 0 then 0 else 1 + FirstZero(b[1..])
  }

  predicate AllZero(b: seq<byte>) {
    forall i :: 0 <= i < |b| ==> b[i] == 0
  }

  /** Integers of width 1 are unsigned, of 2, 4 and 8 signed; any other width reads as 0. */
  function DecodeInt(slice: seq<byte>): int {
    var n := Min(|slice|, 8);
    if n == 1 then slice[0]
    else if n == 2 || n == 4 || n == 8 then LeInt(slice[..n])
    else 0
  }

  /** Zero-extended to eight bytes, then signed. */
  function DecodeDecimal(slice: seq<byte>): int {
    var n := Min(|slice|, 8);
    LeInt(slice[..n] + Zeros(8 - n))
  }

  function DateText(year: nat, month: nat, day: nat): string {
    Padded(year, 4) + "-" + Padded(month, 2) + "-" + Padded(day, 2)
  }

  function TimeText(t: nat): string {
    Padded(t / 1_000_000 % 100, 2) + ":" + Padded(t / 10_000 % 100, 2) + ":" + Padded(t / 100 % 100, 2)
  }

  predicate RealDate(slice: seq<byte>)
    requires |slice| >= 4
  {
    LeNat(slice[2..4]) > 0 && 1 <= slice[1] <= 12 && 1 <= slice[0] <= 31
  }

  function DefaultOrNull(f: IntField): SqlValue {
    match f.defaultValue
    case Some(d) => Text(d)
    case None => Null
  }

  /** One field of `unpack_row_typed`. */
  function DecodeField(f: IntField, slice: seq<byte>): SqlValue {
    var t := f.nativeType;
    if t == TYPE_STRING then Text(Latin1(slice))
    else if t == TYPE_ZSTRING then Text(FromUtf8Lossy(slice[..FirstZero(slice)]))
    else if t == TYPE_INT || t == TYPE_AUTOINC then I64(DecodeInt(slice))
    else if t == TYPE_LOGICAL then Bool(slice != [] && slice[0] != 0)
    else if t == TYPE_DATE then
      if |slice| >= 4 && !AllZero(slice) && RealDate(slice)
      then Text(DateText(LeNat(slice[2..4]), slice[1], slice[0])) else DefaultOrNull(f)
    else if t == TYPE_TIME then Text(TimeText(if |slice| >= 4 then LeNat(slice[..4]) else 0))
    else if t == TYPE_DECIMAL then I64(DecodeDecimal(slice))
    else if AllZero(slice) then DefaultOrNull(f)
    else Text(TrimEnd(Latin1(slice)))
  }

  function UnpackRowTyped(fields: seq<IntField>, record: seq<byte>): (r: seq<SqlValue>)
    requires NoFloats(fields)
    ensures |r| == |fields|
  {
    seq(|fields|, i requires 0 <= i < |fields| =>
      DecodeField(fields[i], FieldSlice(record, fields[i].offset, fields[i].length)))
  }

  /** How the backend hands a stored value back as column text. */
  function ColumnText(v: SqlValue): string {
    match v
    case Null => ""
    case Bool(b) => if b then "1" else "0"
    case I64(n) => IntText(n)
    case Text(s) => s
  }

  function ColumnTexts(vs: seq<SqlValue>): (r: seq<string>)
    ensures |r| == |vs|
  {
    seq(|vs|, i requires 0 <= i < |vs| => ColumnText(vs[i]))
  }
}
