/** Unpacking a record and packing the columns again gives the record back. */
module CodecRoundTrip {
  import opened Wrappers
  import opened Bytes
  import opened Decimal
  import opened TextUtil
  import opened Schema
  import opened RecordCodec

  /** The slot contents that survive a trip through column text. */
  predicate Exact(f: IntField, slice: seq<byte>) {
    var t := f.nativeType;
    slice != [] &&
    if t == TYPE_STRING then Ascii(slice)
    else if t == TYPE_ZSTRING then
      var k := FirstZero(slice);
      k < |slice| && Ascii(slice[..k]) && AllZero(slice[k..])
    else if t == TYPE_INT || t == TYPE_AUTOINC then |slice| in {1, 2, 4} || |slice| >= 8
    else if t == TYPE_DECIMAL then true
    else if t == TYPE_LOGICAL then slice[0] in {0, 0xFF}
    else if t == TYPE_DATE then |slice| >= 4 && RealDate(slice) && LeNat(slice[2..4]) <= 9999
    else if t == TYPE_TIME then
      |slice| >= 4 && LeNat(slice[..4]) < 100_000_000 && LeNat(slice[..4]) % 100 == 0
    else false
  }

  /** How many leading bytes of its slot a field's packing writes. */
  function Written(f: IntField): nat {
    var t := f.nativeType;
    if t == TYPE_INT || t == TYPE_AUTOINC || t == TYPE_DECIMAL then Min(f.length, 8)
    else if t == TYPE_LOGICAL then Min(f.length, 1)
    else if t == TYPE_DATE || t == TYPE_TIME then Min(f.length, 4)
    else f.length
  }

  // ---- field by field -------------------------------------------------------------------------

  lemma {:induction false} DigitsTrimmed(s: string)
    requires s != "" && (IsDigit(s[0]) || s[0] == '-') && IsDigit(s[|s| - 1])
    ensures Trim(s) == s
  {
    TrimTrimmed(s);
  }

  lemma {:induction false} ParseI64OfText(n: int)
    requires -0x8000_0000_0000_0000 <= n < 0x8000_0000_0000_0000
    ensures ParseI64(IntText(n)) == n
  {
    IntTextRoundTrip(n);
    NatTextDigits(if n < 0 then -n else n);
    DigitsTrimmed(IntText(n));
  }

  lemma {:induction false} Pow256Eight()
    ensures Pow256(8) == 0x1_0000_0000_0000_0000
    ensures Pow256(4) == 0x1_0000_0000 && Pow256(2) == 0x1_0000 && Pow256(1) == 256
  {
    assert Pow256(1) == 256 * Pow256(0);
    assert Pow256(2) == 256 * Pow256(1);
    assert Pow256(3) == 256 * Pow256(2);
    assert Pow256(4) == 256 * Pow256(3);
    assert Pow256(5) == 256 * Pow256(4);
    assert Pow256(6) == 256 * Pow256(5);
    assert Pow256(7) == 256 * Pow256(6);
    assert Pow256(8) == 256 * Pow256(7);
  }

  lemma {:induction false} Pow256Monotone(m: nat, n: nat)
    requires m <= n
    ensures Pow256(m) <= Pow256(n)
  {
    if m < n {
      Pow256Monotone(m, n - 1);
    }
  }

  lemma {:induction false} LeIntRange(b: seq<byte>)
    requires |b| <= 8
    ensures -0x8000_0000_0000_0000 <= LeInt(b) < 0x8000_0000_0000_0000
  {
    LeNatBound(b);
    Pow256Eight();
    Pow256Monotone(|b|, 8);
  }

  /** Packing an integer back writes its low bytes. */
  lemma {:induction false} IntSlotWrites(slot: seq<byte>, n: int, b: seq<byte>)
    requires -0x8000_0000_0000_0000 <= n < 0x8000_0000_0000_0000
    requires |b| == Min(|slot|, 8) && LeBytes(n, |b|) == b
    ensures IntSlot(slot, IntText(n)) == b + slot[|b|..]
  {
    ParseI64OfText(n);
    LeBytesPrefix(n, 8, |b|);
  }

  lemma {:induction false} IntRoundTrip(slice: seq<byte>, old': seq<byte>)
    requires |slice| == |old'| && (|slice| in {1, 2, 4} || |slice| >= 8)
    ensures IntSlot(old', IntText(DecodeInt(slice))) == slice[..Min(|slice|, 8)] + old'[Min(|slice|, 8)..]
  {
    var n := Min(|slice|, 8);
    var b := slice[..n];
    if n == 1 {
      assert LeBytes(slice[0], 1) == b;
    } else {
      LeIntRange(b);
      LeBytesOfInt(b);
    }
    IntSlotWrites(old', DecodeInt(slice), b);
  }

  lemma {:induction false} WidenedInt(b: seq<byte>, wide: seq<byte>)
    requires |b| <= 8 && wide == b + Zeros(8 - |b|)
    ensures LeBytes(LeInt(wide), |b|) == b
    ensures -0x8000_0000_0000_0000 <= LeInt(wide) < 0x8000_0000_0000_0000
  {
    LeIntRange(wide);
    LeBytesOfInt(wide);
    LeBytesPrefix(LeInt(wide), 8, |b|);
    assert wide[..|b|] == b;
  }

  lemma {:induction false} DecimalSlotWrites(slot: seq<byte>, b: seq<byte>, wide: seq<byte>)
    requires |b| == Min(|slot|, 8) && wide == b + Zeros(8 - |b|)
    ensures IntSlot(slot, IntText(LeInt(wide))) == b + slot[|b|..]
  {
    WidenedInt(b, wide);
    IntSlotWrites(slot, LeInt(wide), b);
  }

  lemma {:induction false} DecimalRoundTrip(slice: seq<byte>, old': seq<byte>)
    requires |slice| == |old'|
    ensures IntSlot(old', IntText(DecodeDecimal(slice))) == slice[..Min(|slice|, 8)] + old'[Min(|slice|, 8)..]
  {
    var b := slice[..Min(|slice|, 8)];
    DecimalSlotWrites(old', b, b + Zeros(8 - |b|));
  }

  lemma {:induction false} StringRoundTrip(f: IntField, slice: seq<byte>, old': seq<byte>)
    requires f.nativeType == TYPE_STRING && Exact(f, slice) && |slice| == |old'|
    ensures PackSlot(TYPE_STRING, old', ColumnText(DecodeField(f, slice))) == slice
  {
    AsciiRoundTrip(slice);
    assert slice[..|slice|] + Fill(0, 32) == slice;
  }

  lemma {:induction false} PadWithZeros(b: seq<byte>, n: nat)
    requires n > 0
    ensures var k := Min(|b|, n - 1); PadText(b, n - 1, 0) + [0] == b[..k] + Zeros(n - k)
  {
    var k := Min(|b|, n - 1);
    assert Fill(n - 1 - k, 0) + [0] == Zeros(n - k);
    assert b[..k] + (Fill(n - 1 - k, 0) + [0]) == b[..k] + Fill(n - 1 - k, 0) + [0];
  }

  /** A ZSTRING slot after the trip. */
  function ZStringBack(slice: seq<byte>): (r: seq<byte>)
    requires slice != []
    ensures |r| == |slice|
  {
    ZTextPacked(slice[..FirstZero(slice)], |slice|)
  }

  function ZTextPacked(b: seq<byte>, n: nat): (r: seq<byte>)
    requires n > 0
    ensures |r| == n
  {
    PadText(Utf8(FromUtf8Lossy(b)), n - 1, 0) + [0]
  }

  lemma {:induction false} ZTextBack(b: seq<byte>, n: nat)
    requires n > 0 && Ascii(b)
    ensures var k := Min(|b|, n - 1); ZTextPacked(b, n) == b[..k] + Zeros(n - k)
  {
    LossyOfAscii(b);
    AsciiRoundTrip(b);
    PadWithZeros(b, n);
  }

  lemma {:induction false} ZStringBackIs(slice: seq<byte>, k: nat)
    requires slice != [] && k == FirstZero(slice) && Ascii(slice[..k])
    ensures var m := Min(k, |slice| - 1); ZStringBack(slice) == slice[..m] + Zeros(|slice| - m)
  {
    var b := slice[..k];
    ZTextBack(b, |slice|);
    var m := Min(k, |slice| - 1);
    assert b[..m] == slice[..m];
  }

  /** A ZSTRING slot comes back exactly when it is zero from its first zero byte to the end, for
      ASCII text. */
  lemma {:induction false} ZStringRoundTripIff(slice: seq<byte>)
    requires slice != [] && Ascii(slice[..FirstZero(slice)])
    ensures ZStringBack(slice) == slice <==> FirstZero(slice) < |slice| && AllZero(slice[FirstZero(slice)..])
  {
    var k, n := FirstZero(slice), |slice|;
    ZStringBackIs(slice, k);
    if k < n {
      PrefixThenZeros(slice, k);
    } else {
      assert (slice[..n - 1] + Zeros(1))[n - 1] == 0;
    }
  }

  lemma {:induction false} PrefixThenZeros(slice: seq<byte>, k: nat)
    requires k <= |slice|
    ensures slice[..k] + Zeros(|slice| - k) == slice <==> AllZero(slice[k..])
  {
    var z := Zeros(|slice| - k);
    assert slice == slice[..k] + slice[k..];
    if AllZero(slice[k..]) {
      assert slice[k..] == z;
    }
    if slice[..k] + z == slice {
      assert slice[k..] == z;
    }
  }

  // ---- dates and times ------------------------------------------------------------------------------

  lemma {:induction false} PowersOfTen()
    ensures Pow10(2) == 100 && Pow10(4) == 10000
  {
    assert Pow10(1) == 10 * Pow10(0);
    assert Pow10(2) == 10 * Pow10(1);
    assert Pow10(3) == 10 * Pow10(2);
    assert Pow10(4) == 10 * Pow10(3);
  }

  lemma {:induction false} PaddedReads(n: nat, w: nat)
    requires w > 0 && n < Pow10(w)
    ensures |Padded(n, w)| == w && AllDigits(Padded(n, w)) && DigitsOr0(Padded(n, w)) == n
  {
    PaddedDigits(n, w);
    assert IsDigit(Padded(n, w)[0]);
  }

  /** Three padded numbers with a separator between them, read digit by digit. */
  lemma {:induction false} ThreePartDigits(a: string, b: string, c: string, sep: char)
    requires AllDigits(a) && AllDigits(b) && AllDigits(c) && a != "" && c != "" && !IsDigit(sep)
    ensures OnlyDigits(Trim(a + [sep] + b + [sep] + c)) == a + b + c
    ensures !SameIgnoringCase(Trim(a + [sep] + b + [sep] + c), "NULL")
  {
    var t := a + [sep] + b + [sep] + c;
    assert t[0] == a[0] && t[|t| - 1] == c[|c| - 1];
    assert IsDigit(a[0]) && IsDigit(c[|c| - 1]);
    DigitsTrimmed(t);
    assert Lower(t[0]) != 'n';
    assert OnlyDigits(t) == a + b + c by {
      SeparatedDigits(a + [sep] + b, c, sep);
      SeparatedDigits(a, b, sep);
      OnlyDigitsOfDigits(a);
      OnlyDigitsOfDigits(b);
      OnlyDigitsOfDigits(c);
    }
  }

  lemma {:induction false} SeparatedDigits(a: string, b: string, sep: char)
    requires !IsDigit(sep)
    ensures OnlyDigits(a + [sep] + b) == OnlyDigits(a) + OnlyDigits(b)
  {
    OnlyDigitsCat(a + [sep], b);
    OnlyDigitsCat(a, [sep]);
    assert [sep][1..] == "";
    assert OnlyDigits([sep]) == "";
  }

  lemma {:induction false} DateDigits(year: nat, month: nat, day: nat)
    requires year <= 9999 && month < 100 && day < 100
    ensures OnlyDigits(Trim(DateText(year, month, day))) == Padded(year, 4) + Padded(month, 2) + Padded(day, 2)
    ensures !SameIgnoringCase(Trim(DateText(year, month, day)), "NULL")
  {
    PowersOfTen();
    PaddedReads(year, 4);
    PaddedReads(month, 2);
    PaddedReads(day, 2);
    ThreePartDigits(Padded(year, 4), Padded(month, 2), Padded(day, 2), '-');
  }

  lemma {:induction false} DateSlotOfDigits(slot: seq<byte>, val: string, y: string, m: string, d: string)
    requires |slot| >= 4 && |y| == 4 && |m| == |d| == 2 && DigitsOr0(m) < 256 && DigitsOr0(d) < 256
    requires OnlyDigits(Trim(val)) == y + m + d && !SameIgnoringCase(Trim(val), "NULL")
    ensures DateSlot(slot, val) == [DigitsOr0(d), DigitsOr0(m)] + LeBytes(DigitsOr0(y), 2) + slot[4..]
  {
    var t := y + m + d;
    assert t[0..4] == y && t[4..6] == m && t[6..8] == d;
  }

  lemma {:induction false} DateSlotWrites(slot: seq<byte>, val: string, year: nat, month: nat, day: nat)
    requires |slot| >= 4 && year <= 9999 && month < 100 && day < 100 && val == DateText(year, month, day)
    ensures DateSlot(slot, val) == [day, month] + LeBytes(year, 2) + slot[4..]
  {
    PowersOfTen();
    var y, m, d := Padded(year, 4), Padded(month, 2), Padded(day, 2);
    PaddedReads(year, 4);
    PaddedReads(month, 2);
    PaddedReads(day, 2);
    DateDigits(year, month, day);
    DateSlotOfDigits(slot, val, y, m, d);
  }

  lemma {:induction false} DateRoundTrip(f: IntField, slice: seq<byte>, old': seq<byte>)
    requires f.nativeType == TYPE_DATE && Exact(f, slice) && |slice| == |old'|
    ensures DateSlot(old', ColumnText(DecodeField(f, slice))) == slice[..4] + old'[4..]
  {
    var year := LeNat(slice[2..4]);
    assert slice[1] != 0 && !AllZero(slice);
    DateSlotWrites(old', DateText(year, slice[1], slice[0]), year, slice[1], slice[0]);
    LeBytesOfNat(slice[2..4]);
    assert [slice[0], slice[1]] + slice[2..4] == slice[..4];
  }

  lemma {:induction false} TimeDigits(t: nat)
    ensures OnlyDigits(Trim(TimeText(t))) ==
              Padded(t / 1_000_000 % 100, 2) + Padded(t / 10_000 % 100, 2) + Padded(t / 100 % 100, 2)
    ensures !SameIgnoringCase(Trim(TimeText(t)), "NULL")
  {
    var hh, mm, ss := t / 1_000_000 % 100, t / 10_000 % 100, t / 100 % 100;
    PowersOfTen();
    PaddedReads(hh, 2);
    PaddedReads(mm, 2);
    PaddedReads(ss, 2);
    ThreePartDigits(Padded(hh, 2), Padded(mm, 2), Padded(ss, 2), ':');
  }

  lemma {:induction false} TimeOfParts(hh: nat, mm: nat, ss: nat)
    requires hh < 100 && mm < 100 && ss < 100
    ensures var digits := Padded(hh, 2) + Padded(mm, 2) + Padded(ss, 2);
            |digits| == 6 && TimeOf(digits) == hh * 1_000_000 + mm * 10_000 + ss * 100
  {
    TwoDigitsRead(hh);
    TwoDigitsRead(mm);
    TwoDigitsRead(ss);
    var h, m, s := Padded(hh, 2), Padded(mm, 2), Padded(ss, 2);
    var t := h + m + s;
    assert t[0..2] == h && t[2..4] == m && t[4..6] == s;
  }

  lemma {:induction false} TimeParts(t: nat)
    requires t < 100_000_000 && t % 100 == 0
    ensures t / 1_000_000 % 100 * 1_000_000 + t / 10_000 % 100 * 10_000 + t / 100 % 100 * 100 == t
  {
    var s := t / 100;
    assert t == 100 * s && t / 10_000 == s / 100 && t / 1_000_000 == s / 10_000;
    assert s / 10_000 < 100 && s / 100 == 100 * (s / 10_000) + s / 100 % 100;
  }

  lemma {:induction false} TwoDigitsRead(n: nat)
    requires n < 100
    ensures |Padded(n, 2)| == 2 && DigitsOr0(Padded(n, 2)) == n
  {
    PowersOfTen();
    PaddedReads(n, 2);
  }

  lemma {:induction false} TimeSlotOfDigits(slot: seq<byte>, val: string, digits: string, t: nat)
    requires |slot| >= 4 && digits == OnlyDigits(Trim(val)) && !SameIgnoringCase(Trim(val), "NULL")
    requires |digits| == 6 && TimeOf(digits) == t
    ensures TimeSlot(slot, val) == Overwrite(slot, LeBytes(t, 4))
  {
  }

  lemma {:induction false} TimeSlotWrites(slot: seq<byte>, val: string, t: nat)
    requires |slot| >= 4 && t < 100_000_000 && t % 100 == 0 && val == TimeText(t)
    ensures TimeSlot(slot, val) == LeBytes(t, 4) + slot[4..]
  {
    var hh, mm, ss := t / 1_000_000 % 100, t / 10_000 % 100, t / 100 % 100;
    var digits := Padded(hh, 2) + Padded(mm, 2) + Padded(ss, 2);
    TimeDigits(t);
    TimeParts(t);
    TimeOfParts(hh, mm, ss);
    TimeSlotOfDigits(slot, val, digits, t);
  }

  lemma {:induction false} TimeRoundTrip(slice: seq<byte>, old': seq<byte>)
    requires |slice| == |old'| && |slice| >= 4
    requires LeNat(slice[..4]) < 100_000_000 && LeNat(slice[..4]) % 100 == 0
    ensures TimeSlot(old', TimeText(LeNat(slice[..4]))) == slice[..4] + old'[4..]
  {
    TimeSlotWrites(old', TimeText(LeNat(slice[..4])), LeNat(slice[..4]));
    LeBytesOfNat(slice[..4]);
  }

  // ---- any field ---------------------------------------------------------------------------------------

  lemma {:induction false} LogicalRoundTrip(f: IntField, slice: seq<byte>, old': seq<byte>)
    requires f.nativeType == TYPE_LOGICAL && Exact(f, slice) && |slice| == |old'|
    ensures PackSlot(TYPE_LOGICAL, old', ColumnText(DecodeField(f, slice))) == slice[..1] + old'[1..]
  {
    assert Trim("1") == "1" && Trim("0") == "0";
    assert |"0"| != |"true"| && |"0"| != |"yes"|;
    assert slice[..1] == [slice[0]];
  }

  lemma {:induction false} IntKindRoundTrip(f: IntField, slice: seq<byte>, old': seq<byte>)
    requires f.nativeType in {TYPE_INT, TYPE_AUTOINC, TYPE_DECIMAL} && Exact(f, slice) && |slice| == |old'|
    ensures PackSlot(f.nativeType, old', ColumnText(DecodeField(f, slice)))
         == slice[..Min(|slice|, 8)] + old'[Min(|slice|, 8)..]
  {
    if f.nativeType == TYPE_DECIMAL {
      DecimalRoundTrip(slice, old');
    } else {
      IntRoundTrip(slice, old');
    }
  }

  lemma {:induction false} DateTimeRoundTrip(f: IntField, slice: seq<byte>, old': seq<byte>)
    requires f.nativeType in {TYPE_DATE, TYPE_TIME} && Exact(f, slice) && |slice| == |old'|
    ensures PackSlot(f.nativeType, old', ColumnText(DecodeField(f, slice))) == slice[..4] + old'[4..]
  {
    if f.nativeType == TYPE_DATE {
      DateRoundTrip(f, slice, old');
    } else {
      TimeRoundTrip(slice, old');
    }
  }

  lemma {:induction false} ZStringKindRoundTrip(f: IntField, slice: seq<byte>, old': seq<byte>)
    requires f.nativeType == TYPE_ZSTRING && Exact(f, slice) && |slice| == |old'|
    ensures PackSlot(TYPE_ZSTRING, old', ColumnText(DecodeField(f, slice))) == slice
  {
    ZStringRoundTripIff(slice);
    assert PackSlot(TYPE_ZSTRING, old', ColumnText(DecodeField(f, slice))) == ZStringBack(slice);
  }

  /** Unpacking a slot in the exact range and packing the value back writes the same bytes. */
  lemma {:induction false} SlotRoundTrip(f: IntField, slice: seq<byte>, old': seq<byte>)
    requires |slice| == |old'| == f.length && Exact(f, slice)
    ensures PackSlot(f.nativeType, old', ColumnText(DecodeField(f, slice))) == slice[..Written(f)] + old'[Written(f)..]
  {
    var t := f.nativeType;
    assert slice[..|slice|] + old'[|slice|..] == slice;
    if t == TYPE_STRING {
      StringRoundTrip(f, slice, old');
    } else if t == TYPE_ZSTRING {
      ZStringKindRoundTrip(f, slice, old');
    } else if t == TYPE_LOGICAL {
      LogicalRoundTrip(f, slice, old');
    } else if t == TYPE_DATE || t == TYPE_TIME {
      DateTimeRoundTrip(f, slice, old');
    } else {
      IntKindRoundTrip(f, slice, old');
    }
  }

  // ---- whole records ---------------------------------------------------------------------------------------

  /** Every field inside the record holds bytes in the exact range. */
  predicate ExactRecord(fields: seq<IntField>, record: seq<byte>) {
    forall i :: 0 <= i < |fields| && Fits(fields[i], |record|) && fields[i].length > 0 ==>
      Exact(fields[i], FieldSlice(record, fields[i].offset, fields[i].length))
  }

  /** Some field inside the record writes byte `j`. */
  predicate Covered(fields: seq<IntField>, n: nat, j: nat) {
    exists i :: 0 <= i < |fields| && Covers(fields[i], n, j)
  }

  predicate Covers(f: IntField, n: nat, j: nat) {
    Fits(f, n) && f.offset <= j < f.offset + Written(f)
  }

  lemma {:induction false} SpliceCopies(record: seq<byte>, buf: seq<byte>, at: nat, slot: seq<byte>, w: nat, j: nat)
    requires |buf| == |record| && at + |slot| <= |record| && w <= |slot| && j < |record|
    requires slot == record[at..at + |slot|][..w] + buf[at..at + |slot|][w..]
    ensures Splice(buf, at, slot)[j] == if at <= j < at + w then record[j] else buf[j]
  {
    if at <= j < at + |slot| {
      var i := j - at;
      assert slot[i] == if i < w then record[at..at + |slot|][i] else buf[at..at + |slot|][i];
      assert record[at..at + |slot|][i] == record[j] && buf[at..at + |slot|][i] == buf[j];
    }
  }

  lemma {:induction false} PackFieldIs(f: IntField, buf: seq<byte>, val: string, was: seq<byte>, slot: seq<byte>)
    requires f.offset + f.length <= |buf| && was == buf[f.offset..f.offset + f.length] && slot == PackSlot(f.nativeType, was, val)
    ensures PackField(f, val, buf) == Splice(buf, f.offset, slot)
  {
  }

  lemma {:induction false} SpliceCovers(f: IntField, record: seq<byte>, slice: seq<byte>, buf: seq<byte>, was: seq<byte>,
                                        slot: seq<byte>, j: nat)
    requires |buf| == |record| && j < |record| && Fits(f, |record|)
    requires slice == record[f.offset..f.offset + f.length] && was == buf[f.offset..f.offset + f.length]
    requires |slot| == f.length && slot == slice[..Written(f)] + was[Written(f)..]
    ensures Splice(buf, f.offset, slot)[j] == if Covers(f, |record|, j) then record[j] else buf[j]
  {
    SpliceCopies(record, buf, f.offset, slot, Written(f), j);
  }

  lemma {:induction false} PackFieldCopies(f: IntField, record: seq<byte>, buf: seq<byte>, j: nat)
    requires |buf| == |record| && j < |record|
    requires Fits(f, |record|) && f.length > 0 ==> Exact(f, FieldSlice(record, f.offset, f.length))
    ensures PackField(f, ColumnText(DecodeField(f, FieldSlice(record, f.offset, f.length))), buf)[j]
         == if Covers(f, |record|, j) then record[j] else buf[j]
  {
    var slice := FieldSlice(record, f.offset, f.length);
    if Fits(f, |record|) && f.length > 0 {
      var was := buf[f.offset..f.offset + f.length];
      var val := ColumnText(DecodeField(f, slice));
      var slot := PackSlot(f.nativeType, was, val);
      SlotRoundTrip(f, slice, was);
      PackFieldIs(f, buf, val, was, slot);
      SpliceCovers(f, record, slice, buf, was, slot, j);
    }
  }

  lemma {:induction false} PackAllCopies(fields: seq<IntField>, record: seq<byte>, buf: seq<byte>, j: nat)
    requires NoFloats(fields) && ExactRecord(fields, record) && |buf| == |record| && j < |record|
    ensures PackAll(fields, ColumnTexts(UnpackRowTyped(fields, record)), buf)[j]
         == if Covered(fields, |record|, j) then record[j] else buf[j]
    decreases |fields|
  {
    if fields != [] {
      var f, rest := fields[0], fields[1..];
      var vals := ColumnTexts(UnpackRowTyped(fields, record));
      assert vals[1..] == ColumnTexts(UnpackRowTyped(rest, record));
      var next := PackField(f, vals[0], buf);
      PackFieldCopies(f, record, buf, j);
      assert forall i :: 0 <= i < |rest| ==> rest[i] == fields[i + 1];
      PackAllCopies(rest, record, next, j);
      assert Covered(fields, |record|, j) <==> Covers(f, |record|, j) || Covered(rest, |record|, j) by {
        if Covered(rest, |record|, j) {
          var i :| 0 <= i < |rest| && Covers(rest[i], |record|, j);
          assert Covers(fields[i + 1], |record|, j);
        }
        if Covered(fields, |record|, j) && !Covers(f, |record|, j) {
          var i :| 0 <= i < |fields| && Covers(fields[i], |record|, j);
          assert rest[i - 1] == fields[i];
        }
      }
    }
  }

  /** Unpack then pack reproduces every byte some field writes, also where fields overlap, and leaves
      zeros everywhere else. */
  lemma {:induction false} RecordRoundTrip(fields: seq<IntField>, record: seq<byte>)
    requires NoFloats(fields) && ExactRecord(fields, record)
    ensures PackAll(fields, ColumnTexts(UnpackRowTyped(fields, record)), Zeros(|record|))
         == seq(|record|, j requires 0 <= j < |record| => if Covered(fields, |record|, j) then record[j] else 0)
  {
    forall j | 0 <= j < |record|
      ensures PackAll(fields, ColumnTexts(UnpackRowTyped(fields, record)), Zeros(|record|))[j]
           == if Covered(fields, |record|, j) then record[j] else 0
    {
      PackAllCopies(fields, record, Zeros(|record|), j);
    }
  }
}
