/** What every field type makes of text and of bytes, told by type number and byte by byte. */
module FieldTypes {
  import opened Wrappers
  import opened Bytes
  import opened Decimal
  import opened TextUtil
  import opened SqlValues
  import opened Schema
  import opened RecordCodec
  import opened CodecRoundTrip

  // ---- text --------------------------------------------------------------------------------------------

  lemma {:induction false} CasesAgree(c: char, d: char)
    ensures Lower(c) == Lower(d) <==> UpperChar(c) == UpperChar(d)
  {
  }

  /** Ignoring case is comparing in capitals. */
  lemma {:induction false} SameInCapitals(s: string, t: string)
    ensures SameIgnoringCase(s, t) <==> Upper(s) == Upper(t)
  {
    if |s| == |t| {
      forall i | 0 <= i < |s|
        ensures Lower(s[i]) == Lower(t[i]) <==> Upper(s)[i] == Upper(t)[i]
      {
        CasesAgree(s[i], t[i]);
      }
    } else {
      assert |Upper(s)| != |Upper(t)|;
    }
  }

  predicate AsciiText(t: string) {
    forall i :: 0 <= i < |t| ==> t[i] as int < 128
  }

  lemma {:induction false} AsciiBytes(t: string)
    requires AsciiText(t)
    ensures |Utf8(t)| == |t| && forall i :: 0 <= i < |t| ==> Utf8(t)[i] == t[i] as int
  {
    if t != "" {
      AsciiBytes(t[1..]);
      assert Utf8(t) == [t[0] as int] + Utf8(t[1..]);
    }
  }

  /** Text cut to a width, or followed by blanks up to it. */
  function Fitted(t: string, n: nat): (r: string)
    ensures |r| == n
  {
    seq(n, k requires 0 <= k < n => if k < |t| then t[k] else ' ')
  }

  function WithoutBlanks(t: string): string {
    if t != "" && t[|t| - 1] == ' ' then WithoutBlanks(t[..|t| - 1]) else t
  }

  /** Types that pack text as STRING (0) does: all that have no rule of their own. */
  predicate PacksAsText(nativeType: int) {
    nativeType !in {1, 2, 3, 4, 5, 6, 7, 10, 11, 12, 14, 15}
  }

  /** A STRING slot holds the text's bytes and then blanks. */
  lemma {:induction false} StringBytes(nativeType: int, slot: seq<byte>, t: string, k: nat)
    requires PacksAsText(nativeType) && AsciiText(t) && k < |slot|
    ensures PackSlot(nativeType, slot, t)[k] == if k < |t| then t[k] as int else 32
  {
    AsciiBytes(t);
  }

  /** Text packed into a STRING field is read back cut to the field's width and filled with blanks. */
  lemma {:induction false} PackedStringReads(f: IntField, slot: seq<byte>, t: string)
    requires f.nativeType == 0 && AsciiText(t)
    ensures DecodeField(f, PackSlot(0, slot, t)) == Text(Fitted(t, |slot|))
  {
    var b := PackSlot(0, slot, t);
    forall k | 0 <= k < |slot|
      ensures Latin1(b)[k] == Fitted(t, |slot|)[k]
    {
      StringBytes(0, slot, t, k);
    }
    assert Latin1(b) == Fitted(t, |slot|);
  }

  /** Where it fits, its trailing blanks aside, it is the text its own aside. */
  lemma {:induction false} FittedIsText(t: string, n: nat)
    requires |t| <= n
    ensures WithoutBlanks(Fitted(t, n)) == WithoutBlanks(t)
    decreases n
  {
    if |t| == n {
      assert Fitted(t, n) == t;
    } else {
      assert Fitted(t, n)[..n - 1] == Fitted(t, n - 1);
      FittedIsText(t, n - 1);
    }
  }

  /** An LSTRING slot holds the length kept, the text's bytes and then blanks; a slot of one byte is left alone. */
  lemma {:induction false} LStringBytes(slot: seq<byte>, t: string, k: nat)
    requires AsciiText(t) && k < |slot|
    ensures PackSlot(10, slot, t)[k]
         == if |slot| == 1 then slot[0]
            else if k == 0 then Min(|t|, |slot| - 1) % 256
            else if k - 1 < |t| then t[k - 1] as int
            else 32
  {
    AsciiBytes(t);
  }

  /** A ZSTRING slot, of type 11 or 12, holds the text's bytes up to the last byte but one, and then zeros. */
  lemma {:induction false} ZStringBytes(nativeType: int, slot: seq<byte>, t: string, k: nat)
    requires nativeType in {11, 12} && AsciiText(t) && k < |slot|
    ensures PackSlot(nativeType, slot, t)[k] == if k < |t| && k < |slot| - 1 then t[k] as int else 0
  {
    AsciiBytes(t);
  }

  lemma {:induction false} FirstZeroIs(b: seq<byte>, k: nat)
    requires k < |b| && b[k] == 0 && forall i :: 0 <= i < k ==> b[i] != 0
    ensures FirstZero(b) == k
  {
  }

  /** Text without a NUL packed into a ZSTRING field is read back cut to one byte less than the field. */
  lemma {:induction false} PackedZStringReads(f: IntField, slot: seq<byte>, t: string)
    requires f.nativeType == 11 && slot != [] && AsciiText(t) && forall i :: 0 <= i < |t| ==> t[i] as int != 0
    ensures DecodeField(f, PackSlot(11, slot, t)) == Text(t[..Min(|t|, |slot| - 1)])
  {
    var b, n := PackSlot(11, slot, t), Min(|t|, |slot| - 1);
    forall k | 0 <= k < |slot|
      ensures b[k] == if k < |t| && k < |slot| - 1 then t[k] as int else 0
    {
      ZStringBytes(11, slot, t, k);
    }
    FirstZeroIs(b, n);
    assert FromUtf8Lossy(b[..n]) == t[..n];
  }

  // ---- numbers -----------------------------------------------------------------------------------------

  /** A number between white space, as types 1, 5, 14 and 15 take it, is packed as its low bytes, at most eight, the low one
      first; the rest of the slot is left alone. */
  lemma {:induction false} NumberBytes(nativeType: int, slot: seq<byte>, v: int, t: string)
    requires nativeType in {1, 5, 14, 15} && slot != [] && -0x8000_0000_0000_0000 <= v < 0x8000_0000_0000_0000
    requires Trim(t) == IntText(v)
    ensures var n := Min(|slot|, 8); PackSlot(nativeType, slot, t) == LeBytes(v, n) + slot[n..]
  {
    var n := Min(|slot|, 8);
    IntTextRoundTrip(v);
    LeBytesPrefix(v, 8, n);
  }

  /** Text that is no number, or one beyond 64 bits, is packed as 0. */
  lemma {:induction false} NoNumberBytes(nativeType: int, slot: seq<byte>, t: string)
    requires nativeType in {1, 5, 14, 15} && slot != []
    requires var n := ParseInt(Trim(t)); n == None || n.value < -0x8000_0000_0000_0000 || n.value >= 0x8000_0000_0000_0000
    ensures var n := Min(|slot|, 8); PackSlot(nativeType, slot, t) == LeBytes(0, n) + slot[n..]
  {
    LeBytesPrefix(0, 8, Min(|slot|, 8));
  }

  lemma {:induction false} SignedTwo(b: seq<byte>)
    requires |b| == 2
    ensures LeInt(b) == TwoBytes(b, 0) - if b[1] >= 0x80 then 0x1_0000 else 0
  {
    LeNatTwo(b);
    Pow256Eight();
  }

  lemma {:induction false} SignedFour(b: seq<byte>)
    requires |b| == 4
    ensures LeInt(b) == TwoBytes(b, 0) + 0x1_0000 * TwoBytes(b, 2) - if b[3] >= 0x80 then 0x1_0000_0000 else 0
  {
    LeNatFour(b);
    Pow256Eight();
  }

  /** Numbers of types 1 and 14 are read unsigned from one byte, signed from two and four, as a signed 64-bit number from eight
      or more, and as 0 from any other width. */
  lemma {:induction false} NumberReads(f: IntField, b: seq<byte>)
    requires f.nativeType in {1, 14}
    ensures |b| == 1 ==> DecodeField(f, b) == I64(b[0])
    ensures |b| == 2 ==> DecodeField(f, b) == I64(TwoBytes(b, 0) - if b[1] >= 0x80 then 0x1_0000 else 0)
    ensures |b| == 4 ==>
              DecodeField(f, b) == I64(TwoBytes(b, 0) + 0x1_0000 * TwoBytes(b, 2) - if b[3] >= 0x80 then 0x1_0000_0000 else 0)
    ensures |b| >= 8 ==> DecodeField(f, b) == I64(LeInt(b[..8]))
    ensures |b| in {0, 3, 5, 6, 7} ==> DecodeField(f, b) == I64(0)
  {
    if |b| == 2 {
      SignedTwo(b);
      assert b[..2] == b;
    } else if |b| == 4 {
      SignedFour(b);
      assert b[..4] == b;
    }
  }

  lemma {:induction false} LeNatZeros(b: seq<byte>, k: nat)
    ensures LeNat(b + Zeros(k)) == LeNat(b)
    decreases |b|, k
  {
    if b != [] {
      assert (b + Zeros(k))[1..] == b[1..] + Zeros(k);
      LeNatZeros(b[1..], k);
    } else if k > 0 {
      assert Zeros(k)[1..] == Zeros(k - 1);
      assert [] + Zeros(k) == Zeros(k) && [] + Zeros(k - 1) == Zeros(k - 1);
      LeNatZeros([], k - 1);
    }
  }

  /** Type 5 is read unsigned from up to seven bytes, and as a signed 64-bit number from eight or more. */
  lemma {:induction false} DecimalReads(f: IntField, b: seq<byte>)
    requires f.nativeType == 5
    ensures |b| < 8 ==> DecodeField(f, b) == I64(LeNat(b))
    ensures |b| >= 8 ==> DecodeField(f, b) == I64(LeInt(b[..8]))
  {
    if |b| < 8 {
      var wide := b + Zeros(8 - |b|);
      assert b[..|b|] == b;
      LeNatZeros(b, 8 - |b|);
      LeNatBound(b);
      Pow256Monotone(|b|, 7);
      Pow256Eight();
      assert Pow256(8) == 256 * Pow256(7);
    } else {
      assert b[..8] + Zeros(0) == b[..8];
    }
  }

  // ---- truth values, dates and times ---------------------------------------------------------------------

  /** A LOGICAL slot takes 0xFF for 1, true and yes, in any case and between blanks, and 0 for anything else; only its first byte
      is written. */
  lemma {:induction false} LogicalBytes(slot: seq<byte>, t: string)
    requires slot != []
    ensures var yes := Trim(t) == "1" || SameIgnoringCase(Trim(t), "true") || SameIgnoringCase(Trim(t), "yes");
            PackSlot(7, slot, t) == [if yes then 0xFF else 0] + slot[1..]
  {
  }

  /** Any byte but 0 is read as true, and so comes back as 0xFF. */
  lemma {:induction false} LogicalComesBack(f: IntField, b: seq<byte>, old': seq<byte>)
    requires f.nativeType == 7 && b != [] && |old'| == |b|
    ensures DecodeField(f, b) == Bool(b[0] != 0)
    ensures PackSlot(7, old', ColumnText(DecodeField(f, b))) == [if b[0] == 0 then 0 else 0xFF] + old'[1..]
  {
    assert Trim("1") == "1" && Trim("0") == "0";
    assert |"0"| != |"true"| && |"0"| != |"yes"|;
  }

  /** A date as text: four digits of the year, two of the month, two of the day. */
  lemma {:induction false} DateSpelled(year: nat, month: nat, day: nat)
    requires year < 10000 && month < 100 && day < 100
    ensures DateText(year, month, day)
         == [DigitChar(year / 1000), DigitChar(year / 100 % 10), DigitChar(year / 10 % 10), DigitChar(year % 10), '-',
             DigitChar(month / 10), DigitChar(month % 10), '-', DigitChar(day / 10), DigitChar(day % 10)]
  {
    FourDigits(year);
    TwoDigits(month);
    TwoDigits(day);
  }

  lemma {:induction false} DateReads(f: IntField, b: seq<byte>, old': seq<byte>)
    requires f.nativeType == 3 && |b| >= 4 && |old'| == |b|
    requires 1 <= b[0] <= 31 && 1 <= b[1] <= 12 && 0 < TwoBytes(b, 2) < 10000
    ensures DecodeField(f, b) == Text(DateText(TwoBytes(b, 2), b[1], b[0]))
    ensures PackSlot(3, old', DateText(TwoBytes(b, 2), b[1], b[0])) == b[..4] + old'[4..]
  {
    LeNatTwo(b[2..4]);
    assert b[0] != 0;
    DateRoundTrip(f, b, old');
  }

  /** A DATE slot: the day, the month, and the year in two bytes, read as that text and written from it. */
  lemma {:induction false} DateBytes(f: IntField, b: seq<byte>, old': seq<byte>, t: string)
    requires f.nativeType == 3 && |b| >= 4 && |old'| == |b|
    requires 1 <= b[0] <= 31 && 1 <= b[1] <= 12 && 0 < TwoBytes(b, 2) < 10000
    requires var year := TwoBytes(b, 2);
             t == [DigitChar(year / 1000), DigitChar(year / 100 % 10), DigitChar(year / 10 % 10), DigitChar(year % 10), '-',
                   DigitChar(b[1] / 10), DigitChar(b[1] % 10), '-', DigitChar(b[0] / 10), DigitChar(b[0] % 10)]
    ensures DecodeField(f, b) == Text(t) && PackSlot(3, old', t) == b[..4] + old'[4..]
  {
    DateReads(f, b, old');
    assert t == DateText(TwoBytes(b, 2), b[1], b[0]) by {
      DateSpelled(TwoBytes(b, 2), b[1], b[0]);
    }
  }

  /** Three numbers as two digits each. */
  function PairText(a: nat, b: nat, c: nat): string
    requires a < 100 && b < 100 && c < 100
  {
    [DigitChar(a / 10), DigitChar(a % 10), ':', DigitChar(b / 10), DigitChar(b % 10), ':', DigitChar(c / 10), DigitChar(c % 10)]
  }

  lemma {:induction false} TimeSpelled(n: nat, hour: nat, minute: nat, second: nat)
    requires hour < 100 && minute < 100 && second < 100 && n == hour * 1_000_000 + minute * 10_000 + second * 100
    ensures TimeText(n) == PairText(hour, minute, second)
    ensures n < 100_000_000 && n % 100 == 0
  {
    assert n / 1_000_000 % 100 == hour;
    assert n / 10_000 % 100 == minute;
    assert n / 100 % 100 == second;
    TwoDigits(hour);
    TwoDigits(minute);
    TwoDigits(second);
  }

  /** Any four bytes of a TIME field are read by the digits of their number: the last two are left out, and those in front of the
      eighth from the right do not count. Fewer bytes are read as midnight. */
  lemma {:induction false} TimeReads(f: IntField, b: seq<byte>)
    requires f.nativeType == 4
    ensures |b| < 4 ==> DecodeField(f, b) == Text("00:00:00")
    ensures |b| >= 4 ==>
              var n := LeNat(b[..4]); DecodeField(f, b) == Text(PairText(n / 1_000_000 % 100, n / 10_000 % 100, n / 100 % 100))
  {
    var n := if |b| >= 4 then LeNat(b[..4]) else 0;
    TwoDigits(n / 1_000_000 % 100);
    TwoDigits(n / 10_000 % 100);
    TwoDigits(n / 100 % 100);
  }

  /** A TIME slot: hours, minutes, seconds and hundredths as two digits each of one number; the text has no hundredths. */
  lemma {:induction false} TimeBytes(f: IntField, b: seq<byte>, old': seq<byte>, hour: nat, minute: nat, second: nat, t: string)
    requires f.nativeType == 4 && |b| >= 4 && |old'| == |b| && hour < 100 && minute < 100 && second < 100
    requires LeNat(b[..4]) == hour * 1_000_000 + minute * 10_000 + second * 100
    requires t == PairText(hour, minute, second)
    ensures DecodeField(f, b) == Text(t) && PackSlot(4, old', t) == b[..4] + old'[4..]
  {
    TimeSpelled(LeNat(b[..4]), hour, minute, second);
    assert t == TimeText(LeNat(b[..4]));
    TimeRoundTrip(b, old');
  }

  function TwoValue(d: string, i: nat): nat
    requires AllDigits(d) && i + 2 <= |d|
  {
    10 * DigitValue(d[i]) + DigitValue(d[i + 1])
  }

  lemma {:induction false} TwoParsed(d: string)
    requires AllDigits(d) && |d| == 2
    ensures DigitsOr0(d) == TwoValue(d, 0)
  {
    assert d[..1][..0] == "" && d[..1][0] == d[0];
    assert DigitsValue(d[..1]) == DigitValue(d[0]);
  }

  lemma {:induction false} FourParsed(d: string)
    requires AllDigits(d) && |d| == 4
    ensures DigitsOr0(d) == 100 * TwoValue(d, 0) + TwoValue(d, 2)
  {
    var t := d[..2];
    TwoParsed(t);
    assert d[..3][..2] == t;
    assert DigitsValue(d[..3]) == 10 * DigitsValue(t) + DigitValue(d[2]);
  }

  lemma {:induction false} OnlyDigitsAre(s: string)
    ensures AllDigits(OnlyDigits(s))
  {
    if s != "" {
      OnlyDigitsAre(s[1..]);
    }
  }

  lemma {:induction false} EightParsed(d: string)
    requires AllDigits(d) && |d| >= 8
    ensures DigitsOr0(d[0..4]) == 100 * TwoValue(d, 0) + TwoValue(d, 2) < 10000
    ensures DigitsOr0(d[4..6]) == TwoValue(d, 4) < 100 && DigitsOr0(d[6..8]) == TwoValue(d, 6) < 100
  {
    FourParsed(d[0..4]);
    TwoParsed(d[4..6]);
    TwoParsed(d[6..8]);
  }

  lemma {:induction false} YearBytes(year: nat)
    requires year < 0x1_0000
    ensures LeBytes(year, 2) == [year % 256, year / 256]
  {
    assert LeBytes(year, 2) == [year % 256] + LeBytes(year / 256, 1);
  }

  lemma {:induction false} DateSlotLong(slot: seq<byte>, t: string, d: string, b: seq<byte>)
    requires d == OnlyDigits(Trim(t)) && |slot| >= 4 && |d| >= 8 && !SameIgnoringCase(Trim(t), "NULL")
    requires b == [DigitsOr0(d[6..8]) % 256, DigitsOr0(d[4..6]) % 256] + LeBytes(DigitsOr0(d[0..4]), 2)
    ensures DateSlot(slot, t) == b + slot[4..]
  {
  }

  /** The bytes of a date whose digits are these. */
  function DateDigitsBytes(d: string): (b: seq<byte>)
    requires AllDigits(d) && |d| >= 8
    ensures |b| == 4
  {
    var year := 100 * TwoValue(d, 0) + TwoValue(d, 2);
    [TwoValue(d, 6), TwoValue(d, 4), year % 256, year / 256]
  }

  /** Date text counts by its first eight digits, whatever stands between or behind them: year, month, day. Text of fewer digits, or
      that is NULL in any case, and slots of fewer than four bytes leave the slot alone. */
  lemma {:induction false} DateTextBytes(slot: seq<byte>, t: string, d: string)
    requires d == OnlyDigits(Trim(t)) && slot != []
    ensures AllDigits(d)
    ensures SameIgnoringCase(Trim(t), "NULL") || |slot| < 4 || |d| < 8 ==> PackSlot(3, slot, t) == slot
    ensures !SameIgnoringCase(Trim(t), "NULL") && |slot| >= 4 && |d| >= 8 ==> PackSlot(3, slot, t) == DateDigitsBytes(d) + slot[4..]
  {
    OnlyDigitsAre(Trim(t));
    if !SameIgnoringCase(Trim(t), "NULL") && |slot| >= 4 && |d| >= 8 {
      EightParsed(d);
      YearBytes(DigitsOr0(d[0..4]));
      DateSlotLong(slot, t, d, DateDigitsBytes(d));
    }
  }

  /** Time text likewise by its first six: hours, minutes, seconds; the number packed has no hundredths. */
  lemma {:induction false} TimeTextBytes(slot: seq<byte>, t: string, d: string)
    requires d == OnlyDigits(Trim(t)) && slot != []
    ensures AllDigits(d)
    ensures PackSlot(4, slot, t)
         == if SameIgnoringCase(Trim(t), "NULL") || |slot| < 4 || |d| < 6 then slot
            else LeBytes(TwoValue(d, 0) * 1_000_000 + TwoValue(d, 2) * 10_000 + TwoValue(d, 4) * 100, 4) + slot[4..]
  {
    OnlyDigitsAre(Trim(t));
    if |d| >= 6 {
      TwoParsed(d[0..2]);
      TwoParsed(d[2..4]);
      TwoParsed(d[4..6]);
    }
  }

  /** A DATE slot that is no date is read as the field's default value, or NULL: all zeros, month 0 or above 12, day 0 or above
      31, year 0. */
  lemma {:induction false} NoDateReads(f: IntField, b: seq<byte>)
    requires f.nativeType == 3
    requires |b| < 4 || TwoBytes(b, 2) == 0 || b[1] == 0 || b[1] > 12 || b[0] == 0 || b[0] > 31
    ensures DecodeField(f, b) == if f.defaultValue.Some? then Text(f.defaultValue.value) else Null
  {
    if |b| >= 4 {
      LeNatTwo(b[2..4]);
    }
  }

  /** Types without a reader of their own, LSTRING and the second ZSTRING and auto-increment types among them, are read byte for
      character without white space at the end; all zeros as the default value, or NULL. */
  lemma {:induction false} OtherTypesRead(f: IntField, b: seq<byte>)
    requires f.nativeType !in {0, 1, 2, 3, 4, 5, 6, 7, 11, 14}
    ensures DecodeField(f, b)
         == if forall i :: 0 <= i < |b| ==> b[i] == 0 then (if f.defaultValue.Some? then Text(f.defaultValue.value) else Null)
            else Text(TrimEnd(Latin1(b)))
  {
  }

  /** A column that is NULL fills a text field with blanks, an LSTRING behind length 0 and a ZSTRING with zeros. */
  lemma {:induction false} NullColumnBytes(nativeType: int, slot: seq<byte>, k: nat)
    requires (PacksAsText(nativeType) || nativeType in {10, 11, 12}) && |slot| >= 2 && k < |slot|
    ensures PackSlot(nativeType, slot, ColumnText(Null))[k]
         == if nativeType in {11, 12} || (nativeType == 10 && k == 0) then 0 else 32
  {
    AsciiBytes("");
  }

  /** Other fields it leaves alone or sets to zero: numbers and truth values read 0 and false, dates and times are not
      written. */
  lemma {:induction false} NullColumnNumbers(nativeType: int, slot: seq<byte>)
    requires slot != [] && nativeType in {1, 3, 4, 5, 7, 14, 15}
    ensures var n := if nativeType in {3, 4} then 0 else if nativeType == 7 then 1 else Min(|slot|, 8);
            PackSlot(nativeType, slot, ColumnText(Null)) == Zeros(n) + slot[n..]
  {
    assert Trim("") == "" && ParseInt("") == None && OnlyDigits("") == "";
    assert |""| != |"true"| && |""| != |"yes"|;
    LeBytesPrefix(0, 8, Min(|slot|, 8));
    ZeroBytes(Min(|slot|, 8));
  }

  lemma {:induction false} ZeroBytes(n: nat)
    ensures LeBytes(0, n) == Zeros(n)
  {
    if n > 0 {
      ZeroBytes(n - 1);
      assert LeBytes(0, n) == [0] + LeBytes(0, n - 1);
      assert Zeros(n) == [0] + Zeros(n - 1);
    }
  }

  // ---- literal fields ------------------------------------------------------------------------------------

  /** LOGICAL: byte 1 is read as true and written back as 0xFF; "true" is written as 0xFF and "0" as 0. */
  lemma {:induction false} LiteralLogical(f: IntField)
    requires f.nativeType == 7
    ensures DecodeField(f, [1]) == Bool(true) && PackSlot(7, [0], ColumnText(DecodeField(f, [1]))) == [0xFF]
    ensures PackSlot(7, [0], "true") == [0xFF] && PackSlot(7, [0xFF], "0") == [0]
  {
    LogicalComesBack(f, [1], [0]);
    assert Trim("true") == "true" && Trim("0") == "0";
    assert |"0"| != |"true"| && |"0"| != |"yes"|;
  }

  /** INT byte 200 is read as 200, DECIMAL FF FF as 65535, INT FF FF as -1. */
  lemma {:induction false} LiteralNumbers(f: IntField, g: IntField)
    requires f.nativeType == 1 && g.nativeType == 5
    ensures DecodeField(f, [200]) == I64(200) && DecodeField(f, [0xFF, 0xFF]) == I64(-1)
    ensures DecodeField(g, [0xFF, 0xFF]) == I64(65535)
  {
    NumberReads(f, [200]);
    NumberReads(f, [0xFF, 0xFF]);
    LeNatTwo([0xFF, 0xFF]);
    DecimalReads(g, [0xFF, 0xFF]);
  }

  /** DATE bytes 29, 2, E8, 07 are the leap day of 2024. */
  lemma {:induction false} LiteralDate(f: IntField, b: seq<byte>)
    requires f.nativeType == 3 && b == [29, 2, 0xE8, 7]
    ensures DecodeField(f, b) == Text("2024-02-29") && PackSlot(3, [0, 0, 0, 0], "2024-02-29") == b
  {
    assert TwoBytes(b, 2) == 2024;
    DateBytes(f, b, [0, 0, 0, 0], "2024-02-29");
  }

  /** A STRING of five bytes holds AB and three blanks. */
  lemma {:induction false} LiteralString(b: seq<byte>)
    requires b == PackSlot(0, [0, 0, 0, 0, 0], "AB")
    ensures b == [0x41, 0x42, 32, 32, 32]
  {
    forall k: nat | k < 5
      ensures b[k] == if k < 2 then "AB"[k] as int else 32
    {
      StringBytes(0, [0, 0, 0, 0, 0], "AB", k);
    }
  }
}
