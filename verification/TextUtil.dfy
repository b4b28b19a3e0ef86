/** The string helpers of the standard library the codecs and the INT files rely on. */
module TextUtil {
  import opened Bytes
  import opened Decimal

  /** Unicode White_Space. */
  predicate IsWhite(c: char) {
    var n := c as int;
    9 <= n <= 13 || n == 32 || n == 0x85 || n == 0xA0 || n == 0x1680 || 0x2000 <= n <= 0x200A
    || n == 0x2028 || n == 0x2029 || n == 0x202F || n == 0x205F || n == 0x3000
  }

  function TrimStart(s: string): string {
    if s != "" && IsWhite(s[0]) then TrimStart(s[1..]) else s
  }

  function TrimEnd(s: string): string {
    if s != "" && IsWhite(s[|s| - 1]) then TrimEnd(s[..|s| - 1]) else s
  }

  function Trim(s: string): string {
    TrimEnd(TrimStart(s))
  }

  /** Nothing to trim. */
  predicate Trimmed(s: string) {
    s == "" || (!IsWhite(s[0]) && !IsWhite(s[|s| - 1]))
  }

  lemma {:induction false} TrimTrimmed(s: string)
    requires Trimmed(s)
    ensures Trim(s) == s
  {
  }

  function UpperChar(c: char): char {
    if 'a' <= c <= 'z' then (c as int - 32) as char else c
  }

  /** `to_ascii_uppercase` */
  function Upper(s: string): (r: string)
    ensures |r| == |s|
  {
    seq(|s|, i requires 0 <= i < |s| => UpperChar(s[i]))
  }

  function OnlyDigits(s: string): string {
    if s == "" then "" else (if IsDigit(s[0]) then [s[0]] else "") + OnlyDigits(s[1..])
  }

  lemma {:induction false} OnlyDigitsCat(s: string, t: string)
    ensures OnlyDigits(s + t) == OnlyDigits(s) + OnlyDigits(t)
  {
    if s == "" {
      assert s + t == t;
    } else {
      OnlyDigitsCat(s[1..], t);
      var first := if IsDigit(s[0]) then [s[0]] else "";
      assert (s + t)[0] == s[0] && (s + t)[1..] == s[1..] + t;
      assert first + (OnlyDigits(s[1..]) + OnlyDigits(t)) == first + OnlyDigits(s[1..]) + OnlyDigits(t);
    }
  }

  lemma {:induction false} OnlyDigitsOfDigits(s: string)
    requires AllDigits(s)
    ensures OnlyDigits(s) == s
  {
    if s != "" {
      OnlyDigitsOfDigits(s[1..]);
      assert s == [s[0]] + s[1..];
    }
  }

  /** The UTF-8 bytes of a character. */
  function Utf8Char(c: char): seq<byte> {
    var n := c as int;
    if n < 0x80 then [n]
    else if n < 0x800 then [0xC0 + n / 64, 0x80 + n % 64]
    else if n < 0x1_0000 then [0xE0 + n / 4096, 0x80 + n / 64 % 64, 0x80 + n % 64]
    else [0xF0 + n / 262144 % 8, 0x80 + n / 4096 % 64, 0x80 + n / 64 % 64, 0x80 + n % 64]
  }

  /** `as_bytes` */
  function Utf8(s: string): seq<byte> {
    if s == "" then [] else Utf8Char(s[0]) + Utf8(s[1..])
  }

  /** `b as char` for every byte. */
  function Latin1(b: seq<byte>): (s: string)
    ensures |s| == |b|
  {
    seq(|b|, i requires 0 <= i < |b| => b[i] as char)
  }

  predicate Ascii(b: seq<byte>) {
    forall i :: 0 <= i < |b| ==> b[i] < 128
  }

  lemma {:induction false} AsciiRoundTrip(b: seq<byte>)
    requires Ascii(b)
    ensures Utf8(Latin1(b)) == b
  {
    if b != [] {
      AsciiRoundTrip(b[1..]);
      assert Latin1(b)[1..] == Latin1(b[1..]);
      assert b == [b[0]] + b[1..];
    }
  }

  /** `from_utf8_lossy`, exact for ASCII; any other byte becomes the replacement character. */
  function FromUtf8Lossy(b: seq<byte>): (s: string)
    ensures |s| == |b|
  {
    seq(|b|, i requires 0 <= i < |b| => if b[i] < 128 then b[i] as char else '\U{FFFD}')
  }

  lemma {:induction false} LossyOfAscii(b: seq<byte>)
    requires Ascii(b)
    ensures FromUtf8Lossy(b) == Latin1(b)
  {
  }

  predicate AllWhite(s: string) {
    forall i :: 0 <= i < |s| ==> IsWhite(s[i])
  }

  lemma {:induction false} TrimEndIs(s: string)
    ensures var k := |TrimEnd(s)|;
            k <= |s| && TrimEnd(s) == s[..k] && AllWhite(s[k..]) && (k > 0 ==> !IsWhite(s[k - 1]))
  {
    if s != "" && IsWhite(s[|s| - 1]) {
      TrimEndIs(s[..|s| - 1]);
    }
  }

  lemma {:induction false} TrimStartIs(s: string)
    ensures var k := |s| - |TrimStart(s)|;
            0 <= k && TrimStart(s) == s[k..] && AllWhite(s[..k]) && (k < |s| ==> !IsWhite(s[k]))
  {
    if s != "" && IsWhite(s[0]) {
      TrimStartIs(s[1..]);
      var k := |s| - |TrimStart(s)|;
      assert s[..k] == [s[0]] + s[1..][..k - 1];
    }
  }

  /** Trimming takes off white space at both ends, and all of it. */
  lemma {:induction false} TrimIs(s: string)
    ensures exists i, j :: 0 <= i <= j <= |s| && Trim(s) == s[i..j] && AllWhite(s[..i]) && AllWhite(s[j..]) && Trimmed(s[i..j])
  {
    TrimStartIs(s);
    var t := TrimStart(s);
    var i := |s| - |t|;
    TrimEndIs(t);
    var j := i + |TrimEnd(t)|;
    assert s[i..j] == t[..j - i] && s[j..] == t[j - i..];
  }

  /** The code point a character's bytes stand for in UTF-8 (RFC 3629, section 3). */
  function CodePoint(b: seq<byte>): int {
    if |b| == 1 then b[0]
    else if |b| == 2 then (b[0] as int - 0xC0) * 64 + (b[1] as int - 0x80)
    else if |b| == 3 then (b[0] as int - 0xE0) * 4096 + (b[1] as int - 0x80) * 64 + (b[2] as int - 0x80)
    else if |b| == 4 then
      (b[0] as int - 0xF0) * 262144 + (b[1] as int - 0x80) * 4096 + (b[2] as int - 0x80) * 64 + (b[3] as int - 0x80)
    else -1
  }

  /** A character is written in as many bytes as it needs, the leading one saying how many and the others marked, and they
      stand for it. */
  lemma {:induction false} Utf8CharReads(c: char)
    ensures var b, n := Utf8Char(c), c as int;
            && CodePoint(b) == n
            && |b| == (if n < 0x80 then 1 else if n < 0x800 then 2 else if n < 0x1_0000 then 3 else 4)
            && (|b| == 1 || b[0] / 8 == (if |b| == 2 then 24 + n / 512 else if |b| == 3 then 28 + n / 32768 else 30))
            && forall i :: 0 < i < |b| ==> 0x80 <= b[i] < 0xC0
  {
    var n := c as int;
    assert n / 64 == 64 * (n / 4096) + n / 64 % 64;
    assert n / 4096 == 64 * (n / 262144) + n / 4096 % 64;
  }
}
