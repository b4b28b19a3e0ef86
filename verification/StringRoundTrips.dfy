/** STRING slots outside ASCII: every byte is read as a character of its own and written back as UTF-8,
    so a byte above 0x7F becomes two. Exactly which slots survive. */
module StringRoundTrips {
  import opened Wrappers
  import opened Bytes
  import opened TextUtil
  import opened SqlValues
  import opened Schema
  import opened RecordCodec

  function WidenByte(b: byte): seq<byte> {
    if b < 0x80 then [b] else [0xC0 + b / 64, 0x80 + b % 64]
  }

  /** The bytes written back for the bytes read. */
  function Widen(b: seq<byte>): (r: seq<byte>)
    ensures |r| >= |b|
  {
    if b == [] then [] else WidenByte(b[0]) + Widen(b[1..])
  }

  lemma {:induction false} WritesWidened(b: seq<byte>)
    ensures Utf8(Latin1(b)) == Widen(b)
  {
    if b != [] {
      assert Latin1(b)[1..] == Latin1(b[1..]);
      WritesWidened(b[1..]);
    }
  }

  lemma {:induction false} WidenAppend(a: seq<byte>, b: seq<byte>)
    ensures Widen(a + b) == Widen(a) + Widen(b)
  {
    if a == [] {
      assert a + b == b;
    } else {
      assert (a + b)[0] == a[0] && (a + b)[1..] == a[1..] + b;
      WidenAppend(a[1..], b);
      Regroup(WidenByte(a[0]), Widen(a[1..]), Widen(b));
    }
  }

  lemma {:induction false} AsciiStays(b: seq<byte>)
    requires Ascii(b)
    ensures Widen(b) == b
  {
    if b != [] {
      AsciiStays(b[1..]);
      assert b == [b[0]] + b[1..];
    }
  }

  predicate High(b: seq<byte>) {
    forall i :: 0 <= i < |b| ==> b[i] >= 0x80
  }

  lemma {:induction false} HighDoubles(b: seq<byte>)
    requires High(b)
    ensures |Widen(b)| == 2 * |b| && High(Widen(b))
  {
    if b != [] {
      HighDoubles(b[1..]);
    }
  }

  lemma {:induction false} WidenPrefix(b: seq<byte>, k: nat)
    requires k <= |b|
    ensures |Widen(b[..k])| <= |Widen(b)| && Widen(b)[..|Widen(b[..k])|] == Widen(b[..k])
  {
    assert b == b[..k] + b[k..];
    WidenAppend(b[..k], b[k..]);
  }

  /** The first `n` bytes of the word that widens to itself: 0xC3, 0x83, 0xC2, 0x83, 0xC3, 0x82, ... */
  function FixedWord(n: nat): seq<byte> {
    if n == 0 then [] else if n == 1 then [0xC3]
    else
      var w := Widen(FixedWord((n + 1) / 2));
      if n <= |w| then w[..n] else w
  }

  lemma {:induction false} FixedWordShape(n: nat)
    ensures |FixedWord(n)| == n && High(FixedWord(n))
    ensures n >= 2 ==> |Widen(FixedWord((n + 1) / 2))| >= n && FixedWord(n) == Widen(FixedWord((n + 1) / 2))[..n]
  {
    if n >= 2 {
      FixedWordShape((n + 1) / 2);
      HighDoubles(FixedWord((n + 1) / 2));
    }
  }

  lemma {:induction false} FixedWordPrefix(m: nat, n: nat)
    requires m <= n
    ensures |FixedWord(n)| == n && FixedWord(n)[..m] == FixedWord(m)
    decreases n
  {
    FixedWordShape(n);
    FixedWordShape(m);
    if 0 < m < n {
      var i, k := (m + 1) / 2, (n + 1) / 2;
      var w := FixedWord(k);
      FixedWordShape(k);
      FixedWordShape(i);
      FixedWordPrefix(i, k);
      WidenPrefix(w, i);
      HighDoubles(FixedWord(i));
      if m == 1 {
        FirstOfWord(k);
      } else {
        TakeTake(Widen(w), |Widen(FixedWord(i))|, m, n);
      }
    }
  }

  lemma {:induction false} TakeTake(w: seq<byte>, i: nat, m: nat, n: nat)
    requires m <= i <= |w| && m <= n <= |w|
    ensures w[..n][..m] == w[..i][..m]
  {
  }

  lemma {:induction false} FirstOfWord(k: nat)
    requires k > 0
    ensures |FixedWord(k)| == k && FixedWord(k)[0] == 0xC3 && Widen(FixedWord(k))[0] == 0xC3
  {
    FixedWordShape(k);
    if k > 1 {
      FirstOfWord((k + 1) / 2);
    }
  }

  /** The word survives. */
  lemma {:induction false} FixedWordStays(n: nat)
    ensures |FixedWord(n)| == n && Widen(FixedWord(n))[..n] == FixedWord(n)
  {
    FixedWordShape(n);
    if n == 1 {
      FirstOfWord(1);
    } else if n > 1 {
      var k := (n + 1) / 2;
      var w, half := FixedWord(n), FixedWord(k);
      FixedWordPrefix(k, n);
      FixedWordShape(k);
      HighDoubles(half);
      WidenPrefix(w, k);
      TakeTake(Widen(w), |Widen(half)|, n, n);
    }
  }

  /** Nothing else that starts above 0x7F does. */
  lemma {:induction false} OnlyFixedWord(r: seq<byte>)
    requires r != [] && r[0] >= 0x80 && Widen(r)[..|r|] == r
    ensures r == FixedWord(|r|)
    decreases |r|
  {
    var n := |r|;
    FixedWordShape(n);
    assert Widen(r)[0] == r[0] && r[0] == 0xC3;
    if n > 1 {
      var k := (n + 1) / 2;
      WidenPrefix(r, k);
      var half := Widen(r[..k]);
      assert half[..k] == r[..k] by {
        TakeTake(Widen(r), |half|, k, n);
        assert Widen(r)[..n][..k] == r[..k] && Widen(r)[..|half|][..k] == half[..k];
      }
      OnlyFixedWord(r[..k]);
      FixedWordShape(k);
      HighDoubles(r[..k]);
      TakeTake(Widen(r), |half|, n, n);
    }
  }

  /** How many bytes come before the first above 0x7F. */
  function AsciiPart(b: seq<byte>): (k: nat)
    ensures k <= |b| && Ascii(b[..k]) && (k < |b| ==> b[k] >= 0x80)
  {
    if b == [] || b[0] >= 0x80 then 0
    else
      var k := 1 + AsciiPart(b[1..]);
      assert forall i :: 0 <= i < k ==> b[i] == if i == 0 then b[0] else b[1..][i - 1];
      k
  }

  lemma {:induction false} SurvivesIff(slice: seq<byte>, k: nat)
    requires k == AsciiPart(slice)
    ensures Widen(slice)[..|slice|] == slice <==> slice[k..] == FixedWord(|slice| - k)
  {
    var a, r := slice[..k], slice[k..];
    assert slice == a + r;
    WidenAppend(a, r);
    AsciiStays(a);
    assert Widen(slice)[..|slice|] == a + Widen(r)[..|r|];
    assert a + Widen(r)[..|r|] == slice <==> Widen(r)[..|r|] == r by {
      assert (a + Widen(r)[..|r|])[k..] == Widen(r)[..|r|];
    }
    if r != [] {
      if Widen(r)[..|r|] == r {
        OnlyFixedWord(r);
      }
      FixedWordStays(|r|);
    }
  }

  /** What a STRING slot comes back as. */
  lemma {:induction false} StringBack(f: IntField, slice: seq<byte>, old': seq<byte>)
    requires f.nativeType == TYPE_STRING && slice != [] && |slice| == |old'|
    ensures PackSlot(TYPE_STRING, old', ColumnText(DecodeField(f, slice))) == Widen(slice)[..|slice|]
  {
    WritesWidened(slice);
    assert DecodeField(f, slice) == Text(Latin1(slice));
    assert PadText(Widen(slice), |slice|, 32) == Widen(slice)[..|slice|];
  }

  /** A STRING slot comes back exactly when it is ASCII followed by a beginning of that one word. */
  lemma {:induction false} StringRoundTripIff(f: IntField, slice: seq<byte>, old': seq<byte>)
    requires f.nativeType == TYPE_STRING && slice != [] && |slice| == |old'|
    ensures var k := AsciiPart(slice);
            PackSlot(TYPE_STRING, old', ColumnText(DecodeField(f, slice))) == slice <==> slice[k..] == FixedWord(|slice| - k)
  {
    StringBack(f, slice, old');
    SurvivesIff(slice, AsciiPart(slice));
  }

  /** The word's first bytes, and a slot that is none of it. */
  lemma {:induction false} FixedWordStarts()
    ensures FixedWord(4) == [0xC3, 0x83, 0xC2, 0x83]
    ensures FixedWord(1) != [0xE9]
  {
    assert FixedWord(2) == [0xC3, 0x83] by {
      assert Widen([0xC3]) == [0xC3, 0x83] + Widen([]);
    }
    var two: seq<byte> := [0xC3, 0x83];
    assert two[1..] == [0x83];
    assert Widen(two) == [0xC3, 0x83] + Widen([0x83]);
    assert Widen([0x83]) == [0xC2, 0x83] + Widen([]);
  }
}
