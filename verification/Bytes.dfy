/** Bytes and little-endian integers. */
module Bytes {

  type byte = x: int | 0 <= x < 256

  /** The low `n` bytes of `v` in two's complement, least significant first. */
  function LeBytes(v: int, n: nat): (r: seq<byte>)
    ensures |r| == n
    decreases n
  {
    if n == 0 then [] else [v % 256] + LeBytes(v / 256, n - 1)
  }

  /** The unsigned number the bytes denote. */
  function LeNat(b: seq<byte>): nat {
    if b == [] then 0 else b[0] + 256 * LeNat(b[1..])
  }

  /** Two bytes, the low one first. */
  function TwoBytes(b: seq<byte>, at: nat): nat
    requires at + 2 <= |b|
  {
    b[at] as int + 256 * b[at + 1] as int
  }

  function Pow256(n: nat): (p: nat)
    ensures p >= 1 && (n >= 1 ==> p % 2 == 0)
  {
    if n == 0 then 1 else 256 * Pow256(n - 1)
  }

  /** The signed number the bytes denote. */
  function LeInt(b: seq<byte>): int {
    if b != [] && 2 * LeNat(b) >= Pow256(|b|) then LeNat(b) - Pow256(|b|) else LeNat(b)
  }

  lemma {:induction false} LeNatBound(b: seq<byte>)
    ensures LeNat(b) < Pow256(|b|)
  {
    if b != [] {
      LeNatBound(b[1..]);
    }
  }

  lemma {:induction false} LeBytesOfNat(b: seq<byte>)
    ensures LeBytes(LeNat(b), |b|) == b
  {
    if b != [] {
      LeBytesOfNat(b[1..]);
      assert LeNat(b) % 256 == b[0] && LeNat(b) / 256 == LeNat(b[1..]);
      assert b == [b[0]] + b[1..];
    }
  }

  /** Only the value modulo 256^n matters. */
  lemma {:induction false} LeBytesWraps(v: int, n: nat)
    ensures LeBytes(v - Pow256(n), n) == LeBytes(v, n)
    decreases n
  {
    if n > 0 {
      LeBytesWraps(v / 256, n - 1);
      var p := Pow256(n - 1);
      assert (v - 256 * p) / 256 == v / 256 - p && (v - 256 * p) % 256 == v % 256;
    }
  }

  lemma {:induction false} LeBytesOfInt(b: seq<byte>)
    ensures LeBytes(LeInt(b), |b|) == b
  {
    LeBytesOfNat(b);
    if LeInt(b) != LeNat(b) {
      LeBytesWraps(LeNat(b), |b|);
      assert LeInt(b) == LeNat(b) - Pow256(|b|);
    }
  }

  lemma {:induction false} LeBytesPrefix(v: int, n: nat, k: nat)
    requires k <= n
    ensures LeBytes(v, n)[..k] == LeBytes(v, k)
    decreases n
  {
    if k > 0 {
      LeBytesPrefix(v / 256, n - 1, k - 1);
      assert LeBytes(v, n)[..k] == [v % 256] + LeBytes(v / 256, n - 1)[..k - 1];
    }
  }

  lemma {:induction false} LeNatOfBytes(v: nat, n: nat)
    requires v < Pow256(n)
    ensures LeNat(LeBytes(v, n)) == v
  {
    if n > 0 {
      LeNatOfBytes(v / 256, n - 1);
      assert LeBytes(v, n)[1..] == LeBytes(v / 256, n - 1);
    }
  }

  lemma {:induction false} LeIntOfBytes(v: int, n: nat)
    requires n >= 1 && -2 * v <= Pow256(n) && 2 * v < Pow256(n)
    ensures LeInt(LeBytes(v, n)) == v
  {
    if v >= 0 {
      LeNatOfBytes(v, n);
    } else {
      LeBytesWraps(v + Pow256(n), n);
      LeNatOfBytes(v + Pow256(n), n);
    }
  }

  lemma {:induction false} LeNatTwo(b: seq<byte>)
    requires |b| == 2
    ensures LeNat(b) == b[0] as int + 256 * b[1] as int
  {
    assert LeNat(b[1..][1..]) == 0;
    assert LeNat(b[1..]) == b[1] as int + 256 * LeNat(b[1..][1..]);
  }

  lemma {:induction false} LeNatFour(b: seq<byte>)
    requires |b| == 4
    ensures LeNat(b) == b[0] as int + 256 * b[1] as int + 0x1_0000 * b[2] as int + 0x100_0000 * b[3] as int
  {
    LeNatTwo(b[2..]);
    assert b[1..][1..] == b[2..];
    assert LeNat(b[1..]) == b[1] as int + 256 * LeNat(b[2..]);
  }
}
