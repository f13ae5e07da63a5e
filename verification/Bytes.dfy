/** Machine bytes and the little-endian integers that SIFT streams are made of. */
module Bytes {

  type byte = x: int | 0 <= x < 0x100
  type u16 = x: int | 0 <= x < 0x1_0000
  type u32 = x: int | 0 <= x < 0x1_0000_0000
  type u64 = x: int | 0 <= x < TWO_TO_THE_64

  const TWO_TO_THE_64: int := 0x1_0000_0000_0000_0000
  const TWO_TO_THE_32: int := 0x1_0000_0000
  const TWO_TO_THE_16: int := 0x1_0000

  /** 256 to the power k. */
  ghost function Radix(k: nat): (p: nat)
    ensures p >= 1
  {
    if k == 0 then 1 else 256 * Radix(k - 1)
  }

  /** The k low-order bytes of n, least significant first. */
  function LE(n: nat, k: nat): (s: seq<byte>)
    ensures |s| == k
    decreases k, n
  {
    if k == 0 then [] else [n % 256] + LE(n / 256, k - 1)
  }

  /** The number that a little-endian byte sequence stands for. */
  function UnLE(s: seq<byte>): (n: nat)
  {
    if |s| == 0 then 0 else s[0] + 256 * UnLE(s[1..])
  }

  lemma {:induction false} UnLEBound(s: seq<byte>)
    ensures UnLE(s) < Radix(|s|)
  {
    if |s| > 0 { UnLEBound(s[1..]); }
  }

  lemma {:induction false} LERoundTrip(n: nat, k: nat)
    requires n < Radix(k)
    ensures UnLE(LE(n, k)) == n
    decreases k
  {
    if k > 0 {
      LERoundTrip(n / 256, k - 1);
      assert LE(n, k)[1..] == LE(n / 256, k - 1);
    }
  }

  lemma LEStep(n: nat, k: nat)
    requires k > 0
    ensures LE(n, k) == [n % 256] + LE(n / 256, k - 1)
  {
  }

  lemma {:induction false} LEZero(k: nat)
    ensures LE(0, k) == seq(k, _ => 0)
    decreases k
  {
    if k > 0 { LEZero(k - 1); }
  }

  lemma RadixValues()
    ensures Radix(1) == 0x100
    ensures Radix(2) == TWO_TO_THE_16
    ensures Radix(4) == TWO_TO_THE_32
    ensures Radix(8) == TWO_TO_THE_64
  {
    assert Radix(2) == 256 * Radix(1) && Radix(4) == 256 * 256 * Radix(2);
    assert Radix(6) == 256 * 256 * Radix(4) && Radix(8) == 256 * 256 * Radix(6);
  }

  function LE8(n: u64): (s: seq<byte>) { LE(n, 8) }
  function LE4(n: u32): (s: seq<byte>) { LE(n, 4) }
  function LE2(n: u16): (s: seq<byte>) { LE(n, 2) }

  function U64(s: seq<byte>): (n: u64)
    requires |s| == 8
  {
    UnLEBound(s);
    RadixValues();
    UnLE(s)
  }

  function U32(s: seq<byte>): (n: u32)
    requires |s| == 4
  {
    UnLEBound(s);
    RadixValues();
    UnLE(s)
  }

  function U16(s: seq<byte>): (n: u16)
    requires |s| == 2
  {
    UnLEBound(s);
    RadixValues();
    UnLE(s)
  }

  /** Reading back a written integer field gives the written value. */
  lemma FieldRoundTrip()
    ensures forall n: u64 {:trigger LE8(n)} :: |LE8(n)| == 8 && U64(LE8(n)) == n
    ensures forall n: u32 {:trigger LE4(n)} :: |LE4(n)| == 4 && U32(LE4(n)) == n
    ensures forall n: u16 {:trigger LE2(n)} :: |LE2(n)| == 2 && U16(LE2(n)) == n
  {
    RadixValues();
    forall n: u64 ensures U64(LE8(n)) == n { LERoundTrip(n, 8); }
    forall n: u32 ensures U32(LE4(n)) == n { LERoundTrip(n, 4); }
    forall n: u16 ensures U16(LE2(n)) == n { LERoundTrip(n, 2); }
  }

  /** Conversion of a 32-bit unsigned value to a signed `int`. */
  function Signed32(n: u32): (i: int)
    ensures -0x8000_0000 <= i < 0x8000_0000 && (i - n) % 0x1_0000_0000 == 0
  {
    if n < 0x8000_0000 then n else n - TWO_TO_THE_32
  }
}
