/** Fixed-width little-endian numbers, as binary.LittleEndian puts and reads them. */
module Bytes {

  type byte = x: int | 0 <= x < 0x100
  type u16 = x: int | 0 <= x < 0x1_0000
  type u32 = x: int | 0 <= x < 0x1_0000_0000
  type u64 = x: int | 0 <= x < 0x1_0000_0000_0000_0000
  type i64 = x: int | -0x8000_0000_0000_0000 <= x < 0x8000_0000_0000_0000

  const TWO64 := 0x1_0000_0000_0000_0000

  /** 256 to the power k. */
  function Span(k: nat): (p: nat)
    ensures p > 0
  {
    if k == 0 then 1 else 256 * Span(k - 1)
  }

  /** The k low bytes of n, lowest first. */
  function LE(n: nat, k: nat): (s: seq<byte>)
    ensures |s| == k
  {
    if k == 0 then [] else [n % 256] + LE(n / 256, k - 1)
  }

  function FromLE(s: seq<byte>): nat {
    if s == [] then 0 else s[0] + 256 * FromLE(s[1..])
  }

  lemma {:induction false} ReadBack(n: nat, k: nat)
    requires n < Span(k)
    ensures FromLE(LE(n, k)) == n
  {
    if k > 0 {
      ReadBack(n / 256, k - 1);
      assert LE(n, k)[1..] == LE(n / 256, k - 1);
    }
  }

  lemma {:induction false} WriteBack(s: seq<byte>)
    ensures FromLE(s) < Span(|s|)
    ensures LE(FromLE(s), |s|) == s
  {
    if s != [] {
      WriteBack(s[1..]);
      assert FromLE(s) % 256 == s[0] && FromLE(s) / 256 == FromLE(s[1..]);
    }
  }

  /** The lowest byte comes first: what follows k bytes counts 256 to the power k. */
  lemma {:induction false} LowFirst(a: seq<byte>, b: seq<byte>)
    ensures FromLE(a + b) == FromLE(a) + Span(|a|) * FromLE(b)
    ensures |a| == 1 ==> FromLE(a) == a[0]
  {
    if a == [] {
      assert a + b == b;
    } else {
      LowFirst(a[1..], b);
      assert (a + b)[1..] == a[1..] + b;
      assert 256 * (Span(|a| - 1) * FromLE(b)) == 256 * Span(|a| - 1) * FromLE(b);
    }
  }

  lemma Spans()
    ensures Span(2) == 0x1_0000 && Span(4) == 0x1_0000_0000 && Span(8) == TWO64
  {
    assert Span(3) == 0x100_0000;
    assert Span(4) == 0x1_0000_0000;
    assert Span(6) == 0x1_0000_0000_0000;
  }

  /** Two's complement, both ways. */
  function Unsigned(x: i64): u64 {
    if x < 0 then x + TWO64 else x
  }

  function Signed(x: u64): i64 {
    if x < 0x8000_0000_0000_0000 then x else x - TWO64
  }
}
