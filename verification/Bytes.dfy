/** Big-endian fields and the exclusive-or of unsigned numbers, as encoding/binary and the operators of
  the source compute them. */
module Bytes {

  type byte = x: int | 0 <= x < 256

  type bytes = seq<byte>

  function U16(n: nat): (b: bytes)
    requires n < 0x1_0000
    ensures |b| == 2
  {
    [n / 0x100, n % 0x100]
  }

  function U32(n: nat): (b: bytes)
    requires n < 0x1_0000_0000
    ensures |b| == 4
  {
    U16(n / 0x1_0000) + U16(n % 0x1_0000)
  }

  function U64(n: nat): bytes
    requires n < 0x1_0000_0000_0000_0000
  {
    U32(n / 0x1_0000_0000) + U32(n % 0x1_0000_0000)
  }

  function GetU16(b: bytes): (n: nat)
    requires |b| >= 2
    ensures n < 0x1_0000
  {
    b[0] as int * 0x100 + b[1] as int
  }

  function GetU32(b: bytes): (n: nat)
    requires |b| >= 4
    ensures n < 0x1_0000_0000
  {
    GetU16(b) * 0x1_0000 + GetU16(b[2..])
  }

  function GetU64(b: bytes): (n: nat)
    requires |b| >= 8
    ensures n < 0x1_0000_0000_0000_0000
  {
    GetU32(b) * 0x1_0000_0000 + GetU32(b[4..])
  }

  /** The highest byte comes first. */
  lemma HighestFirst(m: nat, n: nat)
    requires m < 65536 && n < 4294967296
    ensures U16(m)[0] as int * 256 + U16(m)[1] == m
    ensures U32(n)[0] as int * 16777216 + U32(n)[1] as int * 65536 + U32(n)[2] as int * 256 + U32(n)[3] == n
  {
  }

  lemma U32RoundTrip(n: nat, rest: bytes)
    requires n < 0x1_0000_0000
    ensures GetU32(U32(n) + rest) == n
  {
    assert (U32(n) + rest)[2..][0] == n % 0x1_0000 / 0x100;
    assert (U32(n) + rest)[2..][1] == n % 0x1_0000 % 0x100;
  }

  lemma U64RoundTrip(n: nat)
    requires n < 0x1_0000_0000_0000_0000
    ensures |U64(n)| == 8 && GetU64(U64(n)) == n
  {
    U32RoundTrip(n / 0x1_0000_0000, U32(n % 0x1_0000_0000));
    U32RoundTrip(n % 0x1_0000_0000, []);
    assert U64(n)[4..] == U32(n % 0x1_0000_0000) + [];
  }

  /** Exclusive-or of the binary representations of a and b. */
  function Xor(a: nat, b: nat): nat
    decreases a + b
  {
    if a == 0 && b == 0 then 0
    else (if a % 2 == b % 2 then 0 else 1) + 2 * Xor(a / 2, b / 2)
  }

  lemma {:induction false} XorCancels(a: nat, b: nat)
    ensures Xor(Xor(a, b), b) == a
    decreases a + b
  {
    if a != 0 || b != 0 {
      XorCancels(a / 2, b / 2);
      var x := Xor(a, b);
      assert x % 2 == (if a % 2 == b % 2 then 0 else 1) && x / 2 == Xor(a / 2, b / 2);
    }
  }

  function Pow2(bits: nat): (p: nat)
    ensures p > 0
  {
    if bits == 0 then 1 else 2 * Pow2(bits - 1)
  }

  lemma {:induction false} XorBound(a: nat, b: nat, bits: nat)
    requires a < Pow2(bits) && b < Pow2(bits)
    ensures Xor(a, b) < Pow2(bits)
    decreases bits
  {
    if bits > 0 {
      XorBound(a / 2, b / 2, bits - 1);
    }
  }
}
