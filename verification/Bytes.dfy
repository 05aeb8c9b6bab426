/** Bytes, fixed-width unsigned integers and their little-endian encodings. */
module Bytes {
  type byte = x: int | 0 <= x < 0x100
  type u16 = x: int | 0 <= x < 0x1_0000
  type u32 = x: int | 0 <= x < 0x1_0000_0000
  type u64 = x: int | 0 <= x < 0x1_0000_0000_0000_0000

  type i8 = x: int | -0x80 <= x < 0x80
  type i16 = x: int | -0x8000 <= x < 0x8000
  type i32 = x: int | -0x8000_0000 <= x < 0x8000_0000
  type i64 = x: int | -0x8000_0000_0000_0000 <= x < 0x8000_0000_0000_0000

  /** The address of a device. */
  type MAC = m: seq<byte> | |m| == 6 witness [0, 0, 0, 0, 0, 0]

  datatype Option<+T> = None | Some(value: T)

  function Min(a: int, b: int): int {
    if a <= b then a else b
  }

  function Max(a: int, b: int): int {
    if a >= b then a else b
  }

  predicate NoDup<T(==)>(s: seq<T>) {
    forall i, j :: 0 <= i < j < |s| ==> s[i] != s[j]
  }

  /** A signed byte as it is stored, and back. */
  function U8(x: i8): byte {
    if x < 0 then x + 0x100 else x
  }

  function I8(b: byte): i8 {
    if b < 0x80 then b else b - 0x100
  }

  /** Bitwise AND of two bytes: no bit is set that was not set in both. */
  function And(a: byte, b: byte): (r: byte)
    ensures r <= a && r <= b
  {
    if a == 0 || b == 0 then 0 else (a % 2) * (b % 2) + 2 * And(a / 2, b / 2)
  }

  predicate AllOnes(a: byte) {
    a == 0 || (a % 2 == 1 && AllOnes(a / 2))
  }

  lemma {:induction false} AndOnes(a: byte, b: byte)
    requires AllOnes(a) && b <= a
    ensures And(a, b) == b
  {
    if a != 0 && b != 0 {
      AndOnes(a / 2, b / 2);
    }
  }

  /** Programming an erased byte stores what was meant. */
  lemma AndErased(b: byte)
    ensures And(0xff, b) == b
  {
    assert AllOnes(1) && AllOnes(3) && AllOnes(7) && AllOnes(15);
    assert AllOnes(31) && AllOnes(63) && AllOnes(127) && AllOnes(255);
    AndOnes(0xff, b);
  }

  function Power2(n: nat): (p: nat)
    ensures p > 0
  {
    if n == 0 then 1 else 2 * Power2(n - 1)
  }

  /** Bitwise exclusive-or of the low n bits. */
  function XorBits(a: nat, b: nat, n: nat): (r: nat)
    ensures r < Power2(n)
  {
    if n == 0 then 0 else (a + b) % 2 + 2 * XorBits(a / 2, b / 2, n - 1)
  }

  lemma EightBits()
    ensures Power2(8) == 0x100
  {
    assert Power2(2) == 4 && Power2(4) == 16 && Power2(6) == 64;
  }

  function Xor(a: byte, b: byte): byte {
    EightBits();
    XorBits(a, b, 8)
  }

  lemma {:induction false} XorTells(x: nat, a: nat, b: nat, n: nat)
    requires a < Power2(n) && b < Power2(n) && XorBits(x, a, n) == XorBits(x, b, n)
    ensures a == b
  {
    if n > 0 {
      var u, v := XorBits(x / 2, a / 2, n - 1), XorBits(x / 2, b / 2, n - 1);
      assert (x + a) % 2 + 2 * u == (x + b) % 2 + 2 * v && Power2(n) == 2 * Power2(n - 1);
      hide XorBits, Power2;
      SameBit(x, a, b, u, v);
      XorTells(x / 2, a / 2, b / 2, n - 1);
    }
  }

  lemma SameBit(x: nat, a: nat, b: nat, u: nat, v: nat)
    requires (x + a) % 2 + 2 * u == (x + b) % 2 + 2 * v
    ensures u == v && a % 2 == b % 2
  {
  }

  lemma {:induction false} XorBothWays(a: nat, b: nat, n: nat)
    ensures XorBits(a, b, n) == XorBits(b, a, n)
    ensures a < Power2(n) ==> XorBits(0, a, n) == a
  {
    if n > 0 {
      XorBothWays(a / 2, b / 2, n - 1);
    }
  }

  function LE16(x: u16): (b: seq<byte>)
    ensures |b| == 2
  {
    [x % 0x100, x / 0x100]
  }

  function Get16(b0: byte, b1: byte): u16 {
    b0 + 0x100 * b1
  }

  function LE32(x: u32): (b: seq<byte>)
    ensures |b| == 4
  {
    [x % 0x100, x / 0x100 % 0x100, x / 0x1_0000 % 0x100, x / 0x100_0000]
  }

  function Get32(b0: byte, b1: byte, b2: byte, b3: byte): u32 {
    b0 + 0x100 * b1 + 0x1_0000 * b2 + 0x100_0000 * b3
  }

  function LE64(x: u64): (b: seq<byte>)
    ensures |b| == 8
  {
    LE32(x % 0x1_0000_0000) + LE32(x / 0x1_0000_0000)
  }

  function Get64(lo: u32, hi: u32): u64 {
    lo + 0x1_0000_0000 * hi
  }

  lemma Get32OfLE32(x: u32)
    ensures var b := LE32(x); Get32(b[0], b[1], b[2], b[3]) == x
  {
    var q := x / 0x100;
    assert x / 0x1_0000 == q / 0x100;
    assert x / 0x100_0000 == q / 0x100 / 0x100;
  }

  lemma LE32OfGet32(b0: byte, b1: byte, b2: byte, b3: byte)
    ensures LE32(Get32(b0, b1, b2, b3)) == [b0, b1, b2, b3]
  {
    var x := Get32(b0, b1, b2, b3);
    assert x / 0x100 == b1 + 0x100 * b2 + 0x1_0000 * b3;
    assert x / 0x1_0000 == b2 + 0x100 * b3;
    assert x / 0x100_0000 == b3;
  }
}
