/** Bytes, fixed-width integers and the little-endian loads the on-disk structures use. */
module Bytes {

  type Byte = b: nat | b < 0x100
  type U16 = x: nat | x < 0x1_0000
  type U32 = x: nat | x < 0x1_0000_0000
  type U64 = x: nat | x < 0x1_0000_0000_0000_0000

  const U16_MAX: nat := 0xFFFF
  const U32_MAX: nat := 0xFFFF_FFFF
  const U64_MAX: nat := 0xFFFF_FFFF_FFFF_FFFF

  datatype Option<+T> = None | Some(value: T)

  function Min(a: nat, b: nat): nat {
    if a <= b then a else b
  }

  /** `a * b` by repeated addition. The specifications use it so that proofs keep products symbolic. */
  function Times(a: nat, b: nat): nat {
    if a == 0 then 0 else b + Times(a - 1, b)
  }

  lemma {:induction false} TimesIsProduct(a: nat, b: nat)
    ensures Times(a, b) == a * b
  {
    if a > 0 {
      TimesIsProduct(a - 1, b);
      assert (a - 1) * b + b == a * b;
    }
  }

  lemma TimesAdd(a: nat, b: nat, c: nat)
    ensures Times(a + b, c) == Times(a, c) + Times(b, c)
  {
    if a > 0 {
      TimesAdd(a - 1, b, c);
    }
  }

  lemma {:induction false} TimesScale(a: nat, b: nat, k: nat)
    ensures Times(a, b * k) == Times(a, b) * k
  {
    if a > 0 {
      TimesScale(a - 1, b, k);
      assert (b + Times(a - 1, b)) * k == b * k + Times(a - 1, b) * k;
    }
  }

  /** Little-endian 16-bit load. */
  function Load16(s: seq<Byte>, at: nat): U16
    requires at + 2 <= |s|
  {
    var low: nat, high: nat := s[at], s[at + 1];
    low + 0x100 * high
  }

  /** Little-endian 32-bit load. */
  function Load32(s: seq<Byte>, at: nat): U32
    requires at + 4 <= |s|
  {
    var low: nat, high: nat := Load16(s, at), Load16(s, at + 2);
    low + 0x1_0000 * high
  }

  /** Little-endian 64-bit load. */
  function Load64(s: seq<Byte>, at: nat): U64
    requires at + 8 <= |s|
  {
    var low: nat, high: nat := Load32(s, at), Load32(s, at + 4);
    low + 0x1_0000_0000 * high
  }

  function Store16(x: U16): (r: seq<Byte>)
    ensures |r| == 2
  {
    [x % 0x100, x / 0x100]
  }

  function Store32(x: U32): (r: seq<Byte>)
    ensures |r| == 4
  {
    Store16(x % 0x1_0000) + Store16(x / 0x1_0000)
  }

  /** Bitwise conjunction of unsigned integers, one bit at a time. */
  function BitAnd(a: nat, b: nat): nat
    decreases a
  {
    if a == 0 || b == 0 then 0
    else (if a % 2 == 1 && b % 2 == 1 then 1 else 0) + 2 * BitAnd(a / 2, b / 2)
  }

  /** `n << k` on unbounded naturals. */
  function ShiftLeft(n: nat, k: nat): nat
  {
    if k == 0 then n else 2 * ShiftLeft(n, k - 1)
  }
}
