/** Value types and fixed-width arithmetic shared by the components. */
module Basics {

  datatype Option<+T> = None | Some(value: T)

  datatype Result<+T, +E> = Ok(value: T) | Err(error: E)

  /**
   * A 32-byte hash, as an identifier: definitions only compare hashes for equality. There are more than any filter
   * lists, so a proof that needs an unused one may take it.
   */
  type Hash = nat

  const U16_MAX: nat := 0xFFFF
  const U32_MAX: nat := 0xFFFF_FFFF
  const U64_MAX: nat := 0xFFFF_FFFF_FFFF_FFFF
  const U128_MAX: nat := 0xFFFF_FFFF_FFFF_FFFF_FFFF_FFFF_FFFF_FFFF
  const U256_MAX: nat := 0xFFFF_FFFF_FFFF_FFFF_FFFF_FFFF_FFFF_FFFF_FFFF_FFFF_FFFF_FFFF_FFFF_FFFF_FFFF_FFFF

  type U256 = n: nat | n <= U256_MAX

  type Byte = x: nat | x < 256
  type Bytes = seq<Byte>

  function Pow256(n: nat): nat {
    if n == 0 then 1 else 256 * Pow256(n - 1)
  }

  function Min(a: int, b: int): int {
    if a <= b then a else b
  }

  function Max(a: int, b: int): int {
    if a >= b then a else b
  }

  lemma ProductBound(a: nat, a': nat, b: nat, b': nat)
    requires a <= a' && b <= b'
    ensures a * b <= a' * b'
  {
    assert a * b <= a' * b;
    assert a' * b <= a' * b';
  }

  /** `as u32` */
  function Low32(n: nat): nat {
    n % 0x1_0000_0000
  }

  /** `saturating_add` on `U256`. */
  function SaturatingAdd(a: nat, b: nat): U256 {
    if a + b > U256_MAX then U256_MAX else a + b
  }

  /** `saturating_mul` on `U256`. */
  function SaturatingMul(a: nat, b: nat): U256 {
    if a * b > U256_MAX then U256_MAX else a * b
  }

  /** `saturating_sub` on any unsigned width. */
  function SaturatingSub(a: nat, b: nat): nat {
    if a >= b then a - b else 0
  }

  /** No value occurs twice. */
  predicate Distinct<T(==)>(s: seq<T>) {
    forall i, j :: 0 <= i < j < |s| ==> s[i] != s[j]
  }
}
