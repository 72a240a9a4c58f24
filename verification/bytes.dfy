/** Fixed-width integers and their little-endian byte encodings, as used by
    the account layout (Borsh) and by `u64::to_le_bytes` in the address seeds. */
module Bytes {

  const TWO_TO_THE_8: int := 0x100
  const TWO_TO_THE_63: int := 0x8000_0000_0000_0000
  const TWO_TO_THE_64: int := 0x1_0000_0000_0000_0000

  const U64_MAX: int := TWO_TO_THE_64 - 1

  type u8 = x: int | 0 <= x < TWO_TO_THE_8
  type Byte = u8
  type u64 = x: int | 0 <= x < TWO_TO_THE_64
  type i64 = x: int | -TWO_TO_THE_63 <= x < TWO_TO_THE_63

  /** 256 to the power n: the number of distinct n-byte strings. */
  function Pow256(n: nat): (p: nat)
    ensures p >= 1
  {
    if n == 0 then 1 else 256 * Pow256(n - 1)
  }

  /** The n least significant bytes of x, least significant first. */
  function ToLe(x: nat, n: nat): (s: seq<Byte>)
    ensures |s| == n
  {
    if n == 0 then [] else [x % 256] + ToLe(x / 256, n - 1)
  }

  /** The number whose little-endian bytes are s. */
  function FromLe(s: seq<Byte>): (x: nat)
    ensures x < Pow256(|s|)
  {
    if |s| == 0 then 0 else s[0] + 256 * FromLe(s[1..])
  }

  lemma {:induction false} FromLeToLe(x: nat, n: nat)
    requires x < Pow256(n)
    ensures FromLe(ToLe(x, n)) == x
  {
    if n > 0 {
      var s := ToLe(x, n);
      assert s[1..] == ToLe(x / 256, n - 1);
      FromLeToLe(x / 256, n - 1);
    }
  }

  lemma {:induction false} ToLeFromLe(s: seq<Byte>)
    ensures ToLe(FromLe(s), |s|) == s
  {
    if |s| > 0 {
      var x := FromLe(s);
      assert x % 256 == s[0] && x / 256 == FromLe(s[1..]);
      ToLeFromLe(s[1..]);
    }
  }

  lemma Pow256Eight()
    ensures Pow256(8) == TWO_TO_THE_64
  {
  }

  /** `u64::to_le_bytes`. */
  function U64ToLe(x: u64): (s: seq<Byte>)
    ensures |s| == 8
    ensures FromLe(s) == x
  {
    Pow256Eight();
    FromLeToLe(x, 8);
    ToLe(x, 8)
  }

  /** `u64::from_le_bytes`. */
  function U64FromLe(s: seq<Byte>): (x: u64)
    requires |s| == 8
    ensures U64ToLe(x) == s
  {
    Pow256Eight();
    ToLeFromLe(s);
    FromLe(s)
  }

  /** The 8-byte encoding of a u64 is one-to-one: distinct ids give distinct seeds. */
  lemma U64ToLeInjective(x: u64, y: u64)
    ensures U64ToLe(x) == U64ToLe(y) <==> x == y
  {
  }

  /** Two's complement: the unsigned 64-bit pattern of a signed value. */
  function I64Bits(x: i64): (u: u64)
    ensures x >= 0 ==> u == x
    ensures x < 0 ==> u >= TWO_TO_THE_63
  {
    if x < 0 then x + TWO_TO_THE_64 else x
  }

  /** `i64::to_le_bytes`. */
  function I64ToLe(x: i64): (s: seq<Byte>)
    ensures |s| == 8
  {
    U64ToLe(I64Bits(x))
  }

  /** `i64::from_le_bytes`. */
  function I64FromLe(s: seq<Byte>): (x: i64)
    requires |s| == 8
    ensures I64ToLe(x) == s
  {
    var u := U64FromLe(s);
    if u >= TWO_TO_THE_63 then u - TWO_TO_THE_64 else u
  }

  lemma I64RoundTrip(x: i64)
    ensures I64FromLe(I64ToLe(x)) == x
  {
  }
}
