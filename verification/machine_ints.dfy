/**
 The C integer types as subset types. Every variable, parameter and array cell of such a type is range
 checked, so a method that verifies performs no wrapping arithmetic except where a cast is written out.
 */
module MachineInts {
  type int16 = x: int | -0x8000 <= x < 0x8000
  type int32 = x: int | -0x8000_0000 <= x < 0x8000_0000
  type int64 = x: int | -0x8000_0000_0000_0000 <= x < 0x8000_0000_0000_0000
  type uint8 = x: int | 0 <= x < 0x100
  type uint16 = x: int | 0 <= x < 0x1_0000
  type uint32 = x: int | 0 <= x < 0x1_0000_0000

  /** The cast to a 16-bit signed integer. */
  function ToInt16(x: int): (r: int16)
    ensures (r - x) % 0x1_0000 == 0
  {
    var u := x % 0x1_0000;
    if u < 0x8000 then u else u - 0x1_0000
  }

  /** The cast to a 32-bit signed integer. */
  function ToInt32(x: int): (r: int32)
    ensures (r - x) % 0x1_0000_0000 == 0
  {
    var u := x % 0x1_0000_0000;
    if u < 0x8000_0000 then u else u - 0x1_0000_0000
  }

  predicate Small(x: int, bound: int)
  {
    -bound < x < bound
  }

  /** The entries of s from lo up to hi are smaller than the bound in magnitude. */
  ghost predicate Bounded(s: seq<int>, lo: int, hi: int, bound: int)
  {
    forall i :: lo <= i < hi && 0 <= i < |s| ==> Small(s[i], bound)
  }

  lemma ProductLe(a: int, b: int, c: int)
    requires a <= b && 0 <= c
    ensures a * c <= b * c
  {
    assert b * c - a * c == (b - a) * c >= 0;
  }

  /** The magnitude of a product is at most the product of the bounds. */
  lemma ProductBound(a: int, b: int, m: int, n: int)
    requires -m <= a <= m && -n <= b <= n
    ensures -(m * n) <= a * b <= m * n
  {
    var c := if b >= 0 then b else -b;
    ProductLe(a, m, c);
    ProductLe(-m, a, c);
    ProductLe(c, n, m);
    assert -m * c == -(m * c) && c * m == m * c && n * m == m * n;
    if b < 0 {
      assert a * b == -(a * c);
    }
  }
}
