/** What several of the models need. */
module Basics {

  type byte = b: int | 0 <= b < 256

  function Pow2(n: nat): (p: nat)
    ensures p >= 1
  {
    if n == 0 then 1 else 2 * Pow2(n - 1)
  }

  // c | 0x20
  function Lower(c: nat): int { if c / 32 % 2 == 0 then c + 32 else c }

  // The value of a hexadecimal digit, or -1.
  function Hex(c: nat): (h: int)
    ensures -1 <= h < 16
  {
    if 48 <= c <= 57 then c - 48 else if 97 <= Lower(c) <= 102 then Lower(c) - 97 + 10 else -1
  }

  lemma Assoc<T>(a: seq<T>, b: seq<T>, c: seq<T>)
    ensures a + (b + c) == (a + b) + c
  {
  }

  lemma SubsetSize<T>(a: set<T>, b: set<T>)
    requires a <= b
    ensures |a| <= |b|
  {
    assert b == a + (b - a);
  }
}
