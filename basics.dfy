/** Small value types shared by the three analyzer variants. */
module Basics {

  /** An optional value; stands for Python's `Optional[...]` and `None`. */
  datatype Option<+T> = None | Some(value: T)

  /** The outcome of a step that can raise Python's `ValueError` (a payload that is not hexadecimal). */
  datatype Result<+T> = Ok(value: T) | ValueError(input: string)

  function Min(a: int, b: int): (m: int)
    ensures m <= a && m <= b && (m == a || m == b)
  {
    if a <= b then a else b
  }

  function Max(a: int, b: int): (m: int)
    ensures m >= a && m >= b && (m == a || m == b)
  {
    if a >= b then a else b
  }

  /** Python's `max` of two numbers, as exact reals. */
  function RMax(a: real, b: real): (m: real)
    ensures m >= a && m >= b && (m == a || m == b)
  {
    if a >= b then a else b
  }

  /** Python's `abs` on integers. */
  function Abs(x: int): (r: nat)
    ensures r == x || r == -x
  {
    if x < 0 then -x else x
  }

  /** Python's `s[:k]`: a negative `k` counts from the end, and the bound is clipped to the sequence. */
  function PyPrefix<T>(s: seq<T>, k: int): (r: seq<T>)
    ensures 0 <= k ==> |r| == Min(k, |s|)
    ensures k < 0 ==> |r| == Max(|s| + k, 0)
    ensures r == s[..|r|]
  {
    if k >= 0 then s[..Min(k, |s|)] else s[..Max(|s| + k, 0)]
  }

  /** A share of at least half and at most all lies in [0.5, 1.0]. */
  lemma RatioBounds(k: int, n: int)
    requires n > 0 && 2 * k >= n && k <= n
    ensures 0.5 <= k as real / n as real <= 1.0
  {
    var kr, nr := k as real, n as real;
    var q := kr / nr;
    assert q * nr == kr;
    assert (q - 0.5) * nr == kr - 0.5 * nr;
    NonNegativeFactor(q - 0.5, nr);
    assert (1.0 - q) * nr == nr - kr;
    NonNegativeFactor(1.0 - q, nr);
  }

  /** A product with a positive factor is non-negative only when the other factor is. */
  lemma NonNegativeFactor(x: real, c: real)
    requires c > 0.0 && x * c >= 0.0
    ensures x >= 0.0
  {
  }

  /** An exact ratio of counts is 1 exactly when the counts agree. */
  lemma RatioIsOne(a: int, n: int)
    requires n > 0
    ensures a as real / n as real == 1.0 <==> a == n
  {
    var ar, nr := a as real, n as real;
    var q := ar / nr;
    assert q * nr == ar;
    if a == n {
      assert (q - 1.0) * nr == 0.0 && (1.0 - q) * nr == 0.0;
      NonNegativeFactor(q - 1.0, nr);
      NonNegativeFactor(1.0 - q, nr);
    }
  }

  /** Growing a slice of `ms` by one element appends that element after any prefix. */
  lemma SnocSlice<T>(prefix: seq<T>, ms: seq<T>, j: nat)
    requires j < |ms|
    ensures prefix + ms[..j + 1] == (prefix + ms[..j]) + [ms[j]]
  {
    assert ms[..j + 1] == ms[..j] + [ms[j]];
  }
}
