/** What several modules share: optional values, extremes, and integers of fixed width. */
module Basics {
  datatype Option<+T> = None | Some(value: T)

  const TWO32: int := 0x1_0000_0000
  const TWO64: int := 0x1_0000_0000_0000_0000
  const INT_MAX: int := 0x7fff_ffff

  function Min(a: int, b: int): (m: int) {
    if a < b then a else b
  }

  function Max(a: int, b: int): (m: int) {
    if a < b then b else a
  }

  /** The value kept by an unsigned variable of 32 bits. */
  function U32(x: int): (r: int)
    ensures 0 <= r < TWO32
    ensures 0 <= x < TWO32 ==> r == x
  {
    x % TWO32
  }

  function U64(x: int): (r: int)
    ensures 0 <= r < TWO64
    ensures 0 <= x < TWO64 ==> r == x
  {
    x % TWO64
  }

  /** The value kept by a signed variable of 32 bits. */
  function S32(x: int): (r: int)
    ensures -INT_MAX - 1 <= r <= INT_MAX
    ensures -INT_MAX - 1 <= x <= INT_MAX ==> r == x
  {
    (x + INT_MAX + 1) % TWO32 - INT_MAX - 1
  }

  lemma MulLe(d: int, x: int, y: int)
    requires d >= 0 && x <= y
    ensures d * x <= d * y
  {
  }

  lemma DivBetween(x: int, d: int)
    requires d > 0
    ensures d * (x / d) <= x < d * (x / d) + d
  {
  }

  /** A number below `(m + 1) * d` goes at most `m` times into `d`. */
  lemma QuotientAtMost(x: int, m: int, d: int)
    requires 0 <= x < m * d + d && d > 0
    ensures 0 <= x / d <= m
  {
    DivBetween(x, d);
    var q := x / d;
    if q > m {
      MulLe(d, m + 1, q);
    } else if q < 0 {
      MulLe(d, q, -1);
    }
  }
}
