/** The smaller and the larger of some reals. */
module Reals {
  function Min(a: real, b: real): real {
    if a <= b then a else b
  }

  function Max(a: real, b: real): real {
    if a >= b then a else b
  }

  /** x is the smallest of five. */
  ghost predicate Smallest(x: real, a: real, b: real, c: real, d: real, e: real) {
    x <= a && x <= b && x <= c && x <= d && x <= e && (x == a || x == b || x == c || x == d || x == e)
  }

  /** x is the largest of four. */
  ghost predicate Largest(x: real, a: real, b: real, c: real, d: real) {
    x >= a && x >= b && x >= c && x >= d && (x == a || x == b || x == c || x == d)
  }
}
