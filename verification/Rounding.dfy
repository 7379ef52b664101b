/** The rounding functions of JavaScript's Math object on exact reals. */
module Rounding {

  predicate Whole(x: real) {
    x == x.Floor as real
  }

  /** Math.round: the nearest integer, halves up. */
  function Round(x: real): int {
    (x + 0.5).Floor
  }

  /** Math.ceil. */
  function Ceil(x: real): int {
    -((-x).Floor)
  }

  function Max(a: real, b: real): real {
    if a < b then b else a
  }

  function Min(a: real, b: real): real {
    if b < a then b else a
  }
}
