/** Minimum and maximum. */
module Extrema {

  function Min(x: int, y: int): int {
    if x <= y then x else y
  }

  function Max(x: int, y: int): int {
    if x >= y then x else y
  }

  function MinReal(x: real, y: real): real {
    if x <= y then x else y
  }

  function MaxReal(x: real, y: real): real {
    if x >= y then x else y
  }
}
