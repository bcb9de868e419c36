/** Maxima, minima and absolute values. */
module Numbers {

  function MaxInt(a: int, b: int): int {
    if a < b then b else a
  }

  function MaxReal(a: real, b: real): real {
    if a < b then b else a
  }

  function MinReal(a: real, b: real): real {
    if b < a then b else a
  }

  function AbsReal(x: real): real {
    if x < 0.0 then -x else x
  }
}
