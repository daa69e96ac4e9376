/** Extremes, absolute value and timestamp scale. */
module Numbers {

  function Max(a: int, b: int): int {
    if a >= b then a else b
  }

  function Min(a: int, b: int): int {
    if a <= b then a else b
  }

  function MaxReal(x: real, y: real): real {
    if x >= y then x else y
  }

  function MinReal(x: real, y: real): real {
    if x <= y then x else y
  }

  function Abs(x: real): real {
    if x < 0.0 then -x else x
  }

  /** Seconds-scale timestamps count in milliseconds. */
  function EpochMs(raw: int): int {
    if raw < 10_000_000_000 then raw * 1000 else raw
  }
}
