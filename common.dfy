/** Small shared vocabulary: optional values, results with an error, and integer minimum/maximum. */
module Common {

  datatype Option<+T> = None | Some(value: T)

  /** The outcome of an operation that the original code can abort by throwing. */
  datatype Result<+T, +E> = Ok(value: T) | Err(error: E)

  /** `Math.min` on integers. */
  function Min(a: int, b: int): (r: int)
    ensures r <= a && r <= b
    ensures r == a || r == b
  {
    if a <= b then a else b
  }

  /** `Math.max` on integers. */
  function Max(a: int, b: int): (r: int)
    ensures r >= a && r >= b
    ensures r == a || r == b
  {
    if a >= b then a else b
  }
}
