/** The few types and functions that several parts of the model share. */
module Common {
  datatype Option<+T> = None | Some(value: T)

  datatype Result<+T> = Ok(value: T) | Err

  type byte = x: int | 0 <= x < 256

  function Min(a: int, b: int): int { if a < b then a else b }
}
