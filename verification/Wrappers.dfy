// Result types for values that may be absent and for operations that may throw, and number limits.
module Wrappers {

  datatype Option<+T> = None | Some(value: T)

  datatype Result<+T, +E> = Ok(value: T) | Err(error: E)

  function Max(a: nat, b: nat): nat {
    if a < b then b else a
  }

  lemma Reassociated(a: string, b: string, c: string)
    ensures a + b + c == a + (b + c)
  {
  }

  // The largest integer up to which a double is exact.
  const MAX_SAFE_INTEGER: int := 9_007_199_254_740_991
}
