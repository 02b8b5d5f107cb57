/** Vocabulary shared by the other modules: optional values, results, bytes and the fixed-width
    limits of the integer types that the engine is written with. */
module Common {

  datatype Option<+T> = None | Some(value: T)

  datatype Result<+T, +E> = Ok(value: T) | Err(error: E)

  /** A budget of operations that may still succeed, or of looks at a stop token before a stop is seen; without
      one, nothing fails and nothing stops. */
  type Budget = Option<nat>

  predicate Spent(budget: Budget) {
    budget == Some(0)
  }

  function OneLess(budget: Budget): (left: Budget)
    ensures budget == None ==> left == None
  {
    if budget.Some? && budget.value > 0 then Some(budget.value - 1) else budget
  }

  newtype Byte = b: int | 0 <= b < 256

  type Bytes = seq<Byte>

  const MAX_UINT64: nat := 0xFFFF_FFFF_FFFF_FFFF
  const MAX_INT64: int := 0x7FFF_FFFF_FFFF_FFFF
  const MIN_INT64: int := -0x8000_0000_0000_0000
}
