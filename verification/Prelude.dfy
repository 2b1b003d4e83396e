/** Result wrappers and machine-word bounds shared by the models. */
module Prelude {

  /** The largest value of the source's unsigned 64-bit integers. */
  const U64_MAX: int := 0xFFFF_FFFF_FFFF_FFFF

  type u64 = x: int | 0 <= x <= 0xFFFF_FFFF_FFFF_FFFF

  datatype Option<+T> = None | Some(value: T)

  datatype Result<+T, +E> = Ok(value: T) | Err(error: E)
}
