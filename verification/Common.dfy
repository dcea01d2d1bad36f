/** The option and result shapes shared by every module. */
module Common {
  /** A 64-bit node id. Ids are only compared, so the width plays no part. */
  datatype Id = Id(number: nat)

  datatype Option<+T> = None | Some(value: T)

  datatype Result<+T, +E> = Ok(value: T) | Err(error: E)
}
