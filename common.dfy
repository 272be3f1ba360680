/** Failure-carrying results shared by the three decoders (Rust's `Option` and `Result`). */
module Results {
  datatype Option<T> = None | Some(value: T)

  datatype Result<T, E> = Ok(value: T) | Err(error: E)
}

/** Octets as the COBS and OFLOW layers see them: plain numbers, so lengths and sums stay arithmetic. */
module Bytes {
  type byte = b: int | 0 <= b < 0x100
}
