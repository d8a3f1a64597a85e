/** Types shared by every module of the model. */
module Prelude {

  datatype Option<+T> = None | Some(value: T)

  datatype Result<+T, +E> = Ok(value: T) | Err(error: E)

  /** Bytes are small integers, so that arithmetic on them is ordinary arithmetic. */
  type byte = x: int | 0 <= x < 256

  type Bytes = seq<byte>

  /** Reading a Go map of byte slices: a missing key reads as the empty slice. */
  function Lookup(data: map<string, Bytes>, key: string): Bytes {
    if key in data then data[key] else []
  }
}
