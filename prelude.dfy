/** Small definitions shared by the server and the client models. */
module Prelude {

  /** Rust's `Option<T>`. */
  datatype Option<+T> = None | Some(value: T)

  /** One byte of a file or of a request body. */
  newtype byte = x: int | 0 <= x < 256

  type Bytes = seq<byte>
}
