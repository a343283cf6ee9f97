/** Outcomes of the codec's operations. The source reports errors as plain
    strings; here each message becomes one constructor of `Error`, and a
    slice index out of bounds (a Rust panic) becomes `Panics`. */
module Results {
  import opened Bytes

  datatype Error =
    | WrongTagLength                    // "A chunk should be 4 bytes"
    | InvalidByte(byte: u8)             // "Tried to parse an invalid byte: …"
    | TooShort                          // "To short"
    | CrcMismatch(expected: u32, got: u32)  // "CRC mismatch: expected …, got …"
    | InvalidHeader                     // "Invalid PNG header"
    | LengthExceedsData                 // "Chunk length exceeds remaining data"
    | ChunkNotFound(tag: seq<u8>)       // "Chunk with type … not found"

  datatype Option<+T> = None | Some(value: T)

  /** Rust's `Result<T, Error>`. */
  datatype Result<+T> = Ok(value: T) | Err(error: Error)

  /** What a call does: it returns a `Result`, or it panics. */
  datatype Outcome<+T> = Returns(result: Result<T>) | Panics
  {
    predicate IsOk() { Returns? && result.Ok? }
  }
}
