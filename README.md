# pngsm chunk codec, modelled in Dafny

This project models the core of `pngsm`, a small tool that hides messages in
PNG files. The core is a codec for the PNG container. It parses a byte
buffer into chunks, edits the chunk list by type, and serialises the result
back. It has three layers:

- `ChunkTypes` (`chunk_type.dfy`): the 4-byte chunk type. It has the four
  bit-5 property flags of section 5.4 of the PNG specification (ISO/IEC
  15948:2003), `is_valid`, and construction from a string or a 4-byte array.
- `Chunks` (`chunk.dfy`): one chunk record, laid out as in section 5.3 of the
  PNG specification. The model covers `new`, `length()`, `as_bytes` and
  `try_from`.
- `PngFile` (`png.dfy`): the `Png` class. It holds the 8-byte signature
  (section 5.2) and a chunk list that its methods update in place. It has
  append, remove-first, find-by-type, whole-file serialisation, and the
  parse loop.

Supporting modules:

- `Bytes` (`bytes.dfy`): `u8` and `u32`, and big-endian u32 encoding and
  decoding with both round-trip lemmas.
- `Results` (`results.dfy`): the error kinds. The source's error strings
  become one constructor each. `Outcome` separates an error return from a
  panic.
- `Crc` (`crc.dfy`): CRC-32 as section 5.5 of the PNG specification defines
  it. It uses the reflected polynomial 0xEDB88320, and the register starts
  at and is finally XORed with 0xFFFFFFFF. A lemma proves the catalogue
  check value `CRC("123456789") = 0xCBF43926`.

Modelling choices:

- Rust panics from out-of-range slice indexing are the explicit outcome
  `Panics`, kept apart from `Returns(Err(..))`. This covers:
  - `Png::try_from` on fewer than 8 bytes;
  - a buffer left with 1 to 3 bytes after a chunk;
  - `Chunk::try_from` called directly on a slice shorter than its declared
    length.
- `Chunk::try_from` rejects a chunk type with a non-letter byte
  (`src/chunk.rs:84` calls `ChunkType::try_from`). A lenient parser that
  accepts any 4 bytes was also conceivable. The model follows the code.
- Short or truncated input does not always produce an error: in the cases
  listed under the first choice, the code panics. The model follows the code
  there too.
- `Chunk::new` and `Chunk::length` cast the payload size with `as u32`. The
  model writes this truncation out as `% 2^32` instead of adding a
  precondition.
- `is_valid` checks the reserved bit once per byte inside its loop. Its
  contract shows that this equals the single conjunction "all letters and
  reserved bit valid".
- Strings are their UTF-8 bytes: `from_str` tests `s.len()`, which is a byte
  length, and walks `s.bytes()`.
- The accessors `ChunkType::bytes`, `Chunk::chunk_type`, `Chunk::data`,
  `Chunk::crc`, `Png::header` and `Png::chunks` only return a field. They
  are the fields of the Dafny datatypes and class.
- `Chunk::calculate_crc` is the function `Chunks.CalculateCrc`.

## Model

| member | source | states |
|---|---|---|
| `Bytes.FromBeBytesOfBeBytes` | src/chunk.rs:59-62 | decoding `to_be_bytes(n)` with `from_be_bytes` gives `n` |
| `Bytes.BeBytesOfFromBeBytes` | src/chunk.rs:81 | encoding a decoded 4-byte array gives the array back, so length and CRC fields are read and written losslessly |
| `Crc.CheckValue` | src/chunk.rs:17-23 | the CRC-32 used by `calculate_crc` has the CRC-32/ISO-HDLC check value 0xCBF43926 on "123456789" |
| `ChunkTypes.FlagsFollowLetterCase` | src/chunk_type.rs:17-36 | the four flag predicates `ChunkType.IsCritical`, `ChunkType.IsPublic`, `ChunkType.IsReservedBitValid` and `ChunkType.IsSafeToCopy` (bit 5 of bytes 0 to 3): for an alphabetic type, the first three hold exactly when bytes 0 / 1 / 2 are upper case, and safe-to-copy exactly when byte 3 is lower case |
| `ChunkTypes.IsValid` | src/chunk_type.rs:38-45 | the early-return loop returns true exactly when all four bytes are ASCII letters and bit 5 of byte 2 is clear |
| `ChunkTypes.FirstNonAlphabetic` | src/chunk_type.rs:78-81 | the index the byte scan stops at: a non-letter with only letters before it |
| `ChunkTypes.TryFromBytes` | src/chunk_type.rs:77-84 | succeeds exactly when every byte is a letter, storing the array unchanged; otherwise reports the first non-letter byte |
| `ChunkTypes.FromStr` | src/chunk_type.rs:57-71 | a string whose byte length is not 4 is refused; a 4-byte string gives exactly what `try_from` gives on the same bytes (same acceptance, same value) |
| `ChunkTypes.RuStIsValid` | src/chunk_type.rs:38-45 | "RuSt" is accepted and valid |
| `ChunkTypes.RustAcceptedButNotValid` | src/chunk_type.rs:30-32 | "Rust" is accepted, but its reserved bit is set, so construction does not imply validity |
| `Chunks.Chunk.Length` | src/chunk.rs:35-37 | `length()` equals the payload size whenever that fits in 32 bits |
| `Chunks.New` | src/chunk.rs:17-33 | type and payload stored unchanged, CRC field equal to `Chunks.CalculateCrc`, the CRC-32 of type ++ payload, length field equal to `length()` (and to the payload size below 2^32); the result is well formed for an alphabetic type |
| `Chunks.AsBytes` | src/chunk.rs:56-65 | the buffer is length (big-endian) ++ type ++ payload ++ CRC (big-endian), 12 + payload bytes long |
| `Chunks.TryFrom` | src/chunk.rs:77-105 | under 12 bytes is `TooShort`; a non-letter type byte is `InvalidByte` with the first such byte; it panics exactly when the declared span overruns the slice; once the span fits and the type is alphabetic, it succeeds exactly when the CRC-32 of type ++ payload equals the stored CRC, and otherwise returns `CrcMismatch` with the computed and stored values; on success the chunk is well formed, its fields are the slices of the input, and it re-serialises to exactly the consumed span |
| `Chunks.TryFromIgnoresTrailingBytes` | src/chunk.rs:86-91 | only `raw[..12 + length]` is read: appended bytes do not change the outcome |
| `Chunks.TryFromSerialize` | src/chunk.rs:56-65 | a well-formed chunk parses back from its serialisation, whatever follows it |
| `Chunks.TryFromNewAsBytes` | src/chunk.rs:25-33 | `try_from(new(t, d).as_bytes()) == new(t, d)` for an alphabetic type and a payload under 2^32 bytes |
| `Chunks.CorruptedCrcRejected` | src/chunk.rs:93-97 | replacing a well-formed chunk's CRC by any other value makes parsing fail with a mismatch naming both values |
| `PngFile.FirstMatch` | src/png.rs:37 | the position search returns the lowest index whose type bytes equal the query, or none when no chunk matches |
| `PngFile.FirstMatchAfterAppend` | src/png.rs:23-25 | after an append the first match is unchanged, or is the appended chunk if nothing matched before |
| `PngFile.RemoveFirstDropsOneMatch` | src/png.rs:36-39 | removing the first match lowers the number of matching chunks by exactly one, so later chunks of the same type remain |
| `PngFile.ChunksBytes` | src/png.rs:57-60 | the flattened chunk bytes are 12 + payload bytes per chunk |
| `PngFile.ParseChunkList` | src/png.rs:88-101 | empty input gives no chunks; 1 to 3 bytes panic on the length slice; a declared span longer than the rest gives `LengthExceedsData`; a successful loop yields well-formed chunks whose serialisations, in order, are exactly the input |
| `PngFile.Parse` | src/png.rs:79-104 | under 8 bytes panics; a wrong signature is `InvalidHeader`; on success the input is the standard signature followed by the chunks' serialisations |
| `PngFile.ParseChunkListOfBytes` | src/png.rs:88-101 | parsing the serialisations of well-formed chunks followed by a tail yields those chunks in order, then whatever the tail yields |
| `PngFile.TruncatedChunkRejected` | src/png.rs:90-94 | a file cut inside a chunk, after at least its 4 length bytes, is refused with `LengthExceedsData` |
| `PngFile.TruncatedLengthPanics` | src/png.rs:89 | a file cut 1 to 3 bytes after a chunk boundary panics instead of returning an error |
| `PngFile.Png.FromChunks` | src/png.rs:16-21 | the chunk list is the given one and the header is the standard signature |
| `PngFile.Png.AppendChunk` | src/png.rs:23-25 | the chunk list becomes `old ++ [chunk]`; the header is unchanged |
| `PngFile.Png.RemoveFirstChunk` | src/png.rs:36-41 | with a match at lowest index `i`: returns `chunks[i]` and leaves `chunks[..i] ++ chunks[i+1..]`; with none: `ChunkNotFound` and the list unchanged |
| `PngFile.Png.ChunkByType` | src/png.rs:51-54 | returns the first chunk in list order whose type bytes equal the query; none exactly when nothing matches, and always none for a query that is not 4 bytes |
| `PngFile.Png.AsBytes` | src/png.rs:56-67 | always the standard signature, whatever `header` holds, then the chunks' bytes in order; 8 + Σ(12 + payload) bytes |
| `PngFile.Png.TryFrom` | src/png.rs:79-104 | the while loop panics, fails or succeeds exactly as `Parse` does; on success it returns a fresh `Png` with the standard header and the parsed chunks in buffer order |
| `PngFile.ParseSerialized` | src/png.rs:79-104 | round trip on values: the standard signature followed by the serialisations of well-formed chunks parses back to exactly those chunks, in order |
| `PngFile.ParseAsBytes` | src/png.rs:56-67 | round trip: for well-formed chunks, parsing a `Png`'s `as_bytes()` gives back its chunk list, so `try_from(from_chunks(cs).as_bytes())` equals `from_chunks(cs)` |
| `PngFile.HelloRoundTrip` | src/png.rs:56-67 | a file with one "FrEe" chunk holding "hello" serialises to 25 bytes and parses back to that chunk, which has length 5 and the CRC of "FrEehello" |

## Left out

- `src/args.rs` is not part of this model. It parses command-line arguments from the process environment, and its only logic is delegating to `ChunkType::from_str`.
- `src/commands.rs` is not part of this model. It is file reading and writing and console output.
- `Png::print_chunk` (src/png.rs:27-34) is left out. It prints to the console, and its search is the one `chunk_by_type` performs.
- The `Display` implementations are left out. They are formatting from the standard library (lossy UTF-8, `Debug`).
- `Chunk::data_as_string` is left out. It is a wrapper over the standard library's UTF-8 decoder.
- The `crc` crate's table-driven implementation is replaced by the bitwise definition of the same checksum. The proofs do not depend on its internals.
- Error texts are left out. Each error string is an `Error` constructor with the values the message interpolates.
- Detection of a corrupted type or payload byte is not proved, because it depends on the algebra of CRC-32. A corrupted stored CRC is proved to be rejected (`Chunks.CorruptedCrcRejected`).
- usize overflow of `12 + length as usize` on 32-bit targets is left out. Sizes are unbounded integers.
- Memory layout and aliasing of `Vec` storage are left out. The chunk list is a sequence that the methods reassign.
