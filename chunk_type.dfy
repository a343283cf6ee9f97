/** The 4-byte chunk type of a PNG chunk and its naming conventions
    (section 5.4 of the PNG specification, ISO/IEC 15948:2003): bit 5
    (mask 0x20, the ASCII case bit) of each byte is a property flag. */
module ChunkTypes {
  import opened Bytes
  import opened Results

  /** `byte & (1 << 5) == 0`. */
  predicate IsZeroFifth(b: u8)
  {
    (b as bv8) & (1 << 5) == 0
  }

  /** `u8::is_ascii_uppercase`: 'A'..'Z'. */
  predicate IsAsciiUppercase(b: u8)
  {
    65 <= b <= 90
  }

  /** `u8::is_ascii_lowercase`: 'a'..'z'. */
  predicate IsAsciiLowercase(b: u8)
  {
    97 <= b <= 122
  }

  /** `u8::is_ascii_alphabetic`. */
  predicate IsAsciiAlphabetic(b: u8)
  {
    IsAsciiUppercase(b) || IsAsciiLowercase(b)
  }

  predicate AllAlphabetic(s: seq<u8>)
  {
    forall i :: 0 <= i < |s| ==> IsAsciiAlphabetic(s[i])
  }

  /** A chunk type; `bytes` is both the public field and the `bytes()` accessor. */
  datatype ChunkType = ChunkType(bytes: Byte4)
  {
    /** Ancillary bit clear: the chunk is critical. */
    predicate IsCritical() { IsZeroFifth(bytes[0]) }

    /** Private bit clear: the chunk is public. */
    predicate IsPublic() { IsZeroFifth(bytes[1]) }

    /** Reserved bit clear, as the current PNG specification requires. */
    predicate IsReservedBitValid() { IsZeroFifth(bytes[2]) }

    /** Safe-to-copy bit set. */
    predicate IsSafeToCopy() { !IsZeroFifth(bytes[3]) }
  }

  /** For letters, bit 5 is the case bit: it is clear exactly for upper case. */
  lemma CaseBit(b: u8)
    requires IsAsciiAlphabetic(b)
    ensures IsZeroFifth(b) <==> IsAsciiUppercase(b)
    ensures !IsZeroFifth(b) <==> IsAsciiLowercase(b)
  {
  }

  /** On an alphabetic type the four flags read as the PNG naming convention
      states them: an upper-case first letter means critical, an upper-case
      second letter public, an upper-case third letter a valid reserved bit,
      and a lower-case fourth letter safe to copy. */
  lemma FlagsFollowLetterCase(t: ChunkType)
    requires AllAlphabetic(t.bytes)
    ensures t.IsCritical() <==> IsAsciiUppercase(t.bytes[0])
    ensures t.IsPublic() <==> IsAsciiUppercase(t.bytes[1])
    ensures t.IsReservedBitValid() <==> IsAsciiUppercase(t.bytes[2])
    ensures t.IsSafeToCopy() <==> IsAsciiLowercase(t.bytes[3])
  {
    CaseBit(t.bytes[0]);
    CaseBit(t.bytes[1]);
    CaseBit(t.bytes[2]);
    CaseBit(t.bytes[3]);
  }

  /** `ChunkType::is_valid`: the loop re-checks the reserved bit for every
      byte, which amounts to the single conjunction "all four bytes are
      letters and the reserved bit is valid". */
  method IsValid(t: ChunkType) returns (valid: bool)
    ensures valid <==> AllAlphabetic(t.bytes) && t.IsReservedBitValid()
  {
    for i := 0 to 4
      invariant forall j :: 0 <= j < i ==> IsAsciiAlphabetic(t.bytes[j]) && t.IsReservedBitValid()
    {
      if !IsAsciiAlphabetic(t.bytes[i]) || !t.IsReservedBitValid() {
        return false;
      }
    }
    return true;
  }

  /** Index of the first byte that is not a letter: the one an early-return
      scan over the bytes reports. */
  function FirstNonAlphabetic(s: seq<u8>): (i: nat)
    requires !AllAlphabetic(s)
    ensures i < |s| && !IsAsciiAlphabetic(s[i])
    ensures forall j :: 0 <= j < i ==> IsAsciiAlphabetic(s[j])
  {
    if !IsAsciiAlphabetic(s[0]) then 0 else 1 + FirstNonAlphabetic(s[1..])
  }

  /** What `TryFrom<[u8; 4]>` yields, as a value: used by the chunk parser. */
  function TypeFromBytes(b: Byte4): Result<ChunkType>
  {
    if AllAlphabetic(b) then Ok(ChunkType(b)) else Err(InvalidByte(b[FirstNonAlphabetic(b)]))
  }

  /** `ChunkType::try_from([u8; 4])`: succeeds exactly when every byte is a
      letter, keeping the array unchanged; otherwise reports the first
      offending byte. */
  method TryFromBytes(b: Byte4) returns (r: Result<ChunkType>)
    ensures r.Ok? <==> AllAlphabetic(b)
    ensures r.Ok? ==> r.value.bytes == b
    ensures r.Err? ==> r.error == InvalidByte(b[FirstNonAlphabetic(b)])
    ensures r == TypeFromBytes(b)
  {
    for i := 0 to 4
      invariant forall j :: 0 <= j < i ==> IsAsciiAlphabetic(b[j])
    {
      if !IsAsciiAlphabetic(b[i]) {
        return Err(InvalidByte(b[i]));
      }
    }
    return Ok(ChunkType(b));
  }

  /** `ChunkType::from_str`, over the UTF-8 bytes of the string. A string
      whose byte length is not 4 is refused; otherwise the local array
      `byte_arr` is filled letter by letter, and the result is exactly that
      of `try_from` on the same four bytes. */
  method FromStr(s: seq<u8>) returns (r: Result<ChunkType>)
    ensures |s| != 4 ==> r == Err(WrongTagLength)
    ensures |s| == 4 ==> r == TypeFromBytes(s)
  {
    if |s| != 4 {
      return Err(WrongTagLength);
    }
    var byteArr := new u8[4](_ => 0);
    for index := 0 to 4
      invariant byteArr[..index] == s[..index]
      invariant forall j :: 0 <= j < index ==> IsAsciiAlphabetic(s[j])
    {
      if IsAsciiAlphabetic(s[index]) {
        byteArr[index] := s[index];
      } else {
        return Err(InvalidByte(s[index]));
      }
    }
    assert byteArr[..] == s;
    return Ok(ChunkType(byteArr[..]));
  }

  /** "RuSt" is a valid chunk type. */
  lemma RuStIsValid()
    ensures TypeFromBytes([82, 117, 83, 116]) == Ok(ChunkType([82, 117, 83, 116]))
    ensures AllAlphabetic([82, 117, 83, 116]) && ChunkType([82, 117, 83, 116]).IsReservedBitValid()
  {
  }

  /** Construction does not imply validity: "Rust" is accepted, but its third
      byte is lower case, so its reserved bit is set and it is not valid. */
  lemma RustAcceptedButNotValid()
    ensures TypeFromBytes([82, 117, 115, 116]) == Ok(ChunkType([82, 117, 115, 116]))
    ensures !ChunkType([82, 117, 115, 116]).IsReservedBitValid()
  {
  }
}
