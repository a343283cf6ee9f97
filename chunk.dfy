/** One chunk record, laid out as in section 5.3 of the PNG specification:
    a big-endian u32 length, the 4-byte type, the payload, and a big-endian
    u32 CRC over the type and payload. */
module Chunks {
  import opened Bytes
  import opened Results
  import opened Crc
  import opened ChunkTypes

  /** A chunk; the four fields are public in the source, so a value need not
      be consistent (see `WellFormed`). `chunkType`, `data` and `crc` are
      also the accessors `chunk_type()`, `data()` and `crc()`. */
  datatype Chunk = Chunk(length: u32, chunkType: ChunkType, data: seq<u8>, crc: u32)
  {
    /** `length()`: the payload size cast to u32 (`len() as u32` truncates).
        It agrees with the payload size whenever that fits in 32 bits. */
    function Length(): (n: u32)
      ensures |data| < U32_LIMIT ==> n == |data|
    {
      |data| % U32_LIMIT
    }
  }

  /** `Chunk::calculate_crc`: the checksum of the type bytes followed by the payload. */
  function CalculateCrc(t: ChunkType, data: seq<u8>): u32
  {
    Crc32(t.bytes + data)
  }

  /** A chunk that its own serialisation parses back to: the length field is
      the payload size, the CRC matches, and the type is made of letters. */
  predicate WellFormed(c: Chunk)
  {
    && |c.data| < U32_LIMIT
    && c.length == |c.data|
    && c.crc == CalculateCrc(c.chunkType, c.data)
    && AllAlphabetic(c.chunkType.bytes)
  }

  /** `Chunk::new`: stores the type and the payload unchanged, sets the
      length to the payload size (cast to u32) and computes the CRC. */
  function New(t: ChunkType, data: seq<u8>): (c: Chunk)
    ensures c.chunkType == t && c.data == data
    ensures c.crc == Crc32(t.bytes + data)
    ensures |data| < U32_LIMIT ==> c.length == |data|
    ensures c.Length() == c.length
    ensures |data| < U32_LIMIT && AllAlphabetic(t.bytes) ==> WellFormed(c)
  {
    Chunk(|data| % U32_LIMIT, t, data, CalculateCrc(t, data))
  }

  /** The byte layout `as_bytes` produces. */
  function Serialize(c: Chunk): seq<u8>
  {
    BeBytes(c.length) + c.chunkType.bytes + c.data + BeBytes(c.crc)
  }

  /** `Chunk::as_bytes`: the buffer is filled field by field. */
  method AsBytes(c: Chunk) returns (bytes: seq<u8>)
    ensures |bytes| == 12 + |c.data|
    ensures bytes[..4] == BeBytes(c.length)
    ensures bytes[4..8] == c.chunkType.bytes
    ensures bytes[8..8 + |c.data|] == c.data
    ensures bytes[8 + |c.data|..] == BeBytes(c.crc)
    ensures bytes == Serialize(c)
  {
    bytes := [];
    bytes := bytes + BeBytes(c.length);
    bytes := bytes + c.chunkType.bytes;
    bytes := bytes + c.data;
    bytes := bytes + BeBytes(c.crc);
  }

  /** The length field at the head of `raw`. */
  function DeclaredLength(raw: seq<u8>): u32
    requires |raw| >= 4
  {
    FromBeBytes(raw[..4])
  }

  /** `Chunk::try_from(&[u8])`. In order: fewer than 12 bytes is an error;
      the type bytes must all be letters (`ChunkType::try_from`); slicing the
      payload and the CRC panics when the declared length runs past the end;
      a stored CRC that differs from the computed one is an error. */
  function TryFrom(raw: seq<u8>): (r: Outcome<Chunk>)
    ensures |raw| < 12 ==> r == Returns(Err(TooShort))
    ensures |raw| >= 12 && !AllAlphabetic(raw[4..8]) ==>
              r == Returns(Err(InvalidByte(raw[4 + FirstNonAlphabetic(raw[4..8])])))
    ensures r.Panics? <==> |raw| >= 12 && AllAlphabetic(raw[4..8]) && |raw| < 12 + DeclaredLength(raw)
    ensures |raw| >= 12 && AllAlphabetic(raw[4..8]) && 12 + DeclaredLength(raw) <= |raw| ==>
              var n := DeclaredLength(raw);
              var computed, stored := Crc32(raw[4..8 + n]), FromBeBytes(raw[8 + n..12 + n]);
              && (r.IsOk() <==> computed == stored)
              && (computed != stored ==> r == Returns(Err(CrcMismatch(computed, stored))))
    ensures r.Returns? && r.result.Err? && r.result.error.CrcMismatch? ==>
              var n := DeclaredLength(raw);
              && r.result.error.expected == Crc32(raw[4..8 + n])
              && r.result.error.got == FromBeBytes(raw[8 + n..12 + n])
              && r.result.error.expected != r.result.error.got
    ensures r.IsOk() ==>
              var c := r.result.value;
              && WellFormed(c)
              && c.length == DeclaredLength(raw)
              && c.chunkType.bytes == raw[4..8]
              && c.data == raw[8..8 + c.length]
              && Serialize(c) == raw[..12 + c.length]
  {
    if |raw| < 12 then Returns(Err(TooShort))
    else
      var length := DeclaredLength(raw);
      match TypeFromBytes(raw[4..8])
      case Err(e) => Returns(Err(e))
      case Ok(chunkType) =>
        if |raw| < 12 + length then Panics
        else
          var data := raw[8..8 + length];
          var crc := FromBeBytes(raw[8 + length..12 + length]);
          var actualCrc := CalculateCrc(chunkType, data);
          assert chunkType.bytes + data == raw[4..8 + length];
          if actualCrc != crc then Returns(Err(CrcMismatch(actualCrc, crc)))
          else
            var c := Chunk(length, chunkType, data, crc);
            ReassembleSpan(raw, c);
            Returns(Ok(c))
  }

  /** The four fields cut out of a chunk span serialise back to that span. */
  lemma ReassembleSpan(raw: seq<u8>, c: Chunk)
    requires |raw| >= 12 && 12 + DeclaredLength(raw) <= |raw|
    requires c.length == DeclaredLength(raw) && c.chunkType.bytes == raw[4..8]
    requires c.data == raw[8..8 + c.length] && c.crc == FromBeBytes(raw[8 + c.length..12 + c.length])
    ensures Serialize(c) == raw[..12 + c.length]
  {
    var n := c.length;
    BeBytesOfFromBeBytes(raw[..4]);
    BeBytesOfFromBeBytes(raw[8 + n..12 + n]);
    assert raw[..12 + n] == raw[..4] + raw[4..8] + raw[8..8 + n] + raw[8 + n..12 + n];
  }

  /** `try_from` reads only the declared span `raw[..12 + length]`: bytes
      after it make no difference. */
  lemma TryFromIgnoresTrailingBytes(raw: seq<u8>, extra: seq<u8>)
    requires |raw| >= 12 && 12 + DeclaredLength(raw) <= |raw|
    ensures TryFrom(raw + extra) == TryFrom(raw)
  {
    var n := DeclaredLength(raw);
    var all := raw + extra;
    assert all[..4] == raw[..4];
    assert all[4..8] == raw[4..8];
    assert all[8..8 + n] == raw[8..8 + n];
    assert all[8 + n..12 + n] == raw[8 + n..12 + n];
  }

  /** Round trip: a well-formed chunk parses back from its serialisation,
      and nothing is read beyond it. */
  lemma TryFromSerialize(c: Chunk, extra: seq<u8>)
    requires WellFormed(c)
    ensures TryFrom(Serialize(c) + extra) == Returns(Ok(c))
  {
    var raw := Serialize(c) + extra;
    var n := c.length;
    assert raw[..4] == BeBytes(c.length);
    FromBeBytesOfBeBytes(c.length);
    assert raw[4..8] == c.chunkType.bytes;
    assert raw[8..8 + n] == c.data;
    assert raw[8 + n..12 + n] == BeBytes(c.crc);
    FromBeBytesOfBeBytes(c.crc);
  }

  /** Round trip from the constructor: for an alphabetic type and a payload
      that fits a u32 length, parsing `new(t, data).as_bytes()` gives
      `new(t, data)` back. */
  lemma TryFromNewAsBytes(t: ChunkType, data: seq<u8>)
    requires AllAlphabetic(t.bytes) && |data| < U32_LIMIT
    ensures TryFrom(Serialize(New(t, data))) == Returns(Ok(New(t, data)))
  {
    TryFromSerialize(New(t, data), []);
    assert Serialize(New(t, data)) + [] == Serialize(New(t, data));
  }

  /** A well-formed chunk whose stored CRC is replaced by any other value is
      rejected with a CRC mismatch naming both values. */
  lemma CorruptedCrcRejected(c: Chunk, bad: u32)
    requires WellFormed(c) && bad != c.crc
    ensures TryFrom(Serialize(c.(crc := bad))) == Returns(Err(CrcMismatch(c.crc, bad)))
  {
    var raw := Serialize(c.(crc := bad));
    var n := c.length;
    assert raw[..4] == BeBytes(c.length);
    FromBeBytesOfBeBytes(c.length);
    assert raw[4..8] == c.chunkType.bytes;
    assert raw[8..8 + n] == c.data;
    assert raw[8 + n..12 + n] == BeBytes(bad);
    FromBeBytesOfBeBytes(bad);
  }
}
