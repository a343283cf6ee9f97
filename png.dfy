/** The PNG container: the 8-byte signature (section 5.2 of the PNG
    specification, ISO/IEC 15948:2003) followed by an ordered list of chunks. */
module PngFile {
  import opened Bytes
  import opened Results
  import opened ChunkTypes
  import opened Chunks

  /** A `[u8; 8]` array. */
  type Byte8 = s: seq<u8> | |s| == 8 witness [0, 0, 0, 0, 0, 0, 0, 0]

  /** `Png::STANDARD_HEADER`. */
  const STANDARD_HEADER: Byte8 := [137, 80, 78, 71, 13, 10, 26, 10]

  /** A chunk matches a query when its type bytes equal the query's bytes. */
  predicate Matches(c: Chunk, query: seq<u8>)
  {
    c.chunkType.bytes == query
  }

  /** `i` is the lowest index of a chunk matching `query`. */
  predicate IsFirstMatch(cs: seq<Chunk>, query: seq<u8>, i: int)
  {
    && 0 <= i < |cs|
    && Matches(cs[i], query)
    && forall j :: 0 <= j < i ==> !Matches(cs[j], query)
  }

  /** `iter().position(...)`: the index of the first matching chunk. */
  function FirstMatch(cs: seq<Chunk>, query: seq<u8>): (r: Option<nat>)
    ensures r.Some? ==> IsFirstMatch(cs, query, r.value)
    ensures r.None? ==> forall j :: 0 <= j < |cs| ==> !Matches(cs[j], query)
  {
    if cs == [] then None
    else if Matches(cs[0], query) then Some(0)
    else match FirstMatch(cs[1..], query)
      case None => None
      case Some(i) => Some(i + 1)
  }

  /** Appending keeps an existing first match; with none, the appended
      chunk is found when it matches. */
  lemma {:induction false} FirstMatchAfterAppend(cs: seq<Chunk>, c: Chunk, query: seq<u8>)
    ensures FirstMatch(cs + [c], query) ==
              if FirstMatch(cs, query).Some? then FirstMatch(cs, query)
              else if Matches(c, query) then Some(|cs|)
              else None
  {
    if cs == [] {
      assert cs + [c] == [c];
      assert [c][1..] == [];
    } else {
      assert (cs + [c])[1..] == cs[1..] + [c];
      FirstMatchAfterAppend(cs[1..], c, query);
    }
  }

  /** The number of chunks that match `query`. */
  function CountMatches(cs: seq<Chunk>, query: seq<u8>): nat
  {
    if cs == [] then 0
    else (if Matches(cs[0], query) then 1 else 0) + CountMatches(cs[1..], query)
  }

  lemma {:induction false} CountMatchesAppend(a: seq<Chunk>, b: seq<Chunk>, query: seq<u8>)
    ensures CountMatches(a + b, query) == CountMatches(a, query) + CountMatches(b, query)
  {
    if a == [] {
      assert a + b == b;
    } else {
      assert (a + b)[1..] == a[1..] + b;
      CountMatchesAppend(a[1..], b, query);
    }
  }

  /** Removing the first match removes one match and no more: later chunks of
      the same type stay in the list. */
  lemma RemoveFirstDropsOneMatch(cs: seq<Chunk>, query: seq<u8>, i: int)
    requires IsFirstMatch(cs, query, i)
    ensures CountMatches(cs[..i] + cs[i + 1..], query) == CountMatches(cs, query) - 1
  {
    assert cs == cs[..i] + ([cs[i]] + cs[i + 1..]);
    CountMatchesAppend(cs[..i], [cs[i]] + cs[i + 1..], query);
    CountMatchesAppend([cs[i]], cs[i + 1..], query);
    CountMatchesAppend(cs[..i], cs[i + 1..], query);
  }

  /** The serialised size of a list of chunks: 12 bytes of framing per chunk plus its payload. */
  function TotalSize(cs: seq<Chunk>): nat
  {
    if cs == [] then 0 else 12 + |cs[0].data| + TotalSize(cs[1..])
  }

  /** `flat_map(|chunk| chunk.as_bytes())`: the chunks' serialisations in list order. */
  function ChunksBytes(cs: seq<Chunk>): (r: seq<u8>)
    ensures |r| == TotalSize(cs)
  {
    if cs == [] then [] else Serialize(cs[0]) + ChunksBytes(cs[1..])
  }

  /** Puts `prefix` in front of the chunks of a successful parse. */
  function Prepend(prefix: seq<Chunk>, o: Outcome<seq<Chunk>>): Outcome<seq<Chunk>>
  {
    match o
    case Returns(Ok(cs)) => Returns(Ok(prefix + cs))
    case _ => o
  }

  /** A chunk serialised at the head of `rest`, followed by chunks that
      serialise to the remainder, serialises to `rest`. */
  lemma ChunkThenRest(rest: seq<u8>, c: Chunk, ds: seq<Chunk>)
    requires |rest| >= 12 + c.length
    requires Serialize(c) == rest[..12 + c.length] && ChunksBytes(ds) == rest[12 + c.length..]
    ensures ChunksBytes([c] + ds) == rest
  {
    assert ([c] + ds)[1..] == ds;
  }

  lemma PrependNothing(o: Outcome<seq<Chunk>>)
    ensures Prepend([], o) == o
  {
    if o.IsOk() {
      assert [] + o.result.value == o.result.value;
    }
  }

  lemma PrependPrepend(a: seq<Chunk>, b: seq<Chunk>, o: Outcome<seq<Chunk>>)
    ensures Prepend(a, Prepend(b, o)) == Prepend(a + b, o)
  {
    if o.IsOk() {
      assert a + (b + o.result.value) == (a + b) + o.result.value;
    }
  }

  /** The chunk loop of `Png::try_from`, on the bytes after the signature:
      while bytes remain, read the length (panicking on 1 to 3 bytes), refuse
      a span `12 + length` longer than what is left, parse the chunk from
      exactly that span and go on after it. A successful parse yields
      well-formed chunks whose serialisations make up the input exactly. */
  function ParseChunkList(rest: seq<u8>): (r: Outcome<seq<Chunk>>)
    ensures |rest| == 0 ==> r == Returns(Ok([]))
    ensures 0 < |rest| < 4 ==> r.Panics?
    ensures |rest| >= 4 && |rest| < 12 + DeclaredLength(rest) ==> r == Returns(Err(LengthExceedsData))
    ensures r.IsOk() ==> ChunksBytes(r.result.value) == rest
    ensures r.IsOk() ==> forall c :: c in r.result.value ==> WellFormed(c)
    decreases |rest|
  {
    if |rest| == 0 then Returns(Ok([]))
    else if |rest| < 4 then Panics
    else
      var total := 12 + DeclaredLength(rest) as int;
      if |rest| < total then Returns(Err(LengthExceedsData))
      else
        var span := rest[..total];
        assert span[..4] == rest[..4];
        match Chunks.TryFrom(span)
        case Panics => Panics
        case Returns(Err(e)) => Returns(Err(e))
        case Returns(Ok(c)) =>
          assert Serialize(c) == span;
          var tail := ParseChunkList(rest[total..]);
          if tail.IsOk() then
            ChunkThenRest(rest, c, tail.result.value);
            Prepend([c], tail)
          else
            tail
  }

  /** One turn of the chunk loop, for the method that runs it. */
  lemma ParseChunkListUnfold(rest: seq<u8>, span: seq<u8>, after: seq<u8>)
    requires |rest| >= 4 && 12 + DeclaredLength(rest) <= |rest|
    requires span == rest[..12 + DeclaredLength(rest)] && after == rest[12 + DeclaredLength(rest)..]
    ensures match Chunks.TryFrom(span)
            case Panics => ParseChunkList(rest) == Panics
            case Returns(Err(e)) => ParseChunkList(rest) == Returns(Err(e))
            case Returns(Ok(c)) => ParseChunkList(rest) == Prepend([c], ParseChunkList(after))
  {
  }

  /** What `Png::try_from` yields, as a value: fewer than 8 bytes panics (the
      slice `bytes[0..8]`), a different signature is an error, and the rest is
      the chunk loop. */
  function Parse(bytes: seq<u8>): (r: Outcome<seq<Chunk>>)
    ensures |bytes| < 8 ==> r.Panics?
    ensures |bytes| >= 8 && bytes[..8] != STANDARD_HEADER ==> r == Returns(Err(InvalidHeader))
    ensures r.IsOk() ==> bytes == STANDARD_HEADER + ChunksBytes(r.result.value)
  {
    if |bytes| < 8 then Panics
    else if bytes[..8] != STANDARD_HEADER then Returns(Err(InvalidHeader))
    else
      assert bytes == bytes[..8] + bytes[8..];
      ParseChunkList(bytes[8..])
  }

  /** One turn of the loop over a well-formed chunk's serialisation. */
  lemma ParseChunkListStep(c: Chunk, after: seq<u8>)
    requires WellFormed(c)
    ensures ParseChunkList(Serialize(c) + after) == Prepend([c], ParseChunkList(after))
  {
    var rest := Serialize(c) + after;
    var total := 12 + c.length;
    FromBeBytesOfBeBytes(c.length);
    assert rest[..4] == BeBytes(c.length);
    assert rest[..total] == Serialize(c) + [];
    assert rest[total..] == after;
    TryFromSerialize(c, []);
  }

  /** Parsing the serialisation of well-formed chunks followed by any tail
      gives those chunks, then whatever the tail parses to. */
  lemma {:induction false} ParseChunkListOfBytes(cs: seq<Chunk>, tail: seq<u8>)
    requires forall c :: c in cs ==> WellFormed(c)
    ensures ParseChunkList(ChunksBytes(cs) + tail) == Prepend(cs, ParseChunkList(tail))
  {
    if cs == [] {
      assert ChunksBytes(cs) + tail == tail;
      PrependNothing(ParseChunkList(tail));
    } else {
      var c, more := cs[0], cs[1..];
      var after := ChunksBytes(more) + tail;
      assert ChunksBytes(cs) + tail == Serialize(c) + after;
      ParseChunkListStep(c, after);
      ParseChunkListOfBytes(more, tail);
      PrependPrepend([c], more, ParseChunkList(tail));
      assert [c] + more == cs;
    }
  }

  /** A buffer cut one to three bytes after a chunk boundary panics: the
      loop slices a 4-byte length out of fewer than 4 bytes. */
  lemma TruncatedLengthPanics(cs: seq<Chunk>, tail: seq<u8>)
    requires forall c :: c in cs ==> WellFormed(c)
    requires 0 < |tail| < 4
    ensures Parse(STANDARD_HEADER + ChunksBytes(cs) + tail).Panics?
  {
    var body := ChunksBytes(cs) + tail;
    var bytes := STANDARD_HEADER + body;
    assert STANDARD_HEADER + ChunksBytes(cs) + tail == bytes;
    assert bytes[..8] == STANDARD_HEADER && bytes[8..] == body;
    assert ParseChunkList(tail) == Panics;
    ParseChunkListOfBytes(cs, tail);
    assert ParseChunkList(body) == Panics;
  }

  /** A file cut inside a chunk, after at least its 4 length bytes, is
      refused with `LengthExceedsData`: the declared span overruns the rest. */
  lemma TruncatedChunkRejected(cs: seq<Chunk>, c: Chunk, k: nat)
    requires forall d :: d in cs ==> WellFormed(d)
    requires WellFormed(c) && 4 <= k < 12 + c.length
    ensures Parse(STANDARD_HEADER + ChunksBytes(cs) + Serialize(c)[..k]) == Returns(Err(LengthExceedsData))
  {
    var cut := Serialize(c)[..k];
    var body := ChunksBytes(cs) + cut;
    var bytes := STANDARD_HEADER + body;
    assert STANDARD_HEADER + ChunksBytes(cs) + cut == bytes;
    assert bytes[..8] == STANDARD_HEADER && bytes[8..] == body;
    assert cut[..4] == BeBytes(c.length);
    FromBeBytesOfBeBytes(c.length);
    assert ParseChunkList(cut) == Returns(Err(LengthExceedsData));
    ParseChunkListOfBytes(cs, cut);
  }

  /** A PNG file: its signature and its chunk list, both updated in place. */
  class Png {
    var header: Byte8
    var chunks: seq<Chunk>

    /** `Png::from_chunks`: always the standard signature. */
    constructor FromChunks(chunks: seq<Chunk>)
      ensures this.header == STANDARD_HEADER && this.chunks == chunks
    {
      this.header := STANDARD_HEADER;
      this.chunks := chunks;
    }

    /** `Png::append_chunk`: pushes onto the end; no de-duplication by type. */
    method AppendChunk(chunk: Chunk)
      modifies this
      ensures chunks == old(chunks) + [chunk]
      ensures header == old(header)
    {
      chunks := chunks + [chunk];
    }

    /** `Png::remove_first_chunk`: removes and returns the first chunk whose
        type bytes equal the query, keeping the order of the others; with no
        match it is an error and the list is left as it was. */
    method RemoveFirstChunk(chunkType: seq<u8>) returns (r: Result<Chunk>)
      modifies this
      ensures header == old(header)
      ensures r.Ok? <==> exists i :: 0 <= i < |old(chunks)| && Matches(old(chunks)[i], chunkType)
      ensures r.Err? ==> r.error == ChunkNotFound(chunkType) && chunks == old(chunks)
      ensures r.Ok? ==> exists i :: && IsFirstMatch(old(chunks), chunkType, i)
                                    && r.value == old(chunks)[i]
                                    && chunks == old(chunks)[..i] + old(chunks)[i + 1..]
    {
      match FirstMatch(chunks, chunkType)
      case Some(index) =>
        r := Ok(chunks[index]);
        chunks := chunks[..index] + chunks[index + 1..];
      case None =>
        r := Err(ChunkNotFound(chunkType));
    }

    /** `Png::chunk_by_type`: the first chunk in list order whose type bytes
        equal the query; none when no chunk matches, in particular when the
        query is not 4 bytes long. */
    function ChunkByType(chunkType: seq<u8>): (r: Option<Chunk>)
      reads this
      ensures r.None? <==> forall j :: 0 <= j < |chunks| ==> !Matches(chunks[j], chunkType)
      ensures r.Some? ==> exists i :: IsFirstMatch(chunks, chunkType, i) && r.value == chunks[i]
      ensures |chunkType| != 4 ==> r.None?
    {
      match FirstMatch(chunks, chunkType)
      case Some(i) => Some(chunks[i])
      case None => None
    }

    /** `Png::as_bytes`: the standard signature (whatever `header` holds),
        then each chunk's `as_bytes` in list order. */
    function AsBytes(): (r: seq<u8>)
      reads this
      ensures |r| == 8 + TotalSize(chunks)
      ensures r[..8] == STANDARD_HEADER
      ensures r[8..] == ChunksBytes(chunks)
    {
      STANDARD_HEADER + ChunksBytes(chunks)
    }

    /** `Png::try_from(&[u8])`: the parse loop walks the buffer chunk by
        chunk and only builds the `Png` once every byte has been consumed. */
    static method TryFrom(bytes: seq<u8>) returns (r: Outcome<Png>)
      ensures Parse(bytes).Panics? ==> r.Panics?
      ensures Parse(bytes).Returns? && Parse(bytes).result.Err? ==> r == Returns(Err(Parse(bytes).result.error))
      ensures Parse(bytes).IsOk() ==>
                && r.IsOk() && fresh(r.result.value)
                && r.result.value.header == STANDARD_HEADER
                && r.result.value.chunks == Parse(bytes).result.value
    {
      if |bytes| < 8 {
        return Panics;
      }
      if bytes[..8] != STANDARD_HEADER {
        return Returns(Err(InvalidHeader));
      }
      var rest := bytes[8..];
      var chunks: seq<Chunk> := [];
      ghost var whole := Parse(bytes);
      assert whole == ParseChunkList(rest);
      PrependNothing(ParseChunkList(rest));
      while |rest| != 0
        invariant whole == Prepend(chunks, ParseChunkList(rest))
        decreases |rest|
      {
        if |rest| < 4 {
          assert ParseChunkList(rest) == Panics;
          return Panics;
        }
        var length := FromBeBytes(rest[..4]);
        var totalChunkLength := 12 + length as int;
        if |rest| < totalChunkLength {
          assert ParseChunkList(rest) == Returns(Err(LengthExceedsData));
          return Returns(Err(LengthExceedsData));
        }
        var chunkBytes := rest[..totalChunkLength];
        var after := rest[totalChunkLength..];
        ParseChunkListUnfold(rest, chunkBytes, after);
        var chunk := Chunks.TryFrom(chunkBytes);
        match chunk {
          case Panics =>
            return Panics;
          case Returns(Err(e)) =>
            return Returns(Err(e));
          case Returns(Ok(c)) =>
            PrependPrepend(chunks, [c], ParseChunkList(after));
            chunks := chunks + [c];
        }
        rest := after;
      }
      assert whole == Returns(Ok(chunks + []));
      assert chunks + [] == chunks;
      var png := new Png.FromChunks(chunks);
      return Returns(Ok(png));
    }
  }

  /** Round trip on values: the standard signature followed by the
      serialisations of well-formed chunks parses back to those chunks. */
  lemma ParseSerialized(cs: seq<Chunk>)
    requires forall c :: c in cs ==> WellFormed(c)
    ensures Parse(STANDARD_HEADER + ChunksBytes(cs)) == Returns(Ok(cs))
  {
    var bytes := STANDARD_HEADER + ChunksBytes(cs);
    assert bytes[..8] == STANDARD_HEADER;
    assert bytes[8..] == ChunksBytes(cs) + [];
    ParseChunkListOfBytes(cs, []);
    assert ParseChunkList([]) == Returns(Ok([]));
    assert cs + [] == cs;
  }

  /** Round trip: for well-formed chunks, parsing `as_bytes()` of a `Png`
      gives back its chunk list, in order; `try_from` then builds a `Png`
      equal to `from_chunks` of that list. */
  lemma ParseAsBytes(p: Png)
    requires forall c :: c in p.chunks ==> WellFormed(c)
    ensures Parse(p.AsBytes()) == Returns(Ok(p.chunks))
  {
    ParseSerialized(p.chunks);
  }

  /** The end-to-end scenario: a file holding one chunk of type "FrEe" with
      payload "hello" serialises to 8 + 12 + 5 = 25 bytes and parses back to
      that one chunk, whose length field is 5 and whose CRC is that of
      "FrEehello". */
  lemma HelloRoundTrip()
    ensures var c := New(ChunkType([70, 114, 69, 101]), [104, 101, 108, 108, 111]);
            && |STANDARD_HEADER + ChunksBytes([c])| == 25
            && Parse(STANDARD_HEADER + ChunksBytes([c])) == Returns(Ok([c]))
            && c.length == 5
            && c.crc == Crc.Crc32([70, 114, 69, 101, 104, 101, 108, 108, 111])
  {
    var t := ChunkType([70, 114, 69, 101]);
    var c := New(t, [104, 101, 108, 108, 111]);
    assert AllAlphabetic(t.bytes) by {
      assert IsAsciiAlphabetic(t.bytes[0]) && IsAsciiAlphabetic(t.bytes[1]);
      assert IsAsciiAlphabetic(t.bytes[2]) && IsAsciiAlphabetic(t.bytes[3]);
    }
    assert t.bytes + [104, 101, 108, 108, 111] == [70, 114, 69, 101, 104, 101, 108, 108, 111];
    assert TotalSize([c]) == 17 by {
      assert [c][1..] == [];
    }
    ParseSerialized([c]);
  }
}
