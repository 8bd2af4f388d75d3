// Chunked transfer coding (section 4.1 of RFC 7230): the meaning the decoder of
// app/ota/app_ota_http.c gives to a byte stream, and the coding it inverts.
module Chunked {
  import opened Bits
  import opened CText

  const LINE_SIZE: nat := 40
  const CRLF: seq<byte> := [CR, LF]

  // Done: the body and what is behind its final CRLF. Stuck: the data in front of
  // the point where the stream ends early or goes wrong.
  datatype Decoded = Done(data: seq<byte>, rest: seq<byte>) | Stuck(data: seq<byte>)

  function Prepend(data: seq<byte>, d: Decoded): Decoded {
    match d
    case Done(more, rest) => Done(data + more, rest)
    case Stuck(more) => Stuck(data + more)
  }

  // Trailer lines up to the first that is empty (or begins with NUL) and fits.
  function AfterTrailers(s: seq<byte>): (r: Option<seq<byte>>)
    decreases |s|
  {
    match Crlf(s)
    case None => None
    case Some(i) =>
      if i + 2 <= LINE_SIZE && At(s[..i] + [0], 0) == 0 then Some(s[i + 2..]) else AfterTrailers(s[i + 2..])
  }

  // A chunk-size line that fits and begins with a number, and what is behind it.
  datatype SizeLine = NoSize | Size(size: nat, body: seq<byte>)

  function ParseSizeLine(s: seq<byte>): (r: SizeLine)
    ensures r.Size? ==> |r.body| < |s|
  {
    match Crlf(s)
    case None => NoSize
    case Some(i) =>
      var size := Strtoul(s[..i] + [0], 16);
      if i + 2 > LINE_SIZE || size.1 == 0 then NoSize else Size(size.0, s[i + 2..])
  }

  // A chunk's data and the CRLF behind it, or as much data as there is.
  datatype ChunkData = Whole(data: seq<byte>, rest: seq<byte>) | Cut(data: seq<byte>)

  function TakeChunk(t: seq<byte>, size: nat): (r: ChunkData)
    ensures |r.data| <= size && (r.Whole? ==> |r.rest| < |t|)
  {
    if |t| < size + 2 then Cut(if size <= |t| then t[..size] else t)
    else if t[size..size + 2] != CRLF then Cut(t[..size])
    else Whole(t[..size], t[size + 2..])
  }

  function Dechunk(s: seq<byte>): Decoded
    decreases |s|
  {
    match ParseSizeLine(s)
    case NoSize => Stuck([])
    case Size(size, t) =>
      if size == 0 then
        match AfterTrailers(t) { case None => Stuck([]) case Some(rest) => Done([], rest) }
      else
        match TakeChunk(t, size)
        case Cut(data) => Stuck(data)
        case Whole(data, rest) => Prepend(data, Dechunk(rest))
  }

  // ------------------------------------------------------------------
  // The coding
  // ------------------------------------------------------------------

  // A chunk as written: its size in hex digits of either case with any leading
  // zeros, an extension that a digit scan cannot mistake, its data.
  datatype Chunk = Chunk(size: seq<byte>, ext: seq<byte>, data: seq<byte>)

  predicate WellFormed(c: Chunk) {
    && c.size != [] && (forall i :: 0 <= i < |c.size| ==> Digit(c.size[i]) < 16)
    && (c.ext != [] ==> Stops(c.ext[0]))
    && OneLine(c.size + c.ext) && |c.size + c.ext| <= 38
    && Value(c.size, 16) == |c.data| <= ULONG_MAX
  }

  // Any field line, as long as it is not empty and, where it fits the buffer, does
  // not begin with NUL.
  predicate Trailer(t: seq<byte>) {
    t != [] && OneLine(t) && (|t| <= 38 ==> t[0] != 0)
  }

  function EncodeChunks(chunks: seq<Chunk>): seq<byte> {
    if chunks == [] then []
    else Line(chunks[0].size + chunks[0].ext) + Line(chunks[0].data) + EncodeChunks(chunks[1..])
  }

  function EncodeTrailers(trailers: seq<seq<byte>>): seq<byte> {
    if trailers == [] then CRLF else Line(trailers[0]) + EncodeTrailers(trailers[1..])
  }

  function Encode(chunks: seq<Chunk>, last: Chunk, trailers: seq<seq<byte>>): seq<byte> {
    EncodeChunks(chunks) + Line(last.size + last.ext) + EncodeTrailers(trailers)
  }

  function Payload(chunks: seq<Chunk>): seq<byte> {
    if chunks == [] then [] else chunks[0].data + Payload(chunks[1..])
  }

  lemma SizeLineReads(c: Chunk)
    requires WellFormed(c)
    ensures Strtoul(c.size + c.ext + [0], 16) == (|c.data|, |c.size|)
  {
    hide Digit, Value, OneLine, Strtoul;
    var rest := c.ext + [0];
    assert c.size + c.ext + [0] == c.size + rest;
    NulStops();
    assert rest[0] == if c.ext == [] then 0 else c.ext[0];
    NumeralReads(c.size, rest, 16);
  }

  lemma NulStops()
    ensures Stops(0) && !IsSpace(0)
  {
  }

  lemma {:induction false} TrailersSkip(trailers: seq<seq<byte>>, tail: seq<byte>)
    requires forall t :: t in trailers ==> Trailer(t)
    ensures AfterTrailers(EncodeTrailers(trailers) + tail) == Some(tail)
  {
    hide OneLine, Crlf;
    var s := EncodeTrailers(trailers) + tail;
    if trailers == [] {
      EmptyLine();
      CrlfOfLine([], tail);
      assert s == Line([]) + tail;
      assert s[2..] == tail;
    } else {
      var t, more := trailers[0], EncodeTrailers(trailers[1..]) + tail;
      assert Trailer(t);
      assert s == Line(t) + more;
      CrlfOfLine(t, more);
      assert s[|t| + 2..] == more && s[..|t|] == t;
      assert (t + [0])[0] == t[0];
      TrailersSkip(trailers[1..], tail);
    }
  }

  lemma EmptyLine()
    ensures OneLine([])
  {
  }

  // One chunk in front of anything.
  lemma DechunkChunk(c: Chunk, more: seq<byte>)
    requires WellFormed(c) && c.data != []
    ensures Dechunk(Line(c.size + c.ext) + Line(c.data) + more) == Prepend(c.data, Dechunk(more))
  {
    hide OneLine, Crlf, Strtoul, Digit, Value, Stops;
    var head, t := c.size + c.ext, Line(c.data) + more;
    var s := Line(head) + t;
    assert Line(head) + Line(c.data) + more == s;
    CrlfOfLine(head, t);
    assert s[..|head|] == head && s[|head| + 2..] == t;
    SizeLineReads(c);
    assert t[..|c.data|] == c.data && t[|c.data|..|c.data| + 2] == CRLF && t[|c.data| + 2..] == more;
  }

  lemma DechunkLast(last: Chunk, more: seq<byte>)
    requires WellFormed(last) && last.data == []
    ensures Dechunk(Line(last.size + last.ext) + more) ==
            match AfterTrailers(more) { case None => Stuck([]) case Some(rest) => Done([], rest) }
  {
    hide OneLine, Crlf, Strtoul, Digit, Value, Stops;
    var head := last.size + last.ext;
    var s := Line(head) + more;
    CrlfOfLine(head, more);
    assert s[..|head|] == head && s[|head| + 2..] == more;
    SizeLineReads(last);
  }

  // Decoding inverts encoding: whatever the chunking, the spelling of the sizes,
  // the extensions and the trailers, the body comes out whole and the stream is
  // consumed exactly to the final CRLF.
  lemma {:induction false} DechunkInvertsEncode(chunks: seq<Chunk>, last: Chunk, trailers: seq<seq<byte>>, tail: seq<byte>)
    requires forall c :: c in chunks ==> WellFormed(c) && c.data != []
    requires WellFormed(last) && last.data == []
    requires forall t :: t in trailers ==> Trailer(t)
    ensures Dechunk(Encode(chunks, last, trailers) + tail) == Done(Payload(chunks), tail)
    decreases chunks
  {
    hide WellFormed, Trailer, Dechunk, AfterTrailers;
    var s := Encode(chunks, last, trailers) + tail;
    if chunks == [] {
      assert s == Line(last.size + last.ext) + (EncodeTrailers(trailers) + tail);
      DechunkLast(last, EncodeTrailers(trailers) + tail);
      TrailersSkip(trailers, tail);
    } else {
      var more := Encode(chunks[1..], last, trailers) + tail;
      assert s == Line(chunks[0].size + chunks[0].ext) + Line(chunks[0].data) + more;
      DechunkChunk(chunks[0], more);
      DechunkInvertsEncode(chunks[1..], last, trailers, tail);
    }
  }
}
