// Where the body goes and how it gets there (app/ota/app_ota_http.c, sink_write,
// stream_fixed_body and stream_chunked_body).
module HttpBody {
  import opened Bits
  import opened CText
  import opened OtaStore
  import opened ByteStream
  import opened Chunked

  const RX_CHUNK: nat := 1024

  datatype Mode = OtaChunks | Buffer

  function Code(e: Err): int {
    match e
    case OK => 0 case PARAM => 1 case INVALID_STATE => 2 case INVALID_OFFSET => 3
    case WRITE_FAILED => 4 case COMMIT_FAILED => 5 case ABORTED => 6
  }

  function Min(a: nat, b: nat): nat {
    if a < b then a else b
  }

  class Sink {
    const mode: Mode
    const ota: AppOta
    const buf: array<byte>
    const steady: bool // flash does not fail while the sink is in use
    var otaOffset: nat
    var filled: nat

    constructor (mode: Mode, ota: AppOta, buf: array<byte>, offset: nat, steady: bool)
      requires ota.Valid() && buf != ota.slot
      ensures Valid() && this.mode == mode && this.ota == ota && this.buf == buf && this.steady == steady
      ensures otaOffset == offset && filled == 0
    {
      this.mode, this.ota, this.buf, this.steady, otaOffset, filled := mode, ota, buf, steady, offset, 0;
    }

    ghost predicate Valid()
      reads this, ota, ota.slot
    {
      filled <= buf.Length && buf != ota.slot && ota.Valid()
    }

    // The sink's own offset is the store's: what every chunk call needs.
    ghost predicate InStep()
      reads this, ota, ota.slot
    {
      mode == OtaChunks ==> CanWrite(ota.Model()) && otaOffset == ota.received
    }

    // What a write may change besides the buffer: the store, but only in OTA mode.
    ghost function Target(): set<object> {
      if mode == OtaChunks then {ota, ota.slot} else {}
    }

    // What has arrived: the received part of the slot, or the filled part of the buffer.
    ghost function Content(): seq<byte>
      reads this, buf, ota, ota.slot
    {
      if mode == Buffer then (if filled <= buf.Length then buf[..filled] else [])
      else if ota.received <= ota.slot.Length then ota.slot[..ota.received] else []
    }

    method Write(data: seq<byte>) returns (rc: int)
      requires Valid() && 0 < |data| <= MAX_CHUNK
      modifies this, buf, Target()
      ensures Valid()
      ensures mode == Buffer ==> rc == if |old(Content())| + |data| <= buf.Length then 0 else -1
      ensures mode == Buffer ==> ota.total == old(ota.total)
      ensures mode == Buffer && rc != 0 ==> Content() == old(Content())
      ensures old(InStep()) && rc == 0 ==> InStep() && Content() == old(Content()) + data && ota.total == old(ota.total)
      ensures old(InStep()) && rc != 0 && mode == OtaChunks ==>
                ota.state == FAILED && ota.total == old(ota.total) && (steady ==> |old(Content())| + |data| > ota.total)
      ensures !old(InStep()) ==> rc != 0 && Untouched(old(ota.Model()), ota.Model()) && otaOffset == old(otaOffset)
    {
      if mode == OtaChunks {
        rc := WriteOta(data);
      } else {
        if filled + |data| > buf.Length { return -1; }
        ghost var had := buf[..filled];
        forall i | filled <= i < filled + |data| { buf[i] := data[i - filled]; }
        filled := filled + |data|;
        assert buf[..filled] == had + data;
        return 0;
      }
    }

    // What flash answers to a write.
    method FlashAnswer() returns (env: WriteEnv)
      ensures steady ==> env == Writes
    {
      env := *;
      if steady { env := Writes; }
    }

    method WriteOta(data: seq<byte>) returns (rc: int)
      requires Valid() && mode == OtaChunks && 0 < |data| <= MAX_CHUNK
      modifies this, ota, ota.slot
      ensures Valid()
      ensures old(InStep()) && rc == 0 ==> InStep() && Content() == old(Content()) + data && ota.total == old(ota.total)
      ensures old(InStep()) && rc != 0 ==>
                ota.state == FAILED && ota.total == old(ota.total) && (steady ==> |old(Content())| + |data| > ota.total)
      ensures !old(InStep()) ==> rc != 0 && Untouched(old(ota.Model()), ota.Model()) && otaOffset == old(otaOffset)
    {
      hide Inv, ChunkTest, ChunkBody, Untouched;
      var env := FlashAnswer();
      OutOfStepChunks(ota.Model(), otaOffset, data, env);
      if CanWrite(ota.Model()) {
        InStepChunk(ota.Model(), data, env);
        ChunkLandsIff(ota.Model(), ota.received, data, env);
        RefusedChunk(ota.Model(), data, env);
      }
      var err := ota.Chunk(otaOffset, data, env);
      rc := Code(err);
      if err != OK { return; }
      otaOffset := (otaOffset + |data|) % (U32_MAX + 1);
      return 0;
    }
  }

  // The store is as it was, the last error apart.
  ghost predicate Untouched(o: Ota, t: Ota) {
    t.(lastErr := o.lastErr) == o
  }

  lemma OutOfStepChunks(o: Ota, off: nat, data: seq<byte>, env: WriteEnv)
    requires Inv(o)
    ensures |o.burns| == |o.slot| && Untouched(o, o)
    ensures !(CanWrite(o) && off == o.received) ==>
              var r := ChunkBody(o, off, data, env); r.1 != OK && Untouched(o, r.0)
  {
    hide ChunkBody;
    if !(CanWrite(o) && off == o.received) {
      OutOfStepChunk(o, off, data, env);
    }
  }

  lemma RefusedChunk(o: Ota, data: seq<byte>, env: WriteEnv)
    requires Inv(o) && CanWrite(o) && |o.burns| == |o.slot| && data != []
    ensures ChunkBody(o, o.received, data, env).0.total == o.total
  {
  }

  // One turn of the copying loops: at most a buffer full from the stream into the
  // sink. rc tells which of the three steps failed.
  method Pump(bs: Stream, sink: Sink, left: nat) returns (rc: int, got: nat, ghost data: seq<byte>)
    requires bs.Valid() && sink.Valid() && left > 0
    modifies bs, bs.link, sink, sink.buf, sink.Target()
    ensures bs.Valid() && sink.Valid() && bs.link.Flag(old(bs.link.running))
    ensures old(sink.InStep()) ==> sink.ota.total == old(sink.ota.total)
    ensures rc == 0 ==> 0 < got <= left && got <= 1024
    ensures !old(bs.link.running) ==> rc == -1 && bs.Pending() == old(bs.Pending())
    ensures rc == 0 || rc == -3 ==> |data| <= left && old(bs.Pending()) == data + bs.Pending()
    ensures rc == 0 ==> got == |data|
    ensures rc == 0 && old(sink.InStep()) ==>
              sink.InStep() && sink.Content() == old(sink.Content()) + data && sink.ota.total == old(sink.ota.total)
    ensures rc == -1 || rc == -2 ==>
              (old(sink.InStep()) ==> sink.InStep()) && sink.Content() == old(sink.Content()) && sink.ota.total == old(sink.ota.total)
    ensures rc != 0 ==>
              || (rc == -1 && !bs.link.running)
              || (rc == -2 && (bs.link.reliable ==> old(bs.Pending()) == []))
              || (rc == -3 && Refused(sink, |old(sink.Content())| + |data|, old(sink.InStep())))
  {
    hide Inv, Sink.Valid, Sink.InStep, Sink.Content, Refused;
    data := [];
    var running := bs.link.Running();
    if !running { return -1, 0, data; }
    var want := if left > RX_CHUNK then RX_CHUNK else left;
    var r, bytes := bs.ReadSome(want);
    if r != 0 { return -2, 0, data; }
    data := bytes;
    var wrc := sink.Write(bytes);
    if wrc != 0 {
      RefusedBy(sink, |old(sink.Content())| + |data|, old(sink.InStep()));
      return -3, 0, data;
    }
    return 0, |bytes|, data;
  }

  // Why a sink turned data away: the buffer is too small for what was coming, or
  // the OTA session it was in step with has failed, on steady flash because more
  // came than it was to hold.
  ghost predicate Refused(sink: Sink, coming: nat, inStep: bool)
    reads sink, sink.ota
  {
    if sink.mode == Buffer then coming > sink.buf.Length
    else inStep ==> sink.ota.state == FAILED && (sink.steady ==> coming > sink.ota.total)
  }

  lemma RefusedBy(sink: Sink, coming: nat, inStep: bool)
    requires sink.mode == Buffer ==> coming > sink.buf.Length
    requires sink.mode == OtaChunks && inStep ==> sink.ota.state == FAILED && (sink.steady ==> coming > sink.ota.total)
    ensures Refused(sink, coming, inStep)
  {
  }

  lemma RefusedMore(sink: Sink, a: nat, b: nat)
    requires Refused(sink, a, true) && a <= b
    ensures Refused(sink, b, true)
  {
  }

  // A body of known length: exactly that many bytes move from the stream to the
  // sink, in order, however recv cuts them.
  method StreamFixedBody(bs: Stream, sink: Sink, bodyTotal: nat) returns (rc: int, ghost fed: seq<byte>)
    requires bs.Valid() && sink.Valid()
    modifies bs, bs.link, sink, sink.buf, sink.Target()
    ensures bs.Valid() && sink.Valid() && bs.link.Flag(old(bs.link.running))
    ensures old(sink.InStep()) ==> sink.ota.total == old(sink.ota.total)
    ensures rc == 0 ==> |fed| == bodyTotal && old(bs.Pending()) == fed + bs.Pending()
    ensures bodyTotal > 0 && !old(bs.link.running) ==> rc == -1 && fed == []
    ensures fed <= old(bs.Pending()) && |fed| <= bodyTotal
    ensures rc != -3 && old(sink.InStep()) ==>
              sink.InStep() && sink.Content() == old(sink.Content()) + fed && sink.ota.total == old(sink.ota.total)
    ensures rc != 0 ==>
              || (rc == -1 && !bs.link.running)
              || (rc == -2 && (bs.link.reliable ==> |old(bs.Pending())| < bodyTotal))
              || (rc == -3 && (old(sink.InStep()) ==> Refused(sink, |old(sink.Content())| + Min(bodyTotal, |old(bs.Pending())|), true)))
  {
    hide Inv, Sink.Valid, Sink.InStep, Sink.Content, Stream.Valid, Stream.Pending, Refused;
    var seen := 0;
    fed := [];
    ghost var had := |sink.Content()|;
    ghost var coming := had + Min(bodyTotal, |bs.Pending()|);
    while seen < bodyTotal
      invariant bs.Valid() && sink.Valid() && bs.link.Flag(old(bs.link.running))
      invariant |fed| == seen <= bodyTotal && old(bs.Pending()) == fed + bs.Pending()
      invariant !old(bs.link.running) ==> fed == []
      invariant old(sink.InStep()) ==>
                  sink.InStep() && sink.Content() == old(sink.Content()) + fed && sink.ota.total == old(sink.ota.total)
    {
      var r, got, data := Pump(bs, sink, bodyTotal - seen);
      if r == -3 && old(sink.InStep()) { RefusedMore(sink, had + |fed| + |data|, coming); }
      if r != 0 { return r, fed; }
      seen := seen + got;
      fed := fed + data;
    }
    return 0, fed;
  }

  // ------------------------------------------------------------------
  // The chunked decoder
  // ------------------------------------------------------------------

  // The line buffer holds the line, its terminator and old bytes; strtoul sees no
  // further than the terminator.
  lemma LineIsCString(line: seq<byte>, text: seq<byte>)
    requires |text| < |line| && line[..|text|] == text && line[|text|] == 0
    ensures Strtoul(line, 16) == Strtoul(text + [0], 16)
    ensures line[0] == At(text + [0], 0)
  {
    hide Strtoul, Stops, IsSpace;
    NulStops();
    assert line == (text + [0]) + line[|text| + 1..];
    BlanksStopAtNul(text);
    StrtoulLocal(text + [0], line[|text| + 1..], 16);
  }

  lemma {:induction false} BlanksStopAtNul(text: seq<byte>)
    ensures Blanks(text + [0]) < |text| + 1
  {
    NulStops();
    if text != [] {
      assert (text + [0])[1..] == text[1..] + [0];
      BlanksStopAtNul(text[1..]);
    }
  }

  method ReadSize(bs: Stream, line: array<byte>) returns (rc: int, sz: nat)
    requires bs.Valid() && line.Length == LINE_SIZE
    modifies bs, bs.link, line
    ensures bs.Valid() && bs.link.Flag(old(bs.link.running))
    ensures rc == 0 ==> ParseSizeLine(old(bs.Pending())) == Size(sz, bs.Pending())
    ensures rc != 0 ==> !bs.link.running || (bs.link.reliable ==> ParseSizeLine(old(bs.Pending())).NoSize?)
  {
    hide Crlf, Strtoul;
    sz := 0;
    ghost var s := bs.Pending();
    rc := bs.ReadLine(line);
    if rc != 0 { return -2, 0; }
    LineIsCString(line[..], s[..Crlf(s).value]);
    var number := Strtoul(line[..], 16);
    if number.1 == 0 { return -3, 0; }
    sz := number.0;
  }

  // Trailer lines are dropped, overlong ones too, up to the empty one.
  method SkipTrailers(bs: Stream, line: array<byte>) returns (rc: int)
    requires bs.Valid() && line.Length == LINE_SIZE
    modifies bs, bs.link, line
    ensures bs.Valid() && bs.link.Flag(old(bs.link.running))
    ensures rc == 0 ==> AfterTrailers(old(bs.Pending())) == Some(bs.Pending())
    ensures rc != 0 ==> !bs.link.running || (bs.link.reliable ==> AfterTrailers(old(bs.Pending())).None?)
  {
    hide Crlf, Strtoul;
    while true
      invariant bs.Valid() && bs.link.Flag(old(bs.link.running))
      invariant AfterTrailers(old(bs.Pending())) == AfterTrailers(bs.Pending())
      decreases |bs.Pending()|
    {
      ghost var s := bs.Pending();
      rc := bs.ReadLine(line);
      if rc == -2 { continue; }
      if rc != 0 { return -4; }
      LineIsCString(line[..], s[..Crlf(s).value]);
      if line[0] == 0 { return 0; }
    }
  }

  method CopyChunk(bs: Stream, sink: Sink, size: nat) returns (rc: int, ghost fed: seq<byte>)
    requires bs.Valid() && sink.Valid()
    modifies bs, bs.link, sink, sink.buf, sink.Target()
    ensures bs.Valid() && sink.Valid() && bs.link.Flag(old(bs.link.running))
    ensures old(sink.InStep()) ==> sink.ota.total == old(sink.ota.total)
    ensures rc == 0 ==> |fed| == size && old(bs.Pending()) == fed + bs.Pending()
    ensures fed <= old(bs.Pending()) && |fed| <= size
    ensures rc != -7 && old(sink.InStep()) ==>
              sink.InStep() && sink.Content() == old(sink.Content()) + fed && sink.ota.total == old(sink.ota.total)
    ensures rc != 0 ==>
              || !bs.link.running
              || (rc == -6 && (bs.link.reliable ==> |old(bs.Pending())| < size))
              || (rc == -7 && (old(sink.InStep()) ==> Refused(sink, |old(sink.Content())| + Min(size, |old(bs.Pending())|), true)))
  {
    hide Inv, Sink.Valid, Sink.InStep, Sink.Content, Stream.Valid, Stream.Pending, Refused;
    var sz := size;
    fed := [];
    ghost var had := |sink.Content()|;
    ghost var coming := had + Min(size, |bs.Pending()|);
    while sz > 0
      invariant bs.Valid() && sink.Valid() && bs.link.Flag(old(bs.link.running))
      invariant |fed| + sz == size && old(bs.Pending()) == fed + bs.Pending()
      invariant old(sink.InStep()) ==>
                  sink.InStep() && sink.Content() == old(sink.Content()) + fed && sink.ota.total == old(sink.ota.total)
    {
      var r, got, data := Pump(bs, sink, sz);
      if r == -3 && old(sink.InStep()) { RefusedMore(sink, had + |fed| + |data|, coming); }
      if r != 0 {
        return if r == -1 then -5 else if r == -2 then -6 else -7, fed;
      }
      sz := sz - got;
      fed := fed + data;
    }
    return 0, fed;
  }

  // A chunk's data goes to the sink, its line end is checked.
  method ReadChunk(bs: Stream, sink: Sink, size: nat) returns (rc: int, ghost fed: seq<byte>)
    requires bs.Valid() && sink.Valid()
    modifies bs, bs.link, sink, sink.buf, sink.Target()
    ensures bs.Valid() && sink.Valid() && bs.link.Flag(old(bs.link.running))
    ensures old(sink.InStep()) ==> sink.ota.total == old(sink.ota.total)
    ensures rc == 0 ==> TakeChunk(old(bs.Pending()), size) == Whole(fed, bs.Pending())
    ensures fed <= TakeChunk(old(bs.Pending()), size).data
    ensures rc != -7 && old(sink.InStep()) ==>
              sink.InStep() && sink.Content() == old(sink.Content()) + fed && sink.ota.total == old(sink.ota.total)
    ensures rc != 0 ==>
              || !bs.link.running
              || (bs.link.reliable ==> TakeChunk(old(bs.Pending()), size).Cut?)
              || (rc == -7 && (old(sink.InStep()) ==>
                                 Refused(sink, |old(sink.Content())| + |TakeChunk(old(bs.Pending()), size).data|, true)))
  {
    hide Inv, Sink.Valid, Sink.InStep, Sink.Content, Stream.Valid, Stream.Pending, TakeChunk, Refused;
    ghost var t := bs.Pending();
    DataIsOffered(t, size);
    rc, fed := CopyChunk(bs, sink, size);
    if rc != 0 { return; }
    ghost var u := bs.Pending();
    DataTaken(t, fed, u);
    var r, crlf := bs.ReadExact(2);
    if r != 0 { return -8, fed; }
    LineEndTaken(t, fed, crlf, bs.Pending());
    if crlf[0] != CR || crlf[1] != LF { return -9, fed; }
  }

  lemma DataIsOffered(t: seq<byte>, size: nat)
    ensures TakeChunk(t, size).data == t[..Min(size, |t|)] && |TakeChunk(t, size).data| == Min(size, |t|)
    ensures |t| < size ==> TakeChunk(t, size).Cut?
  {
  }

  lemma DataTaken(t: seq<byte>, fed: seq<byte>, u: seq<byte>)
    requires t == fed + u
    ensures |u| < 2 ==> TakeChunk(t, |fed|) == Cut(fed)
    ensures TakeChunk(t, |fed|).data == fed
  {
    assert t[..|fed|] == fed;
  }

  lemma LineEndTaken(t: seq<byte>, fed: seq<byte>, crlf: seq<byte>, rest: seq<byte>)
    requires t == fed + (crlf + rest) && |crlf| == 2
    ensures TakeChunk(t, |fed|) == if crlf[0] == CR && crlf[1] == LF then Whole(fed, rest) else Cut(fed)
  {
    var n := |fed|;
    assert t[..n] == fed && t[n..n + 2] == crlf && t[n + 2..] == rest;
    assert crlf == CRLF <==> crlf[0] == CR && crlf[1] == LF;
  }

  // One round of the decoder: a size line, then the trailers or a chunk.
  method Round(bs: Stream, sink: Sink, line: array<byte>) returns (rc: int, finished: bool, ghost fed: seq<byte>)
    requires bs.Valid() && sink.Valid() && line.Length == LINE_SIZE && line != sink.buf && line != sink.ota.slot
    modifies bs, bs.link, line, sink, sink.buf, sink.Target()
    ensures bs.Valid() && sink.Valid() && bs.link.Flag(old(bs.link.running))
    ensures old(sink.InStep()) ==> sink.ota.total == old(sink.ota.total)
    ensures rc == 0 ==> Turned(old(bs.Pending()), fed, finished, bs.Pending())
    ensures !old(bs.link.running) ==> rc == -1 && fed == []
    ensures fed <= Dechunk(old(bs.Pending())).data
    ensures rc != -7 && old(sink.InStep()) ==>
              sink.InStep() && sink.Content() == old(sink.Content()) + fed && sink.ota.total == old(sink.ota.total)
    ensures rc != 0 ==>
              || !bs.link.running
              || (bs.link.reliable ==> Dechunk(old(bs.Pending())).Stuck?)
              || (rc == -7 && (old(sink.InStep()) ==>
                                 Refused(sink, |old(sink.Content())| + |Dechunk(old(bs.Pending())).data|, true)))
  {
    hide Inv, Sink.Valid, Sink.InStep, Sink.Content, ParseSizeLine, AfterTrailers, TakeChunk, Stream.Pending;
    fed := [];
    finished := false;
    var running := bs.link.Running();
    if !running { return -1, false, fed; }
    var sz;
    rc, sz := ReadSize(bs, line);
    if rc != 0 { return; }
    if sz == 0 {
      rc := SkipTrailers(bs, line);
      return rc, true, fed;
    }
    rc, fed := ReadChunk(bs, sink, sz);
  }

  // What a round makes of the stream s, leaving t.
  ghost predicate Turned(s: seq<byte>, fed: seq<byte>, finished: bool, t: seq<byte>) {
    if finished then Dechunk(s) == Done(fed, t) else Dechunk(s) == Prepend(fed, Dechunk(t)) && |t| < |s|
  }

  // The sink gets exactly what Dechunk says the stream encodes, and the stream is
  // consumed exactly to the end of the body, however it is split between leftover
  // bytes and recv calls. On a reliable link the decoder fails only when it is
  // stopped, when the stream is no chunked body, or when the sink refuses.
  method StreamChunkedBody(bs: Stream, sink: Sink) returns (rc: int, ghost fed: seq<byte>)
    requires bs.Valid() && sink.Valid()
    modifies bs, bs.link, sink, sink.buf, sink.Target()
    ensures bs.Valid() && sink.Valid() && bs.link.Flag(old(bs.link.running))
    ensures old(sink.InStep()) ==> sink.ota.total == old(sink.ota.total)
    ensures rc == 0 ==> Dechunk(old(bs.Pending())) == Done(fed, bs.Pending())
    ensures !old(bs.link.running) ==> rc == -1 && fed == []
    ensures fed <= Dechunk(old(bs.Pending())).data
    ensures rc != -7 && old(sink.InStep()) ==>
              sink.InStep() && sink.Content() == old(sink.Content()) + fed && sink.ota.total == old(sink.ota.total)
    ensures rc != 0 ==>
              || !bs.link.running
              || (bs.link.reliable ==> Dechunk(old(bs.Pending())).Stuck?)
              || (rc == -7 && (old(sink.InStep()) ==>
                                 Refused(sink, |old(sink.Content())| + |Dechunk(old(bs.Pending())).data|, true)))
  {
    hide Inv, Sink.Valid, Sink.InStep, Sink.Content, Stream.Pending, Dechunk, Turned, Along;
    var line := new byte[LINE_SIZE];
    ghost var whole := bs.Pending();
    fed := [];
    StartsAlong(whole);
    while true
      invariant bs.Valid() && sink.Valid() && bs.link.Flag(old(bs.link.running))
      invariant Along(whole, fed, bs.Pending())
      invariant !old(bs.link.running) ==> fed == []
      invariant old(sink.InStep()) ==>
                  sink.InStep() && sink.Content() == old(sink.Content()) + fed && sink.ota.total == old(sink.ota.total)
      decreases |bs.Pending()|
    {
      ghost var s, had := bs.Pending(), fed;
      var finished;
      ghost var data;
      rc, finished, data := Round(bs, sink, line);
      fed := had + data;
      GoesAlong(whole, had, s, data, finished, bs.Pending());
      if rc != 0 || finished { return; }
    }
  }

  // Of a stream that was `whole`, `fed` is decoded and `rest` is left.
  ghost predicate Along(whole: seq<byte>, fed: seq<byte>, rest: seq<byte>) {
    Dechunk(whole) == Prepend(fed, Dechunk(rest))
  }

  lemma StartsAlong(whole: seq<byte>)
    ensures Along(whole, [], whole)
  {
    hide Dechunk;
  }

  lemma GoesAlong(whole: seq<byte>, had: seq<byte>, s: seq<byte>, data: seq<byte>, finished: bool, t: seq<byte>)
    requires Along(whole, had, s) && data <= Dechunk(s).data
    ensures had + data <= Dechunk(whole).data && (Dechunk(whole).Stuck? <==> Dechunk(s).Stuck?)
    ensures |Dechunk(whole).data| == |had| + |Dechunk(s).data|
    ensures Turned(s, data, finished, t) ==>
              if finished then Dechunk(whole) == Done(had + data, t) else Along(whole, had + data, t) && |t| < |s|
  {
    hide Dechunk;
    if Turned(s, data, finished, t) && !finished {
      var d := Dechunk(t);
      assert had + (data + d.data) == (had + data) + d.data;
    }
  }

  // End to end: a reliable link delivering an encoded body decodes, unless the
  // download is stopped or the data does not fit the sink.
  method ReceiveEncoded(bs: Stream, sink: Sink, ghost chunks: seq<Chunk>, ghost last: Chunk,
                        ghost trailers: seq<seq<byte>>, ghost tail: seq<byte>) returns (rc: int)
    requires bs.Valid() && sink.Valid() && sink.InStep()
    requires (forall c :: c in chunks ==> WellFormed(c) && c.data != []) && WellFormed(last) && last.data == []
    requires forall t :: t in trailers ==> Trailer(t)
    requires bs.Pending() == Encode(chunks, last, trailers) + tail
    modifies bs, bs.link, sink, sink.buf, sink.Target()
    ensures rc == 0 ==> bs.Valid() && bs.Pending() == tail && sink.Content() == old(sink.Content()) + Payload(chunks)
    ensures rc != 0 && bs.link.running && bs.link.reliable ==>
              Refused(sink, |old(sink.Content())| + |Payload(chunks)|, true)
  {
    hide Inv, Sink.Valid, Sink.InStep, Sink.Content, Stream.Pending, Dechunk, WellFormed, Trailer;
    DechunkInvertsEncode(chunks, last, trailers, tail);
    ghost var fed;
    rc, fed := StreamChunkedBody(bs, sink);
  }
}
