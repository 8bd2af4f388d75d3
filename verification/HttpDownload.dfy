// The download (app/ota/app_ota_http.c, image_pre_stream, http_request_once,
// http_request and http_task), with no other client of the OTA store.
module HttpDownload {
  import opened Bits
  import opened CText
  import opened OtaStore
  import opened ByteStream
  import opened Chunked
  import opened HttpHead
  import opened HttpReceive
  import opened HttpBody
  import S = HttpServerHead
  import Url

  const URL_MAX: nat := 240
  const MAX_REDIRECTS: nat := 2
  const SIGNED_HEADER_MAX: nat := 512

  predicate IsRedirect(status: int) {
    status == 301 || status == 302 || status == 303 || status == 307 || status == 308
  }

  // The response continues a download at `from`.
  predicate Continues(rsp: Response, from: nat) {
    from > 0 && rsp.status == 206 && rsp.hasContentRange && rsp.rangeStart == from
  }

  // The response carries the whole resource and says how long it is.
  predicate Starts(rsp: Response) {
    rsp.status == 200 && rsp.hasContentLength
  }

  // How many body bytes a response without chunking announces (uint32_t arithmetic).
  function BodyTotal(rsp: Response): Option<nat> {
    if rsp.status == 206 && rsp.hasContentRange then Some((rsp.rangeEnd + 1 - rsp.rangeStart) % (U32_MAX + 1))
    else if (rsp.status == 200 || rsp.status == 201) && rsp.hasContentLength then Some(rsp.contentLength)
    else None
  }

  // An image request from offset `from` meets a session that is there.
  ghost predicate Resumable(sink: Sink, from: nat)
    reads sink, sink.ota, sink.ota.slot
  {
    from > 0 ==> CanWrite(sink.ota.Model()) && sink.ota.received == from
  }

  // The decision before the first body byte: a new session, the old one, or a new
  // one in place of the old.
  method ImagePreStream(rsp: Response, from: nat, sink: Sink) returns (rc: int)
    requires sink.Valid() && sink.mode == OtaChunks
    modifies sink, sink.ota, sink.ota.slot
    ensures sink.Valid()
    ensures rc == if rsp.isChunked then -10
                  else if Continues(rsp, from) then 0
                  else if !Starts(rsp) then (if from == 0 then -1 else -4)
                  else if rc == 0 then 0 else if from == 0 then -2 else -3
    ensures rc == -2 || rc == -3 ==> rsp.contentLength == 0 || !CanWrite(sink.ota.Model())
    ensures rc == -3 ==> !CanWrite(sink.ota.Model())
    ensures rc == -1 || rc == -4 || rc == -10 ==> sink.ota.Model() == old(sink.ota.Model())
    ensures rc == -2 || rc == -3 ==>
              sink.steady ==> !(old(sink.ota.inited) && 0 < rsp.contentLength <= sink.ota.slot.Length)
    ensures rc == 0 && old(Resumable(sink, from)) ==>
              && sink.InStep()
              && if Continues(rsp, from)
                 then sink.Content() == old(sink.Content()) && sink.ota.total == old(sink.ota.total)
                 else sink.Content() == [] && sink.ota.total == rsp.contentLength
  {
    if rsp.isChunked { return -10; }
    if from == 0 {
      if rsp.status != 200 || !rsp.hasContentLength { return -1; }
      rc := Restart(sink, rsp.contentLength);
      return if rc != 0 then -2 else 0;
    }
    if rsp.status == 206 && rsp.hasContentRange && rsp.rangeStart == from {
      sink.otaOffset := rsp.rangeStart;
      return 0;
    }
    if rsp.status == 200 && rsp.hasContentLength {
      sink.ota.Abort();
      rc := Restart(sink, rsp.contentLength);
      return if rc != 0 then -3 else 0;
    }
    return -4;
  }

  method Restart(sink: Sink, total: nat) returns (rc: int)
    requires sink.Valid() && sink.mode == OtaChunks
    modifies sink, sink.ota, sink.ota.slot
    ensures sink.Valid()
    ensures rc == 0 ==> sink.InStep() && sink.Content() == [] && sink.ota.total == total
    ensures rc != 0 ==> (total == 0 && sink.ota.Model() == old(sink.ota.Model())) || !CanWrite(sink.ota.Model())
    ensures rc != 0 && sink.steady ==> !(old(sink.ota.inited) && 0 < total <= sink.ota.slot.Length)
  {
    hide Inv, BeginStep;
    var env: EraseEnv := *;
    if sink.steady { env := Erases; }
    BeginLandsIff(sink.ota.Model(), total, env);
    UninitedIsIdle(sink.ota.Model());
    var err := sink.ota.Begin(total, env);
    if err != OK { return -1; }
    sink.otaOffset := 0;
    return 0;
  }

  lemma UninitedIsIdle(o: Ota)
    requires Inv(o)
    ensures !o.inited ==> !CanWrite(o)
  {
  }

  // What the body of a response is, given all the bytes behind its head.
  predicate Framed(rsp: Response, bytes: seq<byte>, body: seq<byte>) {
    if rsp.isChunked then Dechunk(bytes).Done? && Dechunk(bytes).data == body
    else BodyTotal(rsp).Some? && 0 < BodyTotal(rsp).value == |body| && body <= bytes
  }

  // The whole announced body is in the bytes behind the head.
  predicate HasBody(rsp: Response, bytes: seq<byte>) {
    if rsp.isChunked then Dechunk(bytes).Done?
    else BodyTotal(rsp).Some? && 0 < BodyTotal(rsp).value <= |bytes|
  }

  // How many body bytes there are to deliver.
  function Offered(rsp: Response, bytes: seq<byte>): nat {
    if rsp.isChunked then |Dechunk(bytes).data|
    else if BodyTotal(rsp).Some? then Min(BodyTotal(rsp).value, |bytes|) else 0
  }

  // The sink cannot take that many bytes in all, or its session has ended.
  ghost predicate TurnedAway(sink: Sink, coming: nat)
    reads sink, sink.ota, sink.ota.slot
  {
    if sink.mode == Buffer then coming > sink.buf.Length else !CanWrite(sink.ota.Model())
  }

  // The sink has room for that many bytes in all, and flash that will take them.
  ghost predicate Room(sink: Sink, coming: nat)
    reads sink, sink.ota
  {
    if sink.mode == Buffer then coming <= sink.buf.Length else sink.steady && coming <= sink.ota.total
  }

  lemma RefusedIsTurnedAway(sink: Sink, coming: nat)
    requires Refused(sink, coming, true)
    ensures TurnedAway(sink, coming) && !Room(sink, coming)
  {
  }

  method StreamBody(bs: Stream, sink: Sink, rsp: Response) returns (rc: int, ghost body: seq<byte>)
    requires bs.Valid() && sink.Valid()
    modifies bs, bs.link, sink, sink.buf, sink.Target()
    ensures bs.Valid() && sink.Valid() && rc <= 0 && bs.link.Flag(old(bs.link.running))
    ensures rc == 0 ==> Framed(rsp, old(bs.Pending()), body)
    ensures !old(bs.link.running) ==> rc != 0 && body == []
    ensures rc != 0 && rc != -14 && rc != -15 ==> body == []
    ensures !old(bs.link.running) && old(sink.InStep()) ==> sink.Content() == old(sink.Content())
    ensures rc != 0 ==> rc == if rsp.isChunked then -14
                              else if BodyTotal(rsp).None? then -12
                              else if BodyTotal(rsp).value == 0 then -13 else -15
    ensures rc == 0 && old(sink.InStep()) ==>
              sink.InStep() && sink.Content() == old(sink.Content()) + body && sink.ota.total == old(sink.ota.total)
    ensures rc != 0 && bs.link.running && bs.link.reliable && HasBody(rsp, old(bs.Pending())) && old(sink.InStep()) ==>
              TurnedAway(sink, |old(sink.Content())| + Offered(rsp, old(bs.Pending())))
    ensures old(bs.link.Calm()) && HasBody(rsp, old(bs.Pending())) && old(sink.InStep()) &&
            old(Room(sink, |sink.Content()| + Offered(rsp, bs.Pending()))) ==>
              rc == 0
  {
    hide Inv, Sink.Valid, Sink.InStep, Sink.Content, Stream.Pending, Dechunk, Refused, TurnedAway;
    ghost var coming := |sink.Content()| + Offered(rsp, bs.Pending());
    assert sink.Content() + [] == sink.Content();
    if rsp.isChunked {
      rc, body := StreamChunkedBody(bs, sink);
      if Refused(sink, coming, true) { RefusedIsTurnedAway(sink, coming); }
      return if rc != 0 then -14 else 0, body;
    }
    var total := BodyTotal(rsp);
    if total.None? { return -12, []; }
    if total.value == 0 { return -13, []; }
    rc, body := StreamFixedBody(bs, sink, total.value);
    if Refused(sink, coming, true) { RefusedIsTurnedAway(sink, coming); }
    return if rc != 0 then -15 else 0, body;
  }

  // What one request asks whom for.
  datatype Query = Query(host: seq<byte>, port: nat, path: seq<byte>, from: nat)

  function QueryOf(url: seq<byte>, from: nat): Query
    requires Url.ParseUrl(url).Ok?
  {
    var u := Url.ParseUrl(url).parts;
    Query(u.host, u.port, u.path, from)
  }

  // The network: what is sent in answer to each request, and the requests sent so
  // far. When it is calm, connecting works, recv fails only when nothing is left,
  // and nobody stops the download.
  class Net {
    const calm: bool
    const server: (nat, Query) -> seq<byte>
    var asked: seq<Query>

    constructor (calm: bool, server: (nat, Query) -> seq<byte>)
      ensures this.calm == calm && this.server == server && asked == []
    {
      this.calm, this.server, asked := calm, server, [];
    }

    // Resolving, connecting and sending can all fail, and the run flag may already
    // have been cleared.
    method Connect(q: Query) returns (rc: int, link: Link)
      modifies this
      ensures fresh(link) && (rc == 0 || rc == -2 || rc == -3 || rc == -4 || rc == -6)
      ensures asked == if rc == 0 then old(asked) + [q] else old(asked)
      ensures rc == 0 ==> link.unread == server(|old(asked)|, q)
      ensures calm ==> rc == 0 && link.Calm()
    {
      var running: bool, reliable: bool, kept: bool := *, *, *;
      link := new Link(server(|asked|, q), running || calm, reliable || calm, kept || calm);
      rc := 0;
      if !calm {
        if
        case true => rc := 0;
        case true => rc := -2;
        case true => rc := -3;
        case true => rc := -4;
        case true => rc := -6;
      }
      if rc == 0 { asked := asked + [q]; }
    }
  }

  // The peer sent `stream`; its head says rsp, its body is `body`.
  ghost predicate Answered(stream: seq<byte>, rsp: Response, body: seq<byte>) {
    && HeadEnd(stream).Some?
    && var h := stream[..HeadEnd(stream).value];
       && (HeadAnchored(h) ==> ParseHead(h, |h|) == Head(rsp))
       && Framed(rsp, stream[|h|..], body)
  }

  // What an image request that succeeded did to the session: `had` and `total`
  // before, `has` and `total'` after.
  predicate Stored(rsp: Response, from: nat, body: seq<byte>, had: seq<byte>, total: nat, has: seq<byte>, newTotal: nat) {
    if Continues(rsp, from) then has == had + body && newTotal == total
    else Starts(rsp) && has == body && newTotal == rsp.contentLength
  }

  // What each failure code of one request says about the URL, the bytes the peer
  // sent and the answer in them.
  ghost predicate Failure(rc: int, url: seq<byte>, image: bool, stream: seq<byte>, rsp: Response) {
    && (rc == -1 <==> Url.ParseUrl(url).Bad?)
    && (rc == -7 ==> |stream| >= HEADER_MAX && HeadEnd(stream[..HEADER_MAX]).None?)
    && (rc == -9 ==> HasBadHead(stream))
    && (rc == -10 ==> IsRedirect(rsp.status) && !rsp.hasLocation)
    && (rc <= -11 ==> !IsRedirect(rsp.status))
    && (rc == -11 ==> image)
    && (rc == -12 ==> !rsp.isChunked && BodyTotal(rsp).None?)
    && (rc == -13 ==> !rsp.isChunked && BodyTotal(rsp) == Some(0))
    && (rc == -14 ==> rsp.isChunked)
    && (rc == -15 ==> !rsp.isChunked && BodyTotal(rsp).Some? && BodyTotal(rsp).value > 0)
    && -15 <= rc <= -1 && rc != -5
  }

  lemma AnswerIs(stream: seq<byte>, parsed: nat, rsp: Response, behind: seq<byte>, body: seq<byte>)
    requires HasHead(stream, parsed, rsp, behind)
    ensures |rsp.location| <= URL_MAX && HeadEnd(stream).Some?
    ensures Framed(rsp, behind, body) ==> Answered(stream, rsp, body)
    ensures Says(stream, rsp)
  {
    hide Framed, HeadEnd, HeadAnchored, ParseHead;
  }

  // A final answer that the request can use, with all of its body behind it.
  predicate Usable(rsp: Response, from: nat, image: bool, bytes: seq<byte>) {
    && !IsRedirect(rsp.status)
    && (image ==> !rsp.isChunked && (Continues(rsp, from) || Starts(rsp)))
    && HasBody(rsp, bytes)
  }

  // A session to resume, or a buffer.
  ghost predicate Prepared(sink: Sink, from: nat)
    reads sink, sink.ota, sink.ota.slot
  {
    sink.mode == OtaChunks ==> Resumable(sink, from)
  }

  // The sink can take the answer: its buffer has room, or flash is steady and the
  // session that continues or is to begin has.
  ghost predicate Takes(sink: Sink, rsp: Response, from: nat, bytes: seq<byte>)
    reads sink, sink.ota, sink.ota.slot, sink.buf
  {
    if sink.mode == Buffer then |sink.Content()| + Offered(rsp, bytes) <= sink.buf.Length
    else sink.steady && Fits(sink.ota, rsp, from, bytes)
  }

  // The store has room for the answer, in its session or in a new one.
  ghost predicate Fits(ota: AppOta, rsp: Response, from: nat, bytes: seq<byte>)
    reads ota
  {
    if Continues(rsp, from) then from + Offered(rsp, bytes) <= ota.total
    else ota.inited && rsp.contentLength <= ota.slot.Length
  }

  // A session that has begun, or continues, has room for what the answer offers.
  lemma BegunHasRoom(sink: Sink, rsp: Response, from: nat, bytes: seq<byte>)
    requires sink.mode == OtaChunks && sink.steady && Usable(rsp, from, true, bytes)
    requires if Continues(rsp, from) then |sink.Content()| == from && from + Offered(rsp, bytes) <= sink.ota.total
             else sink.Content() == [] && sink.ota.total == rsp.contentLength
    ensures Room(sink, |sink.Content()| + Offered(rsp, bytes))
  {
  }

  // What it takes for the answer to be delivered, spelled out.
  lemma WhatIsAsked(sink: Sink, rsp: Response, from: nat, image: bool, bytes: seq<byte>)
    requires image <==> sink.mode == OtaChunks
    ensures IsRedirect(rsp.status) <==> rsp.status in {301, 302, 303, 307, 308}
    ensures Prepared(sink, from) <==> (image ==> Resumable(sink, from))
    ensures Usable(rsp, from, image, bytes) ==> !IsRedirect(rsp.status) && HasBody(rsp, bytes)
    ensures Usable(rsp, from, true, bytes) ==>
              !rsp.isChunked && (Continues(rsp, from) || (Starts(rsp) && rsp.contentLength > 0))
    ensures Takes(sink, rsp, from, bytes) ==>
              if image then
                && sink.steady
                && if Continues(rsp, from) then from + Offered(rsp, bytes) <= sink.ota.total
                   else sink.ota.inited && rsp.contentLength <= sink.ota.slot.Length
              else |sink.Content()| + Offered(rsp, bytes) <= sink.buf.Length
  {
    hide Sink.Content, Resumable, Offered;
  }

  lemma BufferIsInStep(sink: Sink, coming: nat)
    requires sink.mode == Buffer
    ensures sink.InStep() && (Room(sink, coming) <==> coming <= sink.buf.Length)
  {
  }

  lemma ResumesThere(sink: Sink, rsp: Response, from: nat)
    requires sink.Valid() && sink.mode == OtaChunks && Resumable(sink, from)
    ensures Continues(rsp, from) ==> |sink.Content()| == from
  {
  }

  lemma EndedTurnsAway(sink: Sink, coming: nat)
    requires sink.mode == OtaChunks && !CanWrite(sink.ota.Model())
    ensures TurnedAway(sink, coming)
  {
  }

  lemma StillTurnedAway(sink: Sink, a: nat, b: nat)
    requires TurnedAway(sink, a) && (sink.mode == Buffer ==> a <= b)
    ensures TurnedAway(sink, b)
  {
  }

  lemma BodyIsStored(rsp: Response, from: nat, body: seq<byte>, was: seq<byte>, wasTotal: nat, had: seq<byte>, total: nat)
    requires if Continues(rsp, from) then had == was && total == wasTotal
             else Starts(rsp) && had == [] && total == rsp.contentLength
    ensures Stored(rsp, from, body, was, wasTotal, had + body, total)
  {
    assert [] + body == body;
  }

  // The hook before the first body byte: image downloads have one.
  method CallHook(rsp: Response, from: nat, sink: Sink, image: bool, ghost bytes: seq<byte>) returns (rc: int)
    requires sink.Valid() && (image <==> sink.mode == OtaChunks)
    modifies sink, sink.Target()
    ensures sink.Valid() && (!image ==> rc == 0 && unchanged(sink))
    ensures rc != 0 ==> rsp.isChunked || !Continues(rsp, from)
    ensures rc == 0 && image ==> !rsp.isChunked && (Continues(rsp, from) || Starts(rsp))
    ensures rc == 0 && old(Prepared(sink, from)) ==>
              && sink.InStep()
              && if image && !Continues(rsp, from) then sink.Content() == [] && sink.ota.total == rsp.contentLength
                 else sink.Content() == old(sink.Content()) && sink.ota.total == old(sink.ota.total)
    ensures rc != 0 && Usable(rsp, from, image, bytes) ==> !CanWrite(sink.ota.Model())
    ensures old(Prepared(sink, from)) && Usable(rsp, from, image, bytes) && old(Takes(sink, rsp, from, bytes)) ==>
              rc == 0 && Room(sink, |sink.Content()| + Offered(rsp, bytes))
  {
    hide Takes, Fits, Usable, IsRedirect;
    hide Inv, Room, Sink.Valid, Sink.InStep, Sink.Content, Resumable, Continues, Starts, BodyTotal, HasBody, Offered;
    WhatIsAsked(sink, rsp, from, image, bytes);
    if !image {
      BufferIsInStep(sink, |sink.Content()| + Offered(rsp, bytes));
      return 0;
    }
    if Resumable(sink, from) { ResumesThere(sink, rsp, from); }
    rc := ImagePreStream(rsp, from, sink);
    if rc == 0 && Usable(rsp, from, true, bytes) && old(Prepared(sink, from)) && old(Takes(sink, rsp, from, bytes)) {
      BegunHasRoom(sink, rsp, from, bytes);
    }
  }

  // What is done with a complete head: a redirect is handed back, a final answer
  // goes through the hook and its body into the sink.
  method Deliver(link: Link, leftover: seq<byte>, rsp: Response, from: nat, sink: Sink, image: bool)
    returns (rc: int, ghost body: seq<byte>)
    requires sink.Valid() && (image <==> sink.mode == OtaChunks)
    modifies link, sink, sink.buf, sink.Target()
    ensures sink.Valid() && (rc == 1 || rc == 0 || -15 <= rc <= -10) && link.Flag(old(link.running))
    ensures rc == 1 <==> rsp.status in {301, 302, 303, 307, 308} && rsp.hasLocation
    ensures rc == -10 <==> rsp.status in {301, 302, 303, 307, 308} && !rsp.hasLocation
    ensures rc == 1 || rc == -10 ==> unchanged(sink) && unchanged(sink.buf) && unchanged(sink.ota) && unchanged(sink.ota.slot)
    ensures rc == 0 ==> Framed(rsp, leftover + old(link.unread), body)
    ensures rc == 0 && image ==> !rsp.isChunked && (Continues(rsp, from) || Starts(rsp))
    ensures rc == -11 ==> image && (rsp.isChunked || !Continues(rsp, from))
    ensures rc < -11 ==> rc == if rsp.isChunked then -14
                               else if BodyTotal(rsp).None? then -12
                               else if BodyTotal(rsp).value == 0 then -13 else -15
    ensures rc == 0 && image && old(Resumable(sink, from)) ==>
              sink.InStep() && Stored(rsp, from, body, old(sink.Content()), old(sink.ota.total), sink.Content(), sink.ota.total)
    ensures rc == 0 && !image && old(sink.InStep()) ==> sink.InStep() && sink.Content() == old(sink.Content()) + body
    ensures rc != 0 && link.running && link.reliable && old(Prepared(sink, from)) &&
            Usable(rsp, from, image, leftover + old(link.unread)) ==>
              TurnedAway(sink, |old(sink.Content())| + Offered(rsp, leftover + old(link.unread)))
    ensures old(link.Calm()) && old(Prepared(sink, from)) && Usable(rsp, from, image, leftover + old(link.unread)) &&
            old(Takes(sink, rsp, from, leftover + link.unread)) ==>
              rc == 0
  {
    hide Takes, Fits, Usable, Prepared, IsRedirect, Stored;
    hide Inv, Room, Sink.Valid, Sink.InStep, Sink.Content, Resumable, Framed, Continues, Starts, BodyTotal, HasBody, Offered, TurnedAway;
    ghost var bytes := leftover + link.unread;
    ghost var coming := |sink.Content()| + Offered(rsp, bytes);
    WhatIsAsked(sink, rsp, from, image, bytes);
    body := [];
    if IsRedirect(rsp.status) {
      return if rsp.hasLocation then 1 else -10, body;
    }
    var prc := CallHook(rsp, from, sink, image, bytes);
    if prc != 0 {
      if image && Usable(rsp, from, true, bytes) { EndedTurnsAway(sink, coming); }
      return -11, body;
    }
    var bs := new Stream(link, leftover);
    ghost var had, total := sink.Content(), sink.ota.total;
    rc, body := StreamBody(bs, sink, rsp);
    if TurnedAway(sink, |had| + Offered(rsp, bytes)) { StillTurnedAway(sink, |had| + Offered(rsp, bytes), coming); }
    if image && old(Resumable(sink, from)) { BodyIsStored(rsp, from, body, old(sink.Content()), old(sink.ota.total), had, total); }
  }

  // What the peer sent begins with a head that fits the buffer and is understood from
  // its own bytes.
  ghost predicate Understood(stream: seq<byte>) {
    && HeadEnd(stream).Some? && HeadEnd(stream).value <= HEADER_MAX
    && var h := stream[..HeadEnd(stream).value];
       HeadAnchored(h) && ParseHead(h, |h|).Head?
  }

  ghost function Meaning(stream: seq<byte>): Response
    requires Understood(stream)
  {
    var h := stream[..HeadEnd(stream).value];
    ParseHead(h, |h|).rsp
  }

  ghost function Behind(stream: seq<byte>): seq<byte>
    requires Understood(stream)
  {
    stream[HeadEnd(stream).value..]
  }

  // It can be used, and all of the body follows.
  ghost predicate Deliverable(stream: seq<byte>, from: nat, image: bool) {
    Understood(stream) && Usable(Meaning(stream), from, image, Behind(stream))
  }

  // How many bytes that body has.
  ghost function Due(stream: seq<byte>): nat {
    if Understood(stream) then Offered(Meaning(stream), Behind(stream)) else 0
  }

  lemma {:induction false} HeadEndWithin(s: seq<byte>, n: nat)
    requires HeadEnd(s).Some? && HeadEnd(s).value <= n <= |s|
    ensures HeadEnd(s[..n]) == HeadEnd(s)
  {
    if !EndsHead(s) {
      HeadEndWithin(s[1..], n - 1);
      assert s[..n][1..] == s[1..][..n - 1];
    }
  }

  // Such a head is received, and read as it says.
  lemma UnderstoodIsReceived(stream: seq<byte>)
    requires Understood(stream)
    ensures HeadEnd(stream).Some? && !HasBadHead(stream)
    ensures |stream| >= HEADER_MAX ==> HeadEnd(stream[..HEADER_MAX]).Some?
    ensures forall parsed, rsp, behind :: HasHead(stream, parsed, rsp, behind) ==> rsp == Meaning(stream) && behind == Behind(stream)
  {
    hide HeadEnd, HeadAnchored, ParseHead;
    if |stream| >= HEADER_MAX { HeadEndWithin(stream, HEADER_MAX); }
  }

  // The head of what the peer sent says rsp.
  ghost predicate Says(stream: seq<byte>, rsp: Response) {
    && HeadEnd(stream).Some?
    && var h := stream[..HeadEnd(stream).value];
       HeadAnchored(h) ==> ParseHead(h, |h|) == Head(rsp)
  }

  // A request of that outcome reached the peer.
  predicate Sent(rc: int, url: seq<byte>) {
    Url.ParseUrl(url).Ok? && rc != -2 && rc != -3 && rc != -4 && rc != -6
  }

  // What is done on a connection once the request is sent.
  method Exchange(link: Link, from: nat, sink: Sink, image: bool, ghost url: seq<byte>)
    returns (rc: int, rsp: Response, ghost body: seq<byte>)
    requires sink.Valid() && (image <==> sink.mode == OtaChunks) && Url.ParseUrl(url).Ok?
    modifies link, sink, sink.buf, sink.Target()
    ensures sink.Valid() && rc <= 1 && Sent(rc, url)
    ensures rc < 0 ==> Failure(rc, url, image, old(link.unread), rsp)
    ensures rc == 1 ==> |rsp.location| <= URL_MAX && Says(old(link.unread), rsp)
    ensures rc == 1 ==> rsp.status in {301, 302, 303, 307, 308} && rsp.hasLocation
    ensures rc == 1 ==> unchanged(sink) && unchanged(sink.buf) && unchanged(sink.ota) && unchanged(sink.ota.slot)
    ensures rc == 0 ==> !IsRedirect(rsp.status) && Answered(old(link.unread), rsp, body)
    ensures rc == 0 && image ==> !rsp.isChunked && (Continues(rsp, from) || Starts(rsp))
    ensures rc == -11 ==> rsp.isChunked || !Continues(rsp, from)
    ensures rc == 0 && image && old(Resumable(sink, from)) ==>
              sink.InStep() && Stored(rsp, from, body, old(sink.Content()), old(sink.ota.total), sink.Content(), sink.ota.total)
    ensures rc == 0 && !image && old(sink.InStep()) ==> sink.InStep() && sink.Content() == old(sink.Content()) + body
    ensures old(link.Calm()) && Understood(old(link.unread)) ==>
              rsp == Meaning(old(link.unread)) && (rc == 1 <==> IsRedirect(rsp.status) && rsp.hasLocation)
    ensures old(link.Calm()) && Deliverable(old(link.unread), from, image) && old(Prepared(sink, from)) ==>
              && (rc == 0 || TurnedAway(sink, |old(sink.Content())| + Due(old(link.unread))))
              && (old(Takes(sink, Meaning(link.unread), from, Behind(link.unread))) ==> rc == 0)
  {
    hide Understood, Meaning, Behind, Usable, Prepared, TurnedAway, Takes, Offered, HasBadHead, Says;
    hide Inv, Sink.Valid, Sink.InStep, Sink.Content, Resumable, Framed, HeadEnd, HasHead, Answered, Continues, Starts, Stored, BodyTotal, Url.ParseUrl;
    body := [];
    ghost var stream := link.unread;
    var hdrbuf := new byte[HEADER_MAX];
    var filled, parsed;
    rc, rsp, filled, parsed := ReceiveHead(link, hdrbuf);
    if Understood(stream) { UnderstoodIsReceived(stream); }
    if rc != 0 { return; }
    ghost var behind := hdrbuf[parsed..filled] + link.unread;
    rc, body := Deliver(link, hdrbuf[parsed..filled], rsp, from, sink, image);
    AnswerIs(stream, parsed, rsp, behind, body);
  }

  // One request: what it was, and, when it is calm, what comes of it.
  method RequestOnce(net: Net, url: seq<byte>, from: nat, sink: Sink, image: bool)
    returns (rc: int, rsp: Response, ghost stream: seq<byte>, ghost body: seq<byte>)
    requires sink.Valid() && (image <==> sink.mode == OtaChunks)
    modifies net, sink, sink.buf, sink.Target()
    ensures sink.Valid() && rc <= 1
    ensures net.asked == if Sent(rc, url) then old(net.asked) + [QueryOf(url, from)] else old(net.asked)
    ensures Sent(rc, url) ==> stream == net.server(|old(net.asked)|, QueryOf(url, from))
    ensures rc >= 0 ==> Sent(rc, url)
    ensures rc < 0 ==> Failure(rc, url, image, stream, rsp)
    ensures rc == 1 ==> |rsp.location| <= URL_MAX && Says(stream, rsp)
    ensures rc == 1 ==> rsp.status in {301, 302, 303, 307, 308} && rsp.hasLocation
    ensures rc == 1 ==> unchanged(sink) && unchanged(sink.buf) && unchanged(sink.ota) && unchanged(sink.ota.slot)
    ensures rc == 0 ==> !IsRedirect(rsp.status) && Answered(stream, rsp, body)
    ensures rc == 0 && image ==> !rsp.isChunked && (Continues(rsp, from) || Starts(rsp))
    ensures rc == -11 ==> rsp.isChunked || !Continues(rsp, from)
    ensures rc == 0 && image && old(Resumable(sink, from)) ==>
              sink.InStep() && Stored(rsp, from, body, old(sink.Content()), old(sink.ota.total), sink.Content(), sink.ota.total)
    ensures rc == 0 && !image && old(sink.InStep()) ==> sink.InStep() && sink.Content() == old(sink.Content()) + body
    ensures net.calm && Url.ParseUrl(url).Ok? ==> Sent(rc, url)
    ensures net.calm && Sent(rc, url) && Understood(stream) ==>
              rsp == Meaning(stream) && (rc == 1 <==> IsRedirect(rsp.status) && rsp.hasLocation)
    ensures net.calm && Sent(rc, url) && Deliverable(stream, from, image) && old(Prepared(sink, from)) ==>
              && (rc == 0 || TurnedAway(sink, |old(sink.Content())| + Due(stream)))
              && (old(Takes(sink, Meaning(stream), from, Behind(stream))) ==> rc == 0)
  {
    hide Understood, Meaning, Behind, Prepared, TurnedAway, Takes, Due, Deliverable, Says, IsRedirect;
    hide Inv, Sink.Valid, Sink.InStep, Sink.Content, Resumable, Answered, Continues, Starts, Stored, Url.ParseUrl;
    rsp, stream, body := Empty(0), [], [];
    var u := Url.ParseUrl(url);
    if u.Bad? { return -1, rsp, stream, body; }
    var link;
    rc, link := net.Connect(Query(u.parts.host, u.parts.port, u.parts.path, from));
    if rc != 0 { return; }
    stream := link.unread;
    rc, rsp, body := Exchange(link, from, sink, image, url);
  }

  // A request and what was answered.
  datatype Hop = Hop(url: seq<byte>, answer: Response)

  // Every hop so far was answered by a redirect, the first for url itself, each other
  // for the Location of the one before it; the last leads to `next`.
  ghost predicate Chain(server: (nat, Query) -> seq<byte>, before: seq<Query>, url: seq<byte>, from: nat,
                        trail: seq<Hop>, next: seq<byte>) {
    && url == (if trail == [] then next else trail[0].url)
    && forall j :: 0 <= j < |trail| ==> Leads(server, |before|, from, trail, j, next)
  }

  ghost predicate Leads(server: (nat, Query) -> seq<byte>, base: nat, from: nat, trail: seq<Hop>, j: nat, next: seq<byte>)
    requires j < |trail|
  {
    Redirects(server, base + j, from, trail[j], if j + 1 < |trail| then trail[j + 1].url else next)
  }

  // What the n-th request was answered with: a redirect to `next`.
  ghost predicate Redirects(server: (nat, Query) -> seq<byte>, n: nat, from: nat, hop: Hop, next: seq<byte>) {
    && Url.ParseUrl(hop.url).Ok? && Says(server(n, QueryOf(hop.url, from)), hop.answer)
    && hop.answer.status in {301, 302, 303, 307, 308} && hop.answer.hasLocation && next == hop.answer.location
  }

  // The requests that were sent for `url`: one per hop, unless the last was not.
  ghost predicate Followed(server: (nat, Query) -> seq<byte>, before: seq<Query>, after: seq<Query>, url: seq<byte>, from: nat,
                           rc: int, trail: seq<Hop>) {
    && 0 < |trail| <= 3
    && var last := |trail| - 1;
       && Chain(server, before, url, from, trail[..last], trail[last].url)
       && after == before + Queries(if Sent(rc, trail[last].url) then trail else trail[..last], from)
  }

  // The queries of the hops, as far as their URLs can be read.
  function Queries(trail: seq<Hop>, from: nat): seq<Query> {
    if trail == [] then []
    else
      var n := |trail| - 1;
      Queries(trail[..n], from) + (if Url.ParseUrl(trail[n].url).Ok? then [QueryOf(trail[n].url, from)] else [])
  }

  // The last answer, and the bytes it was read from.
  ghost predicate Ends(server: (nat, Query) -> seq<byte>, before: seq<Query>, from: nat,
                       rc: int, rsp: Response, stream: seq<byte>, trail: seq<Hop>) {
    && trail != []
    && var last := trail[|trail| - 1];
       && last.answer == rsp
       && (Sent(rc, last.url) ==> stream == server(|before| + |trail| - 1, QueryOf(last.url, from)))
  }

  // The requests ended with one that could be sent.
  predicate Asked(trail: seq<Hop>) {
    trail != [] && Url.ParseUrl(trail[|trail| - 1].url).Ok?
  }

  lemma QueriesGrow(trail: seq<Hop>, hop: Hop, from: nat)
    ensures Queries(trail + [hop], from) ==
            Queries(trail, from) + (if Url.ParseUrl(hop.url).Ok? then [QueryOf(hop.url, from)] else [])
  {
    hide Url.ParseUrl;
    assert (trail + [hop])[..|trail|] == trail;
  }

  lemma {:induction false} ChainIsAsked(server: (nat, Query) -> seq<byte>, before: seq<Query>, url: seq<byte>, from: nat,
                                        trail: seq<Hop>, next: seq<byte>)
    requires Chain(server, before, url, from, trail, next)
    ensures |Queries(trail, from)| == |trail|
  {
    hide Says, Url.ParseUrl;
    if trail != [] {
      var n := |trail| - 1;
      assert Leads(server, |before|, from, trail, n, next);
      var up := trail[..n];
      forall j | 0 <= j < n
        ensures Leads(server, |before|, from, up, j, trail[n].url)
      {
        assert Leads(server, |before|, from, trail, j, next);
      }
      ChainIsAsked(server, before, url, from, up, trail[n].url);
    }
  }

  lemma ChainGrows(server: (nat, Query) -> seq<byte>, before: seq<Query>, url: seq<byte>, from: nat, trail: seq<Hop>, hop: Hop, next: seq<byte>)
    requires Chain(server, before, url, from, trail, hop.url) && Redirects(server, |before| + |trail|, from, hop, next)
    ensures Chain(server, before, url, from, trail + [hop], next)
  {
    hide Redirects;
    forall j | 0 <= j <= |trail|
      ensures Leads(server, |before|, from, trail + [hop], j, next)
    {
      if j < |trail| { assert Leads(server, |before|, from, trail, j, hop.url); }
    }
  }

  // The last hop closes the trail, whatever came of it.
  lemma TrailEnds(server: (nat, Query) -> seq<byte>, before: seq<Query>, after: seq<Query>, url: seq<byte>, from: nat,
                  rc: int, had: seq<Hop>, hop: Hop, stream: seq<byte>)
    requires |had| < 3 && Chain(server, before, url, from, had, hop.url)
    requires after == before + Queries(had, from) + (if Sent(rc, hop.url) then [QueryOf(hop.url, from)] else [])
    requires Sent(rc, hop.url) ==> stream == server(|before| + |Queries(had, from)|, QueryOf(hop.url, from))
    ensures Followed(server, before, after, url, from, rc, had + [hop])
    ensures Ends(server, before, from, rc, hop.answer, stream, had + [hop])
  {
    hide Chain, Url.ParseUrl;
    assert (had + [hop])[..|had|] == had;
    QueriesGrow(had, hop, from);
    ChainIsAsked(server, before, url, from, had, hop.url);
  }

  // Follows redirects: at most three requests, and no byte is stored before the
  // last of them.
  method Request(net: Net, url: seq<byte>, from: nat, sink: Sink, image: bool)
    returns (rc: int, rsp: Response, ghost stream: seq<byte>, ghost body: seq<byte>, ghost trail: seq<Hop>)
    requires sink.Valid() && (image <==> sink.mode == OtaChunks)
    modifies net, sink, sink.buf, sink.Target()
    ensures sink.Valid() && rc <= 0
    ensures |url| > 240 ==> rc == -1 && trail == [] && net.asked == old(net.asked)
    ensures |url| <= 240 ==>
              Followed(net.server, old(net.asked), net.asked, url, from, rc, trail) && Ends(net.server, old(net.asked), from, rc, rsp, stream, trail)
    ensures rc < 0 && trail != [] ==>
              || (rc == -1 && |trail| == MAX_REDIRECTS + 1 && IsRedirect(rsp.status))
              || Failure(rc, trail[|trail| - 1].url, image, stream, rsp)
    ensures rc == 0 ==> !IsRedirect(rsp.status) && Answered(stream, rsp, body)
    ensures rc == 0 && image ==> !rsp.isChunked && (Continues(rsp, from) || Starts(rsp))
    ensures rc == 0 && image && old(Resumable(sink, from)) ==>
              sink.InStep() && Stored(rsp, from, body, old(sink.Content()), old(sink.ota.total), sink.Content(), sink.ota.total)
    ensures rc == 0 && !image && old(sink.InStep()) ==> sink.InStep() && sink.Content() == old(sink.Content()) + body
    ensures net.calm && Asked(trail) ==>
              && Sent(rc, trail[|trail| - 1].url)
              && (Understood(stream) ==>
                    rsp == Meaning(stream) && (IsRedirect(rsp.status) && rsp.hasLocation ==> |trail| == MAX_REDIRECTS + 1))
              && (Deliverable(stream, from, image) && old(Prepared(sink, from)) ==>
                    && (rc == 0 || TurnedAway(sink, |old(sink.Content())| + Due(stream)))
                    && (old(Takes(sink, Meaning(stream), from, Behind(stream))) ==> rc == 0))
  {
    hide Deliverable, Due, Prepared, TurnedAway, Understood, Meaning, Behind, Takes, Says, Queries, Chain, Followed, Ends, Url.ParseUrl;
    hide Inv, Answered, Continues, Starts, Stored, Failure;
    rsp, stream, body, trail := Empty(0), [], [], [];
    if |url| > URL_MAX { return -1, rsp, stream, body, trail; }
    var working := url;
    var hop := 0;
    ghost var before := net.asked;
    NoHopYet(net.server, before, url, from);
    while true
      invariant sink.Valid() && hop == |trail| <= MAX_REDIRECTS && |working| <= URL_MAX
      invariant Chain(net.server, before, url, from, trail, working)
      invariant net.asked == before + Queries(trail, from)
      invariant unchanged(sink) && unchanged(sink.buf) && unchanged(sink.ota) && unchanged(sink.ota.slot)
      decreases MAX_REDIRECTS - hop
    {
      rc, rsp, stream, body := RequestOnce(net, working, from, sink, image);
      ghost var had := trail;
      ghost var last := Hop(working, rsp);
      ChainIsAsked(net.server, before, url, from, had, working);
      TrailEnds(net.server, before, net.asked, url, from, rc, had, last, stream);
      trail := had + [last];
      if rc != 1 { return; }
      if hop == MAX_REDIRECTS {
        TrailEnds(net.server, before, net.asked, url, from, -1, had, last, stream);
        return -1, rsp, stream, body, trail;
      }
      ChainGrows(net.server, before, url, from, had, last, rsp.location);
      QueriesGrow(had, last, from);
      working := rsp.location;
      hop := hop + 1;
    }
  }

  lemma NoHopYet(server: (nat, Query) -> seq<byte>, before: seq<Query>, url: seq<byte>, from: nat)
    ensures Chain(server, before, url, from, [], url) && before + Queries([], from) == before
  {
  }

  // ------------------------------------------------------------------
  // What a server that keeps to RFC 7233 makes of it
  // ------------------------------------------------------------------

  // One is a prefix of the other: the bytes of a body as far as both go.
  predicate Agree(a: seq<byte>, b: seq<byte>) {
    a <= b || b <= a
  }

  // A server of one fixed resource r answers with meaning m and then `bytes`,
  // possibly cut short. Sections 3.1 and 4.1 of RFC 7233: it may ignore the Range
  // field, or send a part; section 4.2: Content-Range says which part of what.
  predicate Honest(m: Response, bytes: seq<byte>, r: seq<byte>) {
    && (m.status == 200 && m.hasContentLength ==> m.contentLength == |r| && Agree(bytes, r))
    && (m.status == 206 && m.hasContentRange ==>
          m.rangeStart <= m.rangeEnd < |r| == m.rangeTotal && Agree(bytes, r[m.rangeStart..m.rangeEnd + 1]))
  }

  lemma {:induction false} HeadersEndClosed(hs: seq<S.Header>)
    ensures Closed(S.PrintHeaders(hs))
  {
    hide S.Print;
    if hs != [] {
      HeadersEndClosed(hs[1..]);
    }
  }

  lemma PrintedHeadIsAnchored(s: S.ServerHead)
    requires S.WellFormedHead(s)
    ensures |S.PrintHead(s)| >= 4 && Closed(S.PrintHead(s)) && HeadAnchored(S.PrintHead(s))
    ensures ParseHead(S.PrintHead(s), |S.PrintHead(s)|) == Head(S.MeaningOf(s.headers, Empty(s.status)))
  {
    hide HeadAnchored, ParseHead, S.StatusLine, S.PrintHeaders, S.MeaningOf;
    var h := S.PrintHead(s);
    HeadersEndClosed(s.headers);
    forall x
      ensures ParseHead(h + x, |h|) == Head(S.MeaningOf(s.headers, Empty(s.status)))
    {
      S.HeadReads(s, x);
    }
    assert h + [] == h;
    LocalIffAnchored(h);
  }

  lemma AnswerUnderstood(s: S.ServerHead, bytes: seq<byte>, rsp: Response, body: seq<byte>)
    requires S.WellFormedHead(s) && Answered(S.PrintHead(s) + bytes, rsp, body)
    ensures rsp == S.MeaningOf(s.headers, Empty(s.status)) && Framed(rsp, bytes, body)
  {
    hide HeadAnchored, ParseHead, HeadEnd, S.PrintHead, S.MeaningOf, Framed, S.WellFormedHead;
    var stream := S.PrintHead(s) + bytes;
    S.HeadEndsThere(s, bytes);
    PrintedHeadIsAnchored(s);
    assert stream[..|S.PrintHead(s)|] == S.PrintHead(s) && stream[|S.PrintHead(s)|..] == bytes;
  }

  // An answer printed by a server, with a head that fits the buffer, is delivered
  // when its meaning can be used and its body is all there.
  lemma PrintedIsDeliverable(s: S.ServerHead, bytes: seq<byte>, from: nat, image: bool)
    requires S.WellFormedHead(s) && |S.PrintHead(s)| <= HEADER_MAX
    ensures Deliverable(S.PrintHead(s) + bytes, from, image) <==>
            Usable(S.MeaningOf(s.headers, Empty(s.status)), from, image, bytes)
  {
    hide HeadAnchored, ParseHead, HeadEnd, S.PrintHead, S.MeaningOf, Usable, S.WellFormedHead;
    var stream := S.PrintHead(s) + bytes;
    S.HeadEndsThere(s, bytes);
    PrintedHeadIsAnchored(s);
    assert stream[..|S.PrintHead(s)|] == S.PrintHead(s) && stream[|S.PrintHead(s)|..] == bytes;
  }

  // A printed answer that brings all of r, whole, or the rest from where the download
  // stands, in a head that fits the 1024 bytes kept for it.
  predicate BringsAll(s: S.ServerHead, bytes: seq<byte>, stream: seq<byte>, r: seq<byte>, from: nat) {
    && S.WellFormedHead(s) && |S.PrintHead(s)| <= 1024 && stream == S.PrintHead(s) + bytes
    && AllOf(S.MeaningOf(s.headers, Empty(s.status)), bytes, r, from)
  }

  predicate AllOf(m: Response, bytes: seq<byte>, r: seq<byte>, from: nat) {
    && !m.isChunked
    && if m.status == 200 then m.hasContentLength && m.contentLength == |r| && r <= bytes
       else
         && m.status == 206 && m.hasContentRange
         && 0 < from == m.rangeStart <= m.rangeEnd == |r| - 1 && m.rangeTotal == |r| && r[from..] <= bytes
  }

  lemma AllOfIsUsable(m: Response, bytes: seq<byte>, r: seq<byte>, from: nat)
    requires AllOf(m, bytes, r, from) && 0 < |r| <= U32_MAX
    ensures Usable(m, from, true, bytes) && Honest(m, bytes, r)
    ensures if Continues(m, from) then from + Offered(m, bytes) == |r| == m.rangeEnd + 1 else m.contentLength == |r|
  {
  }

  lemma AllComes(s: S.ServerHead, bytes: seq<byte>, stream: seq<byte>, r: seq<byte>, from: nat)
    requires BringsAll(s, bytes, stream, r, from) && 0 < |r| <= U32_MAX
    ensures var m := S.MeaningOf(s.headers, Empty(s.status));
            Understood(stream) && Meaning(stream) == m && Behind(stream) == bytes && Honest(m, bytes, r)
    ensures Deliverable(stream, from, true)
    ensures if Continues(Meaning(stream), from)
            then from + Due(stream) == from + Offered(Meaning(stream), Behind(stream)) == |r| == Meaning(stream).rangeEnd + 1
            else Meaning(stream).contentLength == |r|
  {
    hide HeadAnchored, ParseHead, HeadEnd, S.PrintHead, S.MeaningOf, S.WellFormedHead, Usable, Honest, Offered, Continues, AllOf;
    AllOfIsUsable(S.MeaningOf(s.headers, Empty(s.status)), bytes, r, from);
    S.HeadEndsThere(s, bytes);
    PrintedHeadIsAnchored(s);
    assert stream[..|S.PrintHead(s)|] == S.PrintHead(s) && stream[|S.PrintHead(s)|..] == bytes;
  }

  lemma AllFits(ota: AppOta, stream: seq<byte>, r: seq<byte>, from: nat)
    requires Understood(stream) && ota.inited && |r| <= ota.slot.Length && (from > 0 ==> ota.total == |r|)
    requires if Continues(Meaning(stream), from)
             then from + Due(stream) == from + Offered(Meaning(stream), Behind(stream)) == |r|
             else Meaning(stream).contentLength == |r|
    ensures Fits(ota, Meaning(stream), from, Behind(stream)) && Completes(ota, from, stream)
  {
    hide Understood, Meaning, Behind, Offered, Due;
  }

  // The store is as it must be for that answer to complete it.
  ghost predicate Awaits(ota: AppOta, stream: seq<byte>, from: nat)
    reads ota
  {
    && Deliverable(stream, from, true)
    && Fits(ota, Meaning(stream), from, Behind(stream)) && Completes(ota, from, stream)
  }

  lemma AllAwaited(ota: AppOta, r: seq<byte>, from: nat)
    requires ota.inited && 0 < |r| <= ota.slot.Length && |r| <= U32_MAX && (from > 0 ==> ota.total == |r|)
    ensures forall s, bytes, stream :: BringsAll(s, bytes, stream, r, from) ==> Awaits(ota, stream, from)
  {
    hide BringsAll, Deliverable, Understood, Meaning, Behind, Fits, Completes, Offered, Due;
    forall s, bytes, stream | BringsAll(s, bytes, stream, r, from)
      ensures Awaits(ota, stream, from)
    {
      AllComes(s, bytes, stream, r, from);
      AllFits(ota, stream, r, from);
    }
  }

  // A download that stored such an answer has all of r.
  lemma AllStored(s: S.ServerHead, bytes: seq<byte>, stream: seq<byte>, r: seq<byte>, from: nat, rsp: Response, body: seq<byte>,
                  had: seq<byte>, total: nat, has: seq<byte>, newTotal: nat)
    requires BringsAll(s, bytes, stream, r, from) && 0 < |r| <= U32_MAX
    requires Answered(stream, rsp, body) && !rsp.isChunked && Stored(rsp, from, body, had, total, has, newTotal)
    requires from > 0 ==> |had| == from && had <= r && total == |r|
    ensures has == r && newTotal == |r|
  {
    hide HeadAnchored, ParseHead, HeadEnd, S.PrintHead, S.MeaningOf, S.WellFormedHead, Usable, Honest, Offered, Continues, Starts, AllOf;
    hide Answered, Stored, Understood, Meaning, Behind;
    AllComes(s, bytes, stream, r, from);
    AnswerUnderstood(s, bytes, rsp, body);
    DownloadedResource(s, bytes, r, from, rsp, body, had, total, has, newTotal);
  }

  // Download correctness. Whatever the answer was (a fresh 200, a matching 206, a
  // 200 that ignored the Range), a zero result means the slot holds a prefix of
  // the resource and the session expects the whole of it; the prefix is the whole
  // unless the server chose to send a part that stops early.
  lemma DownloadedResource(s: S.ServerHead, bytes: seq<byte>, r: seq<byte>, from: nat, rsp: Response, body: seq<byte>,
                           had: seq<byte>, total: nat, has: seq<byte>, newTotal: nat)
    requires S.WellFormedHead(s) && Answered(S.PrintHead(s) + bytes, rsp, body) && !rsp.isChunked
    requires Honest(S.MeaningOf(s.headers, Empty(s.status)), bytes, r) && |r| <= U32_MAX
    requires from > 0 ==> |had| == from && had <= r && total == |r|
    requires Stored(rsp, from, body, had, total, has, newTotal)
    ensures has <= r && newTotal == |r|
    ensures has == r <==> (Continues(rsp, from) ==> rsp.rangeEnd + 1 == |r|)
    ensures has == r <==> |has| == newTotal
  {
    hide S.PrintHead, S.MeaningOf, S.WellFormedHead, Answered;
    AnswerUnderstood(s, bytes, rsp, body);
    if Continues(rsp, from) {
      var part := r[rsp.rangeStart..rsp.rangeEnd + 1];
      assert |body| == |part| && body == part;
      assert had + body == r[..rsp.rangeEnd + 1];
    } else {
      assert body == r;
    }
  }

  // The answer of a server that sends just the third of four bytes.
  function ShortAnswer(): S.ServerHead {
    S.ServerHead(0x31, 206, [], [S.Header(CONTENT_RANGE, [SPACE], S.Range(2, 2, 4))])
  }

  lemma {:induction false} NoCrIsOneLine(s: seq<byte>)
    requires CR !in s
    ensures OneLine(s)
  {
    if |s| >= 2 {
      assert s[0] in s;
      NoCrIsOneLine(s[1..]);
    }
  }

  lemma SmallDecimals()
    ensures Decimal(2) == [0x32] && Decimal(4) == [0x34] && Decimal(206) == [0x32, 0x30, 0x36]
  {
    assert Decimal(20) == Decimal(2) + [DigitByte(0)];
    assert Decimal(206) == Decimal(20) + [DigitByte(6)];
  }

  lemma ShortHeaderIsWellFormed()
    ensures S.WellFormed(S.Header(CONTENT_RANGE, [SPACE], S.Range(2, 2, 4)))
  {
    hide OneLine, Decimal, Lower, Digit, PlainByte;
    var h := S.Header(CONTENT_RANGE, [SPACE], S.Range(2, 2, 4));
    SmallDecimals();
    UnitsHaveNoCr();
    ContentRangeIsPlain();
    forall i | 0 <= i < |CONTENT_RANGE|
      ensures Lower(CONTENT_RANGE[i]) == CONTENT_RANGE[i] && CONTENT_RANGE[i] != CR && CONTENT_RANGE[i] != 0
    {
      PlainBytes(CONTENT_RANGE[i]);
      LfStops();
    }
    var text := BYTES_SP + [0x32] + [MINUS] + [0x32] + [SLASH] + [0x34];
    assert CR !in text && 0 !in text;
    assert S.Print(h) == CONTENT_RANGE + [COLON] + [SPACE] + text;
    NoCrIsOneLine(S.Print(h));
  }

  lemma ShortAnswerIsWellFormed()
    ensures S.WellFormedHead(ShortAnswer())
    ensures S.MeaningOf(ShortAnswer().headers, Empty(206)) ==
            Empty(206).(rangeStart := 2, rangeEnd := 2, rangeTotal := 4, hasContentRange := true)
  {
    hide OneLine, Decimal, S.WellFormed;
    SmallDecimals();
    ShortHeaderIsWellFormed();
    var line := S.StatusLine(ShortAnswer());
    assert line == HTTP_1 + [0x31, SPACE, 0x32, 0x30, 0x36];
    assert CR !in HTTP_1 && 0 !in HTTP_1;
    NoCrIsOneLine(line);
    assert ShortAnswer().headers[1..] == [];
  }

  // The case that is not the whole: two of four bytes are there, that server sends
  // the third, and the request counts as a success.
  lemma ShortPartIsASuccess(r: seq<byte>)
    requires |r| == 4
    ensures var m := S.MeaningOf(ShortAnswer().headers, Empty(206));
            && S.WellFormedHead(ShortAnswer()) && Answered(S.PrintHead(ShortAnswer()) + r[2..3], m, r[2..3])
            && Honest(m, r[2..3], r) && Stored(m, 2, r[2..3], r[..2], 4, r[..3], 4) && r[..3] != r
  {
    hide HeadAnchored, ParseHead, HeadEnd, S.PrintHead, S.MeaningOf, S.WellFormedHead, ShortAnswer, Dechunk;
    var s, part := ShortAnswer(), r[2..3];
    ShortAnswerIsWellFormed();
    assert s.status == 206 by { ShortStatus(); }
    S.HeadEndsThere(s, part);
    PrintedHeadIsAnchored(s);
    var stream := S.PrintHead(s) + part;
    assert stream[..|S.PrintHead(s)|] == S.PrintHead(s) && stream[|S.PrintHead(s)|..] == part;
    assert part == r[2..][..1] && r[..2] + part == r[..3];
  }

  lemma TextJoins(a: seq<byte>, b: seq<byte>, s: string, t: string)
    requires IsText(a, s) && IsText(b, t)
    ensures IsText(a + b, s + t)
  {
  }

  // That answer as it goes over the wire.
  lemma ShortAnswerInText()
    ensures IsText(S.PrintHead(ShortAnswer()), ("HTTP/1." + "1 206\r\n") + ("content-range" + (": " + "bytes " + "2-2/4\r\n\r\n")))
  {
    hide Decimal, IsText, S.StatusLine, S.PrintHeaders;
    var status, value := [0x31, SPACE, 0x32, 0x30, 0x36, CR, LF],
                         [COLON, SPACE] + BYTES_SP + [0x32, MINUS, 0x32, SLASH, 0x34, CR, LF, CR, LF];
    ShortAnswerPrints();
    RangeName();
    StatusLineWord();
    StatusInText();
    ValueInText();
    TextJoins(HTTP_1, status, "HTTP/1.", "1 206\r\n");
    TextJoins(CONTENT_RANGE, value, "content-range", ": " + "bytes " + "2-2/4\r\n\r\n");
    TextJoins(HTTP_1 + status, CONTENT_RANGE + value, "HTTP/1." + "1 206\r\n",
              "content-range" + (": " + "bytes " + "2-2/4\r\n\r\n"));
  }

  lemma ShortAnswerPrints()
    ensures S.PrintHead(ShortAnswer()) ==
            (HTTP_1 + [0x31, SPACE, 0x32, 0x30, 0x36, CR, LF]) +
            (CONTENT_RANGE + ([COLON, SPACE] + BYTES_SP + [0x32, MINUS, 0x32, SLASH, 0x34, CR, LF, CR, LF]))
  {
    hide Decimal;
    SmallDecimals();
    assert ShortAnswer().headers[1..] == [];
    var text := S.Text(S.Range(2, 2, 4));
    assert text == BYTES_SP + [0x32, MINUS, 0x32, SLASH, 0x34];
    assert S.PrintHeaders(ShortAnswer().headers) ==
           CONTENT_RANGE + ([COLON, SPACE] + BYTES_SP + [0x32, MINUS, 0x32, SLASH, 0x34, CR, LF, CR, LF]);
    assert Line(S.StatusLine(ShortAnswer())) == HTTP_1 + [0x31, SPACE, 0x32, 0x30, 0x36, CR, LF];
  }

  lemma StatusInText()
    ensures IsText([0x31, SPACE, 0x32, 0x30, 0x36, CR, LF], "1 206\r\n")
  {
  }

  lemma ValueInText()
    ensures IsText([COLON, SPACE] + BYTES_SP + [0x32, MINUS, 0x32, SLASH, 0x34, CR, LF, CR, LF], ": " + "bytes " + "2-2/4\r\n\r\n")
  {
    hide IsText;
    ValuePieces();
    ValueWords();
    TextJoins([COLON, SPACE], BYTES_SP, ": ", "bytes ");
    TextJoins([COLON, SPACE] + BYTES_SP, [0x32, MINUS, 0x32, SLASH, 0x34, CR, LF, CR, LF], ": " + "bytes ", "2-2/4\r\n\r\n");
  }

  lemma ValuePieces()
    ensures IsText([COLON, SPACE], ": ") && IsText([0x32, MINUS, 0x32, SLASH, 0x34, CR, LF, CR, LF], "2-2/4\r\n\r\n")
  {
  }

  lemma ShortStatus()
    ensures ShortAnswer().status == 206
  {
  }

  // ------------------------------------------------------------------
  // The task
  // ------------------------------------------------------------------

  datatype HttpState = HTTP_IDLE | HTTP_RESOLVING | HTTP_HEADER_DL | HTTP_COMMITTING | HTTP_DONE | HTTP_FAILED

  // The received part of the slot.
  ghost function Image(ota: AppOta): seq<byte>
    reads ota, ota.slot
  {
    if ota.received <= ota.slot.Length then ota.slot[..ota.received] else []
  }

  // Where a download started now would continue.
  function ResumePoint(ota: AppOta): nat
    reads ota
  {
    if ota.state == WRITING && ota.received > 0 then ota.received else 0
  }

  // The final answer can be delivered.
  ghost predicate ImageComes(trail: seq<Hop>, stream: seq<byte>, from: nat) {
    Asked(trail) && Deliverable(stream, from, true)
  }

  // It brings the session to the size that was announced.
  ghost predicate Completes(ota: AppOta, from: nat, stream: seq<byte>)
    reads ota
  {
    Understood(stream) && (Continues(Meaning(stream), from) ==> from + Due(stream) == ota.total)
  }

  lemma DeliverableIsUnderstood(stream: seq<byte>, from: nat, image: bool)
    requires Deliverable(stream, from, image)
    ensures Understood(stream)
  {
  }

  // Whether what was stored is all of the session.
  lemma ImageCompletes(stream: seq<byte>, from: nat, rsp: Response, body: seq<byte>,
                       had: seq<byte>, total: nat, has: seq<byte>, newTotal: nat)
    requires Deliverable(stream, from, true) && rsp == Meaning(stream) && Answered(stream, rsp, body)
    requires Stored(rsp, from, body, had, total, has, newTotal) && (from > 0 ==> |had| == from)
    ensures |has| > 0 && (|has| == newTotal <==> (Continues(rsp, from) ==> from + Due(stream) == total))
  {
    hide HeadEnd, HeadAnchored, ParseHead, Dechunk;
  }

  lemma StartedIsWriting(o: Ota)
    requires Inv(o) && CanWrite(o)
    ensures o.received > 0 <==> o.state == WRITING
  {
  }

  // What became of the header's download.
  datatype Header = Header(rc: int, rsp: Response, stream: seq<byte>, trail: seq<Hop>)

  ghost predicate HeaderFetched(server: (nat, Query) -> seq<byte>, before: seq<Query>, after: seq<Query>, url: seq<byte>, h: Header) {
    Followed(server, before, after, url, 0, h.rc, h.trail) && Ends(server, before, 0, h.rc, h.rsp, h.stream, h.trail)
  }

  // It can be delivered, and fits the 512 bytes kept for it.
  ghost predicate HeaderComes(h: Header) {
    Asked(h.trail) && Deliverable(h.stream, 0, false) && Due(h.stream) <= 512
  }

  lemma ResumedImage(ota: AppOta)
    requires ota.Valid()
    ensures ResumePoint(ota) > 0 ==> |Image(ota)| == ResumePoint(ota)
    ensures ResumePoint(ota) == if ota.state == WRITING then ota.received else 0
  {
  }

  lemma CommittedImage(ota: AppOta)
    requires ota.Valid()
    ensures ota.state == COMMITTED ==> |Image(ota)| == ota.total
  {
  }

  class HttpOta {
    const ota: AppOta
    var running: bool
    var state: HttpState
    var coreInited: bool
    var imageUrl: seq<byte>
    var headerUrl: Option<seq<byte>>
    var autoCommit: bool

    constructor (ota: AppOta)
      ensures this.ota == ota && !running && state == HTTP_IDLE && !coreInited
      ensures imageUrl == [] && headerUrl == None && !autoCommit
    {
      this.ota, running, state, coreInited := ota, false, HTTP_IDLE, false;
      imageUrl, headerUrl, autoCommit := [], None, false;
    }

    // app_ota_http_start up to the creation of the thread. Only the first call that
    // finds no download running initialises the store, and with it forgets any
    // session another client had open.
    // created says whether the thread could be.
    method Start(image: Option<seq<byte>>, header: Option<seq<byte>>, commit: bool, created: bool) returns (rc: int)
      requires ota.Valid()
      modifies this, ota
      ensures ota.Valid()
      ensures ota.Model() == if image.Some? && !old(running) && !old(coreInited) then InitStep(old(ota.Model())) else old(ota.Model())
      ensures rc == 0 ==>
                && running && coreInited && image.Some? && !old(running) && imageUrl == image.value && autoCommit == commit
                && Url.ParseUrl(imageUrl).Ok? && |imageUrl| <= URL_MAX
                && headerUrl == (if header.Some? && header.value != [] then header else None)
                && (headerUrl.Some? ==> Url.ParseUrl(headerUrl.value).Ok? && |headerUrl.value| <= URL_MAX)
      ensures rc == if image.None? then -1
                    else if old(running) then -2
                    else if Url.ParseUrl(image.value).Bad? then -3
                    else if |image.value| > 240 then -4
                    else if header.Some? && header.value != [] && Url.ParseUrl(header.value).Bad? then -5
                    else if header.Some? && |header.value| > 240 then -6
                    else if !created then -7 else 0
      ensures coreInited == (old(coreInited) || (image.Some? && !old(running)))
      ensures state == if rc == 0 then HTTP_RESOLVING else if rc == -7 then HTTP_FAILED else old(state)
      ensures rc != 0 ==> running == old(running)
    {
      hide Inv, Url.ParseUrl;
      if image.None? { return -1; }
      if running { return -2; }
      if !coreInited {
        ota.Init();
        coreInited := true;
      }
      if Url.ParseUrl(image.value).Bad? { return -3; }
      if |image.value| > URL_MAX { return -4; }
      imageUrl := image.value;
      if header.Some? && header.value != [] {
        if Url.ParseUrl(header.value).Bad? { return -5; }
        if |header.value| > URL_MAX { return -6; }
        headerUrl := header;
      } else {
        headerUrl := None;
      }
      autoCommit := commit;
      running := true;
      state := HTTP_RESOLVING;
      if !created {
        running := false;
        state := HTTP_FAILED;
        return -7;
      }
      return 0;
    }

    // http_task. Success means the answer was stored as Stored says and, with
    // auto-commit, that the image was complete; failure aborts the session, so that
    // a download that failed leaves nothing to resume. On a calm network, with steady
    // flash and a willing boot loader, it succeeds whenever the final answers can be
    // used, fit and, for auto-commit, complete the image. The requests up to `mid`
    // are those for the image, the rest those for the header.
    method Task(net: Net, steady: bool, up: int)
      returns (ghost rsp: Response, ghost stream: seq<byte>, ghost body: seq<byte>, ghost rc: int, ghost trail: seq<Hop>,
               ghost mid: seq<Query>, ghost header: Header)
      requires ota.Valid() && |imageUrl| <= URL_MAX && (headerUrl.Some? ==> |headerUrl.value| <= URL_MAX)
      modifies this, net, ota, ota.slot
      ensures ota.Valid() && !running && (state == HTTP_DONE || state == HTTP_FAILED)
      ensures Followed(net.server, old(net.asked), mid, imageUrl, old(ResumePoint(ota)), rc, trail)
      ensures Ends(net.server, old(net.asked), old(ResumePoint(ota)), rc, rsp, stream, trail)
      ensures if rc == 0 && headerUrl.Some?
              then HeaderFetched(net.server, mid, net.asked, headerUrl.value, header) else net.asked == mid
      ensures imageUrl == old(imageUrl) && headerUrl == old(headerUrl) && autoCommit == old(autoCommit)
      ensures state == HTTP_FAILED ==>
                ota.state == IDLE && ota.received == 0 && ota.total == 0 && !ota.ready && ResumePoint(ota) == 0
      ensures state == HTTP_DONE ==>
                && rc == 0 && Answered(stream, rsp, body) && !rsp.isChunked
                && Stored(rsp, old(ResumePoint(ota)), body, old(Image(ota)), old(ota.total), Image(ota), ota.total)
                && (headerUrl.Some? ==> header.rc == 0)
                && if autoCommit then up == 0 && ota.state == COMMITTED && ota.received == ota.total else CanWrite(ota.Model())
      ensures net.calm && steady && ImageComes(trail, stream, old(ResumePoint(ota))) &&
              old(Fits(ota, Meaning(stream), ResumePoint(ota), Behind(stream))) ==>
                rc == 0
      ensures net.calm && rc == 0 && ImageComes(trail, stream, old(ResumePoint(ota))) && (headerUrl.Some? ==> HeaderComes(header)) &&
              (autoCommit ==> up == 0 && old(Completes(ota, ResumePoint(ota), stream))) ==>
                state == HTTP_DONE
    {
      hide *;
      var code, answer;
      code, answer, stream, body, trail := GetImage(net, steady);
      rc, rsp, mid := code, answer, net.asked;
      header := Header(0, Empty(0), [], []);
      if code != 0 {
        Fail();
        return;
      }
      if headerUrl.Some? {
        state := HTTP_HEADER_DL;
        var hrc;
        hrc, header := FetchHeader(net, headerUrl.value);
        if hrc != 0 {
          Fail();
          return;
        }
      }
      if autoCommit {
        state := HTTP_COMMITTING;
        var ok := CommitImage(up);
        if !ok {
          Fail();
          return;
        }
      }
      state := HTTP_DONE;
      running := false;
    }

    // Stage 1: the image, from where the session stands.
    method GetImage(net: Net, steady: bool)
      returns (rc: int, rsp: Response, ghost stream: seq<byte>, ghost body: seq<byte>, ghost trail: seq<Hop>)
      requires ota.Valid() && |imageUrl| <= URL_MAX
      modifies net, ota, ota.slot
      ensures ota.Valid() && rc <= 0
      ensures old(ResumePoint(ota)) == if old(ota.state) == WRITING then old(ota.received) else 0
      ensures Followed(net.server, old(net.asked), net.asked, imageUrl, old(ResumePoint(ota)), rc, trail)
      ensures Ends(net.server, old(net.asked), old(ResumePoint(ota)), rc, rsp, stream, trail)
      ensures rc == 0 ==>
                && Answered(stream, rsp, body) && !rsp.isChunked && CanWrite(ota.Model())
                && Stored(rsp, old(ResumePoint(ota)), body, old(Image(ota)), old(ota.total), Image(ota), ota.total)
      ensures net.calm && ImageComes(trail, stream, old(ResumePoint(ota))) ==>
                && (rc == 0 || !CanWrite(ota.Model()))
                && (steady && old(Fits(ota, Meaning(stream), ResumePoint(ota), Behind(stream))) ==> rc == 0)
      ensures net.calm && rc == 0 && ImageComes(trail, stream, old(ResumePoint(ota))) ==>
                (ota.state == WRITING && ota.received == ota.total <==> old(Completes(ota, ResumePoint(ota), stream)))
    {
      hide Inv, Answered, Stored, Continues, Starts, Deliverable, Due, Followed, Ends, Asked, Fits, Understood, Meaning, Behind;
      var from := ResumePoint(ota);
      ResumedImage(ota);
      var none := new byte[0];
      var sink := new Sink(OtaChunks, ota, none, from, steady);
      assert Resumable(sink, from) && sink.Content() == Image(ota);
      rc, rsp, stream, body, trail := Request(net, imageUrl, from, sink, true);
      assert sink.Content() == Image(ota);
      if rc == 0 {
        StartedIsWriting(ota.Model());
        if net.calm && ImageComes(trail, stream, from) {
          DeliverableIsUnderstood(stream, from, true);
          ImageCompletes(stream, from, rsp, body, old(Image(ota)), old(ota.total), Image(ota), ota.total);
        }
      }
    }

    // Stage 3: the commit, which wants the image complete and the boot loader willing.
    method CommitImage(up: int) returns (ok: bool)
      requires ota.Valid()
      modifies ota
      ensures ota.Valid()
      ensures ok <==> old(ota.state) == WRITING && old(ota.received) == old(ota.total) && up == 0
      ensures ok ==> ota.state == COMMITTED && Image(ota) == old(Image(ota)) && ota.received == ota.total == old(ota.total)
    {
      hide Inv, CommitTest;
      CommitTouchesNoByte(ota.Model(), up == 0);
      var err := ota.Commit(up);
      ok := err == OK;
    }

    // The task against a server of one fixed resource r, whose final answer is a
    // printed head and the bytes behind it: done means that the slot holds a prefix
    // of r and the session expects all of it; the whole of it unless the server sent
    // a part that stops early, and in any case with auto-commit.
    method TaskFetches(net: Net, steady: bool, up: int, ghost r: seq<byte>)
      returns (ghost rsp: Response, ghost stream: seq<byte>, ghost trail: seq<Hop>, ghost header: Header)
      requires ota.Valid() && |r| <= U32_MAX && |imageUrl| <= URL_MAX && (headerUrl.Some? ==> |headerUrl.value| <= URL_MAX)
      requires ResumePoint(ota) > 0 ==> Image(ota) <= r && ota.total == |r|
      modifies this, net, ota, ota.slot
      ensures ota.Valid()
      ensures forall s, bytes ::
                state == HTTP_DONE && S.WellFormedHead(s) && stream == S.PrintHead(s) + bytes &&
                Honest(S.MeaningOf(s.headers, Empty(s.status)), bytes, r) ==>
                  && Image(ota) <= r && ota.total == |r|
                  && (Image(ota) == r <==> (Continues(rsp, old(ResumePoint(ota))) ==> rsp.rangeEnd + 1 == |r|))
                  && (autoCommit ==> ota.state == COMMITTED && Image(ota) == r)
      ensures net.calm && steady && old(ota.inited) && 0 < |r| <= ota.slot.Length && Asked(trail) &&
              (headerUrl.Some? ==> HeaderComes(header)) && (autoCommit ==> up == 0) ==>
                forall s, bytes :: BringsAll(s, bytes, stream, r, old(ResumePoint(ota))) ==>
                  state == HTTP_DONE && Image(ota) == r && ota.total == |r| && (autoCommit ==> ota.state == COMMITTED)
    {
      hide Inv, Answered, Stored, Continues, Starts, Honest, S.WellFormedHead, S.PrintHead, S.MeaningOf;
      hide Followed, Ends, HeaderFetched, HeaderComes, Asked, Deliverable, Understood, Meaning, Behind, Fits, Completes, BringsAll, ResumePoint, Image;
      ResumedImage(ota);
      ghost var from := ResumePoint(ota);
      if ota.inited && 0 < |r| <= ota.slot.Length { AllAwaited(ota, r, from); }
      ghost var body, rc, mid;
      rsp, stream, body, rc, trail, mid, header := Task(net, steady, up);
      CommittedImage(ota);
      forall s, bytes |
        state == HTTP_DONE && S.WellFormedHead(s) && stream == S.PrintHead(s) + bytes &&
        Honest(S.MeaningOf(s.headers, Empty(s.status)), bytes, r)
        ensures Image(ota) <= r && ota.total == |r|
        ensures Image(ota) == r <==> (Continues(rsp, old(ResumePoint(ota))) ==> rsp.rangeEnd + 1 == |r|)
        ensures autoCommit ==> ota.state == COMMITTED && Image(ota) == r
      {
        DownloadedResource(s, bytes, r, old(ResumePoint(ota)), rsp, body,
                           old(Image(ota)), old(ota.total), Image(ota), ota.total);
      }
      if net.calm && steady && old(ota.inited) && 0 < |r| <= ota.slot.Length && Asked(trail) &&
         (headerUrl.Some? ==> HeaderComes(header)) && (autoCommit ==> up == 0) {
        forall s, bytes | BringsAll(s, bytes, stream, r, from)
          ensures state == HTTP_DONE && Image(ota) == r && ota.total == |r| && (autoCommit ==> ota.state == COMMITTED)
        {
          assert old(Awaits(ota, stream, from));
          AllStored(s, bytes, stream, r, from, rsp, body, old(Image(ota)), old(ota.total), Image(ota), ota.total);
        }
      }
    }

    method Fail()
      requires ota.Valid()
      modifies `running, `state, ota
      ensures ota.Valid() && !running && state == HTTP_FAILED
      ensures ota.state == IDLE && ota.received == 0 && ota.total == 0 && !ota.ready && ResumePoint(ota) == 0
    {
      AbortLeavesNothing(ota.Model());
      ota.Abort();
      state := HTTP_FAILED;
      running := false;
    }

    // The optional second download, into RAM.
    method FetchHeader(net: Net, url: seq<byte>) returns (rc: int, ghost header: Header)
      requires ota.Valid() && |url| <= URL_MAX
      modifies net
      ensures rc <= 0 && header.rc == rc && HeaderFetched(net.server, old(net.asked), net.asked, url, header)
      ensures rc == 0 ==> exists body :: Answered(header.stream, header.rsp, body) && |body| <= 512
      ensures net.calm && HeaderComes(header) ==> rc == 0
    {
      hide Inv, Followed, Ends, Asked, Deliverable, Due, Answered, Understood, Meaning, Behind;
      var buf := new byte[SIGNED_HEADER_MAX];
      var sink := new Sink(Buffer, ota, buf, 0, true);
      var rsp;
      ghost var stream, body, trail;
      rc, rsp, stream, body, trail := Request(net, url, 0, sink, false);
      header := Header(rc, rsp, stream, trail);
    }
  }
}
