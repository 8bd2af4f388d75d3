// The head parser and the loop that feeds it (app/ota/app_ota_http.c,
// parse_response_headers and the receive loop of http_request_once).
module HttpReceive {
  import opened Bits
  import opened CText
  import opened ByteStream
  import opened HttpHead

  const HEADER_MAX: nat := 1024

  method FindHeadEnd(buf: array<byte>, len: nat) returns (end: Option<nat>)
    requires len <= buf.Length
    ensures end == HeadEnd(buf[..len])
  {
    ghost var s := buf[..len];
    var i := 0;
    while i + 3 < len
      invariant i <= len && buf[..len] == s
      invariant HeadEnd(s) == Shift(HeadEnd(s[i..]), i)
      decreases len - i
    {
      if buf[i] == CR && buf[i + 1] == LF && buf[i + 2] == CR && buf[i + 3] == LF {
        assert EndsHead(s[i..]);
        return Some(i + 4);
      }
      assert s[i..][1..] == s[i + 1..];
      i := i + 1;
    }
    return None;
  }

  function Shift(r: Option<nat>, n: nat): Option<nat> {
    match r case None => None case Some(v) => Some(v + n)
  }

  // The hunt for "chunked" in a Transfer-Encoding value.
  method ScanChunked(t: seq<byte>) returns (found: bool)
    ensures found == HasChunked(t)
  {
    hide Lower;
    var v := 0;
    while v < |t|
      invariant v <= |t| && forall i :: 0 <= i < v ==> !ChunkedAt(t, i)
    {
      if ChunkedAt(t, v) { return true; }
      v := v + 1;
    }
    return false;
  }

  // hdr_copy_line, for a value that is not empty.
  method CopyLine(value: seq<byte>) returns (out: seq<byte>)
    ensures out == if |TrimEnd(value)| >= LOCATION_SIZE then TrimEnd(value)[..LOCATION_SIZE - 1] else TrimEnd(value)
  {
    var e := |value|;
    assert value[..e] == value;
    while e > 0 && (value[e - 1] == CR || value[e - 1] == LF)
      invariant 0 <= e <= |value| && TrimEnd(value) == TrimEnd(value[..e])
    {
      assert value[..e][..e - 1] == value[..e - 1];
      e := e - 1;
    }
    assert TrimEnd(value[..e]) == value[..e];
    var n := if e >= LOCATION_SIZE then LOCATION_SIZE - 1 else e;
    assert n <= e && value[..e][..n] == value[..n];
    return value[..n];
  }

  method ApplyHeader(m: seq<byte>, line: nat, nl: nat, rsp: Response) returns (out: Response)
    requires line + nl <= |m|
    ensures out == ApplyLine(m[line..], nl, rsp)
  {
    hide HdrMatch, Strtoul, ValueAt, RangeField, TrimEnd, HasChunked;
    var s := m[line..];
    out := rsp;
    if HdrMatch(s, CONTENT_LENGTH) {
      var v := ValueStart(s);
      out := out.(contentLength := Strtoul(s[v..], 10).0, hasContentLength := true);
    } else if HdrMatch(s, CONTENT_RANGE) {
      var v := ValueStart(s);
      out := RangeField(s[v..], out);
    } else if HdrMatch(s, LOCATION) {
      var v := ValueStart(s);
      if v < nl {
        var url := CopyLine(s[v..nl]);
        out := out.(location := url);
      }
      out := out.(hasLocation := out.location != []);
    } else if HdrMatch(s, TRANSFER_ENCODING) {
      var v := ValueStart(s);
      var found := ScanChunked(if v <= nl then s[v..nl] else []);
      if found { out := out.(isChunked := true); }
    }
  }

  // What parsing len received bytes of the buffer gives: -1 for a head that is
  // not complete, its length for one that is.
  ghost predicate ParsesTo(m: seq<byte>, len: nat, rc: int, rsp: Response)
    requires len <= |m|
  {
    match HeadEnd(m[..len])
    case None => rc == -1
    case Some(end) =>
      match ParseHead(m, end)
      case Head(r) => rc == end && rsp == r
      case Malformed(e) => rc == e
  }

  method ParseResponseHeaders(buf: array<byte>, len: nat) returns (rc: int, rsp: Response)
    requires len <= buf.Length
    ensures ParsesTo(buf[..], len, rc, rsp)
  {
    hide HeadEnd, StrCrlf, Strchr, Strtol, ApplyLine;
    var m := buf[..];
    rsp := Empty(0);
    var found := FindHeadEnd(buf, len);
    assert m[..len] == buf[..len];
    if found.None? { return -1, rsp; }
    var end := found.value;
    if !(HTTP_1 <= m) { return -2, rsp; }
    var sp1 := Strchr(m, SPACE);
    if sp1.None? { return -3, rsp; }
    rsp := Empty(Strtol(m[sp1.value + 1..], 10));
    var first := StrCrlf(m);
    if first.None? { return -4, rsp; }
    var line := first.value + 2;
    ghost var all := Lines(m[line..], end - line, rsp);
    while line < end - 2
      invariant line <= |m| && Lines(m[line..], end - line, rsp) == all
    {
      var nl := StrCrlf(m[line..]);
      if nl.None? { break; }
      rsp := ApplyHeader(m, line, nl.value, rsp);
      assert m[line..][nl.value + 2..] == m[line + nl.value + 2..];
      line := line + nl.value + 2;
    }
    return end, rsp;
  }

  lemma {:induction false} HeadEndLocal(a: seq<byte>, b: seq<byte>)
    requires HeadEnd(a).Some?
    ensures HeadEnd(a + b) == HeadEnd(a)
  {
    if !EndsHead(a) {
      HeadEndLocal(a[1..], b);
      assert (a + b)[1..] == a[1..] + b;
    }
  }

  lemma {:induction false} HeadEndCloses(s: seq<byte>)
    requires HeadEnd(s).Some?
    ensures Closed(s[..HeadEnd(s).value])
  {
    var e := HeadEnd(s).value;
    if !EndsHead(s) {
      HeadEndCloses(s[1..]);
      assert s[e - 2] == s[1..][..e - 1][e - 3] && s[e - 1] == s[1..][..e - 1][e - 2];
    }
  }

  // The stream begins with a head of `parsed` bytes that says rsp, and `behind` is
  // the rest of it.
  ghost predicate HasHead(stream: seq<byte>, parsed: nat, rsp: Response, behind: seq<byte>) {
    && HeadEnd(stream) == Some(parsed) && behind == stream[parsed..]
    && (HeadAnchored(stream[..parsed]) ==> ParseHead(stream[..parsed], parsed) == Head(rsp))
    && |rsp.location| < LOCATION_SIZE
  }

  // The stream begins with a head that does not parse.
  ghost predicate HasBadHead(stream: seq<byte>) {
    && HeadEnd(stream).Some?
    && var h := stream[..HeadEnd(stream).value];
       HeadAnchored(h) ==> ParseHead(h, |h|).Malformed?
  }

  // The receive loop. Whatever the segments and whatever the static buffer held
  // before, an anchored head that fits yields its own fields, and the bytes left
  // over in the buffer followed by those still unread are exactly the body.
  method ReceiveHead(link: Link, hdrbuf: array<byte>) returns (rc: int, rsp: Response, filled: nat, parsed: nat)
    requires hdrbuf.Length == 1024
    modifies link`unread, hdrbuf
    ensures rc == 0 || rc == -7 || rc == -8 || rc == -9
    ensures rc == 0 ==> parsed <= filled <= HEADER_MAX && HasHead(old(link.unread), parsed, rsp, hdrbuf[parsed..filled] + link.unread)
    ensures rc == -9 ==> HasBadHead(old(link.unread))
    ensures rc == -7 ==> |old(link.unread)| >= 1024 && HeadEnd(old(link.unread)[..1024]).None?
    ensures rc == -8 && link.reliable ==> HeadEnd(old(link.unread)).None?
  {
    hide HeadEnd, HasHead, HasBadHead;
    ghost var stream := link.unread;
    filled, parsed := 0, 0;
    rsp := Empty(0);
    ShortHasNoEnd(hdrbuf[..0]);
    while true
      invariant filled <= HEADER_MAX && hdrbuf[..filled] + link.unread == stream
      invariant HeadEnd(hdrbuf[..filled]).None?
      decreases HEADER_MAX - filled
    {
      if filled >= HEADER_MAX {
        assert hdrbuf[..filled] == stream[..HEADER_MAX];
        return -7, rsp, filled, 0;
      }
      rc, rsp, filled, parsed := ReceiveMore(link, hdrbuf, filled, stream);
      if rc <= 0 { return; }
    }
  }

  // One turn of the loop; 1 means that the head is not complete yet.
  method ReceiveMore(link: Link, hdrbuf: array<byte>, had: nat, ghost stream: seq<byte>)
    returns (rc: int, rsp: Response, filled: nat, parsed: nat)
    requires had < hdrbuf.Length == HEADER_MAX && hdrbuf[..had] + link.unread == stream
    modifies link`unread, hdrbuf
    ensures rc == 1 || rc == 0 || rc == -8 || rc == -9
    ensures rc == 1 ==> had < filled <= HEADER_MAX && hdrbuf[..filled] + link.unread == stream && HeadEnd(hdrbuf[..filled]).None?
    ensures rc == 0 ==> parsed <= filled <= HEADER_MAX && HasHead(stream, parsed, rsp, hdrbuf[parsed..filled] + link.unread)
    ensures rc == -9 ==> HasBadHead(stream)
    ensures rc == -8 && link.reliable ==> old(hdrbuf[..had]) == stream
  {
    hide HeadEnd, HasHead, HasBadHead, ParsesTo;
    filled, parsed, rsp := had, 0, Empty(0);
    var n, data := link.Recv(HEADER_MAX - filled);
    if n <= 0 {
      assert link.reliable ==> hdrbuf[..had] + [] == hdrbuf[..had];
      return -8, rsp, filled, 0;
    }
    Store(hdrbuf, filled, data);
    filled := filled + n;
    ghost var m := hdrbuf[..];
    assert m[..filled] == hdrbuf[..filled] && hdrbuf[..filled] + link.unread == stream;
    var got;
    got, rsp := ParseResponseHeaders(hdrbuf, filled);
    if got != -1 {
      WhatArrived(m, filled, link.unread, got, rsp);
      if got < -1 { return -9, rsp, filled, 0; }
      assert m[got..filled] == hdrbuf[got..filled];
      return 0, rsp, filled, got;
    }
    StillOpen(m, filled, rsp);
    rc := 1;
  }

  method Store(buf: array<byte>, at: nat, data: seq<byte>)
    requires at + |data| <= buf.Length
    modifies buf
    ensures buf[..at + |data|] == old(buf[..at]) + data
  {
    forall i | at <= i < at + |data| { buf[i] := data[i - at]; }
  }

  lemma ShortHasNoEnd(s: seq<byte>)
    requires |s| < 4
    ensures HeadEnd(s).None?
  {
  }

  lemma MalformedIsBelow(m: seq<byte>, end: nat)
    ensures ParseHead(m, end).Malformed? ==> ParseHead(m, end).rc < -1
  {
  }

  lemma StillOpen(m: seq<byte>, filled: nat, rsp: Response)
    requires filled <= |m| && ParsesTo(m, filled, -1, rsp)
    ensures HeadEnd(m[..filled]).None?
  {
    hide HeadEnd, ParseHead;
    if HeadEnd(m[..filled]).Some? {
      MalformedIsBelow(m, HeadEnd(m[..filled]).value);
    }
  }

  // The buffer holds m, of which `filled` bytes are received; the rest is to come.
  lemma WhatArrived(m: seq<byte>, filled: nat, unread: seq<byte>, rc: int, rsp: Response)
    requires filled <= |m| && ParsesTo(m, filled, rc, rsp) && rc != -1
    ensures rc >= 0 ==> rc <= filled && HasHead(m[..filled] + unread, rc, rsp, m[rc..filled] + unread)
    ensures rc < 0 ==> rc < -1 && HasBadHead(m[..filled] + unread)
  {
    hide HeadEnd, ParseHead, HeadAnchored;
    var s := m[..filled] + unread;
    HeadEndLocal(m[..filled], unread);
    var e := HeadEnd(s).value;
    HeadEndCloses(s);
    var h := s[..e];
    assert m == h + m[e..];
    MalformedIsBelow(m, e);
    HeadLocationIsShort(m, e);
    if HeadAnchored(h) {
      AnchoredHeadIsLocal(h, m[e..]);
    }
    assert s[e..] == m[e..filled] + unread;
  }
}
