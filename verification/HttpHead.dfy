// Response heads (app/ota/app_ota_http.c, hdr_*, parse_response_headers). The C
// code hands strchr, strstr and strtoul a buffer that goes on behind the head
// with body bytes and leftovers, so every function here reads a suffix of that
// whole memory, and what lies behind the head is part of its argument.
module HttpHead {
  import opened Bits
  import opened CText

  const HTTP_1: seq<byte> := [0x48, 0x54, 0x54, 0x50, 0x2F, 0x31, 0x2E]
  const CONTENT_LENGTH: seq<byte> := [0x63, 0x6F, 0x6E, 0x74, 0x65, 0x6E, 0x74, 0x2D, 0x6C, 0x65, 0x6E, 0x67, 0x74, 0x68]
  const CONTENT_RANGE: seq<byte> := [0x63, 0x6F, 0x6E, 0x74, 0x65, 0x6E, 0x74, 0x2D, 0x72, 0x61, 0x6E, 0x67, 0x65]
  const LOCATION: seq<byte> := [0x6C, 0x6F, 0x63, 0x61, 0x74, 0x69, 0x6F, 0x6E]
  const TRANSFER_ENCODING: seq<byte> := [0x74, 0x72, 0x61, 0x6E, 0x73, 0x66, 0x65, 0x72, 0x2D, 0x65, 0x6E, 0x63, 0x6F, 0x64, 0x69, 0x6E, 0x67]
  const CHUNKED: seq<byte> := [0x63, 0x68, 0x75, 0x6E, 0x6B, 0x65, 0x64]
  const BYTES_SP: seq<byte> := [0x62, 0x79, 0x74, 0x65, 0x73, 0x20]
  const BYTES_EQ: seq<byte> := [0x62, 0x79, 0x74, 0x65, 0x73, 0x3D]

  // The names and words in plain text; header names are compared in lower case.
  lemma LengthName()
    ensures IsText(CONTENT_LENGTH, "content-length")
  {
  }

  lemma RangeName()
    ensures IsText(CONTENT_RANGE, "content-range")
  {
  }

  lemma LocationName()
    ensures IsText(LOCATION, "location")
  {
  }

  lemma CodingName()
    ensures IsText(TRANSFER_ENCODING, "transfer-encoding")
  {
  }

  lemma StatusLineWord()
    ensures IsText(HTTP_1, "HTTP/1.")
  {
  }

  lemma ValueWords()
    ensures IsText(CHUNKED, "chunked") && IsText(BYTES_SP, "bytes ") && IsText(BYTES_EQ, "bytes=")
  {
  }

  const LOCATION_SIZE: nat := 241

  datatype Response = Response(status: int, contentLength: nat, hasContentLength: bool,
                               rangeStart: nat, rangeEnd: nat, rangeTotal: nat, hasContentRange: bool,
                               location: seq<byte>, hasLocation: bool, isChunked: bool)

  datatype Parsed = Head(rsp: Response) | Malformed(rc: int)

  function Empty(status: int): Response {
    Response(status, 0, false, 0, 0, 0, false, [], false, false)
  }

  function Lower(b: byte): byte {
    if 0x41 <= b <= 0x5A then b + 32 else b
  }

  // Only the capital letters change.
  lemma LowerIs(b: byte)
    ensures Lower(b) as int == if 'A' as int <= b as int <= 'Z' as int then b as int + 32 else b as int
  {
  }

  // hdr_match, for a name in lower case.
  predicate HdrMatch(s: seq<byte>, name: seq<byte>) {
    (forall i :: 0 <= i < |name| ==> Lower(At(s, i)) == name[i]) && At(s, |name|) == COLON
  }

  function Padding(s: seq<byte>): (n: nat)
    ensures n <= |s|
  {
    if s != [] && (s[0] == SPACE || s[0] == TAB) then 1 + Padding(s[1..]) else 0
  }

  // hdr_value of a line that matched a name of n bytes: the first colon is the
  // one behind the name.
  function ValueAt(s: seq<byte>, n: nat): (v: nat)
    requires n < |s|
    ensures n < v <= |s|
  {
    n + 1 + Padding(s[n + 1..])
  }

  // The first CRLF with no NUL in front of it, as strstr finds it.
  function StrCrlf(s: seq<byte>): (r: Option<nat>)
    ensures r.Some? ==> r.value + 2 <= |s|
  {
    match Crlf(s)
    case None => None
    case Some(i) => if 0 in s[..i] then None else Some(i)
  }

  function TrimEnd(t: seq<byte>): seq<byte> {
    if t != [] && (t[|t| - 1] == CR || t[|t| - 1] == LF) then TrimEnd(t[..|t| - 1]) else t
  }

  function LocationField(value: seq<byte>, r: Response): Response {
    if value == [] then r.(hasLocation := r.location != [])
    else
      var t := TrimEnd(value);
      var url := if |t| >= LOCATION_SIZE then t[..LOCATION_SIZE - 1] else t;
      r.(location := url, hasLocation := url != [])
  }

  predicate ChunkedAt(t: seq<byte>, i: nat) {
    i + 7 <= |t| && forall j :: 0 <= j < 7 ==> Lower(t[i + j]) == CHUNKED[j]
  }

  predicate HasChunked(t: seq<byte>) {
    exists i :: 0 <= i < |t| && ChunkedAt(t, i)
  }

  // "chunked" in any mixture of cases stands at i.
  predicate WordAt(t: seq<byte>, i: nat) {
    i + 7 <= |t| && LowerAll(t[i..i + 7]) == [0x63, 0x68, 0x75, 0x6E, 0x6B, 0x65, 0x64]
  }

  // The word is found wherever it stands.
  lemma HasChunkedIff(t: seq<byte>)
    ensures HasChunked(t) <==> exists i :: 0 <= i < |t| && WordAt(t, i)
  {
    hide HasChunked;
    forall i | 0 <= i < |t|
      ensures ChunkedAt(t, i) <==> WordAt(t, i)
    {
      WordIsChunked(t, i);
    }
    hide ChunkedAt, WordAt;
    HasChunkedMeans(t);
    if exists i :: 0 <= i < |t| && WordAt(t, i) {
      var i :| 0 <= i < |t| && WordAt(t, i);
      assert ChunkedAt(t, i);
    }
  }

  lemma HasChunkedMeans(t: seq<byte>)
    ensures HasChunked(t) <==> exists i :: 0 <= i < |t| && ChunkedAt(t, i)
  {
    hide ChunkedAt;
  }

  lemma WordIsChunked(t: seq<byte>, i: nat)
    ensures ChunkedAt(t, i) <==> WordAt(t, i)
  {
    hide Lower;
    if i + 7 <= |t| {
      var w := t[i..i + 7];
      assert forall j :: 0 <= j < 7 ==> w[j] == t[i + j] && LowerAll(w)[j] == Lower(w[j]);
    }
  }

  function LowerAll(t: seq<byte>): (l: seq<byte>)
    ensures |l| == |t|
  {
    seq(|t|, i requires 0 <= i < |t| => Lower(t[i]))
  }

  function RangeField(v: seq<byte>, r: Response): Response {
    var u := RangeSpec(v);
    var start := Strtoul(u, 10);
    if At(u, start.1) != MINUS then r
    else
      var end := RangeEnd(u[start.1 + 1..]);
      r.(rangeStart := start.0, rangeEnd := end.0, rangeTotal := end.1, hasContentRange := true)
  }

  // The last byte position and, behind a slash, the total.
  function RangeEnd(u: seq<byte>): (nat, nat) {
    var end := Strtoul(u, 10);
    (end.0, if At(u, end.1) == SLASH then Strtoul(u[end.1 + 1..], 10).0 else 0)
  }

  function RangeSpec(v: seq<byte>): seq<byte> {
    var v1 := if BYTES_SP <= v then v[6..] else v;
    if BYTES_EQ <= v1 then v1[6..] else v1
  }

  datatype Field = ContentLength | ContentRange | Location | TransferEncoding | Unknown

  // Which header the line at the start of s is, in the order the parser asks.
  function Kind(s: seq<byte>): (f: Field)
    ensures f != Unknown ==> |Name(f)| < |s|
  {
    if HdrMatch(s, CONTENT_LENGTH) then ContentLength
    else if HdrMatch(s, CONTENT_RANGE) then ContentRange
    else if HdrMatch(s, LOCATION) then Location
    else if HdrMatch(s, TRANSFER_ENCODING) then TransferEncoding
    else Unknown
  }

  function Name(f: Field): seq<byte> {
    match f
    case ContentLength => CONTENT_LENGTH
    case ContentRange => CONTENT_RANGE
    case Location => LOCATION
    case TransferEncoding => TRANSFER_ENCODING
    case Unknown => []
  }

  function ValueStart(s: seq<byte>): nat
    requires Kind(s) != Unknown
    ensures ValueStart(s) <= |s|
  {
    ValueAt(s, |Name(Kind(s))|)
  }

  // The line at the start of s, nl bytes long without its CRLF, applied to r.
  function ApplyLine(s: seq<byte>, nl: nat, r: Response): Response {
    if Kind(s) == Unknown then r
    else
      var v := ValueStart(s);
      var text := if v <= nl <= |s| then s[v..nl] else [];
      match Kind(s)
      case ContentLength => r.(contentLength := Strtoul(s[v..], 10).0, hasContentLength := true)
      case ContentRange => RangeField(s[v..], r)
      case Location => LocationField(text, r)
      case TransferEncoding => r.(isChunked := r.isChunked || HasChunked(text))
      case Unknown => r
  }

  // The header lines of a head that has k more bytes.
  function Lines(s: seq<byte>, k: int, r: Response): Response
    decreases |s|
  {
    if k <= 2 then r
    else
      match StrCrlf(s)
      case None => r
      case Some(n) => Lines(s[n + 2..], k - (n + 2), ApplyLine(s, n, r))
  }

  // The memory m starts with a head of `end` bytes.
  function ParseHead(m: seq<byte>, end: nat): Parsed {
    if !(HTTP_1 <= m) then Malformed(-2)
    else
      match Strchr(m, SPACE)
      case None => Malformed(-3)
      case Some(sp) =>
        var status := Strtol(m[sp + 1..], 10);
        match StrCrlf(m)
        case None => Malformed(-4)
        case Some(n) => Head(Lines(m[n + 2..], end - (n + 2), Empty(status)))
  }

  // Which heads are refused, and how: those that do not begin with HTTP/1., then those
  // without a blank, then those without a line end.
  lemma RefusedHeads(m: seq<byte>, end: nat)
    ensures ParseHead(m, end) == Malformed(-2) <==> !([0x48, 0x54, 0x54, 0x50, 0x2F, 0x31, 0x2E] <= m)
    ensures ParseHead(m, end) == Malformed(-3) <==> [0x48, 0x54, 0x54, 0x50, 0x2F, 0x31, 0x2E] <= m && Strchr(m, 0x20).None?
    ensures ParseHead(m, end) == Malformed(-4) <==>
            [0x48, 0x54, 0x54, 0x50, 0x2F, 0x31, 0x2E] <= m && Strchr(m, 0x20).Some? && StrCrlf(m).None?
  {
    hide Lines, StrCrlf, Strtol, Strchr;
  }

  predicate EndsHead(s: seq<byte>) {
    |s| >= 4 && s[0] == CR && s[1] == LF && s[2] == CR && s[3] == LF
  }

  // Where the first empty line ends.
  function HeadEnd(s: seq<byte>): (r: Option<nat>)
    ensures r.Some? ==> 4 <= r.value <= |s|
  {
    if |s| < 4 then None
    else if EndsHead(s) then Some(4)
    else match HeadEnd(s[1..]) case None => None case Some(e) => Some(e + 1)
  }

  // What is kept of a Location fits its buffer.
  lemma LineKeepsLocationShort(s: seq<byte>, nl: nat, r: Response)
    requires |r.location| < LOCATION_SIZE
    ensures |ApplyLine(s, nl, r).location| < LOCATION_SIZE
  {
    hide Strtoul, RangeField, Kind, ValueAt, HasChunked, TrimEnd;
    RangeKeepsLocation(if Kind(s) != Unknown then s[ValueStart(s)..] else [], r);
  }

  lemma RangeKeepsLocation(v: seq<byte>, r: Response)
    ensures RangeField(v, r).location == r.location
  {
    hide Strtoul, RangeSpec, RangeEnd;
  }

  lemma {:induction false} LocationIsShort(s: seq<byte>, k: int, r: Response)
    requires |r.location| < LOCATION_SIZE
    ensures |Lines(s, k, r).location| < LOCATION_SIZE
    decreases |s|
  {
    hide ApplyLine, StrCrlf;
    if k > 2 && StrCrlf(s).Some? {
      var n := StrCrlf(s).value;
      LineKeepsLocationShort(s, n, r);
      LocationIsShort(s[n + 2..], k - (n + 2), ApplyLine(s, n, r));
    }
  }

  lemma HeadLocationIsShort(m: seq<byte>, end: nat)
    ensures ParseHead(m, end).Head? ==> |ParseHead(m, end).rsp.location| < LOCATION_SIZE
  {
    hide Strtol, Strchr, StrCrlf, Lines;
    if ParseHead(m, end).Head? {
      var n := StrCrlf(m).value;
      LocationIsShort(m[n + 2..], end - (n + 2), Empty(Strtol(m[Strchr(m, SPACE).value + 1..], 10)));
    }
  }

  // ------------------------------------------------------------------
  // Which heads are read without looking behind them
  // ------------------------------------------------------------------

  // A number scan at the start of h meets something other than blanks in h.
  predicate Anchored(h: seq<byte>) {
    Blanks(h) < |h|
  }

  predicate RangeAnchored(v: seq<byte>) {
    var u := RangeSpec(v);
    var start := Strtoul(u, 10);
    Anchored(u) && (At(u, start.1) == MINUS ==> RangeEndAnchored(u[start.1 + 1..]))
  }

  predicate RangeEndAnchored(u: seq<byte>) {
    var end := Strtoul(u, 10);
    Anchored(u) && (At(u, end.1) == SLASH ==> Anchored(u[end.1 + 1..]))
  }

  predicate LineAnchored(h: seq<byte>) {
    && (Kind(h) == ContentLength ==> Anchored(h[ValueStart(h)..]))
    && (Kind(h) == ContentRange ==> RangeAnchored(h[ValueStart(h)..]))
  }

  predicate LinesAnchored(h: seq<byte>)
    decreases |h|
  {
    |h| <= 2 || StrCrlf(h).None? || (LineAnchored(h) && LinesAnchored(h[StrCrlf(h).value + 2..]))
  }

  predicate HeadAnchored(h: seq<byte>) {
    HTTP_1 <= h && StrCrlf(h).Some? ==>
      && (Strchr(h, SPACE).Some? || 0 in h)
      && (Strchr(h, SPACE).Some? ==>
            Anchored(h[Strchr(h, SPACE).value + 1..]) && LinesAnchored(h[StrCrlf(h).value + 2..]))
  }

  // Every suffix of a head still to be read ends like this.
  predicate Closed(h: seq<byte>) {
    |h| >= 2 && h[|h| - 2] == CR && h[|h| - 1] == LF
  }

  lemma LfStops()
    ensures Stops(LF) && IsSpace(LF) && IsSpace(CR) && IsSpace(SPACE)
    ensures !IsSpace(MINUS) && Stops(SLASH)
  {
  }

  predicate EndsInLf(h: seq<byte>) {
    h != [] && h[|h| - 1] == LF
  }

  lemma {:induction false} StrchrLocal(h: seq<byte>, x: seq<byte>, b: byte)
    requires Strchr(h, b).Some? || 0 in h
    ensures Strchr(h + x, b) == Strchr(h, b)
  {
    if h[0] != 0 && h[0] != b {
      assert h == [h[0]] + h[1..];
      StrchrLocal(h[1..], x, b);
      assert (h + x)[1..] == h[1..] + x;
    }
  }

  lemma StrCrlfLocal(h: seq<byte>, x: seq<byte>)
    requires Closed(h)
    ensures StrCrlf(h + x) == StrCrlf(h) && Crlf(h).Some?
    ensures StrCrlf(h).Some? ==> var rest := h[StrCrlf(h).value + 2..]; rest == [] || Closed(rest)
  {
    CrlfMeans(h);
    assert h[|h| - 2] == CR && h[|h| - 1] == LF;
    CrlfLocal(h, x);
    var i := Crlf(h).value;
    assert (h + x)[..i] == h[..i];
  }

  predicate PlainByte(b: byte) {
    b == 0x2D || 0x61 <= b <= 0x7A
  }

  lemma PlainBytes(b: byte)
    requires PlainByte(b)
    ensures b != LF && !IsSpace(b) && b != COLON && b != 0 && Lower(b) == b
  {
  }

  predicate PlainName(n: seq<byte>) {
    |n| < 20 && forall i :: 0 <= i < |n| ==> PlainByte(n[i])
  }

  lemma ContentLengthIsPlain()
    ensures PlainName(CONTENT_LENGTH)
  {
  }

  lemma ContentRangeIsPlain()
    ensures PlainName(CONTENT_RANGE)
  {
  }

  lemma LocationIsPlain()
    ensures PlainName(LOCATION)
  {
  }

  lemma TransferEncodingIsPlain()
    ensures PlainName(TRANSFER_ENCODING)
  {
  }

  lemma NamesArePlain(f: Field)
    ensures |Name(f)| < 20 && forall i :: 0 <= i < |Name(f)| ==> Name(f)[i] != LF && !IsSpace(Name(f)[i])
  {
    hide IsSpace, Lower, PlainByte;
    ContentLengthIsPlain();
    ContentRangeIsPlain();
    LocationIsPlain();
    TransferEncodingIsPlain();
    forall i | 0 <= i < |Name(f)|
      ensures Name(f)[i] != LF && !IsSpace(Name(f)[i])
    {
      PlainBytes(Name(f)[i]);
    }
  }

  lemma BlanksHaveNoCase(b: byte)
    requires IsSpace(b)
    ensures Lower(b) == b
  {
  }

  lemma UnitsArePlain()
    ensures LF !in BYTES_SP && LF !in BYTES_EQ && LF !in HTTP_1
  {
  }

  lemma MatchLocal(h: seq<byte>, x: seq<byte>, f: Field)
    requires EndsInLf(h)
    ensures HdrMatch(h + x, Name(f)) == HdrMatch(h, Name(f))
    ensures HdrMatch(h, Name(f)) ==> |Name(f)| + 1 < |h|
  {
    hide Lower, Name, IsSpace;
    NamesArePlain(f);
    LfStops();
    BlanksHaveNoCase(LF);
    var n := Name(f);
    assert forall i :: 0 <= i < |h| ==> At(h + x, i) == At(h, i);
    if |n| >= |h| {
      assert Lower(At(h, |h| - 1)) != n[|h| - 1];
    }
  }

  lemma {:induction false} PaddingLocal(t: seq<byte>, x: seq<byte>)
    requires EndsInLf(t)
    ensures Padding(t + x) == Padding(t) < |t|
  {
    if t[0] == SPACE || t[0] == TAB {
      assert (t + x)[1..] == t[1..] + x;
      PaddingLocal(t[1..], x);
    }
  }

  lemma KindLocal(h: seq<byte>, x: seq<byte>)
    requires EndsInLf(h)
    ensures Kind(h + x) == Kind(h)
    ensures Kind(h) != Unknown ==> ValueStart(h + x) == ValueStart(h) < |h|
  {
    hide HdrMatch, Padding;
    MatchLocal(h, x, ContentLength);
    MatchLocal(h, x, ContentRange);
    MatchLocal(h, x, Location);
    MatchLocal(h, x, TransferEncoding);
    if Kind(h) != Unknown {
      var n := |Name(Kind(h))|;
      assert (h + x)[n + 1..] == h[n + 1..] + x;
      PaddingLocal(h[n + 1..], x);
    }
  }

  lemma PrefixLocal(v: seq<byte>, x: seq<byte>, p: seq<byte>)
    requires EndsInLf(v) && LF !in p
    ensures p <= v + x <==> p <= v
    ensures p <= v ==> |p| < |v| && EndsInLf(v[|p|..]) && (v + x)[|p|..] == v[|p|..] + x
  {
    assert forall i :: 0 <= i < |v| ==> (v + x)[i] == v[i];
    if |p| >= |v| {
      assert p[|v| - 1] in p;
    }
  }

  lemma RangeSpecLocal(v: seq<byte>, x: seq<byte>)
    requires EndsInLf(v)
    ensures RangeSpec(v + x) == RangeSpec(v) + x && EndsInLf(RangeSpec(v))
  {
    UnitsArePlain();
    PrefixLocal(v, x, BYTES_SP);
    var v1 := if BYTES_SP <= v then v[6..] else v;
    PrefixLocal(v1, x, BYTES_EQ);
  }

  // A scan over u, and what follows the byte that ended it.
  lemma ScanLocal(u: seq<byte>, x: seq<byte>, b: byte)
    requires EndsInLf(u) && Anchored(u) && b != LF && b != 0
    ensures Strtoul(u + x, 10) == Strtoul(u, 10)
    ensures var n := Strtoul(u, 10).1;
            && n < |u| && At(u + x, n) == At(u, n)
            && (At(u, n) == b ==> EndsInLf(u[n + 1..]) && (u + x)[n + 1..] == u[n + 1..] + x)
  {
    hide Strtoul, IsSpace, Digit, Stops, Blanks;
    LfStops();
    StrtoulLocal(u, x, 10);
    TailLocal(u, x, Strtoul(u, 10).1, b);
  }

  lemma TailLocal(u: seq<byte>, x: seq<byte>, n: nat, b: byte)
    requires EndsInLf(u) && n < |u| && b != LF
    ensures At(u + x, n) == At(u, n)
    ensures At(u, n) == b ==> EndsInLf(u[n + 1..]) && (u + x)[n + 1..] == u[n + 1..] + x
  {
    if At(u, n) == b {
      var t := u[n + 1..];
      assert n + 1 < |u| && t[|t| - 1] == u[|u| - 1];
      assert (u + x)[n + 1..] == t + x;
    }
  }

  lemma RangeLocal(v: seq<byte>, x: seq<byte>, r: Response)
    requires EndsInLf(v) && RangeAnchored(v)
    ensures RangeField(v + x, r) == RangeField(v, r)
  {
    hide Strtoul, RangeSpec, Anchored, RangeEnd, RangeEndAnchored;
    RangeSpecLocal(v, x);
    var u := RangeSpec(v);
    ScanLocal(u, x, MINUS);
    var n := Strtoul(u, 10).1;
    if At(u, n) == MINUS {
      RangeEndLocal(u[n + 1..], x);
    }
  }

  lemma RangeEndLocal(u: seq<byte>, x: seq<byte>)
    requires EndsInLf(u) && RangeEndAnchored(u)
    ensures RangeEnd(u + x) == RangeEnd(u)
  {
    hide Strtoul, Anchored;
    ScanLocal(u, x, SLASH);
    var n := Strtoul(u, 10).1;
    if At(u, n) == SLASH {
      ScanLocal(u[n + 1..], x, SLASH);
    }
  }

  lemma LineLocal(h: seq<byte>, x: seq<byte>, nl: nat, r: Response)
    requires EndsInLf(h) && LineAnchored(h) && nl <= |h|
    ensures ApplyLine(h + x, nl, r) == ApplyLine(h, nl, r)
  {
    hide Strtoul, RangeField, RangeAnchored, LocationField, HasChunked, Kind, ValueAt, Anchored;
    KindLocal(h, x);
    if Kind(h) != Unknown {
      var v := ValueStart(h);
      assert (h + x)[v..] == h[v..] + x;
      assert v <= nl ==> (h + x)[v..nl] == h[v..nl];
      match Kind(h)
      case ContentLength => ScanLocal(h[v..], x, SLASH);
      case ContentRange => RangeLocal(h[v..], x, r);
      case Location =>
      case TransferEncoding =>
    }
  }

  lemma {:induction false} LinesLocal(h: seq<byte>, x: seq<byte>, r: Response)
    requires (h == [] || Closed(h)) && LinesAnchored(h)
    ensures Lines(h + x, |h|, r) == Lines(h, |h|, r)
    decreases |h|
  {
    hide LineAnchored, ApplyLine, StrCrlf;
    if |h| > 2 {
      StrCrlfLocal(h, x);
      if StrCrlf(h).Some? {
        var n := StrCrlf(h).value;
        LineLocal(h, x, n, r);
        assert (h + x)[n + 2..] == h[n + 2..] + x;
        LinesLocal(h[n + 2..], x, ApplyLine(h, n, r));
      }
    }
  }

  // An anchored head is parsed the same whatever follows it in memory: body bytes
  // already received, or what the buffer held before.
  lemma AnchoredHeadIsLocal(h: seq<byte>, x: seq<byte>)
    requires |h| >= 4 && Closed(h) && HeadAnchored(h)
    ensures ParseHead(h + x, |h|) == ParseHead(h, |h|)
  {
    hide Strtol, Strtoul, Lines, LinesAnchored, StrCrlf, Strchr, Anchored;
    LfStops();
    UnitsArePlain();
    PrefixLocal(h, x, HTTP_1);
    StrCrlfLocal(h, x);
    if HTTP_1 <= h && StrCrlf(h).None? {
      NulBeforeCrlf(h, x);
    } else if HTTP_1 <= h {
      StrchrLocal(h, x, SPACE);
      if Strchr(h, SPACE).Some? {
        var sp, n := Strchr(h, SPACE).value, StrCrlf(h).value;
        assert (h + x)[sp + 1..] == h[sp + 1..] + x;
        StatusLocal(h[sp + 1..], x);
        assert (h + x)[n + 2..] == h[n + 2..] + x;
        LinesLocal(h[n + 2..], x, Empty(Strtol(h[sp + 1..], 10)));
      }
    }
  }

  lemma StatusLocal(t: seq<byte>, x: seq<byte>)
    requires Anchored(t) && EndsInLf(t)
    ensures Strtol(t + x, 10) == Strtol(t, 10)
  {
    LfStops();
    StrtoulLocal(t, x, 10);
  }

  // With a NUL in its first line a head is malformed, and that too shows in the head alone.
  lemma NulBeforeCrlf(h: seq<byte>, x: seq<byte>)
    requires Closed(h) && StrCrlf(h).None?
    ensures Strchr(h + x, SPACE) == Strchr(h, SPACE)
  {
    StrCrlfLocal(h, x);
    StrchrLocal(h, x, SPACE);
  }

  // ------------------------------------------------------------------
  // The other heads depend on what is behind them
  // ------------------------------------------------------------------

  // Two continuations of memory that a runaway scan tells apart.
  const ONE: seq<byte> := [SPACE, 0x31, MINUS]
  const TWO: seq<byte> := [SPACE, 0x32, MINUS]

  lemma {:induction false} BlankScan(u: seq<byte>, d: byte)
    requires Blanks(u) == |u| && 0 < Digit(d) < 10
    ensures Strtoul(u + [SPACE, d, MINUS], 10) == (Digit(d), |u| + 2)
    ensures Strtol(u + [SPACE, d, MINUS], 10) == Digit(d)
  {
    hide Digit, IsSpace;
    var s := u + [SPACE, d, MINUS];
    RunawayBlanks(u, d);
    DigitsAfterBlanks(d);
    assert s[|u| + 1] == d && s[|u| + 1..] == [d, MINUS];
    assert [d, MINUS][0..1] == [d] && [d, MINUS][1..] == [MINUS];
    assert s[|u| + 1..|u| + 2] == [d];
    assert [d][..0] == [];
  }

  lemma DigitsAfterBlanks(d: byte)
    requires 0 < Digit(d) < 10
    ensures !IsSpace(d) && !IsSign(d) && d != MINUS && IsSpace(SPACE) && Digit(MINUS) == 16
    ensures DigitRun([d, MINUS], 10) == 1 && CText.Value([d], 10) == Digit(d)
  {
    ByteClasses(d);
    assert [d, MINUS][1..] == [MINUS];
    assert [d][..0] == [];
  }

  lemma {:induction false} RunawayBlanks(u: seq<byte>, d: byte)
    requires Blanks(u) == |u| && Digit(d) < 10
    ensures Blanks(u + [SPACE, d, MINUS]) == |u| + 1
  {
    LfStops();
    ByteClasses(d);
    var s := u + [SPACE, d, MINUS];
    if u == [] {
      assert s[1..] == [d, MINUS];
    } else {
      assert s[1..] == u[1..] + [SPACE, d, MINUS];
      RunawayBlanks(u[1..], d);
    }
  }

  lemma LineKeepsStatus(s: seq<byte>, nl: nat, r: Response)
    ensures ApplyLine(s, nl, r).status == r.status
  {
    hide Strtoul, RangeSpec, Kind, ValueAt, HasChunked, TrimEnd;
  }

  lemma {:induction false} LinesKeepStatus(s: seq<byte>, k: int, r: Response)
    ensures Lines(s, k, r).status == r.status
    decreases |s|
  {
    hide ApplyLine, StrCrlf;
    if k > 2 && StrCrlf(s).Some? {
      LineKeepsStatus(s, StrCrlf(s).value, r);
      LinesKeepStatus(s[StrCrlf(s).value + 2..], k - (StrCrlf(s).value + 2), ApplyLine(s, StrCrlf(s).value, r));
    }
  }

  // A byte that no name the parser knows begins with.
  predicate Nameless(b: byte) {
    b != 0x43 && b != 0x63 && b != 0x4C && b != 0x6C && b != 0x54 && b != 0x74
  }

  predicate AllNameless(s: seq<byte>) {
    forall i :: 0 <= i < |s| ==> Nameless(s[i])
  }

  lemma NamelessBytes(b: byte)
    ensures IsSpace(b) || IsSign(b) || Digit(b) < 10 || b == SLASH ==> Nameless(b)
    ensures Nameless(b) ==> Lower(b) != CONTENT_LENGTH[0] && Lower(b) != LOCATION[0] && Lower(b) != TRANSFER_ENCODING[0]
    ensures CONTENT_RANGE[0] == CONTENT_LENGTH[0]
  {
  }

  lemma {:induction false} BlanksAreNameless(s: seq<byte>)
    ensures AllNameless(s[..Blanks(s)])
  {
    hide Nameless, IsSpace;
    if s != [] && IsSpace(s[0]) {
      NamelessBytes(s[0]);
      BlanksAreNameless(s[1..]);
      assert s[..Blanks(s)] == [s[0]] + s[1..][..Blanks(s[1..])];
    }
  }

  lemma {:induction false} DigitsAreNameless(s: seq<byte>)
    ensures AllNameless(s[..DigitRun(s, 10)])
  {
    hide Nameless, Digit;
    if s != [] && Digit(s[0]) < 10 {
      NamelessBytes(s[0]);
      DigitsAreNameless(s[1..]);
      assert s[..DigitRun(s, 10)] == [s[0]] + s[1..][..DigitRun(s[1..], 10)];
    }
  }

  lemma ConsumedIsNameless(u: seq<byte>)
    ensures AllNameless(u[..Strtoul(u, 10).1])
  {
    hide Nameless, IsSpace, Digit, IsSign, Blanks, DigitRun, CText.Value;
    var k := NumeralAt(u, 10);
    var n := DigitRun(u[k..], 10);
    BlanksAreNameless(u);
    DigitsAreNameless(u[k..]);
    if k > Blanks(u) { NamelessBytes(u[Blanks(u)]); }
    assert u[..k + n] == u[..k] + u[k..][..n];
    assert k == Blanks(u) || u[..k] == u[..Blanks(u)] + [u[Blanks(u)]];
  }

  lemma NamelessKind(s: seq<byte>)
    requires s != [] && Nameless(s[0])
    ensures Kind(s) == Unknown
  {
    hide Lower, Nameless;
    NamelessBytes(s[0]);
    assert At(s, 0) == s[0];
  }

  lemma NamelessLine(s: seq<byte>, r: Response)
    requires s != [] && Nameless(s[0])
    ensures forall nl: nat :: ApplyLine(s, nl, r) == r
  {
    hide Kind, Strtoul, RangeField, LocationField, HasChunked;
    NamelessKind(s);
  }

  lemma {:induction false} NamelessLines(h: seq<byte>, x: seq<byte>, r: Response)
    requires (h == [] || Closed(h)) && AllNameless(h)
    ensures Lines(h + x, |h|, r) == r
    decreases |h|
  {
    hide StrCrlf, Nameless, ApplyLine;
    if |h| > 2 {
      StrCrlfLocal(h, x);
      assert h[0] == (h + x)[0];
      NamelessLine(h + x, r);
      if StrCrlf(h).Some? {
        var n := StrCrlf(h).value;
        assert (h + x)[n + 2..] == h[n + 2..] + x;
        NamelessLines(h[n + 2..], x, r);
      }
    }
  }

  // A scan that runs off u reads one number or the other.
  lemma Runaway(u: seq<byte>)
    requires !Anchored(u)
    ensures Strtoul(u + ONE, 10) == (1, |u| + 2) && Strtoul(u + TWO, 10) == (2, |u| + 2)
    ensures Strtol(u + ONE, 10) == 1 && Strtol(u + TWO, 10) == 2
    ensures AllNameless(u)
  {
    hide Strtoul, Strtol, Nameless;
    BlankScan(u, 0x31);
    BlankScan(u, 0x32);
    BlanksAreNameless(u);
    assert u[..|u|] == u;
  }

  lemma RangeRunaway(v: seq<byte>, r: Response)
    requires EndsInLf(v) && !RangeAnchored(v)
    ensures RangeField(v + ONE, r) != RangeField(v + TWO, r)
    ensures AllNameless(RangeSpec(v))
  {
    hide Strtoul, RangeSpec, Anchored, AllNameless, RangeEnd, RangeEndAnchored;
    RangeSpecLocal(v, ONE);
    RangeSpecLocal(v, TWO);
    var u := RangeSpec(v);
    if !Anchored(u) {
      Runaway(u);
    } else {
      ScanLocal(u, ONE, MINUS);
      ScanLocal(u, TWO, MINUS);
      var n := Strtoul(u, 10).1;
      RangeEndRunaway(u[n + 1..]);
      GlueNameless(u, n);
    }
  }

  // What a scan consumed, the sign that ended it, and the rest.
  lemma GlueNameless(u: seq<byte>, n: nat)
    requires n < |u| && n == Strtoul(u, 10).1 && (u[n] == MINUS || u[n] == SLASH) && AllNameless(u[n + 1..])
    ensures AllNameless(u)
  {
    hide Strtoul, Nameless;
    ConsumedIsNameless(u);
    NamelessBytes(u[n]);
    assert u == u[..n] + [u[n]] + u[n + 1..];
  }

  lemma RangeEndRunaway(u: seq<byte>)
    requires EndsInLf(u) && !RangeEndAnchored(u)
    ensures RangeEnd(u + ONE) != RangeEnd(u + TWO)
    ensures AllNameless(u)
  {
    hide Strtoul, Anchored, AllNameless, RangeEnd, RangeEndAnchored;
    if !Anchored(u) {
      Runaway(u);
      RangeEndDiffers(u + ONE, u + TWO);
    } else {
      var n := UnanchoredTotal(u);
      Runaway(u[n + 1..]);
      GlueNameless(u, n);
    }
  }

  lemma RangeEndDiffers(a: seq<byte>, b: seq<byte>)
    requires Strtoul(a, 10).0 != Strtoul(b, 10).0
    ensures RangeEnd(a) != RangeEnd(b)
  {
    hide Strtoul;
  }

  // The number before the slash is anchored, the total behind it is not.
  lemma UnanchoredTotal(u: seq<byte>) returns (n: nat)
    requires EndsInLf(u) && Anchored(u) && !RangeEndAnchored(u)
    ensures n == Strtoul(u, 10).1 < |u| && u[n] == SLASH && !Anchored(u[n + 1..])
    ensures RangeEnd(u + ONE) != RangeEnd(u + TWO)
  {
    hide Strtoul, Anchored, EndsInLf, At, RangeEnd;
    n := Strtoul(u, 10).1;
    assert At(u, n) == SLASH;
    ScanLocal(u, ONE, SLASH);
    ScanLocal(u, TWO, SLASH);
    InsideAt(u, n);
    TotalOf(u + ONE, n);
    TotalOf(u + TWO, n);
    Runaway(u[n + 1..]);
  }

  lemma TotalOf(v: seq<byte>, n: nat)
    requires n < |v| && Strtoul(v, 10).1 == n && At(v, n) == SLASH
    ensures RangeEnd(v).1 == Strtoul(v[n + 1..], 10).0
  {
    hide Strtoul;
  }

  lemma InsideAt(u: seq<byte>, n: nat)
    requires n < |u|
    ensures At(u, n) == u[n]
  {
  }

  // A header's value begins on its own line.
  lemma ValueInLine(h: seq<byte>, n: nat)
    requires Kind(h) != Unknown && StrCrlf(h) == Some(n)
    ensures ValueStart(h) <= n
  {
    hide HdrMatch, IsSpace, Padding;
    CrlfMeans(h);
    var f := Kind(h);
    NamesArePlain(f);
    LfStops();
    MatchAvoidsBlanks(h, Name(f), n);
    PaddingStopsAt(h[|Name(f)| + 1..], n - |Name(f)| - 1);
  }

  lemma MatchAvoidsBlanks(h: seq<byte>, name: seq<byte>, n: nat)
    requires HdrMatch(h, name) && n < |h| && h[n] == CR
    requires forall i :: 0 <= i < |name| ==> !IsSpace(name[i])
    ensures n > |name|
  {
    hide Lower, IsSpace;
    assert At(h, n) == CR;
    assert n < |name| ==> Lower(At(h, n)) == name[n];
    LfStops();
    BlanksHaveNoCase(CR);
  }

  lemma {:induction false} PaddingStopsAt(t: seq<byte>, n: nat)
    requires n < |t| && t[n] == CR
    ensures Padding(t) <= n
  {
    if n > 0 && (t[0] == SPACE || t[0] == TAB) {
      PaddingStopsAt(t[1..], n - 1);
    }
  }

  lemma UnitInLine(v: seq<byte>, n: nat, p: seq<byte>)
    requires n < |v| && v[n] == CR && CR !in p && p <= v
    ensures |p| <= n
  {
    assert forall i :: 0 <= i < |p| ==> v[i] == p[i] && p[i] in p;
  }

  lemma SpecInLine(v: seq<byte>, n: nat)
    requires n < |v| && v[n] == CR
    ensures |RangeSpec(v)| <= |v| && |v| - |RangeSpec(v)| <= n && RangeSpec(v) == v[|v| - |RangeSpec(v)|..]
  {
    UnitsHaveNoCr();
    if BYTES_SP <= v { UnitInLine(v, n, BYTES_SP); }
    var v1 := if BYTES_SP <= v then v[6..] else v;
    var n1 := if BYTES_SP <= v then n - 6 else n;
    assert v1[n1] == CR;
    if BYTES_EQ <= v1 { UnitInLine(v1, n1, BYTES_EQ); }
  }

  lemma UnitsHaveNoCr()
    ensures CR !in BYTES_SP && CR !in BYTES_EQ
  {
  }

  // The first line whose scan runs off the head makes the difference, and nothing
  // behind it is a header.
  lemma LineRunaway(h: seq<byte>, n: nat, r: Response)
    requires Closed(h) && StrCrlf(h) == Some(n) && !LineAnchored(h)
    ensures ApplyLine(h + ONE, n, r) != ApplyLine(h + TWO, n, r)
    ensures AllNameless(h[n + 2..])
  {
    hide *;
    CrlfInside(h, n);
    RunawayShows(h, n, r);
    RunawayNameless(h, n, r);
  }

  lemma CrlfInside(h: seq<byte>, n: nat)
    requires StrCrlf(h) == Some(n)
    ensures n + 2 <= |h| && h[n] == CR
  {
    CrlfMeans(h);
  }

  lemma RunawayNameless(h: seq<byte>, n: nat, r: Response)
    requires Closed(h) && StrCrlf(h) == Some(n) && !LineAnchored(h) && n + 2 <= |h| && h[n] == CR
    ensures AllNameless(h[n + 2..])
  {
    hide RangeAnchored, Kind, ValueStart, Anchored, AllNameless, StrCrlf;
    KindLocal(h, ONE);
    ValueInLine(h, n);
    var v := ValueStart(h);
    Suffixes(h, v, n);
    if Kind(h) == ContentLength {
      Runaway(h[v..]);
      SuffixNameless(h[v..], h[v..], n + 2 - v);
    } else {
      RangeNameless(h[v..], n - v, r);
    }
  }

  lemma Suffixes(h: seq<byte>, v: nat, n: nat)
    requires v <= n && n + 2 <= |h| && EndsInLf(h)
    ensures h[v..][n + 2 - v..] == h[n + 2..] && h[v..][n - v] == h[n]
    ensures EndsInLf(h[v..]) && h[v..][|h[v..]| - |h[v..]|..] == h[v..]
  {
  }

  lemma RangeNameless(t: seq<byte>, n: nat, r: Response)
    requires EndsInLf(t) && !RangeAnchored(t) && n + 2 <= |t| && t[n] == CR
    ensures AllNameless(t[n + 2..])
  {
    hide RangeField, RangeSpec, RangeAnchored, AllNameless;
    RangeRunaway(t, r);
    SpecInLine(t, n);
    SuffixNameless(t, RangeSpec(t), n + 2);
  }

  lemma SuffixNameless(t: seq<byte>, u: seq<byte>, m: nat)
    requires |u| <= |t| && u == t[|t| - |u|..] && |t| - |u| <= m <= |t| && AllNameless(u)
    ensures AllNameless(t[m..])
  {
    hide Nameless;
    assert t[m..] == u[m - (|t| - |u|)..];
  }

  lemma RunawayShows(h: seq<byte>, n: nat, r: Response)
    requires Closed(h) && n <= |h| && !LineAnchored(h)
    ensures ApplyLine(h + ONE, n, r) != ApplyLine(h + TWO, n, r)
  {
    hide Strtoul, RangeField, RangeSpec, RangeAnchored, LocationField, HasChunked, Kind, ValueAt, Anchored, AllNameless;
    KindLocal(h, ONE);
    KindLocal(h, TWO);
    var t := h[ValueStart(h)..];
    assert (h + ONE)[ValueStart(h)..] == t + ONE && (h + TWO)[ValueStart(h)..] == t + TWO;
    if Kind(h) == ContentLength {
      Runaway(t);
    } else {
      RangeRunaway(t, r);
    }
  }

  lemma {:induction false} LinesRunaway(h: seq<byte>, r: Response)
    requires (h == [] || Closed(h)) && !LinesAnchored(h)
    ensures Lines(h + ONE, |h|, r) != Lines(h + TWO, |h|, r)
    decreases |h|
  {
    hide LineAnchored, ApplyLine, StrCrlf, Nameless;
    StrCrlfLocal(h, ONE);
    StrCrlfLocal(h, TWO);
    var n := StrCrlf(h).value;
    var rest := h[n + 2..];
    assert (h + ONE)[n + 2..] == rest + ONE && (h + TWO)[n + 2..] == rest + TWO;
    if LineAnchored(h) {
      LineLocal(h, ONE, n, r);
      LineLocal(h, TWO, n, r);
      LinesRunaway(rest, ApplyLine(h, n, r));
    } else {
      LineRunaway(h, n, r);
      NamelessLines(rest, ONE, ApplyLine(h + ONE, n, r));
      NamelessLines(rest, TWO, ApplyLine(h + TWO, n, r));
    }
  }

  // A parsed head, put together from the two things read in its first line.
  lemma HeadIs(h: seq<byte>, x: seq<byte>, sp: nat)
    requires Closed(h) && HTTP_1 <= h && StrCrlf(h).Some? && Strchr(h + x, SPACE) == Some(sp)
    ensures var n := StrCrlf(h).value;
            ParseHead(h + x, |h|) ==
            Head(Lines(h[n + 2..] + x, |h| - (n + 2), Empty(Strtol((h + x)[sp + 1..], 10))))
  {
    hide Strtol, Lines, StrCrlf, Strchr;
    StrCrlfLocal(h, x);
    var n := StrCrlf(h).value;
    assert (h + x)[n + 2..] == h[n + 2..] + x;
  }

  lemma StatusShows(h: seq<byte>, sp: nat)
    requires Closed(h) && HTTP_1 <= h && StrCrlf(h).Some?
    requires Strchr(h + ONE, SPACE) == Strchr(h + TWO, SPACE) == Some(sp)
    requires Strtol((h + ONE)[sp + 1..], 10) != Strtol((h + TWO)[sp + 1..], 10)
    ensures ParseHead(h + ONE, |h|) != ParseHead(h + TWO, |h|)
  {
    hide Strtol, Lines, StrCrlf, Strchr, ParseHead;
    HeadIs(h, ONE, sp);
    HeadIs(h, TWO, sp);
    var n := StrCrlf(h).value;
    LinesKeepStatus(h[n + 2..] + ONE, |h| - (n + 2), Empty(Strtol((h + ONE)[sp + 1..], 10)));
    LinesKeepStatus(h[n + 2..] + TWO, |h| - (n + 2), Empty(Strtol((h + TWO)[sp + 1..], 10)));
  }

  lemma UnanchoredHeadRunsOff(h: seq<byte>)
    requires |h| >= 4 && Closed(h) && !HeadAnchored(h)
    ensures ParseHead(h + ONE, |h|) != ParseHead(h + TWO, |h|)
  {
    hide Strtol, Strtoul, Lines, LinesAnchored, StrCrlf, Strchr, Anchored, Nameless, ParseHead;
    if Strchr(h, SPACE).None? {
      SpaceBehind(h, ONE[1..]);
      SpaceBehind(h, TWO[1..]);
      assert h + [SPACE] + ONE[1..] == h + ONE && h + [SPACE] + TWO[1..] == h + TWO;
      assert (h + ONE)[|h| + 1..] == ONE[1..] && (h + TWO)[|h| + 1..] == TWO[1..];
      Digits12();
      StatusShows(h, |h|);
    } else {
      var sp, n := Strchr(h, SPACE).value, StrCrlf(h).value;
      StrchrLocal(h, ONE, SPACE);
      StrchrLocal(h, TWO, SPACE);
      var t := h[sp + 1..];
      assert (h + ONE)[sp + 1..] == t + ONE && (h + TWO)[sp + 1..] == t + TWO;
      if !Anchored(t) {
        Runaway(t);
        StatusShows(h, sp);
      } else {
        StatusLocal(t, ONE);
        StatusLocal(t, TWO);
        HeadIs(h, ONE, sp);
        HeadIs(h, TWO, sp);
        StrCrlfLocal(h, ONE);
        LinesRunaway(h[n + 2..], Empty(Strtol(t, 10)));
      }
    }
  }

  lemma {:induction false} SpaceBehind(h: seq<byte>, x: seq<byte>)
    requires 0 !in h && Strchr(h, SPACE).None?
    ensures Strchr(h + [SPACE] + x, SPACE) == Some(|h|)
  {
    if h != [] {
      assert h == [h[0]] + h[1..];
      SpaceBehind(h[1..], x);
      assert (h + [SPACE] + x)[1..] == h[1..] + [SPACE] + x;
    }
  }

  lemma Digits12()
    ensures Strtol(ONE[1..], 10) == 1 && Strtol(TWO[1..], 10) == 2
  {
    hide Strtol;
    assert Digit(0x31) == 1 && Digit(0x32) == 2;
    DigitsAfterBlanks(0x31);
    DigitsAfterBlanks(0x32);
    NumeralReads([0x31], [MINUS], 10);
    NumeralReads([0x32], [MINUS], 10);
    assert ONE[1..] == [0x31] + [MINUS] && TWO[1..] == [0x32] + [MINUS];
  }

  // The result of parsing a head is its own, whatever segment boundary it arrived
  // with, exactly when every number scan in it meets a non-blank byte in it. A
  // last header line with a blank Content-Length is the simplest head that fails:
  // its scan runs on into the body.
  lemma LocalIffAnchored(h: seq<byte>)
    requires |h| >= 4 && Closed(h)
    ensures (forall x :: ParseHead(h + x, |h|) == ParseHead(h, |h|)) <==> HeadAnchored(h)
  {
    hide ParseHead, HeadAnchored;
    if HeadAnchored(h) {
      forall x
        ensures ParseHead(h + x, |h|) == ParseHead(h, |h|)
      {
        AnchoredHeadIsLocal(h, x);
      }
    } else {
      UnanchoredHeadRunsOff(h);
    }
  }
}
