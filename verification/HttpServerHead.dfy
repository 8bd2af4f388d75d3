// Response heads as servers write them (sections 3.1.2, 3.2 and 4.2 of RFC 7233
// and RFC 7230 for the syntax), and what the parser must make of them.
module HttpServerHead {
  import opened Bits
  import opened CText
  import opened HttpHead
  import Url

  const EMPTY_LINE: seq<byte> := [CR, LF]

  datatype Content =
    | Length(n: nat)
    | Range(first: nat, last: nat, total: nat)
    | Target(url: seq<byte>)
    | Coding(codings: seq<byte>)
    | Other(line: seq<byte>)

  // A header field: its name in any mixture of cases, blanks, its value.
  datatype Header = Header(name: seq<byte>, pad: seq<byte>, content: Content)

  datatype ServerHead = ServerHead(version: byte, status: nat, reason: seq<byte>, headers: seq<Header>)

  function FieldOf(c: Content): Field {
    match c
    case Length(_) => ContentLength
    case Range(_, _, _) => ContentRange
    case Target(_) => Location
    case Coding(_) => TransferEncoding
    case Other(_) => Unknown
  }

  function Text(c: Content): seq<byte> {
    match c
    case Length(n) => Decimal(n)
    case Range(first, last, total) => BYTES_SP + Decimal(first) + [MINUS] + Decimal(last) + [SLASH] + Decimal(total)
    case Target(url) => url
    case Coding(codings) => codings
    case Other(line) => line
  }

  function Print(h: Header): seq<byte> {
    if h.content.Other? then h.content.line else h.name + [COLON] + h.pad + Text(h.content)
  }

  predicate Spells(name: seq<byte>, lower: seq<byte>) {
    |name| == |lower| && forall i :: 0 <= i < |name| ==> Lower(name[i]) == lower[i]
  }

  predicate Visible(s: seq<byte>) {
    s != [] && s[0] != SPACE && s[0] != TAB && s[|s| - 1] != CR && s[|s| - 1] != LF
  }

  predicate WellFormed(h: Header) {
    && Print(h) != [] && OneLine(Print(h)) && 0 !in Print(h)
    && match h.content
       case Length(n) => Named(h) && n <= ULONG_MAX
       case Range(first, last, total) => Named(h) && first <= ULONG_MAX && last <= ULONG_MAX && total <= ULONG_MAX
       case Target(url) => Named(h) && Visible(url)
       case Coding(codings) => Named(h) && Visible(codings)
       case Other(line) => Kind(Line(line)) == Unknown
  }

  predicate Named(h: Header) {
    Spells(h.name, Name(FieldOf(h.content))) && forall i :: 0 <= i < |h.pad| ==> h.pad[i] == SPACE || h.pad[i] == TAB
  }

  // What a field says; of a Location the first 240 bytes are kept.
  function Meaning(h: Header, r: Response): Response {
    match h.content
    case Length(n) => r.(contentLength := n, hasContentLength := true)
    case Range(first, last, total) => r.(rangeStart := first, rangeEnd := last, rangeTotal := total, hasContentRange := true)
    case Target(url) => r.(location := if |url| > 240 then url[..240] else url, hasLocation := true)
    case Coding(codings) => r.(isChunked := r.isChunked || HasChunked(codings))
    case Other(_) => r
  }

  function MeaningOf(hs: seq<Header>, r: Response): Response {
    if hs == [] then r else MeaningOf(hs[1..], Meaning(hs[0], r))
  }

  function PrintHeaders(hs: seq<Header>): seq<byte> {
    if hs == [] then EMPTY_LINE else Line(Print(hs[0])) + PrintHeaders(hs[1..])
  }

  function StatusLine(s: ServerHead): seq<byte> {
    HTTP_1 + [s.version, SPACE] + Decimal(s.status) + s.reason
  }

  function PrintHead(s: ServerHead): seq<byte> {
    Line(StatusLine(s)) + PrintHeaders(s.headers)
  }

  predicate WellFormedHead(s: ServerHead) {
    && OneLine(StatusLine(s)) && 0 !in StatusLine(s) && s.version != SPACE
    && s.status <= LONG_MAX && (s.reason != [] ==> s.reason[0] == SPACE)
    && forall h :: h in s.headers ==> WellFormed(h)
  }

  // ------------------------------------------------------------------
  // One header line
  // ------------------------------------------------------------------

  // A name is recognised however it is spelt; two different names never match.
  lemma KindOfName(name: seq<byte>, f: Field, rest: seq<byte>)
    requires f != Unknown && Spells(name, Name(f))
    ensures Kind(name + [COLON] + rest) == f
  {
    hide Lower;
    var s := name + [COLON] + rest;
    assert forall i :: 0 <= i < |name| ==> At(s, i) == name[i];
    assert At(s, |name|) == COLON;
    assert HdrMatch(s, Name(f));
    match f
    case ContentLength =>
    case ContentRange => assert Lower(At(s, 8)) != CONTENT_LENGTH[8];
    case Location =>
      assert Lower(At(s, 0)) != CONTENT_LENGTH[0] && Lower(At(s, 0)) != CONTENT_RANGE[0];
    case TransferEncoding =>
      assert Lower(At(s, 0)) != CONTENT_LENGTH[0] && Lower(At(s, 0)) != CONTENT_RANGE[0] && Lower(At(s, 0)) != LOCATION[0];
  }

  lemma {:induction false} PaddingOf(pad: seq<byte>, rest: seq<byte>)
    requires forall i :: 0 <= i < |pad| ==> pad[i] == SPACE || pad[i] == TAB
    requires rest != [] && rest[0] != SPACE && rest[0] != TAB
    ensures Padding(pad + rest) == |pad|
  {
    if pad == [] {
      assert pad + rest == rest;
    } else {
      assert (pad + rest)[1..] == pad[1..] + rest;
      PaddingOf(pad[1..], rest);
    }
  }

  lemma DigitsAreVisible(n: nat)
    ensures Decimal(n)[0] != SPACE && Decimal(n)[0] != TAB && Decimal(n)[0] != BYTES_EQ[0] && Decimal(n)[0] != BYTES_SP[0]
  {
    hide Decimal;
    DigitIsVisible(Decimal(n)[0]);
  }

  lemma DigitIsVisible(b: byte)
    requires Digit(b) < 10
    ensures b != SPACE && b != TAB && b != BYTES_EQ[0] && b != BYTES_SP[0]
  {
  }

  // Where the value of a printed header is found.
  lemma ValueOf(h: Header, rest: seq<byte>)
    requires WellFormed(h) && !h.content.Other?
    ensures var s := Line(Print(h)) + rest;
            && Kind(s) == FieldOf(h.content)
            && s[ValueStart(s)..] == Text(h.content) + EMPTY_LINE + rest
            && ValueStart(s) <= |Print(h)|
            && s[ValueStart(s)..|Print(h)|] == Text(h.content)
  {
    hide Kind, ValueStart, Text, HasChunked, OneLine, Visible, Spells;
    var s := Line(Print(h)) + rest;
    var text := Text(h.content);
    var tail := text + EMPTY_LINE + rest;
    TextIsVisible(h.content);
    assert tail[0] == text[0];
    ValueStartIs(h.name, FieldOf(h.content), h.pad, tail);
    assert s == h.name + [COLON] + (h.pad + tail);
    assert s[|h.name| + 1 + |h.pad|..|Print(h)|] == text;
  }

  lemma ValueStartIs(name: seq<byte>, f: Field, pad: seq<byte>, tail: seq<byte>)
    requires f != Unknown && Spells(name, Name(f))
    requires forall i :: 0 <= i < |pad| ==> pad[i] == SPACE || pad[i] == TAB
    requires tail != [] && tail[0] != SPACE && tail[0] != TAB
    ensures var s, k := name + [COLON] + (pad + tail), |name| + 1 + |pad|;
            Kind(s) == f && ValueStart(s) == k && s[k..] == tail
  {
    hide Kind, Padding, Spells, Name;
    var s := name + [COLON] + (pad + tail);
    KindOfName(name, f, pad + tail);
    SameLength(name, Name(f));
    PaddingOf(pad, tail);
    assert s[|name| + 1..] == pad + tail;
  }

  lemma SameLength(a: seq<byte>, b: seq<byte>)
    requires Spells(a, b)
    ensures |a| == |b|
  {
  }

  lemma TextIsVisible(c: Content)
    requires c.Target? ==> Visible(c.url)
    requires c.Coding? ==> Visible(c.codings)
    ensures !c.Other? ==> Text(c) != [] && Text(c)[0] != SPACE && Text(c)[0] != TAB
  {
    hide Decimal;
    if c.Length? { DigitsAreVisible(c.n); }
    assert BYTES_SP[0] != SPACE && BYTES_SP[0] != TAB;
  }

  // A decimal number followed by anything that is no digit.
  lemma NumberReads(n: nat, rest: seq<byte>)
    requires n <= ULONG_MAX && (rest == [] || (Digit(rest[0]) >= 10 && !IsX(rest[0])))
    ensures Strtoul(Decimal(n) + rest, 10) == (n, |Decimal(n)|)
  {
    hide Digit, Strtoul, Decimal, Value;
    DecimalHasItsValue(n);
    NumeralReads(Decimal(n), rest, 10);
  }

  lemma Separators()
    ensures Digit(CR) == 16 && !IsX(CR) && Digit(MINUS) == 16 && !IsX(MINUS) && Digit(SLASH) == 16 && !IsX(SLASH)
    ensures Digit(SPACE) == 16 && !IsX(SPACE)
  {
  }

  // A decimal number, the byte that ends it, and what follows.
  lemma NumberThen(n: nat, sep: byte, more: seq<byte>)
    requires n <= ULONG_MAX && (sep == MINUS || sep == SLASH)
    ensures var u := Decimal(n) + ([sep] + more);
            Strtoul(u, 10) == (n, |Decimal(n)|) && At(u, |Decimal(n)|) == sep && u[|Decimal(n)| + 1..] == more
  {
    hide Digit, Strtoul, Decimal;
    Separators();
    NumberReads(n, [sep] + more);
  }

  lemma RangeEndReads(last: nat, total: nat, rest: seq<byte>)
    requires last <= ULONG_MAX && total <= ULONG_MAX && rest != [] && rest[0] == CR
    ensures RangeEnd(Decimal(last) + ([SLASH] + (Decimal(total) + rest))) == (last, total)
  {
    hide Digit, Strtoul, Decimal;
    NumberThen(last, SLASH, Decimal(total) + rest);
    Separators();
    NumberReads(total, rest);
  }

  lemma RangeReads(first: nat, last: nat, total: nat, rest: seq<byte>, r: Response)
    requires first <= ULONG_MAX && last <= ULONG_MAX && total <= ULONG_MAX
    requires rest != [] && rest[0] == CR
    ensures RangeField(BYTES_SP + Decimal(first) + [MINUS] + Decimal(last) + [SLASH] + Decimal(total) + rest, r) ==
            r.(rangeStart := first, rangeEnd := last, rangeTotal := total, hasContentRange := true)
  {
    hide Strtoul, Decimal, RangeSpec, RangeEnd;
    var u1 := Decimal(last) + ([SLASH] + (Decimal(total) + rest));
    var u := Decimal(first) + ([MINUS] + u1);
    assert BYTES_SP + Decimal(first) + [MINUS] + Decimal(last) + [SLASH] + Decimal(total) + rest == BYTES_SP + u;
    DigitsAreVisible(first);
    SpecOf(u);
    NumberThen(first, MINUS, u1);
    RangeEndReads(last, total, rest);
  }

  // Without a slash behind it the total counts as 0.
  lemma RangeWithoutTotal(first: nat, last: nat, rest: seq<byte>, r: Response)
    requires first <= ULONG_MAX && last <= ULONG_MAX
    requires rest != [] && rest[0] == CR
    ensures RangeField(BYTES_SP + Decimal(first) + [MINUS] + Decimal(last) + rest, r) ==
            r.(rangeStart := first, rangeEnd := last, rangeTotal := 0, hasContentRange := true)
  {
    hide Strtoul, Decimal, RangeSpec;
    var u1 := Decimal(last) + rest;
    var u := Decimal(first) + ([MINUS] + u1);
    assert BYTES_SP + Decimal(first) + [MINUS] + Decimal(last) + rest == BYTES_SP + u;
    DigitsAreVisible(first);
    SpecOf(u);
    NumberThen(first, MINUS, u1);
    Separators();
    NumberReads(last, rest);
    assert At(u1, |Decimal(last)|) == rest[0];
  }

  lemma SpecOf(u: seq<byte>)
    requires u != [] && u[0] != BYTES_EQ[0]
    ensures RangeSpec(BYTES_SP + u) == u
  {
    assert (BYTES_SP + u)[6..] == u;
  }

  lemma HeaderReads(h: Header, rest: seq<byte>, r: Response)
    requires WellFormed(h)
    ensures ApplyLine(Line(Print(h)) + rest, |Print(h)|, r) == Meaning(h, r)
  {
    hide Kind, Strtoul, RangeField, HasChunked, OneLine, Decimal, ValueAt;
    var s := Line(Print(h)) + rest;
    if h.content.Other? {
      KindLocal(Line(Print(h)), rest);
    } else {
      ValueOf(h, rest);
      Separators();
      var tail := EMPTY_LINE + rest;
      assert Text(h.content) + EMPTY_LINE + rest == Text(h.content) + tail;
      match h.content
      case Length(n) => NumberReads(n, tail);
      case Range(first, last, total) => RangeReads(first, last, total, tail, r);
      case Target(url) =>
      case Coding(codings) =>
    }
  }

  // ------------------------------------------------------------------
  // The whole head
  // ------------------------------------------------------------------

  lemma {:induction false} HeadersRead(hs: seq<Header>, rest: seq<byte>, r: Response)
    requires forall h :: h in hs ==> WellFormed(h)
    ensures Lines(PrintHeaders(hs) + rest, |PrintHeaders(hs)|, r) == MeaningOf(hs, r)
    decreases hs
  {
    hide WellFormed, Meaning, ApplyLine, Print, Line, StrCrlf;
    if hs != [] {
      var h, more := hs[0], PrintHeaders(hs[1..]) + rest;
      PrintedLine(h, more);
      HeaderReads(h, more, r);
      LineInFront(Print(h), PrintHeaders(hs[1..]), rest);
      HeadersRead(hs[1..], rest, Meaning(h, r));
    }
  }

  lemma LineInFront(line: seq<byte>, others: seq<byte>, rest: seq<byte>)
    ensures |Line(line)| == |line| + 2 && Line(line) + others + rest == Line(line) + (others + rest)
    ensures (Line(line) + others + rest)[|line| + 2..] == others + rest
  {
    assert Line(line) + others + rest == Line(line) + (others + rest);
  }

  lemma PrintedLine(h: Header, more: seq<byte>)
    requires WellFormed(h)
    ensures Print(h) != [] && StrCrlf(Line(Print(h)) + more) == Some(|Print(h)|)
  {
    hide Print, Crlf;
    CrlfOfLine(Print(h), more);
    assert (Line(Print(h)) + more)[..|Print(h)|] == Print(h);
  }

  lemma StatusReads(s: ServerHead, rest: seq<byte>)
    requires WellFormedHead(s)
    ensures var m := Line(StatusLine(s)) + rest;
            && HTTP_1 <= m && Strchr(m, SPACE) == Some(8) && Strtol(m[9..], 10) == s.status
            && StrCrlf(m) == Some(|StatusLine(s)|)
  {
    hide Strtol, Strchr, Decimal, Crlf, WellFormed;
    var m := Line(StatusLine(s)) + rest;
    var front, number := HTTP_1 + [s.version], Decimal(s.status) + (s.reason + [CR, LF] + rest);
    assert m == front + [SPACE] + number;
    SpaceBehindVersion(s, number);
    assert m[9..] == number;
    StatusNumber(s, rest);
    CrlfOfLine(StatusLine(s), rest);
    assert m[..|StatusLine(s)|] == StatusLine(s);
  }

  lemma SpaceBehindVersion(s: ServerHead, number: seq<byte>)
    requires WellFormedHead(s)
    ensures Strchr(HTTP_1 + [s.version] + [SPACE] + number, SPACE) == Some(8)
  {
    hide Strchr, Decimal, Crlf, WellFormed;
    assert StatusLine(s)[7] == s.version;
    assert 0 !in HTTP_1 && SPACE !in HTTP_1;
    Url.StrchrFinds(HTTP_1 + [s.version], SPACE, number);
  }

  lemma StatusNumber(s: ServerHead, rest: seq<byte>)
    requires WellFormedHead(s)
    ensures Strtol(Decimal(s.status) + (s.reason + [CR, LF] + rest), 10) == s.status
  {
    hide Digit, Strtol, Decimal, Value, WellFormed, StatusLine, OneLine;
    Separators();
    DecimalHasItsValue(s.status);
    NumeralReads(Decimal(s.status), s.reason + [CR, LF] + rest, 10);
  }

  // Every well-formed head is understood as its fields mean, whatever is behind it.
  lemma HeadReads(s: ServerHead, rest: seq<byte>)
    requires WellFormedHead(s)
    ensures ParseHead(PrintHead(s) + rest, |PrintHead(s)|) ==
            Head(MeaningOf(s.headers, Response(s.status, 0, false, 0, 0, 0, false, [], false, false)))
  {
    hide Strtol, Strchr, Lines, MeaningOf, PrintHeaders, StatusLine, StrCrlf;
    var m := PrintHead(s) + rest;
    var after := PrintHeaders(s.headers) + rest;
    assert m == Line(StatusLine(s)) + after;
    StatusReads(s, after);
    assert m[|StatusLine(s)| + 2..] == after;
    HeadersRead(s.headers, rest, Empty(s.status));
  }

  // The head found in front of a body is the printed head.
  lemma HeadEndsThere(s: ServerHead, rest: seq<byte>)
    requires WellFormedHead(s)
    ensures HeadEnd(PrintHead(s) + rest) == Some(|PrintHead(s)|)
  {
    hide HeadEnd, PrintHeaders, StatusLine, Decimal;
    var after := PrintHeaders(s.headers) + rest;
    assert PrintHead(s) + rest == Line(StatusLine(s)) + after;
    HeadersEnd(s.headers, rest);
    HeadEndSkipsLine(StatusLine(s), after);
  }

  // How far an empty line is from the start of text that follows a CRLF.
  function EndAfterCrlf(s: seq<byte>): Option<nat> {
    if EMPTY_LINE <= s then Some(2) else HeadEnd(s)
  }

  lemma {:induction false} HeadEndSkipsLine(line: seq<byte>, rest: seq<byte>)
    requires OneLine(line) && EndAfterCrlf(rest).Some?
    ensures HeadEnd(Line(line) + rest) == Some(|line| + 2 + EndAfterCrlf(rest).value)
  {
    var s := Line(line) + rest;
    if line == [] {
      assert s[1..][1..] == rest && s[2..] == rest;
      if EMPTY_LINE <= rest {
        assert EndsHead(s);
      } else {
        assert s[0] == CR && s[1] == LF;
        assert !EndsHead(s) && !EndsHead(s[1..]);
      }
    } else {
      assert s[1..] == Line(line[1..]) + rest;
      assert s[1] == Line(line)[1];
      HeadEndSkipsLine(line[1..], rest);
    }
  }

  lemma {:induction false} HeadersEnd(hs: seq<Header>, rest: seq<byte>)
    requires forall h :: h in hs ==> WellFormed(h)
    ensures EndAfterCrlf(PrintHeaders(hs) + rest) == Some(|PrintHeaders(hs)|)
    decreases hs
  {
    hide WellFormed, HeadEnd, Print;
    if hs != [] {
      var more := PrintHeaders(hs[1..]) + rest;
      var s := PrintHeaders(hs) + rest;
      assert s == Line(Print(hs[0])) + more;
      HeadersEnd(hs[1..], rest);
      NoCrlfFirst(hs[0], more);
      HeadEndSkipsLine(Print(hs[0]), more);
    }
  }

  lemma NoCrlfFirst(h: Header, more: seq<byte>)
    requires WellFormed(h)
    ensures OneLine(Print(h)) && !(EMPTY_LINE <= Line(Print(h)) + more)
  {
    hide Print;
    CrlfMeans(Print(h));
    var s := Line(Print(h)) + more;
    assert s[0] == Print(h)[0] && s[1] == Line(Print(h))[1];
    assert |Print(h)| > 1 ==> Line(Print(h))[1] == Print(h)[1];
  }

  // The simplest heads whose parse depends on what is behind them: the last field
  // is a Content-Length with nothing after its colon.
  lemma BlankLengthRunsOff(s: ServerHead, name: seq<byte>)
    requires WellFormedHead(s) && s.headers == [] && Spells(name, CONTENT_LENGTH) && OneLine(name) && 0 !in name
    ensures var h := Line(StatusLine(s)) + Line(name + [COLON]) + EMPTY_LINE;
            exists x :: ParseHead(h + x, |h|) != ParseHead(h, |h|)
  {
    hide Strchr, Strtol, Lines, ParseHead, StatusLine, WellFormedHead, HeadAnchored, Anchored, Kind, StrCrlf;
    var rest := Line(name + [COLON]) + EMPTY_LINE;
    var h := Line(StatusLine(s)) + rest;
    assert Line(StatusLine(s)) + Line(name + [COLON]) + EMPTY_LINE == h;
    StatusReads(s, rest);
    assert h[|StatusLine(s)| + 2..] == rest;
    BlankLine(name);
    NotAnchored(h, |StatusLine(s)|);
    LocalIffAnchored(h);
  }

  lemma NotAnchored(h: seq<byte>, n: nat)
    requires HTTP_1 <= h && Strchr(h, SPACE).Some? && StrCrlf(h) == Some(n) && !LinesAnchored(h[n + 2..])
    ensures !HeadAnchored(h)
  {
    hide Strchr, StrCrlf, LinesAnchored, Anchored;
  }

  lemma BlankLine(name: seq<byte>)
    requires Spells(name, CONTENT_LENGTH) && OneLine(name) && 0 !in name
    ensures !LinesAnchored(Line(name + [COLON]) + EMPTY_LINE)
  {
    hide Lower, Kind, Crlf, IsSpace;
    var line, tail := name + [COLON], [CR, LF] + EMPTY_LINE;
    var s := Line(line) + EMPTY_LINE;
    assert s == name + [COLON] + tail;
    KindOfName(name, ContentLength, tail);
    assert s[|name| + 1..] == tail && Padding(tail) == 0;
    FourBlanks(tail);
    ColonStaysOnLine(name);
    CrlfOfLine(line, EMPTY_LINE);
    assert s[..|line|] == line;
  }

  lemma FourBlanks(t: seq<byte>)
    requires t == [CR, LF, CR, LF]
    ensures Blanks(t) == 4
  {
    assert t[1..] == [LF, CR, LF] && t[1..][1..] == [CR, LF] && t[1..][1..][1..] == [LF];
    assert t[1..][1..][1..][1..] == [];
    assert Blanks([LF]) == 1;
    assert Blanks([CR, LF]) == 2;
  }

  lemma ColonStaysOnLine(name: seq<byte>)
    requires OneLine(name)
    ensures OneLine(name + [COLON])
  {
    CrlfMeans(name);
    CrlfMeans(name + [COLON]);
    assert forall i :: 0 <= i < |name| ==> (name + [COLON])[i] == name[i];
  }
}
