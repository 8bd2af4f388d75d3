// URL splitting (app/ota/app_ota_http.c, parse_url).
module Url {
  import opened Bits
  import opened CText

  const HTTP: seq<byte> := [0x68, 0x74, 0x74, 0x70, 0x3A, 0x2F, 0x2F]
  const HTTPS: seq<byte> := [0x68, 0x74, 0x74, 0x70, 0x73, 0x3A, 0x2F, 0x2F]

  const HOST_SIZE: nat := 64
  const PATH_SIZE: nat := 160

  datatype Parts = Parts(host: seq<byte>, port: nat, path: seq<byte>)
  datatype Result = Ok(parts: Parts) | Bad(rc: int)

  // p is the URL behind its scheme. A colon in front of the first slash (or with
  // no slash at all) introduces a port.
  function ParseAuthority(p: seq<byte>): Result {
    var slash := Strchr(p, SLASH);
    var colon := Strchr(p, COLON);
    if colon.Some? && (slash.None? || colon.value < slash.value) then
      var port := Strtol(p[colon.value + 1..], 10);
      if colon.value == 0 || colon.value >= HOST_SIZE then Bad(-3)
      else if port <= 0 || port > 65535 then Bad(-4)
      else WithPath(p[..colon.value], port, if slash.Some? then p[slash.value..] else [])
    else
      var len := if slash.Some? then slash.value else |p|;
      if len == 0 || len >= HOST_SIZE then Bad(-3)
      else WithPath(p[..len], 80, p[len..])
  }

  function WithPath(host: seq<byte>, port: nat, rest: seq<byte>): Result {
    if rest == [] then Ok(Parts(host, port, [SLASH]))
    else if |rest| >= PATH_SIZE then Bad(-5)
    else Ok(Parts(host, port, rest))
  }

  function ParseUrl(url: seq<byte>): Result {
    if HTTP <= url then ParseAuthority(url[7..])
    else if HTTPS <= url then Bad(-2)
    else ParseAuthority(url)
  }

  // The schemes in plain text.
  lemma Schemes()
    ensures IsText(HTTP, "http://") && IsText(HTTPS, "https://")
  {
  }

  // The parts that a URL can be written with.
  predicate Printable(u: Parts) {
    && 0 !in u.host && COLON !in u.host && SLASH !in u.host
    && u.path != [] && u.path[0] == SLASH && 0 !in u.path
  }

  // The parts that a URL can carry.
  predicate WellFormed(u: Parts) {
    && Printable(u)
    && 1 <= |u.host| <= 63 && 1 <= u.port <= 65535 && |u.path| <= 159
  }

  // What becomes of them: a host that is missing or too long, then a port out of
  // range, then too long a path are refused.
  function Verdict(u: Parts): Result {
    if |u.host| == 0 || |u.host| > 63 then Bad(-3)
    else if u.port == 0 || u.port > 65535 then Bad(-4)
    else if |u.path| > 159 then Bad(-5)
    else Ok(u)
  }

  // The ways to write them: the port may be left out when it is 80, the path when
  // it is "/", and the scheme always.
  datatype Style = Style(scheme: bool, port: bool, path: bool)

  predicate Allows(style: Style, u: Parts) {
    (style.port || u.port == 80) && (style.path || u.path == [SLASH])
  }

  function PrintUrl(u: Parts, style: Style): seq<byte> {
    (if style.scheme then HTTP else []) + u.host
    + (if style.port then [COLON] + Decimal(u.port) else [])
    + (if style.path then u.path else [])
  }

  lemma {:induction false} StrchrFinds(before: seq<byte>, b: byte, after: seq<byte>)
    requires 0 !in before && b !in before && b != 0
    ensures Strchr(before + [b] + after, b) == Some(|before|)
  {
    var s := before + [b] + after;
    if before != [] {
      assert s[1..] == before[1..] + [b] + after;
      assert s[0] in before;
      StrchrFinds(before[1..], b, after);
    }
  }

  lemma {:induction false} StrchrMisses(s: seq<byte>, b: byte)
    requires b !in s
    ensures Strchr(s, b).None?
  {
    if s != [] {
      StrchrMisses(s[1..], b);
    }
  }

  // A byte that is not in front of the one found is not found in front of it.
  lemma StrchrBehind(before: seq<byte>, b: byte, after: seq<byte>)
    requires b !in before
    ensures Strchr(before + after, b).Some? ==> |before| <= Strchr(before + after, b).value
  {
    assert forall i :: 0 <= i < |before| ==> (before + after)[i] == before[i] && before[i] in before;
  }

  lemma DecimalIsPlain(n: nat)
    ensures COLON !in Decimal(n) && SLASH !in Decimal(n) && 0 !in Decimal(n)
  {
    hide Digit;
    forall i | 0 <= i < |Decimal(n)|
      ensures Decimal(n)[i] != COLON && Decimal(n)[i] != SLASH && Decimal(n)[i] != 0
    {
      ByteClasses(Decimal(n)[i]);
    }
  }

  lemma ParsePortPart(u: Parts, path: seq<byte>)
    requires Printable(u) && (path == u.path || (path == [] && u.path == [SLASH]))
    ensures ParseAuthority(u.host + [COLON] + Decimal(u.port) + path) == Verdict(u)
  {
    hide Strtol, Strchr, Decimal, ParseAuthority, Verdict;
    var p := u.host + [COLON] + Decimal(u.port) + path;
    PortPartPieces(u.host, Decimal(u.port), path);
    StrchrFinds(u.host, COLON, Decimal(u.port) + path);
    SlashBehindPort(u, path);
    PortReads(u, path);
    WithPort(p, |u.host|, if u.port <= LONG_MAX then u.port else LONG_MAX);
    PartsVerdict(u, path);
  }

  lemma PortPartPieces(host: seq<byte>, port: seq<byte>, path: seq<byte>)
    ensures var p := host + [COLON] + port + path;
            && p == host + [COLON] + (port + path) && p[..|host|] == host
            && p[|host| + 1..] == port + path && p[|host| + 1 + |port|..] == path
  {
    var p := host + [COLON] + port + path;
    assert p == (host + [COLON]) + (port + path);
    assert p[|host| + 1..][|port|..] == path;
  }

  lemma PartsVerdict(u: Parts, path: seq<byte>)
    requires Printable(u) && (path == u.path || (path == [] && u.path == [SLASH]))
    ensures Verdict(u) == if |u.host| == 0 || |u.host| >= HOST_SIZE then Bad(-3)
                          else if u.port == 0 || u.port > 65535 then Bad(-4) else WithPath(u.host, u.port, path)
  {
  }

  // A colon in front of the first slash.
  lemma WithPort(p: seq<byte>, colon: nat, port: nat)
    requires Strchr(p, COLON) == Some(colon) && Strtol(p[colon + 1..], 10) == port
    requires Strchr(p, SLASH).Some? ==> colon < Strchr(p, SLASH).value
    ensures ParseAuthority(p) ==
            if colon == 0 || colon >= HOST_SIZE then Bad(-3)
            else if port == 0 || port > 65535 then Bad(-4)
            else WithPath(p[..colon], port, if Strchr(p, SLASH).Some? then p[Strchr(p, SLASH).value..] else [])
  {
    hide Strtol, Strchr, WithPath;
  }

  lemma PortReads(u: Parts, path: seq<byte>)
    requires Printable(u) && (path == [] || path[0] == SLASH)
    ensures Strtol(Decimal(u.port) + path, 10) == if u.port <= LONG_MAX then u.port else LONG_MAX
  {
    hide Digit, Strtol, Decimal, Value;
    DecimalHasItsValue(u.port);
    SlashIsNoDigit();
    NumeralReads(Decimal(u.port), path, 10);
  }

  lemma SlashBehindPort(u: Parts, path: seq<byte>)
    requires Printable(u) && (path == [] || path[0] == SLASH)
    ensures Strchr(u.host + [COLON] + Decimal(u.port) + path, SLASH) ==
            if path == [] then None else Some(|u.host| + 1 + |Decimal(u.port)|)
  {
    hide Strchr, Decimal;
    var front := u.host + [COLON] + Decimal(u.port);
    DecimalIsPlain(u.port);
    assert 0 !in front && SLASH !in front;
    if path == [] {
      assert front + path == front;
      StrchrMisses(front, SLASH);
    } else {
      assert front + path == front + [SLASH] + path[1..];
      StrchrFinds(front, SLASH, path[1..]);
    }
  }

  lemma SlashIsNoDigit()
    ensures Digit(SLASH) == 16 && !IsX(SLASH)
  {
  }

  lemma ParsePlainPart(u: Parts, path: seq<byte>)
    requires Printable(u) && u.port == 80 && (path == u.path || (path == [] && u.path == [SLASH]))
    ensures ParseAuthority(u.host + path) == Verdict(u)
  {
    hide Strtol, Strchr;
    var p := u.host + path;
    StrchrBehind(u.host, COLON, path);
    if path == [] {
      StrchrMisses(p, SLASH);
      StrchrMisses(p, COLON);
    } else {
      assert p == u.host + [SLASH] + path[1..];
      StrchrFinds(u.host, SLASH, path[1..]);
      assert p[|u.host|] == SLASH;
    }
    assert p[..|u.host|] == u.host && p[|u.host|..] == path;
  }

  // Behind the host comes nothing, a slash, or a colon that no slash follows.
  predicate NoSchemeTail(rest: seq<byte>) {
    rest != [] ==> rest[0] == SLASH || (rest[0] == COLON && |rest| > 1 && rest[1] != SLASH)
  }

  // So the text is not taken to have a scheme: in "http://" the first colon is
  // followed by a slash, and no slash comes earlier.
  lemma NoScheme(host: seq<byte>, rest: seq<byte>)
    requires COLON !in host && SLASH !in host && NoSchemeTail(rest)
    ensures !(HTTP <= host + rest) && !(HTTPS <= host + rest)
  {
    NotAScheme(host, rest, HTTP, 4);
    NotAScheme(host, rest, HTTPS, 5);
  }

  lemma NotAScheme(host: seq<byte>, rest: seq<byte>, scheme: seq<byte>, k: nat)
    requires COLON !in host && SLASH !in host && NoSchemeTail(rest)
    requires k + 1 < |scheme| && scheme[k] == COLON && scheme[k + 1] == SLASH
    requires forall i :: 0 <= i < k ==> scheme[i] != COLON && scheme[i] != SLASH
    ensures !(scheme <= host + rest)
  {
    var s, n := host + rest, |host|;
    assert forall i :: 0 <= i < n ==> s[i] == host[i] && host[i] in host;
    assert rest != [] ==> s[n] == rest[0];
    assert |rest| > 1 ==> s[n + 1] == rest[1];
    if n > k {
      assert s[k] != scheme[k];
    } else if |rest| > 1 && n == k && rest[0] == COLON {
      assert s[k + 1] != scheme[k + 1];
    } else if rest != [] {
      assert s[n] != scheme[n];
    }
  }

  lemma TailOf(u: Parts, style: Style)
    requires Printable(u)
    ensures NoSchemeTail((if style.port then [COLON] + Decimal(u.port) else []) + (if style.path then u.path else []))
  {
    hide Decimal;
    DecimalIsPlain(u.port);
    assert Decimal(u.port)[0] in Decimal(u.port);
  }

  // The part behind the scheme, in every style.
  lemma AuthorityRoundTrip(u: Parts, style: Style)
    requires Printable(u) && Allows(style, u)
    ensures ParseAuthority(u.host + ((if style.port then [COLON] + Decimal(u.port) else []) + (if style.path then u.path else []))) == Verdict(u)
  {
    hide ParseAuthority, Decimal, Verdict;
    var path := if style.path then u.path else [];
    if style.port {
      assert u.host + (([COLON] + Decimal(u.port)) + path) == u.host + [COLON] + Decimal(u.port) + path;
      ParsePortPart(u, path);
    } else {
      assert u.host + ([] + path) == u.host + path;
      ParsePlainPart(u, path);
    }
  }

  // Printing and parsing are inverse, for every host, port and path that fit and
  // every way of writing them; with others the parser says which does not.
  lemma UrlRoundTrip(u: Parts, style: Style)
    requires Printable(u) && Allows(style, u)
    ensures ParseUrl(PrintUrl(u, style)) == Verdict(u)
    ensures WellFormed(u) <==> Verdict(u) == Ok(u)
  {
    hide ParseAuthority, Decimal, NoSchemeTail;
    var rest := (if style.port then [COLON] + Decimal(u.port) else []) + (if style.path then u.path else []);
    AuthorityRoundTrip(u, style);
    if style.scheme {
      assert PrintUrl(u, style) == HTTP + (u.host + rest);
      assert (HTTP + (u.host + rest))[7..] == u.host + rest;
    } else {
      assert PrintUrl(u, style) == u.host + rest;
      TailOf(u, style);
      NoScheme(u.host, rest);
    }
  }

  // The secure scheme is refused.
  lemma HttpsIsRefused(rest: seq<byte>)
    ensures ParseUrl([0x68, 0x74, 0x74, 0x70, 0x73, 0x3A, 0x2F, 0x2F] + rest) == Bad(-2)
  {
    var url := HTTPS + rest;
    assert url[4] == 0x73;
  }

  // Whatever is accepted is well-formed, so a parsed URL printed in full parses
  // to the same parts again.
  lemma AcceptedIsWellFormed(url: seq<byte>)
    requires 0 !in url && ParseUrl(url).Ok?
    ensures WellFormed(ParseUrl(url).parts)
    ensures ParseUrl(PrintUrl(ParseUrl(url).parts, Style(true, true, true))) == ParseUrl(url)
  {
    hide Strtol;
    var p := if HTTP <= url then url[7..] else url;
    assert 0 !in p;
    AuthorityIsWellFormed(p);
    UrlRoundTrip(ParseUrl(url).parts, Style(true, true, true));
  }

  lemma AuthorityIsWellFormed(p: seq<byte>)
    requires 0 !in p && ParseAuthority(p).Ok?
    ensures WellFormed(ParseAuthority(p).parts)
  {
    hide Strtol, Strchr;
    var slash := Strchr(p, SLASH);
    var colon := Strchr(p, COLON);
    StrchrMissesIff(p, SLASH);
    StrchrMissesIff(p, COLON);
  }

  lemma {:induction false} StrchrMissesIff(s: seq<byte>, b: byte)
    requires 0 !in s
    ensures Strchr(s, b).None? ==> b !in s
  {
    if s != [] {
      assert s == [s[0]] + s[1..];
      StrchrMissesIff(s[1..], b);
    }
  }
}
