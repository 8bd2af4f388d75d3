// Text as the C library sees it: bytes, blanks, numerals, line ends. A string is
// its bytes before the terminator; reading past the end of a sequence reads NUL.
module CText {
  import opened Bits

  const CR: byte := 0x0D
  const LF: byte := 0x0A
  const SPACE: byte := 0x20
  const TAB: byte := 0x09
  const PLUS: byte := 0x2B
  const MINUS: byte := 0x2D
  const SLASH: byte := 0x2F
  const COLON: byte := 0x3A

  // The bytes are those of a text in ASCII.
  predicate IsText(t: seq<byte>, text: string) {
    |t| == |text| && forall i :: 0 <= i < |text| ==> t[i] as int == text[i] as int
  }

  const ULONG_MAX: nat := 0xFFFF_FFFF
  const LONG_MAX: int := 0x7FFF_FFFF

  function At(s: seq<byte>, i: nat): byte {
    if i < |s| then s[i] else 0
  }

  predicate IsSpace(b: byte) {
    b == 0x20 || b == 0x09 || b == 0x0A || b == 0x0B || b == 0x0C || b == 0x0D
  }

  // The value of a digit, or 16 for anything else.
  function Digit(b: byte): nat {
    if b == 0x30 then 0 else if b == 0x31 then 1 else if b == 0x32 then 2 else if b == 0x33 then 3
    else if b == 0x34 then 4 else if b == 0x35 then 5 else if b == 0x36 then 6 else if b == 0x37 then 7
    else if b == 0x38 then 8 else if b == 0x39 then 9
    else if b == 0x41 || b == 0x61 then 10 else if b == 0x42 || b == 0x62 then 11
    else if b == 0x43 || b == 0x63 then 12 else if b == 0x44 || b == 0x64 then 13
    else if b == 0x45 || b == 0x65 then 14 else if b == 0x46 || b == 0x66 then 15
    else 16
  }

  predicate IsSign(b: byte) {
    b == PLUS || b == MINUS
  }

  predicate IsX(b: byte) {
    b == 0x58 || b == 0x78
  }

  function Blanks(s: seq<byte>): (n: nat)
    ensures n <= |s|
  {
    if s != [] && IsSpace(s[0]) then 1 + Blanks(s[1..]) else 0
  }

  function DigitRun(s: seq<byte>, base: nat): (n: nat)
    ensures n <= |s|
  {
    if s != [] && Digit(s[0]) < base then 1 + DigitRun(s[1..], base) else 0
  }

  function Value(digits: seq<byte>, base: nat): nat {
    if digits == [] then 0 else Value(digits[..|digits| - 1], base) * base + Digit(digits[|digits| - 1])
  }

  // Where the digits of a number start: behind blanks, a sign and, in base 16, a
  // 0x that a digit follows.
  function NumeralAt(s: seq<byte>, base: nat): (k: nat)
    ensures k <= |s|
  {
    var a := Blanks(s);
    var b := if a < |s| && IsSign(s[a]) then a + 1 else a;
    if base == 16 && b + 2 < |s| && Digit(s[b]) == 0 && IsX(s[b + 1]) && Digit(s[b + 2]) < 16 then b + 2 else b
  }

  predicate Negative(s: seq<byte>) {
    At(s, Blanks(s)) == MINUS
  }

  // strtoul on a machine whose long has 32 bits: the value and the number of
  // bytes used, 0 when there is no number.
  function Strtoul(s: seq<byte>, base: nat): (r: (nat, nat))
    ensures r.0 <= ULONG_MAX && r.1 <= |s|
  {
    var k := NumeralAt(s, base);
    var n := DigitRun(s[k..], base);
    if n == 0 then (0, 0)
    else
      var v := Value(s[k..k + n], base);
      (if v > ULONG_MAX then ULONG_MAX else if Negative(s) && v != 0 then ULONG_MAX + 1 - v else v, k + n)
  }

  function Strtol(s: seq<byte>, base: nat): (v: int)
    ensures -LONG_MAX - 1 <= v <= LONG_MAX
  {
    var k := NumeralAt(s, base);
    var v: int := Value(s[k..k + DigitRun(s[k..], base)], base);
    if Negative(s) then (if v > LONG_MAX then -LONG_MAX - 1 else -v) else if v > LONG_MAX then LONG_MAX else v
  }

  // strchr, for a byte other than NUL.
  function Strchr(s: seq<byte>, b: byte): (r: Option<nat>)
    ensures r.Some? ==> r.value < |s| && s[r.value] == b && forall i :: 0 <= i < r.value ==> s[i] != b
  {
    if s == [] || s[0] == 0 then None
    else if s[0] == b then Some(0)
    else match Strchr(s[1..], b) case None => None case Some(i) => Some(i + 1)
  }

  // The first CRLF.
  function Crlf(s: seq<byte>): (r: Option<nat>)
    ensures r.Some? ==> r.value + 2 <= |s|
  {
    if |s| < 2 then None
    else if s[0] == CR && s[1] == LF then Some(0)
    else match Crlf(s[1..]) case None => None case Some(i) => Some(i + 1)
  }

  lemma {:induction false} CrlfMeans(s: seq<byte>)
    ensures Crlf(s).Some? ==> s[Crlf(s).value] == CR && s[Crlf(s).value + 1] == LF
    ensures forall i :: 0 <= i < (if Crlf(s).Some? then Crlf(s).value else |s| - 1) ==> !(s[i] == CR && s[i + 1] == LF)
  {
    if |s| >= 2 && !(s[0] == CR && s[1] == LF) {
      CrlfMeans(s[1..]);
      assert forall i :: 0 < i < |s| ==> s[i] == s[1..][i - 1];
    }
  }

  predicate OneLine(s: seq<byte>) {
    Crlf(s).None?
  }

  function Line(s: seq<byte>): seq<byte> {
    s + [CR, LF]
  }

  // A byte that ends any scan for a number.
  predicate Stops(b: byte) {
    Digit(b) == 16 && !IsSign(b) && !IsX(b)
  }

  lemma ByteClasses(b: byte)
    ensures Digit(b) < 16 ==> !IsSpace(b) && !IsSign(b) && !IsX(b) && b != MINUS && b != CR && b != LF && b != 0 && b != SLASH && b != COLON
    ensures IsSpace(b) || b == 0 ==> Stops(b)
    ensures IsSign(b) ==> !IsSpace(b)
  {
  }

  lemma {:induction false} BlanksLocal(a: seq<byte>, b: seq<byte>)
    requires Blanks(a) < |a|
    ensures Blanks(a + b) == Blanks(a)
  {
    if IsSpace(a[0]) {
      BlanksLocal(a[1..], b);
      assert (a + b)[1..] == a[1..] + b;
    }
  }

  lemma {:induction false} BlanksEnd(a: seq<byte>)
    requires Blanks(a) < |a|
    ensures !IsSpace(a[Blanks(a)])
  {
    if IsSpace(a[0]) {
      BlanksEnd(a[1..]);
    }
  }

  lemma {:induction false} DigitRunLocal(a: seq<byte>, b: seq<byte>, base: nat)
    requires a != [] && Stops(a[|a| - 1]) && base <= 16
    ensures DigitRun(a + b, base) == DigitRun(a, base) < |a|
  {
    if Digit(a[0]) < base {
      DigitRunLocal(a[1..], b, base);
      assert (a + b)[1..] == a[1..] + b;
    }
  }

  // A number scan that meets a non-blank byte before the end of a, and a byte
  // that stops it there, sees nothing behind a.
  lemma StrtoulLocal(a: seq<byte>, b: seq<byte>, base: nat)
    requires Blanks(a) < |a| && Stops(a[|a| - 1]) && base <= 16
    ensures Strtoul(a + b, base) == Strtoul(a, base) && Strtoul(a, base).1 < |a|
    ensures Strtol(a + b, base) == Strtol(a, base)
  {
    hide Stops, Value, NumeralAt, DigitRun, Negative, Blanks;
    NumeralLocal(a, b, base);
  }

  lemma NumeralLocal(a: seq<byte>, b: seq<byte>, base: nat)
    requires Blanks(a) < |a| && Stops(a[|a| - 1]) && base <= 16
    ensures Negative(a + b) == Negative(a)
    ensures var k := NumeralAt(a, base);
            && NumeralAt(a + b, base) == k < |a|
            && var n := DigitRun(a[k..], base);
               k + n < |a| && DigitRun((a + b)[k..], base) == n && (a + b)[k..k + n] == a[k..k + n]
  {
    hide Stops, NumeralAt, DigitRun, Blanks;
    BlanksLocal(a, b);
    ScanStartsInside(a, b, base);
    var k := NumeralAt(a, base);
    assert (a + b)[k..] == a[k..] + b;
    DigitRunLocal(a[k..], b, base);
  }

  lemma ScanStartsInside(a: seq<byte>, b: seq<byte>, base: nat)
    requires Blanks(a) < |a| && Stops(a[|a| - 1]) && base <= 16
    ensures NumeralAt(a + b, base) == NumeralAt(a, base) < |a|
  {
    hide Digit, IsSpace, IsSign, IsX, Blanks;
    BlanksLocal(a, b);
    var s, last := a + b, |a| - 1;
    assert !IsSign(a[last]) && !IsX(a[last]) && Digit(a[last]) == 16;
    var k := Blanks(a);
    assert s[k] == a[k];
    var m := if IsSign(a[k]) then k + 1 else k;
    assert m <= last && s[m] == a[m];
    if Digit(a[m]) < 16 {
      assert m + 1 <= last && s[m + 1] == a[m + 1];
      if IsX(a[m + 1]) {
        assert m + 2 <= last && s[m + 2] == a[m + 2];
      }
    }
  }

  lemma {:induction false} AllDigitsRun(ds: seq<byte>, rest: seq<byte>, base: nat)
    requires forall i :: 0 <= i < |ds| ==> Digit(ds[i]) < base
    requires rest == [] || Digit(rest[0]) >= base
    ensures DigitRun(ds + rest, base) == |ds|
  {
    if ds == [] {
      assert ds + rest == rest;
    } else {
      AllDigitsRun(ds[1..], rest, base);
      assert (ds + rest)[1..] == ds[1..] + rest;
    }
  }

  lemma {:induction false} BlanksOf(pad: seq<byte>, rest: seq<byte>)
    requires forall i :: 0 <= i < |pad| ==> IsSpace(pad[i])
    requires rest != [] && !IsSpace(rest[0])
    ensures Blanks(pad + rest) == |pad|
  {
    if pad == [] {
      assert pad + rest == rest;
    } else {
      BlanksOf(pad[1..], rest);
      assert (pad + rest)[1..] == pad[1..] + rest;
    }
  }

  // What may stand in front of the digits: blanks, a sign, and 0x in base 16.
  predicate Front(pad: seq<byte>, sign: seq<byte>, hex: seq<byte>, base: nat) {
    && (forall i :: 0 <= i < |pad| ==> IsSpace(pad[i]))
    && (sign == [] || sign == [0x2B] || sign == [0x2D])
    && (hex == [] || (base == 16 && (hex == [0x30, 0x78] || hex == [0x30, 0x58])))
  }

  // Behind the blanks: the sign, then the prefix if there is one.
  lemma TailBegins(sign: seq<byte>, hex: seq<byte>, ds: seq<byte>, rest: seq<byte>, base: nat)
    requires (base == 10 || base == 16) && Front([], sign, hex, base)
    requires ds != [] && forall i :: 0 <= i < |ds| ==> Digit(ds[i]) < base
    requires rest == [] || (Digit(rest[0]) >= base && !IsX(rest[0]))
    ensures var t, b := sign + hex + ds + rest, |sign|;
            && b < |t| && !IsSpace(t[0]) && (sign == [] ==> !IsSign(t[0])) && (sign != [] ==> t[0] == sign[0])
            && (base == 16 && b + 2 < |t| && Digit(t[b]) == 0 && IsX(t[b + 1]) && Digit(t[b + 2]) < 16 <==> hex != [])
  {
    hide Digit, IsSpace, IsX;
    SignsAndPrefix();
    ByteClasses(ds[0]);
    if |ds| > 1 { ByteClasses(ds[1]); }
    var t, body, b := sign + hex + ds + rest, hex + ds + rest, |sign|;
    assert t == sign + body;
    assert t[b] == body[0] == if hex == [] then ds[0] else hex[0];
    if |body| > 1 {
      assert t[b + 1] == body[1] == if hex != [] then hex[1] else if |ds| > 1 then ds[1] else rest[0];
    }
    if hex != [] { assert t[b + 2] == body[2] == ds[0]; }
  }

  lemma TailStartsThere(sign: seq<byte>, hex: seq<byte>, ds: seq<byte>, rest: seq<byte>, base: nat)
    requires (base == 10 || base == 16) && Front([], sign, hex, base)
    requires ds != [] && forall i :: 0 <= i < |ds| ==> Digit(ds[i]) < base
    requires rest == [] || (Digit(rest[0]) >= base && !IsX(rest[0]))
    ensures var t := sign + hex + ds + rest;
            t != [] && Blanks(t) == 0 && NumeralAt(t, base) == |sign| + |hex| && (Negative(t) <==> sign == [0x2D])
  {
    TailBegins(sign, hex, ds, rest, base);
    hide Digit, IsSpace, IsX;
  }

  // Blanks in front move a number that does not begin with one.
  lemma BlanksMove(pad: seq<byte>, t: seq<byte>, base: nat)
    requires (forall i :: 0 <= i < |pad| ==> IsSpace(pad[i])) && t != [] && Blanks(t) == 0
    ensures NumeralAt(pad + t, base) == |pad| + NumeralAt(t, base) && (Negative(pad + t) <==> Negative(t))
  {
    BlanksOf(pad, t);
    hide Digit, IsX, IsSign, Blanks, IsSpace;
    ShiftedBy(pad, t, 0);
    var b := if IsSign(t[0]) then 1 else 0;
    ShiftedBy(pad, t, b);
    ShiftedBy(pad, t, b + 1);
    ShiftedBy(pad, t, b + 2);
  }

  lemma ShiftedBy(pad: seq<byte>, t: seq<byte>, i: nat)
    ensures At(pad + t, |pad| + i) == At(t, i)
  {
  }

  // The digits start at k.
  lemma ReadsAt(s: seq<byte>, k: nat, ds: seq<byte>, base: nat)
    requires k + |ds| <= |s| && NumeralAt(s, base) == k && DigitRun(s[k..], base) == |ds| > 0 && s[k..k + |ds|] == ds
    ensures var v: int := Value(ds, base);
            && Strtoul(s, base) == (if v > ULONG_MAX then ULONG_MAX else if Negative(s) && v != 0 then ULONG_MAX + 1 - v else v, k + |ds|)
            && Strtol(s, base) == (if Negative(s) then (if v > LONG_MAX then -LONG_MAX - 1 else -v) else if v > LONG_MAX then LONG_MAX else v)
  {
    hide NumeralAt, DigitRun, Negative, Value;
  }

  lemma SignsAndPrefix()
    ensures !IsSpace(0x2B) && !IsSpace(0x2D) && !IsSpace(0x30) && !IsSign(0x30)
    ensures Digit(0x30) == 0 && IsX(0x78) && IsX(0x58)
  {
  }

  // A number is read back as its value, whatever follows it that is no digit: blanks
  // and a sign may stand in front, 0x in base 16; too large a value is cut to the
  // largest of 32 bits, and strtoul negates modulo 2^32.
  lemma NumberReads(pad: seq<byte>, sign: seq<byte>, hex: seq<byte>, ds: seq<byte>, rest: seq<byte>, base: nat)
    requires (base == 10 || base == 16) && Front(pad, sign, hex, base)
    requires ds != [] && forall i :: 0 <= i < |ds| ==> Digit(ds[i]) < base
    requires rest == [] || (Digit(rest[0]) >= base && !IsX(rest[0]))
    ensures var s, v: int := pad + (sign + hex + ds + rest), Value(ds, base);
            && Strtoul(s, base) == (if v > 4294967295 then 4294967295 else if sign == [0x2D] && v > 0 then 4294967296 - v else v,
                                    |pad| + |sign| + |hex| + |ds|)
            && Strtol(s, base) == (if sign == [0x2D] then (if v > 2147483647 then -2147483648 else -v)
                                   else if v > 2147483647 then 2147483647 else v)
  {
    hide Digit, IsSpace, IsSign, IsX, Value, NumeralAt, Negative, DigitRun, Blanks, Strtoul, Strtol;
    TailStartsThere(sign, hex, ds, rest, base);
    BlanksMove(pad, sign + hex + ds + rest, base);
    AllDigitsRun(ds, rest, base);
    DigitsStandThere(pad, sign, hex, ds, rest);
    ReadsAt(pad + (sign + hex + ds + rest), |pad| + |sign| + |hex|, ds, base);
  }

  lemma DigitsStandThere(pad: seq<byte>, sign: seq<byte>, hex: seq<byte>, ds: seq<byte>, rest: seq<byte>)
    ensures var s, k := pad + (sign + hex + ds + rest), |pad| + |sign| + |hex|;
            s[k..] == ds + rest && s[k..k + |ds|] == ds
  {
    var s, front := pad + (sign + hex + ds + rest), pad + sign + hex;
    assert s == front + (ds + rest);
    assert s[|front|..][..|ds|] == ds;
  }

  lemma NumeralReads(ds: seq<byte>, rest: seq<byte>, base: nat)
    requires base == 10 || base == 16
    requires ds != [] && forall i :: 0 <= i < |ds| ==> Digit(ds[i]) < base
    requires rest == [] || (Digit(rest[0]) >= base && !IsX(rest[0]))
    ensures Value(ds, base) <= ULONG_MAX ==> Strtoul(ds + rest, base) == (Value(ds, base), |ds|)
    ensures Strtol(ds + rest, base) == if Value(ds, base) <= LONG_MAX then Value(ds, base) else LONG_MAX
  {
    hide Digit, IsX, Value, Strtoul, Strtol;
    assert [] + ([] + [] + ds + rest) == ds + rest;
    NumberReads([], [], [], ds, rest, base);
  }

  // The characters and digits in plain text.
  lemma Characters()
    ensures IsText([CR, LF, SPACE, TAB, PLUS, MINUS, SLASH, COLON], "\r\n \t+-/:")
  {
  }

  lemma LowerDigits()
    ensures IsText([0x30, 0x31, 0x32, 0x33, 0x34, 0x35, 0x36, 0x37, 0x38, 0x39, 0x61, 0x62, 0x63, 0x64, 0x65, 0x66], "0123456789abcdef")
  {
  }

  lemma DigitValues()
    ensures var ds := [0x30, 0x31, 0x32, 0x33, 0x34, 0x35, 0x36, 0x37, 0x38, 0x39, 0x61, 0x62, 0x63, 0x64, 0x65, 0x66];
            forall i :: 0 <= i < 16 ==> Digit(ds[i]) == i
  {
  }

  lemma UpperDigits()
    ensures IsText([0x41, 0x42, 0x43, 0x44, 0x45, 0x46], "ABCDEF")
    ensures var ds := [0x41, 0x42, 0x43, 0x44, 0x45, 0x46]; forall i :: 0 <= i < 6 ==> Digit(ds[i]) == 10 + i
  {
  }

  function DigitByte(d: nat): (b: byte)
    requires d < 10
    ensures Digit(b) == d
  {
    if d == 0 then 0x30 else if d == 1 then 0x31 else if d == 2 then 0x32 else if d == 3 then 0x33 else if d == 4 then 0x34
    else if d == 5 then 0x35 else if d == 6 then 0x36 else if d == 7 then 0x37 else if d == 8 then 0x38 else 0x39
  }

  function Decimal(n: nat): (ds: seq<byte>)
    ensures ds != [] && forall i :: 0 <= i < |ds| ==> Digit(ds[i]) < 10
  {
    if n < 10 then [DigitByte(n)] else Decimal(n / 10) + [DigitByte(n % 10)]
  }

  lemma {:induction false} DecimalHasItsValue(n: nat)
    ensures Value(Decimal(n), 10) == n
  {
    hide Digit, DigitByte;
    var ds := Decimal(n);
    if n < 10 {
      assert ds[..0] == [];
    } else {
      DecimalHasItsValue(n / 10);
      assert ds[..|ds| - 1] == Decimal(n / 10);
    }
  }

  // The first CRLF of a one-line text with a line end behind it.
  lemma {:induction false} CrlfOfLine(s: seq<byte>, rest: seq<byte>)
    requires OneLine(s)
    ensures Crlf(Line(s) + rest) == Some(|s|)
  {
    var t := Line(s) + rest;
    if s != [] {
      assert t[1..] == Line(s[1..]) + rest;
      assert t[0] == s[0] && t[1] == (Line(s))[1];
      CrlfOfLine(s[1..], rest);
    }
  }

  // A first CRLF stays the first whatever is appended.
  lemma {:induction false} CrlfLocal(a: seq<byte>, b: seq<byte>)
    requires Crlf(a).Some?
    ensures Crlf(a + b) == Crlf(a)
  {
    if !(a[0] == CR && a[1] == LF) {
      CrlfLocal(a[1..], b);
      assert (a + b)[1..] == a[1..] + b;
    }
  }
}
