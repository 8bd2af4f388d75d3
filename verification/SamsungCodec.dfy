// Samsung air-conditioner codec: section checksum and symbol encoder
// (app/ir/ir_codec_samsung_ac.c).
module SamsungCodec {
  import opened Bits
  import opened Symbols

  const HDR_MARK: u16 := 690
  const HDR_SPACE: u16 := 17844
  const SEC_MARK: u16 := 3086
  const SEC_SPACE: u16 := 8864
  const GAP: u16 := 2886
  const BIT_MARK: u16 := 586
  const ONE_SPACE: u16 := 1432
  const ZERO_SPACE: u16 := 436
  const FINAL_GAP: u16 := 20000
  const MAX_BYTES: nat := 21

  // Seven bytes; the first carries the section kind, the last the mode bits.
  type Section = seq<byte>

  // ------------------------------------------------------------------
  // Section checksum
  // ------------------------------------------------------------------

  // The checksum is kept in the high nibble of byte 1 and the low nibble of byte 2.
  function Stored1(b1: byte, b2: byte): byte { ((b2 & 0x0F) << 4) | ((b1 >> 4) & 0x0F) }
  function Put1(b1: byte, cs: byte): byte { (b1 & 0x0F) | ((cs & 0x0F) << 4) }
  function Put2(b2: byte, cs: byte): byte { (b2 & 0xF0) | ((cs >> 4) & 0x0F) }
  function Data1(b1: byte): byte { b1 & 0x0F }
  function Data2(b2: byte): byte { b2 & 0xF0 }

  function Stored(s: Section): byte
    requires |s| == 7
  {
    Stored1(s[1], s[2])
  }

  // Number of 1 bits the checksum protects: everything but those two nibbles.
  function DataOnes(s: Section): nat
    requires |s| == 7
  {
    Ones(s[0]) + Ones(Data1(s[1])) + Ones(Data2(s[2])) +
    Ones(s[3]) + Ones(s[4]) + Ones(s[5]) + Ones(s[6])
  }

  // A section is valid when the stored byte is the complement of that number.
  predicate Verifies(s: Section)
    requires |s| == 7
  {
    Stored(s) as int + DataOnes(s) == 255
  }

  lemma OnesBounds(v: byte)
    ensures Ones(v) <= 8 && Ones(Data1(v)) <= 4 && Ones(Data2(v)) <= 4
  {
    OnesByBits(v);
    OnesByBits(Data1(v));
    OnesByBits(Data2(v));
  }

  lemma DataOnesBound(s: Section)
    requires |s| == 7
    ensures DataOnes(s) <= 48
  {
    hide Ones, Data1, Data2;
    OnesBounds(s[0]);
    OnesBounds(s[1]);
    OnesBounds(s[2]);
    OnesBounds(s[3]);
    OnesBounds(s[4]);
    OnesBounds(s[5]);
    OnesBounds(s[6]);
  }

  // What the checksum computation yields for n protected ones: (uint8_t)n ^ 0xFF.
  function ChecksumFor(n: nat): byte
    requires n <= 48
  {
    (n as byte) ^ 0xFF
  }

  lemma ComplementIsSubtraction(n: nat)
    requires n <= 48
    ensures ((n as byte) ^ 0xFF) as int == 255 - n
  {
  }

  // The section without its checksum.
  function DataPart(s: Section): (d: Section)
    requires |s| == 7
    ensures |d| == 7
  {
    s[1 := Data1(s[1])][2 := Data2(s[2])]
  }

  predicate Clears(more: byte, less: byte) {
    less & more == less
  }

  predicate OnlyClears(more: Section, less: Section)
    requires |more| == 7 && |less| == 7
  {
    forall i :: 0 <= i < 7 ==> Clears(more[i], less[i])
  }

  predicate Unidirectional(sent: Section, got: Section)
    requires |sent| == 7 && |got| == 7
  {
    OnlyClears(sent, got) || OnlyClears(got, sent)
  }

  method PopcountU8(v0: byte) returns (n: nat)
    ensures n == Ones(v0)
  {
    n := 0;
    var v := v0;
    while v != 0
      invariant n + Ones(v) == Ones(v0)
      decreases v
    {
      n := n + (v & 1) as nat;
      v := v >> 1;
    }
  }

  function OnesIn(p: seq<byte>): nat {
    if p == [] then 0 else OnesIn(p[..|p| - 1]) + Ones(p[|p| - 1])
  }

  // The sum is kept in 16 bits and returned in 8.
  method PopcountBuf(p: seq<byte>) returns (r: nat)
    ensures r == OnesIn(p) % 256
  {
    hide Ones;
    var t := 0;
    ghost var wraps := 0;
    var i := 0;
    while i < |p|
      invariant 0 <= i <= |p| && t < 0x1_0000
      invariant OnesIn(p[..i]) == 0x1_0000 * wraps + t
    {
      var n := PopcountU8(p[i]);
      OnesBounds(p[i]);
      assert p[..i + 1][..i] == p[..i];
      t := t + n;
      if t >= 0x1_0000 {
        t := t - 0x1_0000;
        wraps := wraps + 1;
      }
      i := i + 1;
    }
    assert p[..i] == p;
    WrapsVanish(wraps, t);
    r := t % 256;
  }

  lemma WrapsVanish(wraps: nat, t: nat)
    ensures (0x1_0000 * wraps + t) % 256 == t % 256
  {
    assert 0x1_0000 * wraps + t == t + 256 * (256 * wraps);
  }

  lemma OnesInFour(p: seq<byte>)
    requires |p| == 4
    ensures OnesIn(p) == Ones(p[0]) + Ones(p[1]) + Ones(p[2]) + Ones(p[3]) <= 32
  {
    hide Ones;
    OnesBounds(p[0]);
    OnesBounds(p[1]);
    OnesBounds(p[2]);
    OnesBounds(p[3]);
    assert p[..3][..2] == p[..2] && p[..2][..1] == p[..1] && p[..1][..0] == [];
    assert OnesIn(p[..1]) == OnesIn([]) + Ones(p[0]);
    assert OnesIn(p[..2]) == OnesIn(p[..1]) + Ones(p[1]);
    assert OnesIn(p[..3]) == OnesIn(p[..2]) + Ones(p[2]);
  }

  method SecChecksum(s: Section) returns (cs: byte)
    requires |s| == 7
    ensures cs as int + DataOnes(s) == 255
  {
    hide Ones, OnesIn, DataOnes, ChecksumFor;
    var a := PopcountU8(s[0]);
    var b := PopcountU8(s[1] & 0x0F);
    var c := PopcountU8((s[2] >> 4) & 0x0F);
    var d := PopcountBuf(s[3..7]);
    DataOnesParts(s);
    DataOnesBound(s);
    var sum := a + b + c + d;
    cs := ChecksumFor(sum);
    ChecksumForIs(sum);
  }

  lemma DataOnesParts(s: Section)
    requires |s| == 7
    ensures OnesIn(s[3..7]) % 256 == OnesIn(s[3..7])
    ensures DataOnes(s) == Ones(s[0]) + Ones(s[1] & 0x0F) + Ones((s[2] >> 4) & 0x0F) + OnesIn(s[3..7])
  {
    hide Ones, OnesIn;
    OnesInFour(s[3..7]);
    HighNibbleOnes(s[2]);
  }

  lemma HighNibbleOnes(v: byte)
    ensures Ones((v >> 4) & 0x0F) == Ones(Data2(v))
  {
    OnesByBits((v >> 4) & 0x0F);
    OnesByBits(Data2(v));
  }

  function WithChecksum(s: Section, cs: byte): (f: Section)
    requires |s| == 7
    ensures |f| == 7
  {
    s[1 := Put1(s[1], cs)][2 := Put2(s[2], cs)]
  }

  lemma SameByte(cs: byte, n: nat)
    requires n <= 48 && cs as int + n == 255
    ensures cs == ChecksumFor(n)
  {
    ComplementIsSubtraction(n);
  }

  // What rewriting the checksum makes of a section.
  function Fixed(s: Section): Section
    requires |s| == 7
  {
    DataOnesBound(s);
    WithChecksum(s, ChecksumFor(DataOnes(s)))
  }

  method FixChecksum(state: array<byte>, off: nat)
    requires off + 7 <= state.Length
    modifies state
    ensures state[off..off + 7] == Fixed(old(state[off..off + 7]))
    ensures state[..off] == old(state[..off]) && state[off + 7..] == old(state[off + 7..])
  {
    hide Ones, DataOnes, ChecksumFor;
    ghost var before := state[off..off + 7];
    var cs := SecChecksum(state[off..off + 7]);
    state[off + 1] := Put1(state[off + 1], cs);
    state[off + 2] := Put2(state[off + 2], cs);
    DataOnesBound(before);
    SameByte(cs, DataOnes(before));
    assert state[off..off + 7] == before[1 := Put1(before[1], cs)][2 := Put2(before[2], cs)];
  }

  method FixChecksums14(state: array<byte>)
    requires state.Length == 14
    modifies state
    ensures state[..7] == Fixed(old(state[..7])) && state[7..] == Fixed(old(state[7..]))
  {
    hide Fixed;
    ghost var before := state[..];
    assert before[0..7] == state[..7] == state[0..7] && before[7..14] == state[7..14] == state[7..];
    FixChecksum(state, 0);
    assert state[7..14] == state[7..];
    FixChecksum(state, 7);
    assert state[..7] == state[0..7] && state[7..] == state[7..14];
  }

  method Verify(s: Section) returns (ok: bool)
    requires |s| == 7
    ensures ok == Verifies(s)
  {
    hide Ones, DataOnes, Stored1;
    var cs := SecChecksum(s);
    var stored := Stored1(s[1], s[2]);
    ok := cs == stored;
  }

  function SectionOf(data: seq<byte>, i: nat): (s: Section)
    requires 7 * i + 7 <= |data|
    ensures |s| == 7
  {
    data[7 * i..7 * i + 7]
  }

  method VerifyAll(data: seq<byte>) returns (ok: bool)
    ensures ok <==> |data| > 0 && |data| % 7 == 0 &&
                    forall i :: 0 <= i < |data| / 7 ==> Verifies(SectionOf(data, i))
  {
    hide Verifies;
    if |data| == 0 || |data| % 7 != 0 {
      return false;
    }
    var s := 0;
    ghost var i := 0;
    while s < |data|
      invariant s == 7 * i && 0 <= i <= |data| / 7
      invariant forall j :: 0 <= j < i ==> Verifies(SectionOf(data, j))
    {
      var good := Verify(data[s..s + 7]);
      assert data[s..s + 7] == SectionOf(data, i);
      if !good {
        return false;
      }
      s := s + 7;
      i := i + 1;
    }
    return true;
  }

  // ------------------------------------------------------------------
  // The checksum is a Berger code
  // ------------------------------------------------------------------

  lemma ClearingLosesOnes(more: byte, less: byte)
    requires Clears(more, less)
    ensures Ones(less) <= Ones(more)
    ensures Ones(less) == Ones(more) ==> less == more
  {
    hide Ones, BitAt, Clears;
    OnesByBits(more);
    OnesByBits(less);
    ClearingBits(more, less);
  }

  lemma ClearingBits(more: byte, less: byte)
    requires Clears(more, less)
    ensures (BitAt(less, 0) ==> BitAt(more, 0)) && (BitAt(less, 1) ==> BitAt(more, 1))
    ensures (BitAt(less, 2) ==> BitAt(more, 2)) && (BitAt(less, 3) ==> BitAt(more, 3))
    ensures (BitAt(less, 4) ==> BitAt(more, 4)) && (BitAt(less, 5) ==> BitAt(more, 5))
    ensures (BitAt(less, 6) ==> BitAt(more, 6)) && (BitAt(less, 7) ==> BitAt(more, 7))
    ensures (BitAt(less, 0) == BitAt(more, 0) && BitAt(less, 1) == BitAt(more, 1) && BitAt(less, 2) == BitAt(more, 2) &&
             BitAt(less, 3) == BitAt(more, 3) && BitAt(less, 4) == BitAt(more, 4) && BitAt(less, 5) == BitAt(more, 5) &&
             BitAt(less, 6) == BitAt(more, 6) && BitAt(less, 7) == BitAt(more, 7)) ==> less == more
  {
  }

  lemma ClearingParts(more: byte, less: byte)
    requires Clears(more, less)
    ensures Clears(Data1(more), Data1(less)) && Clears(Data2(more), Data2(less))
  {
  }

  lemma ClearingLowersStored(b1: byte, b2: byte, c1: byte, c2: byte)
    requires Clears(b1, c1) && Clears(b2, c2)
    ensures Stored1(c1, c2) as int <= Stored1(b1, b2) as int
    ensures Stored1(c1, c2) == Stored1(b1, b2) && Data1(c1) == Data1(b1) && Data2(c2) == Data2(b2) ==> c1 == b1 && c2 == b2
  {
  }

  // The ones of the three bytes with and around the checksum, and of the rest.
  function FrontOnes(s: Section): nat
    requires |s| == 7
  {
    Ones(s[0]) + Ones(Data1(s[1])) + Ones(Data2(s[2]))
  }

  function BackOnes(s: Section): nat
    requires |s| == 7
  {
    Ones(s[3]) + Ones(s[4]) + Ones(s[5]) + Ones(s[6])
  }

  lemma ClearingFront(more: Section, less: Section)
    requires |more| == 7 && |less| == 7 && OnlyClears(more, less)
    ensures FrontOnes(less) <= FrontOnes(more)
    ensures FrontOnes(less) == FrontOnes(more) ==>
              less[0] == more[0] && Data1(less[1]) == Data1(more[1]) && Data2(less[2]) == Data2(more[2])
  {
    hide Ones, Data1, Data2, Clears;
    ClearingParts(more[1], less[1]);
    ClearingParts(more[2], less[2]);
    ClearingLosesOnes(more[0], less[0]);
    ClearingLosesOnes(Data1(more[1]), Data1(less[1]));
    ClearingLosesOnes(Data2(more[2]), Data2(less[2]));
  }

  lemma ClearingBack(more: Section, less: Section)
    requires |more| == 7 && |less| == 7 && OnlyClears(more, less)
    ensures BackOnes(less) <= BackOnes(more)
    ensures BackOnes(less) == BackOnes(more) ==>
              less[3] == more[3] && less[4] == more[4] && less[5] == more[5] && less[6] == more[6]
  {
    hide Ones, Clears;
    ClearingLosesOnes(more[3], less[3]);
    ClearingLosesOnes(more[4], less[4]);
    ClearingLosesOnes(more[5], less[5]);
    ClearingLosesOnes(more[6], less[6]);
  }

  lemma OnesSplit(s: Section)
    requires |s| == 7
    ensures DataOnes(s) == FrontOnes(s) + BackOnes(s)
  {
    hide Ones, Data1, Data2;
  }

  // Clearing bits lowers the count of ones and can only lower the stored byte,
  // so a valid section stays valid only if nothing was cleared.
  lemma ClearingBreaksOrIsNothing(more: Section, less: Section)
    requires |more| == 7 && |less| == 7 && OnlyClears(more, less)
    requires Verifies(more) && Verifies(less)
    ensures more == less
  {
    hide Ones, Stored1, Data1, Data2, Clears, DataOnes, FrontOnes, BackOnes;
    OnesSplit(more);
    OnesSplit(less);
    ClearingFront(more, less);
    ClearingBack(more, less);
    assert Clears(more[1], less[1]) && Clears(more[2], less[2]);
    ClearingLowersStored(more[1], more[2], less[1], less[2]);
    SameSection(more, less);
  }

  lemma SameSection(more: Section, less: Section)
    requires |more| == 7 && |less| == 7
    requires less[0] == more[0] && less[1] == more[1] && less[2] == more[2]
    requires less[3] == more[3] && less[4] == more[4] && less[5] == more[5] && less[6] == more[6]
    ensures more == less
  {
  }

  // Every non-empty set of bit errors in a single direction, checksum nibbles
  // included, is detected.
  lemma UnidirectionalErrorsDetected(sent: Section, got: Section)
    requires |sent| == 7 && |got| == 7
    requires Verifies(sent) && got != sent && Unidirectional(sent, got)
    ensures !Verifies(got)
  {
    hide Verifies, OnlyClears;
    if Verifies(got) {
      if OnlyClears(sent, got) {
        ClearingBreaksOrIsNothing(sent, got);
      } else {
        ClearingBreaksOrIsNothing(got, sent);
      }
    }
  }

  lemma NibblesRoundTrip(b1: byte, b2: byte, cs: byte)
    ensures Stored1(Put1(b1, cs), Put2(b2, cs)) == cs
    ensures Data1(Put1(b1, cs)) == Data1(b1) && Data2(Put2(b2, cs)) == Data2(b2)
    ensures Put1(b1, Stored1(b1, b2)) == b1 && Put2(b2, Stored1(b1, b2)) == b2
    ensures Data1(Data1(b1)) == Data1(b1) && Data2(Data2(b2)) == Data2(b2)
  {
  }

  // Rewriting the checksum makes the section valid, touches only the two
  // checksum nibbles, is idempotent, and does nothing exactly to valid sections.
  lemma FixLaws(s: Section)
    requires |s| == 7
    ensures Verifies(Fixed(s))
    ensures DataPart(Fixed(s)) == DataPart(s)
    ensures Fixed(Fixed(s)) == Fixed(s)
    ensures Fixed(s) == s <==> Verifies(s)
  {
    hide Fixed, Verifies, DataPart;
    FixEstablishes(s);
    ValidIsFixedPoint(Fixed(s));
    if Verifies(s) {
      ValidIsFixedPoint(s);
    }
  }

  lemma FixEstablishes(s: Section)
    requires |s| == 7
    ensures |Fixed(s)| == 7 && Verifies(Fixed(s)) && DataPart(Fixed(s)) == DataPart(s)
  {
    hide Ones, Stored1, Data1, Data2, Put1, Put2, ChecksumFor;
    DataOnesBound(s);
    NibblesRoundTrip(s[1], s[2], ChecksumFor(DataOnes(s)));
    ChecksumForIs(DataOnes(s));
    assert DataOnes(Fixed(s)) == DataOnes(s);
  }

  lemma ChecksumForIs(n: nat)
    requires n <= 48
    ensures ChecksumFor(n) as int == 255 - n
  {
    ComplementIsSubtraction(n);
  }

  lemma ValidIsFixedPoint(s: Section)
    requires |s| == 7 && Verifies(s)
    ensures Fixed(s) == s
  {
    hide Ones, DataOnes, Stored1, Data1, Data2, Put1, Put2, ChecksumFor;
    DataOnesBound(s);
    SameByte(Stored(s), DataOnes(s));
    NibblesRoundTrip(s[1], s[2], 0);
  }

  lemma PutTwice(b: byte, cs: byte, cs': byte)
    ensures Data1(Put1(b, cs)) == Data1(b) && Data2(Put2(b, cs)) == Data2(b)
    ensures Put1(Put1(b, cs), cs') == Put1(b, cs') && Put2(Put2(b, cs), cs') == Put2(b, cs')
  {
  }

  // Rewriting the checksum does not depend on what was stored before.
  lemma FixForgets(s: Section, cs: byte)
    requires |s| == 7
    ensures Fixed(WithChecksum(s, cs)) == Fixed(s)
  {
    hide Ones, Data1, Data2, Put1, Put2, ChecksumFor;
    PutTwice(s[1], cs, ChecksumFor(DataOnes(s))) by { DataOnesBound(s); }
    PutTwice(s[2], cs, ChecksumFor(DataOnes(s))) by { DataOnesBound(s); }
    assert DataOnes(WithChecksum(s, cs)) == DataOnes(s);
  }

  // ------------------------------------------------------------------
  // Encoder
  // ------------------------------------------------------------------

  function BitSymbol(b: bool): Symbol {
    Symbol(BIT_MARK, if b then ONE_SPACE else ZERO_SPACE)
  }

  // Symbol j of section s: header, 56 bits, footer.
  function FrameSymbol(data: seq<byte>, s: nat, j: nat): Symbol
    requires 7 * s + 7 <= |data| && j < 58
  {
    if j == 0 then Symbol(SEC_MARK, SEC_SPACE)
    else if j <= 56 then BitSymbol(BitsOf(data)[56 * s + j - 1])
    else Symbol(BIT_MARK, if 7 * (s + 1) < |data| then GAP else FINAL_GAP)
  }

  predicate Encodable(data: seq<byte>) {
    0 < |data| <= MAX_BYTES && |data| % 7 == 0
  }

  function Encoding(data: seq<byte>): (syms: seq<Symbol>)
    requires |data| % 7 == 0
    ensures |syms| == 1 + 58 * (|data| / 7)
  {
    [Symbol(HDR_MARK, HDR_SPACE)] +
    seq(58 * (|data| / 7), k requires 0 <= k < 58 * (|data| / 7) => FrameSymbol(data, k / 58, k % 58))
  }

  lemma EncodingStart(data: seq<byte>)
    requires |data| % 7 == 0
    ensures Encoding(data)[0] == Symbol(HDR_MARK, HDR_SPACE)
  {
  }

  lemma EncodingAt(data: seq<byte>, s: nat, j: nat)
    requires |data| % 7 == 0 && s < |data| / 7 && j < 58
    ensures Encoding(data)[1 + 58 * s + j] == FrameSymbol(data, s, j)
  {
    assert (58 * s + j) / 58 == s && (58 * s + j) % 58 == j;
  }

  // The frame in figures: the global header, and for each section its header, its 56
  // bits, the least significant of each byte first, and its footer.
  lemma FrameInFigures(data: seq<byte>, s: nat, k: nat)
    requires |data| % 7 == 0 && s < |data| / 7 && k < 56
    ensures Encoding(data)[0] == Symbol(690, 17844)
    ensures Encoding(data)[1 + 58 * s] == Symbol(3086, 8864)
    ensures Encoding(data)[1 + 58 * s + 1 + k] == Symbol(586, if BitLsbf(data[7 * s..7 * s + 7], k) == 1 then 1432 else 436)
    ensures Encoding(data)[1 + 58 * s + 57] == Symbol(586, if s + 1 < |data| / 7 then 2886 else 20000)
  {
    hide BitLsbf, BitsOf;
    EncodingAt(data, s, 0);
    EncodingAt(data, s, 1 + k);
    EncodingAt(data, s, 57);
    BitLsbfIsBit(data, s, k);
    BitIsZeroOrOne(data[7 * s..7 * s + 7], k);
  }

  lemma BitIsZeroOrOne(sec: Section, k: nat)
    requires |sec| == 7 && k < 56
    ensures BitLsbf(sec, k) == 0 || BitLsbf(sec, k) == 1
  {
    var x := sec[k / 8] >> (k % 8);
    OneBit(x);
  }

  lemma OneBit(x: byte)
    ensures x & 1 == 0 || x & 1 == 1
  {
  }

  function BitLsbf(sec: Section, k: nat): byte
    requires |sec| == 7 && k < 56
  {
    (sec[k / 8] >> (k % 8)) & 1
  }

  lemma BitLsbfIsBit(data: seq<byte>, s: nat, k: nat)
    requires 7 * s + 7 <= |data| && k < 56
    ensures 56 * s + k < |BitsOf(data)|
    ensures (BitLsbf(SectionOf(data, s), k) != 0) == BitsOf(data)[56 * s + k]
  {
    ShiftRightIsBitAt(SectionOf(data, s)[k / 8], k % 8);
    assert (56 * s + k) / 8 == 7 * s + k / 8 && (56 * s + k) % 8 == k % 8;
  }

  // Returns the number of symbols written, or the source's negative error code.
  method Encode(data: seq<byte>, out: array<Symbol>) returns (n: int)
    modifies out
    ensures n == (if |data| == 0 || |data| % 7 != 0 then -2
                  else if |data| > 21 then -3
                  else if out.Length < 1 + 58 * (|data| / 7) then -4
                  else 1 + 58 * (|data| / 7))
    ensures n > 0 ==> out[..n] == Encoding(data) && out[n..] == old(out[n..])
    ensures n < 0 ==> out[..] == old(out[..])
  {
    hide BitLsbf, BitsOf, SectionOf, Encoding;
    if |data| == 0 || |data| % 7 != 0 { return -2; }
    if |data| > MAX_BYTES { return -3; }
    var nsec := |data| / 7;
    var need := 1 + (1 + 56 + 1) * nsec;
    if out.Length < need { return -4; }

    EncodingStart(data);
    out[0] := Symbol(HDR_MARK, HDR_SPACE);
    n := 1;
    var s := 0;
    while s < nsec
      invariant 0 <= s <= nsec && n == 1 + 58 * s
      invariant forall k :: 0 <= k < n ==> out[k] == Encoding(data)[k]
      invariant forall k :: need <= k < out.Length ==> out[k] == old(out[k])
    {
      EncodingAt(data, s, 0);
      out[n] := Symbol(SEC_MARK, SEC_SPACE);
      n := n + 1;
      var k := 0;
      while k < 56
        invariant 0 <= k <= 56 && n == 2 + 58 * s + k
        invariant forall i :: 0 <= i < n ==> out[i] == Encoding(data)[i]
        invariant forall i :: need <= i < out.Length ==> out[i] == old(out[i])
      {
        EncodingAt(data, s, k + 1);
        BitLsbfIsBit(data, s, k);
        var sp := if BitLsbf(SectionOf(data, s), k) != 0 then ONE_SPACE else ZERO_SPACE;
        out[n] := Symbol(BIT_MARK, sp);
        n := n + 1;
        k := k + 1;
      }
      EncodingAt(data, s, 57);
      out[n] := Symbol(BIT_MARK, if s + 1 < nsec then GAP else FINAL_GAP);
      n := n + 1;
      s := s + 1;
    }
  }
}
