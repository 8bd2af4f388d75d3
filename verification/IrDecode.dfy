// Protocol decoder with +-25 % timing tolerance (app/ir/ir_decode.c).
module IrDecode {
  import opened Bits
  import opened Symbols
  import opened SamsungCodec

  const MAX_RAW_BYTES: nat := 24

  datatype Proto = UNKNOWN | NEC | NEC_EXT | NEC_REPEAT | LG_AC | SAMSUNG_AC

  // ir_decoded_t; rawBytes holds the valid prefix raw_bytes[0..byte_count).
  datatype Decoded = Decoded(proto: Proto, address: bv16, command: byte, rawBytes: seq<byte>,
                             rawBits: bv32, bitCount: nat, repeated: bool)

  const NOTHING := Decoded(UNKNOWN, 0, 0, [], 0, 0, false)

  // ------------------------------------------------------------------
  // Samsung AC
  // ------------------------------------------------------------------

  predicate IsSectionHeader(s: Symbol) {
    InRange(s.mark, SEC_MARK) && InRange(s.space, SEC_SPACE)
  }

  // How one symbol reads as a data bit, if at all.
  function SacBit(s: Symbol): Option<bool> {
    if !InRange(s.mark, BIT_MARK) then None
    else if InRange(s.space, ONE_SPACE) then Some(true)
    else if InRange(s.space, ZERO_SPACE) || s.space == 0 then Some(false)
    else None
  }

  // In figures: a mark around 586 and a space around 1432 for 1, around 436 or none for 0.
  lemma SacBitIs(s: Symbol)
    ensures SacBit(s) == Some(true) <==> InRange(s.mark, 586) && InRange(s.space, 1432)
    ensures SacBit(s) == Some(false) <==> InRange(s.mark, 586) && (InRange(s.space, 436) || s.space == 0)
    ensures IsSectionHeader(s) <==> InRange(s.mark, 3086) && InRange(s.space, 8864)
  {
  }

  // A section whose footer is missing is followed at once by the next one.
  lemma LostFooter(syms: seq<Symbol>, i: nat)
    requires i < |syms| && IsSectionHeader(syms[i])
    requires var j := i + 1 + |BitRun(syms, i + 1, 56)|; j < |syms| && IsSectionHeader(syms[j])
    ensures var bits := BitRun(syms, i + 1, 56);
            SectionsFrom(syms, i) == BytesOf(bits) + SectionsFrom(syms, i + 1 + |bits|)
  {
    hide BytesOf, BitRun;
  }

  // The longest run of readable bits from position i, at most max of them.
  function BitRun(syms: seq<Symbol>, i: nat, max: nat): (bits: seq<bool>)
    ensures |bits| <= max
    ensures i <= |syms| ==> i + |bits| <= |syms|
    decreases max
  {
    if i < |syms| && max > 0 && SacBit(syms[i]).Some?
    then [SacBit(syms[i]).value] + BitRun(syms, i + 1, max - 1)
    else []
  }

  function AfterFooter(syms: seq<Symbol>, j: nat): nat {
    if j < |syms| && InRange(syms[j].mark, BIT_MARK) then j + 1 else j
  }

  // All bytes of consecutive sections from position i, without any cap.
  function SectionsFrom(syms: seq<Symbol>, i: nat): seq<byte>
    decreases |syms| - i
  {
    if i >= |syms| || !IsSectionHeader(syms[i]) then []
    else
      var bits := BitRun(syms, i + 1, 56);
      BytesOf(bits) + SectionsFrom(syms, AfterFooter(syms, i + 1 + |bits|))
  }

  function Cap(bytes: seq<byte>, cap: nat): seq<byte> {
    if |bytes| <= cap then bytes else bytes[..cap]
  }

  // The nested loops of decode_samsung_ac_bytes keep the first cap bytes of all sections.
  method DecodeSamsungAcBytes(syms: seq<Symbol>, cap: nat) returns (out: seq<byte>)
    ensures out == Cap(SectionsFrom(syms, 0), cap)
  {
    hide BitRun, Assemble, BytesOf, InRange, Cap;
    CapNil(SectionsFrom(syms, 0), cap);
    out := [];
    var i := 0;
    while i < |syms| && |out| < cap
      invariant 0 <= i <= |syms| && |out| <= cap
      invariant Cap(SectionsFrom(syms, 0), cap) == Cap(out + SectionsFrom(syms, i), cap)
      decreases |syms| - i
    {
      if !IsSectionHeader(syms[i]) { break; }
      ghost var base, start := out, i + 1;
      i := i + 1;
      out, i := CollectBits(syms, i, cap, out);
      if i < |syms| && InRange(syms[i].mark, BIT_MARK) { i := i + 1; }
      ghost var bits := BitRun(syms, start, 56);
      assert i == AfterFooter(syms, start + |bits|);
      CapAppend(base, BytesOf(bits), SectionsFrom(syms, i), cap);
    }
    CapNil(out, cap);
    assert SectionsFrom(syms, i) == [] || |out| == cap;
  }

  lemma CapNil(a: seq<byte>, cap: nat)
    ensures Cap([] + a, cap) == Cap(a, cap)
    ensures |a| == cap ==> forall b :: Cap(a + b, cap) == a
    ensures |a| <= cap ==> Cap(a + [], cap) == a
  {
    assert [] + a == a && a + [] == a;
  }

  lemma CapAppend(a: seq<byte>, b: seq<byte>, c: seq<byte>, cap: nat)
    ensures Cap(a + (b + c), cap) == Cap(Cap(a + b, cap) + c, cap)
  {
    assert a + (b + c) == (a + b) + c;
  }

  // The byte under construction after the bits in seen.
  function Pending(seen: seq<bool>): byte {
    Assemble(seen[|seen| - |seen| % 8..])
  }

  // The inner loop: up to 56 bits, packed into bytes as they arrive.
  method CollectBits(syms: seq<Symbol>, i0: nat, cap: nat, out0: seq<byte>) returns (out: seq<byte>, i: nat)
    requires i0 <= |syms| && |out0| <= cap
    ensures i == i0 + |BitRun(syms, i0, 56)| && i <= |syms|
    ensures out == Cap(out0 + BytesOf(BitRun(syms, i0, 56)), cap) && |out| <= cap
  {
    hide Pending, BytesOf, OrBit, SacBit, BitRun, Cap;
    PackNothing();
    CapNil(out0, cap);
    out, i := out0, i0;
    var bitsLeft, curByte, bitPos := 56, 0 as byte, 0;
    ghost var seen: seq<bool> := [];
    while i < |syms| && bitsLeft > 0
      invariant i == i0 + |seen| <= |syms| && bitsLeft + |seen| == 56
      invariant seen + BitRun(syms, i, bitsLeft) == BitRun(syms, i0, 56)
      invariant bitPos == |seen| % 8 && curByte == Pending(seen)
      invariant out == Cap(out0 + BytesOf(seen), cap) && |out| <= cap
      decreases bitsLeft
    {
      var bit := ReadBit(syms[i]);
      if bit.None? { break; }
      PackBit(seen, bit.value);
      RunStep(syms, i, bitsLeft, seen);
      curByte := OrBit(curByte, bit.value, bitPos);
      bitPos := bitPos + 1;
      if bitPos == 8 {
        CapAppend(out0, BytesOf(seen), [curByte], cap);
        CapOne(out, curByte, cap);
        if |out| < cap { out := out + [curByte]; }
        curByte := 0;
        bitPos := 0;
      }
      seen := seen + [bit.value];
      i := i + 1;
      bitsLeft := bitsLeft - 1;
    }
    RunEnds(syms, i, bitsLeft);
    assert seen == BitRun(syms, i0, 56);
  }

  lemma CapOne(out: seq<byte>, b: byte, cap: nat)
    requires |out| <= cap
    ensures Cap(out + [b], cap) == if |out| < cap then out + [b] else out
  {
  }

  lemma RunStep(syms: seq<Symbol>, i: nat, n: nat, seen: seq<bool>)
    requires i < |syms| && n > 0 && SacBit(syms[i]).Some?
    ensures seen + BitRun(syms, i, n) == (seen + [SacBit(syms[i]).value]) + BitRun(syms, i + 1, n - 1)
  {
  }

  lemma RunEnds(syms: seq<Symbol>, i: nat, n: nat)
    ensures i >= |syms| || n == 0 || SacBit(syms[i]).None? ==> BitRun(syms, i, n) == []
  {
  }

  method ReadBit(s: Symbol) returns (bit: Option<bool>)
    ensures bit == SacBit(s)
  {
    if !InRange(s.mark, BIT_MARK) {
      bit := None;
    } else if InRange(s.space, ONE_SPACE) {
      bit := Some(true);
    } else if InRange(s.space, ZERO_SPACE) || s.space == 0 {
      bit := Some(false);
    } else {
      bit := None;
    }
  }

  lemma PackNothing()
    ensures BytesOf([]) == [] && Pending([]) == 0
  {
  }

  // One more bit goes into the pending byte; a full byte joins the byte string.
  lemma PackBit(seen: seq<bool>, bit: bool)
    ensures var p, v, grown := |seen| % 8, OrBit(Pending(seen), bit, |seen| % 8), seen + [bit];
            if p == 7 then BytesOf(grown) == BytesOf(seen) + [v] && Pending(grown) == 0
            else BytesOf(grown) == BytesOf(seen) && Pending(grown) == v
  {
    hide OrBit, Assemble;
    var q, p, grown := |seen| / 8, |seen| % 8, seen + [bit];
    assert |seen| == 8 * q + p;
    TailGrows(seen[8 * q..], bit);
    assert grown[8 * q..] == seen[8 * q..] + [bit];
    forall i | 0 <= i < q
      ensures BytesOf(grown)[i] == BytesOf(seen)[i]
    {
      assert grown[8 * i..8 * i + 8] == seen[8 * i..8 * i + 8];
    }
    if p == 7 {
      assert |grown| == 8 * (q + 1);
      assert grown[8 * q..8 * q + 8] == grown[8 * q..];
      AssembleNone();
      assert grown[|grown|..] == [];
    } else {
      assert |grown| / 8 == q && |grown| % 8 == p + 1;
    }
  }

  lemma AssembleNone()
    ensures Assemble([]) == 0
  {
  }

  lemma TailGrows(tail: seq<bool>, bit: bool)
    requires |tail| < 8
    ensures Assemble(tail + [bit]) == OrBit(Assemble(tail), bit, |tail|)
  {
    hide OrBit;
    assert (tail + [bit])[..|tail|] == tail;
  }

  datatype SectionResult = NoHeader | Damaged | Got(bytes: seq<byte>)

  // One section read on its own, at symbol offset 58 * sec.
  function DecodeSection(syms: seq<Symbol>, sec: nat): SectionResult {
    var hdr := 58 * sec;
    if hdr + 57 >= |syms| || !IsSectionHeader(syms[hdr]) then NoHeader
    else
      var bits := BitRun(syms, hdr + 1, 56);
      if |bits| == 56 then Got(BytesOf(bits)) else Damaged
  }

  lemma DecodeSectionLength(syms: seq<Symbol>, sec: nat)
    ensures DecodeSection(syms, sec).Got? ==> |DecodeSection(syms, sec).bytes| == 7
  {
  }

  method DecodeSamsungAcSection(syms: seq<Symbol>, sec: nat) returns (r: SectionResult)
    ensures r == DecodeSection(syms, sec)
  {
    hide Pending, BytesOf, OrBit, SacBit, BitRun, IsSectionHeader;
    var hdr := sec * 58;
    if hdr + 57 >= |syms| { return NoHeader; }
    if !IsSectionHeader(syms[hdr]) { return NoHeader; }
    PackNothing();
    var out: seq<byte> := [];
    var cur, bp := 0 as byte, 0;
    ghost var seen: seq<bool> := [];
    var k := 0;
    while k < 56
      invariant 0 <= k <= 56 && |seen| == k
      invariant seen + BitRun(syms, hdr + 1 + k, 56 - k) == BitRun(syms, hdr + 1, 56)
      invariant bp == k % 8 && cur == Pending(seen)
      invariant out == BytesOf(seen)
    {
      var bit := ReadBit(syms[hdr + 1 + k]);
      if bit.None? {
        RunEnds(syms, hdr + 1 + k, 56 - k);
        return Damaged;
      }
      PackBit(seen, bit.value);
      RunStep(syms, hdr + 1 + k, 56 - k, seen);
      cur := OrBit(cur, bit.value, bp);
      bp := bp + 1;
      if bp == 8 {
        out := out + [cur];
        cur := 0;
        bp := 0;
      }
      seen := seen + [bit.value];
      k := k + 1;
    }
    RunEnds(syms, hdr + 57, 0);
    assert seen == BitRun(syms, hdr + 1, 56);
    r := Got(out);
  }

  // ------------------------------------------------------------------
  // Agreement of the two Samsung decoders
  // ------------------------------------------------------------------

  lemma {:induction false} BitRunReads(syms: seq<Symbol>, i: nat, bits: seq<bool>)
    requires i + |bits| <= |syms|
    requires forall k :: 0 <= k < |bits| ==> SacBit(syms[i + k]) == Some(bits[k])
    ensures BitRun(syms, i, |bits|) == bits
    decreases |bits|
  {
    if bits != [] {
      forall k | 0 <= k < |bits| - 1
        ensures SacBit(syms[i + 1 + k]) == Some(bits[1..][k])
      {
        assert syms[i + 1 + k] == syms[i + (k + 1)];
      }
      BitRunReads(syms, i + 1, bits[1..]);
      assert bits == [bits[0]] + bits[1..] && SacBit(syms[i + 0]) == Some(bits[0]);
    }
  }

  lemma {:induction false} BitRunLocal(a: seq<Symbol>, b: seq<Symbol>, i: nat, n: nat)
    requires i + n <= |a| && i + n <= |b|
    requires forall k :: i <= k < i + n ==> a[k] == b[k]
    ensures BitRun(a, i, n) == BitRun(b, i, n)
    decreases n
  {
    if n > 0 {
      BitRunLocal(a, b, i + 1, n - 1);
    }
  }

  // A section's result depends on nothing but its own header and 56 bit symbols.
  lemma SectionIsLocal(a: seq<Symbol>, b: seq<Symbol>, sec: nat)
    requires 58 * sec + 58 <= |a| && 58 * sec + 58 <= |b|
    requires a[58 * sec..58 * sec + 57] == b[58 * sec..58 * sec + 57]
    ensures DecodeSection(a, sec) == DecodeSection(b, sec)
  {
    var h := 58 * sec;
    forall k | h <= k < h + 57
      ensures a[k] == b[k]
    {
      assert a[h..h + 57][k - h] == b[h..h + 57][k - h];
    }
    BitRunLocal(a, b, h + 1, 56);
  }

  // Concatenation of the section results from section s on.
  function SectionBytes(syms: seq<Symbol>, s: nat, n: nat): seq<byte>
    requires s <= n
    requires forall i :: s <= i < n ==> DecodeSection(syms, i).Got?
    decreases n - s
  {
    if s == n then [] else DecodeSection(syms, s).bytes + SectionBytes(syms, s + 1, n)
  }

  predicate CleanFrame(syms: seq<Symbol>, n: nat) {
    && |syms| == 58 * n
    && (forall i :: 0 <= i < n ==> DecodeSection(syms, i).Got?)
    && (forall i :: 0 <= i < n ==> InRange(syms[58 * i + 57].mark, BIT_MARK))
  }

  lemma {:induction false} SectionsFromClean(syms: seq<Symbol>, s: nat, n: nat)
    requires CleanFrame(syms, n) && s <= n
    ensures SectionsFrom(syms, 58 * s) == SectionBytes(syms, s, n)
    ensures |SectionBytes(syms, s, n)| == 7 * (n - s)
    decreases n - s
  {
    hide DecodeSection, SectionsFrom, InRange;
    if s < n {
      DecodeSectionLength(syms, s);
      OneCleanSection(syms, s);
      SectionsFromClean(syms, s + 1, n);
    } else {
      NoMoreSections(syms, 58 * s);
    }
  }

  lemma NoMoreSections(syms: seq<Symbol>, i: nat)
    requires i >= |syms|
    ensures SectionsFrom(syms, i) == []
  {
  }

  lemma OneCleanSection(syms: seq<Symbol>, s: nat)
    requires 58 * s + 58 <= |syms| && DecodeSection(syms, s).Got? && InRange(syms[58 * s + 57].mark, BIT_MARK)
    ensures SectionsFrom(syms, 58 * s) == DecodeSection(syms, s).bytes + SectionsFrom(syms, 58 * (s + 1))
  {
    hide BytesOf, BitRun, InRange, IsSectionHeader;
    assert AfterFooter(syms, 58 * s + 57) == 58 * (s + 1);
  }

  // On a clean frame the whole-frame decoder returns the sections one after the
  // other, up to the 24 bytes its output holds.
  lemma DecodersAgree(syms: seq<Symbol>, n: nat)
    requires CleanFrame(syms, n)
    ensures Cap(SectionsFrom(syms, 0), MAX_RAW_BYTES) ==
            var bytes := SectionBytes(syms, 0, n); if |bytes| > 24 then bytes[..24] else bytes
    ensures n <= 3 ==> Cap(SectionsFrom(syms, 0), MAX_RAW_BYTES) == SectionBytes(syms, 0, n)
  {
    SectionsFromClean(syms, 0, n);
  }

  // ------------------------------------------------------------------
  // NEC and LG: space-encoded words
  // ------------------------------------------------------------------

  // How one symbol reads under the given timings: a zero space is a final 0 bit.
  datatype Timing = Timing(bitMark: nat, zeroSpace: nat, oneSpace: nat)
  const LG_TIMING := Timing(560, 560, 1600)
  const NEC_TIMING := Timing(562, 562, 1687)

  function SpaceBit(s: Symbol, t: Timing): Option<bool> {
    if !InRange(s.mark, t.bitMark) then None
    else if s.space == 0 || InRange(s.space, t.zeroSpace) then Some(false)
    else if InRange(s.space, t.oneSpace) then Some(true)
    else None
  }

  // In figures.
  lemma LgBitIs(s: Symbol)
    ensures SpaceBit(s, LG_TIMING) == Some(true) <==> InRange(s.mark, 560) && InRange(s.space, 1600)
    ensures SpaceBit(s, LG_TIMING) == Some(false) <==> InRange(s.mark, 560) && (InRange(s.space, 560) || s.space == 0)
  {
  }

  lemma NecBitIs(s: Symbol)
    ensures SpaceBit(s, NEC_TIMING) == Some(true) <==> InRange(s.mark, 562) && InRange(s.space, 1687)
    ensures SpaceBit(s, NEC_TIMING) == Some(false) <==> InRange(s.mark, 562) && (InRange(s.space, 562) || s.space == 0)
  {
  }

  // Readable bits from position i, at most max; a zero space ends the run.
  function SpaceRun(syms: seq<Symbol>, i: nat, t: Timing, max: nat): (bits: seq<bool>)
    ensures |bits| <= max
    decreases max
  {
    if i >= |syms| || max == 0 || SpaceBit(syms[i], t).None? then []
    else if syms[i].space == 0 then [SpaceBit(syms[i], t).value]
    else [SpaceBit(syms[i], t).value] + SpaceRun(syms, i + 1, t, max - 1)
  }

  function Shl32(n: nat): bv32
    requires n < 32
  {
    (1 as bv32) << n
  }

  function OrBit32(word: bv32, bit: bool, n: nat): bv32
    requires n < 32
  {
    word | (if bit then Shl32(n) else 0)
  }

  function WordOf(bits: seq<bool>): bv32
    requires |bits| <= 32
  {
    if bits == [] then 0 else OrBit32(WordOf(bits[..|bits| - 1]), bits[|bits| - 1], |bits| - 1)
  }

  method DecodeSpaceBits(syms: seq<Symbol>, t: Timing, maxBits: nat) returns (word: bv32, n: nat)
    requires maxBits <= 32
    ensures n == |SpaceRun(syms, 1, t, maxBits)| && word == WordOf(SpaceRun(syms, 1, t, maxBits))
  {
    hide OrBit32, InRange, SpaceRun, WordOf;
    WordOfSteps();
    word, n := 0, 0;
    var i := 1;
    ghost var seen: seq<bool> := [];
    while i < |syms| && n < maxBits
      invariant n == |seen| <= maxBits && i == n + 1
      invariant seen + SpaceRun(syms, i, t, maxBits - n) == SpaceRun(syms, 1, t, maxBits)
      invariant word == WordOf(seen)
      decreases maxBits - n
    {
      SpaceRunStep(syms, i, t, maxBits - n);
      if !InRange(syms[i].mark, t.bitMark) { break; }
      if syms[i].space == 0 {
        WordOfGrows(seen, false);
        seen := seen + [false];
        n := n + 1;
        assert seen == SpaceRun(syms, 1, t, maxBits);
        return;
      }
      if InRange(syms[i].space, t.zeroSpace) {
        WordOfGrows(seen, false);
        seen := seen + [false];
      } else if InRange(syms[i].space, t.oneSpace) {
        WordOfGrows(seen, true);
        word := OrBit32(word, true, n);
        seen := seen + [true];
      } else {
        break;
      }
      n := n + 1;
      i := i + 1;
    }
    SpaceRunStep(syms, i, t, maxBits - n);
    assert seen == SpaceRun(syms, 1, t, maxBits);
  }

  lemma WordOfSteps()
    ensures WordOf([]) == 0
  {
  }

  lemma WordOfGrows(seen: seq<bool>, bit: bool)
    requires |seen| < 32
    ensures WordOf(seen + [bit]) == OrBit32(WordOf(seen), bit, |seen|)
    ensures !bit ==> WordOf(seen + [bit]) == WordOf(seen)
  {
    assert (seen + [bit])[..|seen|] == seen;
  }

  lemma SpaceRunStep(syms: seq<Symbol>, i: nat, t: Timing, n: nat)
    ensures i >= |syms| || n == 0 || SpaceBit(syms[i], t).None? ==> SpaceRun(syms, i, t, n) == []
    ensures i < |syms| && n > 0 && SpaceBit(syms[i], t).Some? ==>
              SpaceRun(syms, i, t, n) ==
              [SpaceBit(syms[i], t).value] + (if syms[i].space == 0 then [] else SpaceRun(syms, i + 1, t, n - 1))
  {
  }

  // Byte k of a received word.
  function ByteOf(w: bv32, k: nat): byte
    requires k < 4
  {
    if k == 0 then (w & 0xFF) as byte else if k == 1 then ((w >> 8) & 0xFF) as byte
    else if k == 2 then ((w >> 16) & 0xFF) as byte else ((w >> 24) & 0xFF) as byte
  }

  predicate Complementary(a: byte, b: byte) {
    a ^ b == 0xFF
  }

  function Address16(lo: byte, hi: byte): bv16 {
    ((hi as bv16) << 8) | (lo as bv16)
  }

  // ------------------------------------------------------------------
  // ir_decode
  // ------------------------------------------------------------------

  predicate IsGlobalHeader(s: Symbol) {
    InRange(s.mark, HDR_MARK) && InRange(s.space, HDR_SPACE)
  }

  // Both accepted shapes of a Samsung frame: with the global header, or
  // starting right at the first section header.
  predicate LooksSamsung(syms: seq<Symbol>) {
    syms != [] && (IsGlobalHeader(syms[0]) || IsSectionHeader(syms[0]))
  }

  function SamsungBytes(syms: seq<Symbol>): seq<byte>
    requires LooksSamsung(syms)
  {
    Cap(SectionsFrom(if IsGlobalHeader(syms[0]) then syms[1..] else syms, 0), MAX_RAW_BYTES)
  }

  // The 28 bits of a frame the LG branch looks at, if its header and length fit.
  function LgBits(syms: seq<Symbol>): seq<bool> {
    if syms != [] && InRange(syms[0].mark, 8500) && InRange(syms[0].space, 4250) && |syms| >= 29
    then SpaceRun(syms, 1, LG_TIMING, 28) else []
  }

  predicate AcceptsLg(syms: seq<Symbol>) {
    var bits := LgBits(syms);
    |bits| == 28 && Complementary(ByteOf(WordOf(bits), 1), ByteOf(WordOf(bits), 2))
  }

  function LgResult(w: bv32): Decoded {
    Decoded(LG_AC, ByteOf(w, 0) as bv16, ByteOf(w, 1), [], w, 28, false)
  }

  function NecBits(syms: seq<Symbol>): seq<bool> {
    if syms != [] && InRange(syms[0].space, 4500) && |syms| >= 33
    then SpaceRun(syms, 1, NEC_TIMING, 32) else []
  }

  predicate AcceptsNec(syms: seq<Symbol>) {
    var bits := NecBits(syms);
    |bits| == 32 && Complementary(ByteOf(WordOf(bits), 2), ByteOf(WordOf(bits), 3))
  }

  function NecResult(w: bv32): Decoded {
    var lo, hi, cmd := ByteOf(w, 0), ByteOf(w, 1), ByteOf(w, 2);
    if Complementary(lo, hi) then Decoded(NEC, lo as bv16, cmd, [], w, 32, false)
    else Decoded(NEC_EXT, Address16(lo, hi), cmd, [], w, 32, false)
  }

  // The outcome of a successful decode; None for every frame reported as unknown.
  function Recognized(syms: seq<Symbol>): Option<Decoded> {
    if syms == [] then None
    else if LooksSamsung(syms) then
      if SamsungBytes(syms) == [] then None
      else Some(NOTHING.(proto := SAMSUNG_AC, rawBytes := SamsungBytes(syms)))
    else if AcceptsLg(syms) then Some(LgResult(WordOf(LgBits(syms))))
    else if !InRange(syms[0].mark, 9000) then None
    else if InRange(syms[0].space, 2250) then Some(NOTHING.(proto := NEC_REPEAT, repeated := true))
    else if AcceptsNec(syms) then Some(NecResult(WordOf(NecBits(syms))))
    else None
  }

  // The LG branch of ir_decode.
  method DecodeLg(syms: seq<Symbol>) returns (r: Option<Decoded>)
    requires syms != []
    ensures r == if AcceptsLg(syms) then Some(LgResult(WordOf(LgBits(syms)))) else None
  {
    hide InRange, ByteOf, SpaceRun, WordOf, Complementary;
    if InRange(syms[0].mark, 8500) && InRange(syms[0].space, 4250) && |syms| >= 29 {
      var bits, nbits := DecodeSpaceBits(syms, LG_TIMING, 28);
      if nbits == 28 {
        var addr, cmd, cmdInv := ByteOf(bits, 0), ByteOf(bits, 1), ByteOf(bits, 2);
        if Complementary(cmd, cmdInv) {
          return Some(NOTHING.(proto := LG_AC, address := addr as bv16, command := cmd, rawBits := bits, bitCount := nbits));
        }
      }
    }
    return None;
  }

  // The NEC branch of ir_decode, for a header mark of 9 ms.
  method DecodeNec(syms: seq<Symbol>) returns (r: Option<Decoded>)
    requires syms != []
    ensures r == if InRange(syms[0].space, 2250) then Some(NOTHING.(proto := NEC_REPEAT, repeated := true))
                 else if AcceptsNec(syms) then Some(NecResult(WordOf(NecBits(syms)))) else None
  {
    hide InRange, ByteOf, SpaceRun, WordOf, Complementary, Address16;
    if InRange(syms[0].space, 2250) {
      return Some(NOTHING.(proto := NEC_REPEAT, repeated := true));
    }
    if InRange(syms[0].space, 4500) && |syms| >= 33 {
      var bits, nbits := DecodeSpaceBits(syms, NEC_TIMING, 32);
      if nbits == 32 {
        var lo, hi, cmd, cmdInv := ByteOf(bits, 0), ByteOf(bits, 1), ByteOf(bits, 2), ByteOf(bits, 3);
        if !Complementary(cmd, cmdInv) { return None; }
        var out := NOTHING.(rawBits := bits, bitCount := nbits, command := cmd);
        if Complementary(lo, hi) {
          return Some(out.(proto := NEC, address := lo as bv16));
        }
        return Some(out.(proto := NEC_EXT, address := Address16(lo, hi)));
      }
    }
    return None;
  }

  // The code is 0, -1 (no symbols) or -2 (unknown frame).
  method Decode(syms: seq<Symbol>) returns (rc: int, out: Decoded)
    ensures rc == (if syms == [] then -1 else if Recognized(syms).Some? then 0 else -2)
    ensures rc == 0 ==> Recognized(syms) == Some(out)
    ensures rc == -2 ==> out == NOTHING.(proto := if LooksSamsung(syms) then SAMSUNG_AC else UNKNOWN)
  {
    hide InRange, SectionsFrom, Cap, AcceptsLg, AcceptsNec, LgResult, NecResult, LgBits, NecBits;
    out := NOTHING;
    if |syms| == 0 { return -1, out; }

    var globalHdr := IsGlobalHeader(syms[0]);
    if globalHdr || IsSectionHeader(syms[0]) {
      var s := if globalHdr then syms[1..] else syms;
      var bytes := DecodeSamsungAcBytes(s, MAX_RAW_BYTES);
      out := out.(proto := SAMSUNG_AC, rawBytes := bytes);
      return if |bytes| > 0 then 0 else -2, out;
    }

    var lg := DecodeLg(syms);
    if lg.Some? { return 0, lg.value; }

    if InRange(syms[0].mark, 9000) {
      var nec := DecodeNec(syms);
      if nec.Some? { return 0, nec.value; }
    }
    return -2, out;
  }
}
