// Which protocol a 32-bit NEC waveform is taken for (app/ir/ir_decode.c).
module NecClassification {
  import opened Bits
  import opened Symbols
  import opened IrDecode

  // ------------------------------------------------------------------
  // Bytes of a received word
  // ------------------------------------------------------------------

  // Four bytes joined into a word, least significant first.
  function Join(a0: byte, a1: byte, a2: byte, a3: byte): bv32 {
    (a0 as bv32) | ((a1 as bv32) << 8) | ((a2 as bv32) << 16) | ((a3 as bv32) << 24)
  }

  function Place(m: byte, j: nat): bv32
    requires j < 4
  {
    if j == 0 then m as bv32 else if j == 1 then (m as bv32) << 8
    else if j == 2 then (m as bv32) << 16 else (m as bv32) << 24
  }

  lemma ShiftIsPlacedMask(n: nat)
    requires n < 32
    ensures (1 as bv32) << n == Place(Mask(n % 8), n / 8)
  {
    if n == 0 {} else if n == 1 {} else if n == 2 {} else if n == 3 {} else if n == 4 {} else if n == 5 {} else if n == 6 {} else if n == 7 {}
    else if n == 8 {} else if n == 9 {} else if n == 10 {} else if n == 11 {} else if n == 12 {} else if n == 13 {} else if n == 14 {} else if n == 15 {}
    else if n == 16 {} else if n == 17 {} else if n == 18 {} else if n == 19 {} else if n == 20 {} else if n == 21 {} else if n == 22 {} else if n == 23 {}
    else if n == 24 {} else if n == 25 {} else if n == 26 {} else if n == 27 {} else if n == 28 {} else if n == 29 {} else if n == 30 {} else {}
  }

  lemma JoinOr0(a0: byte, a1: byte, a2: byte, a3: byte, m: byte)
    ensures Or32(Join(a0, a1, a2, a3), Place(m, 0)) == Join(Or8(a0, m), a1, a2, a3)
  {
  }

  lemma JoinOr1(a0: byte, a1: byte, a2: byte, a3: byte, m: byte)
    ensures Or32(Join(a0, a1, a2, a3), Place(m, 1)) == Join(a0, Or8(a1, m), a2, a3)
  {
  }

  lemma JoinOr2(a0: byte, a1: byte, a2: byte, a3: byte, m: byte)
    ensures Or32(Join(a0, a1, a2, a3), Place(m, 2)) == Join(a0, a1, Or8(a2, m), a3)
  {
  }

  lemma JoinOr3(a0: byte, a1: byte, a2: byte, a3: byte, m: byte)
    ensures Or32(Join(a0, a1, a2, a3), Place(m, 3)) == Join(a0, a1, a2, Or8(a3, m))
  {
  }

  lemma JoinByte0(a0: byte, a1: byte, a2: byte, a3: byte)
    ensures ByteOf(Join(a0, a1, a2, a3), 0) == a0
  {
  }

  lemma JoinByte1(a0: byte, a1: byte, a2: byte, a3: byte)
    ensures ByteOf(Join(a0, a1, a2, a3), 1) == a1
  {
  }

  lemma JoinByte2(a0: byte, a1: byte, a2: byte, a3: byte)
    ensures ByteOf(Join(a0, a1, a2, a3), 2) == a2
  {
  }

  lemma JoinByte3(a0: byte, a1: byte, a2: byte, a3: byte)
    ensures ByteOf(Join(a0, a1, a2, a3), 3) == a3
  {
  }

  function Or8(a: byte, m: byte): byte { a | m }
  function Or32(w: bv32, x: bv32): bv32 { w | x }

  lemma OrBitIsMask(v: byte, k: nat)
    requires k < 8
    ensures OrBit(v, true, k) == Or8(v, Mask(k)) && OrBit(v, false, k) == v
  {
    hide Mask;
    ShiftLeftIsMask(k);
  }

  lemma Shl32IsPlacedMask(n: nat)
    requires n < 32
    ensures Shl32(n) == Place(Mask(n % 8), n / 8)
  {
    hide Place, Mask;
    ShiftIsPlacedMask(n);
  }

  lemma OrBit32IsOr(w: bv32, n: nat)
    requires n < 32
    ensures OrBit32(w, true, n) == Or32(w, Shl32(n)) && OrBit32(w, false, n) == w
  {
    hide Shl32;
  }

  lemma OrBit32IsPlace(w: bv32, j: nat, k: nat)
    requires j < 4 && k < 8
    ensures OrBit32(w, true, 8 * j + k) == Or32(w, Place(Mask(k), j)) && OrBit32(w, false, 8 * j + k) == w
  {
    hide Place, Mask, Shl32, Or32, OrBit32;
    assert (8 * j + k) / 8 == j && (8 * j + k) % 8 == k;
    Shl32IsPlacedMask(8 * j + k);
    OrBit32IsOr(w, 8 * j + k);
  }

  function Clip(n: nat, hi: nat): nat { if n < hi then n else hi }

  // The bits that belong to byte j, as far as they have arrived.
  function Part(bits: seq<bool>, j: nat): byte {
    Assemble(bits[Clip(8 * j, |bits|)..Clip(8 * j + 8, |bits|)])
  }

  lemma PartStep(bits: seq<bool>, j: nat)
    requires 0 < |bits| <= 32 && j < 4
    ensures var n := |bits| - 1;
            Part(bits, j) == if n / 8 == j then OrBit(Part(bits[..n], j), bits[n], n % 8) else Part(bits[..n], j)
  {
    hide OrBit, Assemble;
    var n := |bits| - 1;
    if n / 8 == j {
      var mine := bits[8 * j..n + 1];
      assert mine[..n - 8 * j] == bits[..n][8 * j..n];
      LastBit(mine);
    } else if n / 8 < j {
      assert Clip(8 * j, n + 1) == Clip(8 * j + 8, n + 1) == n + 1 && Clip(8 * j, n) == Clip(8 * j + 8, n) == n;
      assert bits[n + 1..n + 1] == bits[..n][n..n] == [];
    } else {
      assert Clip(8 * j, n + 1) == Clip(8 * j, n) == 8 * j && Clip(8 * j + 8, n + 1) == Clip(8 * j + 8, n) == 8 * j + 8;
      assert bits[8 * j..8 * j + 8] == bits[..n][8 * j..8 * j + 8];
    }
  }

  lemma LastBit(mine: seq<bool>)
    requires 0 < |mine| <= 8
    ensures var r := |mine| - 1; Assemble(mine) == OrBit(Assemble(mine[..r]), mine[r], r)
  {
    hide OrBit;
  }

  lemma {:induction false} WordIsJoin(bits: seq<bool>)
    requires |bits| <= 32
    ensures WordOf(bits) == Join(Part(bits, 0), Part(bits, 1), Part(bits, 2), Part(bits, 3))
    decreases |bits|
  {
    hide OrBit, OrBit32, Join, Part, WordOf;
    if bits == [] {
      EmptyJoin();
    } else {
      var n := |bits| - 1;
      WordIsJoin(bits[..n]);
      assert bits == bits[..n] + [bits[n]];
      WordOfGrows(bits[..n], bits[n]);
      PartStep(bits, 0);
      PartStep(bits, 1);
      PartStep(bits, 2);
      PartStep(bits, 3);
      JoinOr(Part(bits[..n], 0), Part(bits[..n], 1), Part(bits[..n], 2), Part(bits[..n], 3), bits[n], n);
    }
  }

  lemma JoinSet0(a0: byte, a1: byte, a2: byte, a3: byte, bit: bool, k: nat)
    requires k < 8
    ensures OrBit32(Join(a0, a1, a2, a3), bit, 0 + k) == Join(OrBit(a0, bit, k), a1, a2, a3)
  {
    hide OrBit, OrBit32, Join, Place, Mask, Or8, Or32;
    OrBit32IsPlace(Join(a0, a1, a2, a3), 0, k);
    OrBitIsMask(a0, k);
    JoinOr0(a0, a1, a2, a3, Mask(k));
  }

  lemma JoinSet1(a0: byte, a1: byte, a2: byte, a3: byte, bit: bool, k: nat)
    requires k < 8
    ensures OrBit32(Join(a0, a1, a2, a3), bit, 8 + k) == Join(a0, OrBit(a1, bit, k), a2, a3)
  {
    hide OrBit, OrBit32, Join, Place, Mask, Or8, Or32;
    OrBit32IsPlace(Join(a0, a1, a2, a3), 1, k);
    OrBitIsMask(a1, k);
    JoinOr1(a0, a1, a2, a3, Mask(k));
  }

  lemma JoinSet2(a0: byte, a1: byte, a2: byte, a3: byte, bit: bool, k: nat)
    requires k < 8
    ensures OrBit32(Join(a0, a1, a2, a3), bit, 16 + k) == Join(a0, a1, OrBit(a2, bit, k), a3)
  {
    hide OrBit, OrBit32, Join, Place, Mask, Or8, Or32;
    OrBit32IsPlace(Join(a0, a1, a2, a3), 2, k);
    OrBitIsMask(a2, k);
    JoinOr2(a0, a1, a2, a3, Mask(k));
  }

  lemma JoinSet3(a0: byte, a1: byte, a2: byte, a3: byte, bit: bool, k: nat)
    requires k < 8
    ensures OrBit32(Join(a0, a1, a2, a3), bit, 24 + k) == Join(a0, a1, a2, OrBit(a3, bit, k))
  {
    hide OrBit, OrBit32, Join, Place, Mask, Or8, Or32;
    OrBit32IsPlace(Join(a0, a1, a2, a3), 3, k);
    OrBitIsMask(a3, k);
    JoinOr3(a0, a1, a2, a3, Mask(k));
  }

  lemma JoinOr(a0: byte, a1: byte, a2: byte, a3: byte, bit: bool, n: nat)
    requires n < 32
    ensures OrBit32(Join(a0, a1, a2, a3), bit, n) ==
            Join(if n / 8 == 0 then OrBit(a0, bit, n % 8) else a0, if n / 8 == 1 then OrBit(a1, bit, n % 8) else a1,
                 if n / 8 == 2 then OrBit(a2, bit, n % 8) else a2, if n / 8 == 3 then OrBit(a3, bit, n % 8) else a3)
  {
    hide OrBit, OrBit32, Join;
    if n / 8 == 0 { JoinSet0(a0, a1, a2, a3, bit, n % 8); } else if n / 8 == 1 { JoinSet1(a0, a1, a2, a3, bit, n % 8); }
    else if n / 8 == 2 { JoinSet2(a0, a1, a2, a3, bit, n % 8); } else { JoinSet3(a0, a1, a2, a3, bit, n % 8); }
  }

  lemma EmptyJoin()
    ensures WordOf([]) == Join(Part([], 0), Part([], 1), Part([], 2), Part([], 3))
  {
  }

  // Byte j of a received word consists of bits 8j to 8j + 7.
  lemma WordBytes(bits: seq<bool>, j: nat)
    requires |bits| <= 32 && j < 4
    ensures ByteOf(WordOf(bits), j) == Part(bits, j)
  {
    hide WordOf, Join, Part, ByteOf;
    WordIsJoin(bits);
    var a0, a1, a2, a3 := Part(bits, 0), Part(bits, 1), Part(bits, 2), Part(bits, 3);
    if j == 0 { JoinByte0(a0, a1, a2, a3); } else if j == 1 { JoinByte1(a0, a1, a2, a3); }
    else if j == 2 { JoinByte2(a0, a1, a2, a3); } else { JoinByte3(a0, a1, a2, a3); }
  }

  // ------------------------------------------------------------------
  // The classification theorem
  // ------------------------------------------------------------------

  // The frame carries four bytes with every duration inside the NEC windows.
  predicate CarriesNec(syms: seq<Symbol>, b: seq<byte>) {
    && |b| == 4 && |syms| >= 33
    && InRange(syms[0].mark, 9000) && InRange(syms[0].space, 4500)
    && forall k :: 1 <= k < 33 ==> InRange(syms[k].mark, 562) && InRange(syms[k].space, if BitsOf(b)[k - 1] then 1687 else 562)
  }

  // The header and the first 28 bits also lie inside the LG windows, as they do
  // at nominal NEC timing.
  predicate FitsLg(syms: seq<Symbol>)
    requires |syms| >= 33
  {
    && InRange(syms[0].mark, 8500) && InRange(syms[0].space, 4250)
    && forall k :: 1 <= k < 29 ==> SpaceBit(syms[k], LG_TIMING).Some?
  }

  // At nominal timing a NEC frame fits both.
  lemma NominalNec(syms: seq<Symbol>, b: seq<byte>)
    requires |b| == 4 && |syms| >= 33 && syms[0] == Symbol(9000, 4500)
    requires forall k :: 1 <= k < 33 ==> syms[k] == Symbol(562, if BitsOf(b)[k - 1] then 1687 else 562)
    ensures CarriesNec(syms, b) && FitsLg(syms)
  {
    hide BitsOf;
  }

  lemma {:induction false} SpaceRunReads(syms: seq<Symbol>, i: nat, t: Timing, bits: seq<bool>)
    requires i + |bits| <= |syms|
    requires forall k :: i <= k < i + |bits| ==> syms[k].space != 0 && SpaceBit(syms[k], t) == Some(bits[k - i])
    ensures SpaceRun(syms, i, t, |bits|) == bits
    decreases |bits|
  {
    if bits != [] {
      SpaceRunReads(syms, i + 1, t, bits[1..]);
      assert SpaceRun(syms, i, t, |bits|) == [bits[0]] + bits[1..];
    }
  }

  lemma {:induction false} SpaceRunStops(syms: seq<Symbol>, i: nat, t: Timing, max: nat, k: nat)
    requires k < max && i + k < |syms| && SpaceBit(syms[i + k], t).None?
    ensures |SpaceRun(syms, i, t, max)| <= k
    decreases k
  {
    if k > 0 && SpaceBit(syms[i], t).Some? {
      SpaceRunStops(syms, i + 1, t, max - 1, k - 1);
    }
  }

  // Inside the NEC windows, a bit the LG windows accept reads the same.
  lemma ReadingsAgree(s: Symbol, bit: bool)
    requires InRange(s.mark, 562) && InRange(s.space, if bit then 1687 else 562)
    ensures s.space != 0 && SpaceBit(s, NEC_TIMING) == Some(bit)
    ensures SpaceBit(s, LG_TIMING).Some? ==> SpaceBit(s, LG_TIMING) == Some(bit)
  {
  }

  lemma NecIsNotSamsung(s: Symbol)
    requires InRange(s.mark, 9000)
    ensures !IsGlobalHeader(s) && !IsSectionHeader(s)
    ensures InRange(s.space, 4500) ==> !InRange(s.space, 2250)
  {
  }

  lemma WordCarries(bits: seq<bool>, b: seq<byte>, j: nat)
    requires |b| == 4 && j < 4 && 8 * j + 8 <= |bits| <= 32 && bits == BitsOf(b)[..|bits|]
    ensures ByteOf(WordOf(bits), j) == b[j]
  {
    hide ByteOf, WordOf, Assemble, BitAt;
    WordBytes(bits, j);
    BytesOfBitsOf(b);
    assert bits[8 * j..8 * j + 8] == BitsOf(b)[8 * j..8 * j + 8];
    assert BytesOf(BitsOf(b))[j] == b[j];
  }

  lemma NecReadsWord(syms: seq<Symbol>, b: seq<byte>)
    requires CarriesNec(syms, b)
    ensures NecBits(syms) == BitsOf(b)
    ensures forall j :: 0 <= j < 4 ==> ByteOf(WordOf(BitsOf(b)), j) == b[j]
  {
    hide InRange, SpaceBit, ByteOf, WordOf, SpaceRun, BitsOf;
    forall k | 1 <= k < 33
      ensures syms[k].space != 0 && SpaceBit(syms[k], NEC_TIMING) == Some(BitsOf(b)[k - 1])
    {
      ReadingsAgree(syms[k], BitsOf(b)[k - 1]);
    }
    SpaceRunReads(syms, 1, NEC_TIMING, BitsOf(b));
    assert BitsOf(b)[..32] == BitsOf(b);
    forall j | 0 <= j < 4
      ensures ByteOf(WordOf(BitsOf(b)), j) == b[j]
    {
      WordCarries(BitsOf(b), b, j);
    }
  }

  // The first byte is the low half of an extended address.
  lemma AddressBytes(lo: byte, hi: byte)
    ensures (Address16(lo, hi) & 0xFF) as byte == lo && (Address16(lo, hi) >> 8) as byte == hi
  {
  }

  // The LG branch takes the frame exactly when it fits the LG windows and bytes
  // 1 and 2 happen to be complements of each other.
  lemma LgTakes(syms: seq<Symbol>, b: seq<byte>)
    requires CarriesNec(syms, b)
    ensures AcceptsLg(syms) <==> FitsLg(syms) && Complementary(b[1], b[2])
    ensures AcceptsLg(syms) ==> LgResult(WordOf(LgBits(syms))) == Decoded(LG_AC, b[0] as bv16, b[1], [], WordOf(BitsOf(b)[..28]), 28, false)
  {
    hide InRange, SpaceBit, ByteOf, WordOf, SpaceRun, BitsOf, Complementary;
    var bits := BitsOf(b)[..28];
    if FitsLg(syms) {
      forall k | 1 <= k < 29
        ensures syms[k].space != 0 && SpaceBit(syms[k], LG_TIMING) == Some(bits[k - 1])
      {
          ReadingsAgree(syms[k], BitsOf(b)[k - 1]);
      }
      SpaceRunReads(syms, 1, LG_TIMING, bits);
      WordCarries(bits, b, 0);
      WordCarries(bits, b, 1);
      WordCarries(bits, b, 2);
    } else if InRange(syms[0].mark, 8500) && InRange(syms[0].space, 4250) {
      var k :| 1 <= k < 29 && SpaceBit(syms[k], LG_TIMING).None?;
      SpaceRunStops(syms, 1, LG_TIMING, 28, k - 1);
    }
  }

  // A 32-bit frame is reported as NEC or extended NEC with its own address and command
  // if its last two bytes are complementary, and as unknown if not, except that the LG
  // test, which runs first, claims it exactly when it fits the LG windows and its
  // second and third bytes are complementary.
  lemma NecClassification(syms: seq<Symbol>, b: seq<byte>)
    requires CarriesNec(syms, b)
    ensures Recognized(syms) ==
              if FitsLg(syms) && Complementary(b[1], b[2])
              then Some(Decoded(LG_AC, b[0] as bv16, b[1], [], WordOf(BitsOf(b)[..28]), 28, false))
              else if !Complementary(b[2], b[3]) then None
              else if Complementary(b[0], b[1])
              then Some(Decoded(NEC, b[0] as bv16, b[2], [], WordOf(BitsOf(b)), 32, false))
              else Some(Decoded(NEC_EXT, Address16(b[0], b[1]), b[2], [], WordOf(BitsOf(b)), 32, false))
    ensures forall j :: 0 <= j < 4 ==> ByteOf(WordOf(BitsOf(b)), j) == b[j]
    ensures (Address16(b[0], b[1]) & 0xFF) as byte == b[0] && (Address16(b[0], b[1]) >> 8) as byte == b[1]
  {
    hide InRange, ByteOf, WordOf, SpaceRun, BitsOf, Complementary, Address16, IsGlobalHeader, IsSectionHeader, AcceptsLg, FitsLg;
    AddressBytes(b[0], b[1]);
    NecIsNotSamsung(syms[0]);
    NecReadsWord(syms, b);
    LgTakes(syms, b);
  }

  // So a standard NEC frame (address, its complement, command, its complement)
  // that fits the LG windows is misread exactly when command equals address.
  lemma StandardNecIsMisreadIff(syms: seq<Symbol>, address: byte, command: byte)
    requires CarriesNec(syms, [address, !address, command, !command]) && FitsLg(syms)
    ensures Recognized(syms).Some?
    ensures Recognized(syms).value.proto == NEC <==> command != address
    ensures command == address ==> Recognized(syms).value.proto == LG_AC
    ensures command != address ==> Recognized(syms).value.address == address as bv16 && Recognized(syms).value.command == command
  {
    hide CarriesNec, FitsLg, Recognized, BitsOf, WordOf, Address16, Complementary;
    Complements(address, command);
    NecClassification(syms, [address, !address, command, !command]);
  }

  lemma Complements(a: byte, c: byte)
    ensures Complementary(c, !c) && Complementary(a, !a)
    ensures Complementary(!a, c) <==> a == c
  {
  }

  // ------------------------------------------------------------------
  // LG frames and NEC repeats
  // ------------------------------------------------------------------

  // The frame carries the first 28 bits of four bytes inside the LG windows; a last
  // bit that is 0 may end in silence.
  predicate CarriesLg(syms: seq<Symbol>, b: seq<byte>) {
    && |b| == 4 && |syms| >= 29
    && InRange(syms[0].mark, 8500) && InRange(syms[0].space, 4250)
    && forall k :: 1 <= k < 29 ==>
         && InRange(syms[k].mark, 560)
         && (InRange(syms[k].space, if BitsOf(b)[k - 1] then 1600 else 560) || (k == 28 && !BitsOf(b)[27] && syms[28].space == 0))
  }

  lemma {:induction false} SpaceRunEnds(syms: seq<Symbol>, i: nat, t: Timing, bits: seq<bool>)
    requires i + |bits| <= |syms|
    requires forall k :: i <= k < i + |bits| ==> SpaceBit(syms[k], t) == Some(bits[k - i])
    requires forall k :: i <= k < i + |bits| - 1 ==> syms[k].space != 0
    ensures SpaceRun(syms, i, t, |bits|) == bits
    decreases |bits|
  {
    if |bits| == 1 {
      assert SpaceRun(syms, i + 1, t, 0) == [] && bits == [bits[0]];
    } else if bits != [] {
      SpaceRunEnds(syms, i + 1, t, bits[1..]);
      assert SpaceRun(syms, i, t, |bits|) == [bits[0]] + bits[1..];
    }
  }

  lemma LgReads(s: Symbol, bit: bool)
    requires InRange(s.mark, 560) && (InRange(s.space, if bit then 1600 else 560) || (!bit && s.space == 0))
    ensures SpaceBit(s, LG_TIMING) == Some(bit)
    ensures InRange(s.space, if bit then 1600 else 560) ==> s.space != 0
  {
  }

  lemma LgIsNotSamsung(s: Symbol)
    requires InRange(s.mark, 8500)
    ensures !IsGlobalHeader(s) && !IsSectionHeader(s)
  {
  }

  // An LG frame whose second and third bytes are complements is reported as LG, with
  // its first byte as the address and its second as the command.
  lemma LgIsRecognized(syms: seq<Symbol>, b: seq<byte>)
    requires CarriesLg(syms, b)
    ensures AcceptsLg(syms) <==> Complementary(b[1], b[2])
    ensures Complementary(b[1], b[2]) ==>
              Recognized(syms) == Some(Decoded(LG_AC, b[0] as bv16, b[1], [], WordOf(BitsOf(b)[..28]), 28, false))
    ensures forall j :: 0 <= j < 3 ==> ByteOf(WordOf(BitsOf(b)[..28]), j) == b[j]
  {
    hide InRange, SpaceBit, ByteOf, WordOf, SpaceRun, BitsOf, Complementary, IsGlobalHeader, IsSectionHeader;
    var bits := BitsOf(b)[..28];
    LgIsNotSamsung(syms[0]);
    forall k | 1 <= k < 29
      ensures SpaceBit(syms[k], LG_TIMING) == Some(bits[k - 1]) && (k < 28 ==> syms[k].space != 0)
    {
      LgReads(syms[k], BitsOf(b)[k - 1]);
    }
    SpaceRunEnds(syms, 1, LG_TIMING, bits);
    WordCarries(bits, b, 0);
    WordCarries(bits, b, 1);
    WordCarries(bits, b, 2);
  }

  // The repeat code of a held key.
  lemma RepeatIsRecognized(syms: seq<Symbol>)
    requires syms != [] && InRange(syms[0].mark, 9000) && InRange(syms[0].space, 2250)
    ensures Recognized(syms) == Some(Decoded(NEC_REPEAT, 0, 0, [], 0, 0, true))
  {
    hide SpaceRun, WordOf, ByteOf, IsGlobalHeader, IsSectionHeader, Complementary;
    NecIsNotSamsung(syms[0]);
    RepeatIsNotLg(syms[0]);
  }

  lemma RepeatIsNotLg(s: Symbol)
    requires InRange(s.space, 2250)
    ensures !InRange(s.space, 4250)
  {
  }
}
