// Captures that make the assembler report a frame nobody sent
// (app/app_main_zephyr.c, ir_rx_frame_cb, and its note on mixed buttons).
module FrameMixing {
  import opened Bits
  import opened Symbols
  import opened SamsungCodec
  import opened IrDecode
  import opened SectionAssembly
  import IrLink

  // The capture of a frame at nominal timing in which the sections not kept have
  // lost their first bit.
  function Spoiled(data: seq<byte>, keep: seq<bool>): (f: seq<Symbol>)
    requires |data| == 21 && |keep| == 3
    ensures |f| == 174
  {
    seq(174, k requires 0 <= k < 174 =>
      if k % 58 == 1 && !keep[k / 58] then Symbol(0, 0) else Encoding(data)[1 + k])
  }

  lemma SpoiledAt(data: seq<byte>, keep: seq<bool>, s: nat, j: nat)
    requires |data| == 21 && |keep| == 3 && s < 3 && j < 58
    ensures Spoiled(data, keep)[58 * s + j] == if j == 1 && !keep[s] then Symbol(0, 0) else FrameSymbol(data, s, j)
  {
    hide Encoding, FrameSymbol;
    assert (58 * s + j) / 58 == s && (58 * s + j) % 58 == j;
    EncodingAt(data, s, j);
  }

  lemma NominalReads(b: bool)
    ensures SacBit(BitSymbol(b)) == Some(b) && SacBit(Symbol(0, 0)) == None
    ensures IsSectionHeader(Symbol(SEC_MARK, SEC_SPACE)) && InRange(BIT_MARK, BIT_MARK)
  {
  }

  // A kept section reads back, a spoiled one is damaged.
  lemma SpoiledReads(data: seq<byte>, keep: seq<bool>, s: nat)
    requires |data| == 21 && |keep| == 3 && s < 3
    ensures DecodeSection(Spoiled(data, keep), s) == if keep[s] then Got(SectionOf(data, s)) else Damaged
  {
    hide Spoiled, SacBit, IsSectionHeader, InRange, BytesOf, BitsOf, BitSymbol;
    var f := Spoiled(data, keep);
    SpoiledAt(data, keep, s, 0);
    SpoiledAt(data, keep, s, 1);
    NominalReads(true);
    if keep[s] {
      forall i | 58 * s + 1 <= i < 58 * s + 57
        ensures SacBit(f[i]) == Some(BitsOf(data)[i - 2 * s - 1])
      {
        SpoiledAt(data, keep, s, i - 58 * s);
        NominalReads(BitsOf(data)[i - 2 * s - 1]);
      }
      SpoiledAt(data, keep, s, 57);
      IrLink.LegibleSectionDecodes(f, data, s);
    } else {
      assert BitRun(f, 58 * s + 1, 56) == [];
    }
  }

  // Such captures are damaged copies, and exactly the kept sections survive.
  lemma SpoiledIsDamaged(data: seq<byte>, keep: seq<bool>)
    requires |data| == 21 && |keep| == 3
    ensures DamagedCopy(Spoiled(data, keep), data)
    ensures !DecodeSection(Spoiled(data, keep), 0).NoHeader?
    ensures forall s :: 0 <= s < 3 ==> (Survived(Spoiled(data, keep), data, s) <==> keep[s])
  {
    hide Spoiled, DecodeSection, Clears;
    SpoiledReads(data, keep, 0);
    SpoiledReads(data, keep, 1);
    SpoiledReads(data, keep, 2);
    forall s, i | 0 <= s < 3 && 0 <= i < 7
      ensures Clears(SectionOf(data, s)[i], SectionOf(data, s)[i])
    {
      ClearsItself(SectionOf(data, s)[i]);
    }
  }

  lemma ClearsItself(b: byte)
    ensures Clears(b, b)
  {
  }

  // One such capture, on whatever the store holds.
  lemma SpoiledCapture(st: Store, data: seq<byte>, keep: seq<bool>)
    requires st.Valid() && ValidFrame(data) && |data| == 21 && |keep| == 3
    requires !(st.have[0] && keep[0])
    ensures var o := OnCapture(st, Spoiled(data, keep));
            var have := [st.have[0] || keep[0], st.have[1] || keep[1], st.have[2] || keep[2]];
            var sec := [if keep[0] then SectionOf(data, 0) else st.sec[0],
                        if keep[1] then SectionOf(data, 1) else st.sec[1],
                        if keep[2] then SectionOf(data, 2) else st.sec[2]];
            if have == [true, true, true] then o.report == Frame(sec[0] + sec[1] + sec[2]) && o.st == Store(sec, [false, false, false])
            else o.report == Silent && o.st == Store(sec, have)
  {
    hide Spoiled, DecodeSection, SectionOf, Verifies, CollectAll, Recognized, ValidFrame, Survived, DamagedCopy;
    var cap := Spoiled(data, keep);
    SpoiledIsDamaged(data, keep);
    CaptureMixes(st, cap, data);
    var t := CollectAll(st, cap);
    assert t.have == [t.have[0], t.have[1], t.have[2]] && t.sec == [t.sec[0], t.sec[1], t.sec[2]];
  }

  // The mixture the source's note fears, for any two frames that differ in section 2
  // and in one of the others: the second frame's sections 0 and 1 are lost, its
  // section 2 completes the first.
  lemma TwoFramesMayMix(st: Store, a: seq<byte>, b: seq<byte>)
    requires st.Valid() && st.Empty() && ValidFrame(a) && ValidFrame(b) && |a| == |b| == 21
    requires SectionOf(a, 2) != SectionOf(b, 2) && (SectionOf(a, 0) != SectionOf(b, 0) || SectionOf(a, 1) != SectionOf(b, 1))
    ensures var cap1, cap2 := Spoiled(a, [true, true, false]), Spoiled(b, [false, false, true]);
            var mixed := SectionOf(a, 0) + SectionOf(a, 1) + SectionOf(b, 2);
            && DamagedCopy(cap1, a) && DamagedCopy(cap2, b)
            && Reports(st, [cap1, cap2]) == [Silent, Frame(mixed)] && mixed != a && mixed != b
  {
    hide Spoiled, DecodeSection, SectionOf, Verifies, OnCapture, ValidFrame, DamagedCopy;
    var cap1, cap2 := Spoiled(a, [true, true, false]), Spoiled(b, [false, false, true]);
    SpoiledIsDamaged(a, [true, true, false]);
    SpoiledIsDamaged(b, [false, false, true]);
    SpoiledCapture(st, a, [true, true, false]);
    var s1 := OnCapture(st, cap1).st;
    SpoiledCapture(s1, b, [false, false, true]);
    TwoReports(st, cap1, cap2);
    SectionsOfJoin(SectionOf(a, 0), SectionOf(a, 1), SectionOf(b, 2));
    SameFrameIff(SectionOf(a, 0) + SectionOf(a, 1) + SectionOf(b, 2), a);
    SameFrameIff(SectionOf(a, 0) + SectionOf(a, 1) + SectionOf(b, 2), b);
  }

  lemma TwoReports(st: Store, cap1: seq<Symbol>, cap2: seq<Symbol>)
    requires st.Valid()
    ensures Reports(st, [cap1, cap2]) == [OnCapture(st, cap1).report, OnCapture(OnCapture(st, cap1).st, cap2).report]
  {
    hide OnCapture;
    var o := OnCapture(st, cap1);
    assert [cap1, cap2][1..] == [cap2];
    assert Reports(o.st, [cap2]) == [OnCapture(o.st, cap2).report];
  }

  // An intact, differing section 0 at the start of the new press is not enough: a
  // repeat of the old frame that came after its report, without its section 0,
  // leaves a section that no reset clears.
  lemma DifferingSectionZeroIsNotEnough(st: Store, a: seq<byte>, b: seq<byte>)
    requires st.Valid() && st.Empty() && ValidFrame(a) && ValidFrame(b) && |a| == |b| == 21
    requires SectionOf(a, 0) != SectionOf(b, 0) && SectionOf(a, 1) != SectionOf(b, 1)
    ensures var c1, c2, c3 := Spoiled(a, [true, true, true]), Spoiled(a, [false, true, false]), Spoiled(b, [true, false, true]);
            var mixed := SectionOf(b, 0) + SectionOf(a, 1) + SectionOf(b, 2);
            && DamagedCopy(c1, a) && DamagedCopy(c2, a) && DamagedCopy(c3, b) && Survived(c3, b, 0)
            && Reports(st, [c1, c2, c3]) == [Frame(a), Silent, Frame(mixed)] && mixed != a && mixed != b
  {
    hide Spoiled, DecodeSection, SectionOf, Verifies, OnCapture, ValidFrame, DamagedCopy, Survived;
    var c1, c2, c3 := Spoiled(a, [true, true, true]), Spoiled(a, [false, true, false]), Spoiled(b, [true, false, true]);
    SpoiledIsDamaged(a, [true, true, true]);
    SpoiledIsDamaged(a, [false, true, false]);
    SpoiledIsDamaged(b, [true, false, true]);
    SpoiledCapture(st, a, [true, true, true]);
    FrameIsItsSections(a);
    var s1 := OnCapture(st, c1).st;
    SpoiledCapture(s1, a, [false, true, false]);
    var s2 := OnCapture(s1, c2).st;
    SpoiledCapture(s2, b, [true, false, true]);
    TwoReports(s1, c2, c3);
    assert [c1, c2, c3][1..] == [c2, c3];
    SectionsOfJoin(SectionOf(b, 0), SectionOf(a, 1), SectionOf(b, 2));
    SameFrameIff(SectionOf(b, 0) + SectionOf(a, 1) + SectionOf(b, 2), a);
    SameFrameIff(SectionOf(b, 0) + SectionOf(a, 1) + SectionOf(b, 2), b);
  }

  // The mixture may also build up over repeats: one section of the first frame and
  // two repeats of the second, each with another section.
  lemma TwoRepeatsMayMix(st: Store, a: seq<byte>, b: seq<byte>)
    requires st.Valid() && st.Empty() && ValidFrame(a) && ValidFrame(b) && |a| == |b| == 21
    requires SectionOf(a, 0) != SectionOf(b, 0) && (SectionOf(a, 1) != SectionOf(b, 1) || SectionOf(a, 2) != SectionOf(b, 2))
    ensures var c1, c2, c3 := Spoiled(a, [true, false, false]), Spoiled(b, [false, true, false]), Spoiled(b, [false, false, true]);
            var mixed := SectionOf(a, 0) + SectionOf(b, 1) + SectionOf(b, 2);
            && DamagedCopy(c1, a) && DamagedCopy(c2, b) && DamagedCopy(c3, b)
            && Reports(st, [c1, c2, c3]) == [Silent, Silent, Frame(mixed)] && mixed != a && mixed != b
  {
    hide Spoiled, DecodeSection, SectionOf, Verifies, OnCapture, ValidFrame, DamagedCopy, Survived;
    var c1, c2, c3 := Spoiled(a, [true, false, false]), Spoiled(b, [false, true, false]), Spoiled(b, [false, false, true]);
    SpoiledIsDamaged(a, [true, false, false]);
    SpoiledIsDamaged(b, [false, true, false]);
    SpoiledIsDamaged(b, [false, false, true]);
    SpoiledCapture(st, a, [true, false, false]);
    var s1 := OnCapture(st, c1).st;
    SpoiledCapture(s1, b, [false, true, false]);
    var s2 := OnCapture(s1, c2).st;
    SpoiledCapture(s2, b, [false, false, true]);
    TwoReports(s1, c2, c3);
    assert [c1, c2, c3][1..] == [c2, c3];
    SectionsOfJoin(SectionOf(a, 0), SectionOf(b, 1), SectionOf(b, 2));
    SameFrameIff(SectionOf(a, 0) + SectionOf(b, 1) + SectionOf(b, 2), a);
    SameFrameIff(SectionOf(a, 0) + SectionOf(b, 1) + SectionOf(b, 2), b);
  }

  // ------------------------------------------------------------------
  // The remote's own frames
  // ------------------------------------------------------------------

  const ON_0: Section := [0x02, 0x92, 0x0F, 0x00, 0x00, 0x00, 0xF0]
  const OFF_0: Section := [0x02, 0xB2, 0x0F, 0x00, 0x00, 0x00, 0xC0]
  const MIDDLE_1: Section := [0x01, 0xD2, 0x0F, 0x00, 0x00, 0x00, 0x00]
  const ON_2: Section := [0x01, 0x52, 0x0F, 0x00, 0x20, 0x11, 0xF8]
  const OFF_2: Section := [0x01, 0x72, 0x0F, 0x00, 0x20, 0x11, 0xC8]
  const ON_21: seq<byte> := ON_0 + MIDDLE_1 + ON_2
  const OFF_21: seq<byte> := OFF_0 + MIDDLE_1 + OFF_2

  lemma KnownOnes()
    ensures Ones(0x00) == 0 && Ones(0x01) == 1 && Ones(0x02) == 1 && Ones(0x20) == 1 && Ones(0x11) == 2
    ensures Ones(0xC0) == 2 && Ones(0xC8) == 3 && Ones(0xF0) == 4 && Ones(0xF8) == 5
  {
    OnesByBits(0x01);
    OnesByBits(0x02);
    OnesByBits(0x20);
    OnesByBits(0x11);
    OnesByBits(0xC0);
    OnesByBits(0xC8);
    OnesByBits(0xF0);
    OnesByBits(0xF8);
  }

  lemma KnownNibbles()
    ensures Data2(0x0F) == 0x00
    ensures Data1(0x92) == 0x02 && Data1(0xB2) == 0x02 && Data1(0xD2) == 0x02 && Data1(0x52) == 0x02 && Data1(0x72) == 0x02
    ensures Stored1(0x92, 0x0F) == 0xF9 && Stored1(0xB2, 0x0F) == 0xFB && Stored1(0xD2, 0x0F) == 0xFD
    ensures Stored1(0x52, 0x0F) == 0xF5 && Stored1(0x72, 0x0F) == 0xF7
  {
  }

  lemma HeadSectionsAreValid()
    ensures Verifies(ON_0) && Verifies(OFF_0)
  {
    hide Ones, Data1, Data2, Stored1;
    KnownOnes();
    KnownNibbles();
  }

  lemma TailSectionsAreValid()
    ensures Verifies(MIDDLE_1) && Verifies(ON_2) && Verifies(OFF_2)
  {
    hide Ones, Data1, Data2, Stored1;
    KnownOnes();
    KnownNibbles();
  }

  lemma RemoteFrames()
    ensures ValidFrame(ON_21) && ValidFrame(OFF_21) && |ON_21| == |OFF_21| == 21
    ensures SectionOf(ON_21, 0) == ON_0 && SectionOf(ON_21, 1) == MIDDLE_1 && SectionOf(ON_21, 2) == ON_2
    ensures SectionOf(OFF_21, 0) == OFF_0 && SectionOf(OFF_21, 1) == MIDDLE_1 && SectionOf(OFF_21, 2) == OFF_2
    ensures ON_0 != OFF_0 && ON_2 != OFF_2
  {
    hide Verifies, SectionOf;
    HeadSectionsAreValid();
    TailSectionsAreValid();
    SectionsOfJoin(ON_0, MIDDLE_1, ON_2);
    SectionsOfJoin(OFF_0, MIDDLE_1, OFF_2);
    assert ON_0[1] != OFF_0[1] && ON_2[1] != OFF_2[1];
  }

  // The remote's power-on and power-off frames differ in sections 0 and 2, so a
  // power-on frame with a power-off tail can be reported.
  lemma OnAndOffMayMix(st: Store)
    requires st.Valid() && st.Empty()
    ensures |ON_21| == |OFF_21| == 21
    ensures var mixed := ON_0 + MIDDLE_1 + OFF_2;
            var cap1, cap2 := Spoiled(ON_21, [true, true, false]), Spoiled(OFF_21, [false, false, true]);
            && DamagedCopy(cap1, ON_21) && DamagedCopy(cap2, OFF_21)
            && Reports(st, [cap1, cap2]) == [Silent, Frame(mixed)] && mixed != ON_21 && mixed != OFF_21
  {
    hide Spoiled, DecodeSection, Verifies, Reports, ValidFrame, DamagedCopy, SectionOf, ON_21, OFF_21, ON_0, OFF_0, ON_2, OFF_2, MIDDLE_1;
    RemoteFrames();
    TwoFramesMayMix(st, ON_21, OFF_21);
  }
}
