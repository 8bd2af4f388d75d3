// One press of a button on one board, the report on another: encoder, waveform,
// capture and the frame callback together (app/ir and ir_rx_frame_cb in
// app/app_main_zephyr.c).
module OnePress {
  import opened Bits
  import opened Symbols
  import opened SamsungCodec
  import opened IrDecode
  import opened SectionAssembly
  import opened N = NecClassification
  import IrLink
  import Capture = IrCapture
  import Transmit = IrTransmit

  // A capture that reads as the frame carries each of its sections intact.
  lemma LegibleSurvives(f: seq<Symbol>, data: seq<byte>)
    requires ValidFrame(data) && |data| == 21 && IrLink.Legible(f, data)
    ensures DamagedCopy(f, data)
    ensures forall s :: 0 <= s < 3 ==> Survived(f, data, s)
  {
    hide DecodeSection, Clears, Verifies, SectionOf, IrLink.LegibleSection;
    forall s | 0 <= s < 3
      ensures DecodeSection(f, s) == Got(SectionOf(data, s))
    {
      IrLink.LegibleSectionDecodes(f, data, s);
    }
    forall s | 0 <= s < 3
      ensures |SectionOf(data, s)| == 7 && OnlyClears(SectionOf(data, s), SectionOf(data, s))
    {
      ClearsNothing(data, s);
    }
  }

  lemma ClearsNothing(data: seq<byte>, s: nat)
    requires |data| == 21 && s < 3
    ensures |SectionOf(data, s)| == 7 && OnlyClears(SectionOf(data, s), SectionOf(data, s))
  {
  }

  // An intact capture is reported at once, whatever was collected before it.
  lemma IntactIsReported(st: Store, f: seq<Symbol>, data: seq<byte>)
    requires st.Valid() && ValidFrame(data) && |data| == 21 && DamagedCopy(f, data)
    requires forall s :: 0 <= s < 3 ==> Survived(f, data, s)
    ensures Reports(st, [f]) == [Frame(data)] && After(st, [f]).Empty()
  {
    hide DecodeSection, Verifies, SectionOf, Survived, DamagedCopy, ValidFrame, CollectAll, Recognized;
    assert Survived(f, data, 0);
    SurvivedNeedsHeader(f, data);
    ForeignReportIff(st, f, data);
    KeptIsHeld(st, f, data);
    CaptureMixes(st, f, data);
    assert [f][1..] == [];
  }

  // One press of a valid 21-byte frame, with every duration on the air moved anywhere
  // within 25 %: an idle receiver and the callback report that frame, once, whatever
  // earlier captures left behind, and start over.
  lemma PressIsReported(st: Store, data: seq<byte>, ps: seq<Capture.Pulse>, rx: Capture.Rx, perUs: nat, t: nat)
    requires st.Valid() && ValidFrame(data)
    requires perUs > 0 && Capture.GapTicks(perUs) < WRAP
    requires Encodable(data) && IrLink.Sees(ps, Transmit.Wave(Encoding(data)), perUs)
    requires rx.Valid() && rx.phase == Capture.Idle
    ensures var frames := Capture.Play(rx, perUs, t, ps).frames;
            Reports(st, frames) == [Frame(data)] && After(st, frames).Empty()
  {
    hide Encoding, Capture.GapTicks, Capture.Play, Capture.Frame, IrLink.Sees, IrLink.Tolerable, IrLink.Legible;
    hide ValidFrame, Reports, After, DamagedCopy, Survived;
    FrameLength(data);
    IrLink.CapturedOnce(data, ps, rx, perUs, t);
    IrLink.CapturedIsTolerable(ps, data, perUs);
    var f := Capture.Frame(ps[1..], |ps| - 2, perUs);
    IrLink.TolerableIsLegible(f, data);
    LegibleSurvives(f, data);
    IntactIsReported(st, f, data);
  }

  // Remotes of the other kinds are reported as what they are and leave the collected
  // sections alone.
  lemma NecIsReported(st: Store, syms: seq<Symbol>, b: seq<byte>)
    requires st.Valid() && CarriesNec(syms, b)
    ensures OnCapture(st, syms) == Outcome(st,
              if FitsLg(syms) && Complementary(b[1], b[2])
              then Other(Decoded(LG_AC, b[0] as bv16, b[1], [], WordOf(BitsOf(b)[..28]), 28, false))
              else if !Complementary(b[2], b[3]) then Silent
              else if Complementary(b[0], b[1])
              then Other(Decoded(NEC, b[0] as bv16, b[2], [], WordOf(BitsOf(b)), 32, false))
              else Other(Decoded(NEC_EXT, Address16(b[0], b[1]), b[2], [], WordOf(BitsOf(b)), 32, false)))
  {
    hide InRange, WordOf, BitsOf, Complementary, Address16, IsSectionHeader, FitsLg, Recognized, CollectAll;
    NecIsNotSamsung(syms[0]);
    N.NecClassification(syms, b);
  }

  lemma LgIsReported(st: Store, syms: seq<Symbol>, b: seq<byte>)
    requires st.Valid() && CarriesLg(syms, b) && Complementary(b[1], b[2])
    ensures OnCapture(st, syms) ==
            Outcome(st, Other(Decoded(LG_AC, b[0] as bv16, b[1], [], WordOf(BitsOf(b)[..28]), 28, false)))
  {
    hide InRange, WordOf, BitsOf, Complementary, IsSectionHeader, Recognized, CollectAll;
    LgIsNotSamsung(syms[0]);
    LgIsRecognized(syms, b);
  }

  lemma RepeatIsReported(st: Store, syms: seq<Symbol>)
    requires st.Valid() && syms != [] && InRange(syms[0].mark, 9000) && InRange(syms[0].space, 2250)
    ensures OnCapture(st, syms) == Outcome(st, Other(Decoded(NEC_REPEAT, 0, 0, [], 0, 0, true)))
  {
    hide InRange, IsSectionHeader, Recognized, CollectAll;
    NecIsNotSamsung(syms[0]);
    RepeatIsRecognized(syms);
  }
}
