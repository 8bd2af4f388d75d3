// From bytes to light and back: encoder, transmitter, capture and decoder together.
module IrLink {
  import opened Bits
  import opened Symbols
  import opened SamsungCodec
  import opened IrDecode
  import Capture = IrCapture
  import Transmit = IrTransmit

  // ------------------------------------------------------------------
  // Legible symbol arrays decode to their bytes
  // ------------------------------------------------------------------

  // The array starts at a section header and every symbol reads as the
  // corresponding symbol of the frame for data.
  predicate Legible(f: seq<Symbol>, data: seq<byte>)
    requires |data| % 7 == 0
  {
    && |f| == 58 * (|data| / 7)
    && forall s :: 0 <= s < |data| / 7 ==> LegibleSection(f, data, s)
  }

  predicate LegibleSection(f: seq<Symbol>, data: seq<byte>, s: nat)
    requires 7 * s + 7 <= |data| && 58 * s + 58 <= |f|
  {
    && IsSectionHeader(f[58 * s])
    && (forall i :: 58 * s + 1 <= i < 58 * s + 57 ==> SacBit(f[i]) == Some(BitsOf(data)[i - 2 * s - 1]))
    && InRange(f[58 * s + 57].mark, BIT_MARK)
  }

  lemma SectionBits(data: seq<byte>, s: nat)
    requires 7 * s + 7 <= |data|
    ensures BitsOf(data)[56 * s..56 * s + 56] == BitsOf(SectionOf(data, s))
  {
    hide BitAt;
    var bits := BitsOf(data)[56 * s..56 * s + 56];
    forall k | 0 <= k < 56
      ensures bits[k] == BitsOf(SectionOf(data, s))[k]
    {
      assert (56 * s + k) / 8 == 7 * s + k / 8 && (56 * s + k) % 8 == k % 8;
    }
  }

  lemma LegibleSectionDecodes(f: seq<Symbol>, data: seq<byte>, s: nat)
    requires 7 * s + 7 <= |data| && 58 * s + 58 <= |f| && LegibleSection(f, data, s)
    ensures DecodeSection(f, s) == Got(SectionOf(data, s))
  {
    hide BitAt, SacBit, BitRun, BytesOf, BitsOf, InRange;
    var bits := BitsOf(data)[56 * s..56 * s + 56];
    forall k | 0 <= k < |bits|
      ensures SacBit(f[(58 * s + 1) + k]) == Some(bits[k])
    {
      var i := 58 * s + 1 + k;
      assert bits[k] == BitsOf(data)[i - 2 * s - 1];
    }
    BitRunReads(f, 58 * s + 1, bits);
    SectionBits(data, s);
    BytesOfBitsOf(SectionOf(data, s));
  }

  lemma {:induction false} SectionsAreData(f: seq<Symbol>, data: seq<byte>, s: nat)
    requires |data| % 7 == 0 && s <= |data| / 7
    requires forall i :: s <= i < |data| / 7 ==> DecodeSection(f, i) == Got(SectionOf(data, i))
    ensures SectionBytes(f, s, |data| / 7) == data[7 * s..]
    decreases |data| / 7 - s
  {
    hide DecodeSection;
    if s < |data| / 7 {
      SectionsAreData(f, data, s + 1);
    }
  }

  lemma LegibleDecodes(f: seq<Symbol>, data: seq<byte>)
    requires Encodable(data) && Legible(f, data)
    ensures Cap(SectionsFrom(f, 0), MAX_RAW_BYTES) == data
    ensures IsSectionHeader(f[0]) && !IsGlobalHeader(f[0])
    ensures Recognized(f) == Some(NOTHING.(proto := SAMSUNG_AC, rawBytes := data))
  {
    hide DecodeSection, SectionBytes, SectionsFrom, SacBit, BitsOf, Cap;
    forall i | 0 <= i < |data| / 7
      ensures DecodeSection(f, i) == Got(SectionOf(data, i)) && InRange(f[58 * i + 57].mark, BIT_MARK)
    {
      assert LegibleSection(f, data, i);
      LegibleSectionDecodes(f, data, i);
    }
    SectionsAreData(f, data, 0);
    DecodersAgree(f, |data| / 7);
    assert data[0..] == data;
    assert LegibleSection(f, data, 0) && IsSectionHeader(f[58 * 0]);
  }

  // ------------------------------------------------------------------
  // Tolerance
  // ------------------------------------------------------------------

  // A received symbol that reads as `sent`.
  predicate ReadsAs(got: Symbol, sent: Symbol) {
    InRange(got.mark, sent.mark) && InRange(got.space, sent.space)
  }

  lemma BitsKeepApart(got: Symbol, bit: bool)
    requires ReadsAs(got, BitSymbol(bit))
    ensures SacBit(got) == Some(bit)
  {
  }

  // f is the frame of data without its global header, every duration within
  // tolerance, except perhaps for the very last space.
  predicate Tolerable(f: seq<Symbol>, data: seq<byte>)
    requires |data| % 7 == 0
  {
    && |f| == 58 * (|data| / 7)
    && (forall k :: 0 <= k < |f| ==> InRange(f[k].mark, Encoding(data)[1 + k].mark))
    && (forall k :: 0 <= k < |f| - 1 ==> InRange(f[k].space, Encoding(data)[1 + k].space))
  }

  lemma TolerableIsLegible(f: seq<Symbol>, data: seq<byte>)
    requires Encodable(data) && Tolerable(f, data)
    ensures Legible(f, data)
  {
    hide SacBit, InRange, Encoding, BitsOf;
    forall s | 0 <= s < |data| / 7
      ensures LegibleSection(f, data, s)
    {
      EncodingAt(data, s, 0);
      assert f[58 * s + 0] == f[58 * s] && InRange(f[58 * s].space, Encoding(data)[1 + 58 * s].space);
      forall i | 58 * s + 1 <= i < 58 * s + 57
        ensures SacBit(f[i]) == Some(BitsOf(data)[i - 2 * s - 1])
      {
        EncodingAt(data, s, i - 58 * s);
        assert i < |f| - 1 && Encoding(data)[1 + i] == FrameSymbol(data, s, i - 58 * s);
        BitsKeepApart(f[i], BitsOf(data)[i - 2 * s - 1]);
      }
      EncodingAt(data, s, 57);
      assert InRange(f[58 * s + 57].mark, Encoding(data)[1 + (58 * s + 57)].mark);
    }
  }

  // Decoding inverts encoding, even with every duration off by up to 25 %.
  lemma RoundTrip(g: seq<Symbol>, data: seq<byte>)
    requires Encodable(data) && |g| == |Encoding(data)|
    requires forall k :: 0 <= k < |g| ==> ReadsAs(g[k], Encoding(data)[k])
    ensures Recognized(g) == Some(NOTHING.(proto := SAMSUNG_AC, rawBytes := data))
  {
    hide Encoding, SectionsFrom, Cap;
    var f := g[1..];
    forall k | 0 <= k < |f|
      ensures ReadsAs(f[k], Encoding(data)[1 + k])
    {
      assert f[k] == g[1 + k];
    }
    TolerableIsLegible(f, data);
    LegibleDecodes(f, data);
    EncodingStart(data);
    assert ReadsAs(g[0], Encoding(data)[0]);
  }

  // ------------------------------------------------------------------
  // End to end
  // ------------------------------------------------------------------

  // The receiver sees the waveform as pulses whose durations, in its own ticks,
  // are each within 25 % of what was sent.
  predicate Sees(ps: seq<Capture.Pulse>, w: seq<Transmit.Segment>, perUs: nat) {
    && |w| == 2 * |ps|
    && (forall i :: 0 <= i < |ps| ==> Within25(ps[i].on, w[2 * i].us, perUs))
    && (forall i :: 0 <= i < |ps| ==> Within25(ps[i].off, w[2 * i + 1].us, perUs))
  }

  lemma SeenSymbol(ps: seq<Capture.Pulse>, syms: seq<Symbol>, perUs: nat, i: nat)
    requires perUs > 0 && Sees(ps, Transmit.Wave(syms), perUs) && i < |ps|
    ensures i < |syms|
    ensures Within25(ps[i].on, syms[i].mark, perUs) && Within25(ps[i].off, syms[i].space, perUs)
  {
    hide Within25;
    var w := Transmit.Wave(syms);
    assert w[2 * i].us == syms[i].mark && w[2 * i + 1].us == syms[i].space;
  }

  // A duration within 25 % of a reference is on the same side of the gap time.
  lemma GapSide(d: nat, ref: nat, perUs: nat)
    requires perUs > 0 && Within25(d, ref, perUs)
    ensures ref <= 9600 ==> d <= Capture.GapTicks(perUs)
    ensures ref > 16000 ==> d > Capture.GapTicks(perUs)
  {
    if ref <= 9600 {
      assert 5 * ref * perUs <= 48000 * perUs by { Scale(5 * ref, 48000, perUs); }
    }
    if ref > 16000 {
      assert 3 * ref * perUs >= 48001 * perUs by { Scale(48001, 3 * ref, perUs); }
    }
  }

  lemma Scale(a: nat, b: nat, c: nat)
    requires a <= b
    ensures a * c <= b * c
  {
  }

  lemma MeasuredInRange(d: nat, ref: u16, perUs: nat)
    requires perUs > 0 && Within25(d, ref, perUs) && ref <= 20000
    ensures InRange(Capture.DurUs(d, perUs), ref)
  {
    Within25IsInRange(d, ref, perUs);
  }

  lemma EncodingBounds(data: seq<byte>, k: nat)
    requires Encodable(data) && k < 58 * (|data| / 7)
    ensures Encoding(data)[1 + k].mark <= 9600
    ensures k < 58 * (|data| / 7) - 1 ==> Encoding(data)[1 + k].space <= 9600
    ensures k == 58 * (|data| / 7) - 1 ==> Encoding(data)[1 + k].space == FINAL_GAP
  {
    hide Encoding, BitsOf;
    EncodingAt(data, k / 58, k % 58);
  }

  lemma SeenIsBurst(ps: seq<Capture.Pulse>, data: seq<byte>, perUs: nat)
    requires Encodable(data) && perUs > 0 && Sees(ps, Transmit.Wave(Encoding(data)), perUs)
    ensures |ps| == 1 + 58 * (|data| / 7)
    ensures ps[0].on <= Capture.GapTicks(perUs) < ps[0].off
    ensures Capture.IsBurst(ps[1..], perUs)
  {
    hide Encoding, Within25, Sees;
    SeenCount(ps, data, perUs);
    SeenSymbol(ps, Encoding(data), perUs, 0);
    EncodingStart(data);
    GapSide(ps[0].on, HDR_MARK, perUs);
    GapSide(ps[0].off, HDR_SPACE, perUs);
    forall i | 0 <= i < |ps| - 1
      ensures ps[1..][i].on <= Capture.GapTicks(perUs)
      ensures i < |ps| - 2 ==> ps[1..][i].off <= Capture.GapTicks(perUs)
      ensures i == |ps| - 2 ==> ps[1..][i].off > Capture.GapTicks(perUs)
    {
      assert ps[1..][i] == ps[1 + i];
      SeenSymbol(ps, Encoding(data), perUs, 1 + i);
      EncodingBounds(data, i);
      GapSide(ps[1 + i].on, Encoding(data)[1 + i].mark, perUs);
      GapSide(ps[1 + i].off, Encoding(data)[1 + i].space, perUs);
    }
  }

  lemma SeenCount(ps: seq<Capture.Pulse>, data: seq<byte>, perUs: nat)
    requires Encodable(data) && Sees(ps, Transmit.Wave(Encoding(data)), perUs)
    ensures |ps| == 1 + 58 * (|data| / 7)
  {
  }

  lemma CapturedIsTolerable(ps: seq<Capture.Pulse>, data: seq<byte>, perUs: nat)
    requires Encodable(data) && perUs > 0 && Sees(ps, Transmit.Wave(Encoding(data)), perUs)
    requires |ps| == 1 + 58 * (|data| / 7)
    ensures Tolerable(Capture.Frame(ps[1..], |ps| - 2, perUs), data)
  {
    hide Encoding, Within25, Sees, InRange, Capture.DurUs;
    var f := Capture.Frame(ps[1..], |ps| - 2, perUs);
    forall k | 0 <= k < |f|
      ensures InRange(f[k].mark, Encoding(data)[1 + k].mark)
      ensures k < |f| - 1 ==> InRange(f[k].space, Encoding(data)[1 + k].space)
    {
      assert ps[1..][k] == ps[1 + k];
      SeenSymbol(ps, Encoding(data), perUs, 1 + k);
      EncodingBounds(data, k);
      MeasuredInRange(ps[1 + k].on, Encoding(data)[1 + k].mark, perUs);
      MeasuredInRange(ps[1 + k].off, Encoding(data)[1 + k].space, perUs);
    }
  }

  // Every 7, 14 or 21-byte frame survives the link: the waveform the
  // transmitter makes of its encoding, with every duration moved anywhere
  // within 25 %, makes an idle receiver deliver exactly one frame of 58 symbols
  // per section (the lone global header is dropped), whose last space is 0 and
  // which decodes to the same bytes.
  lemma EndToEnd(data: seq<byte>, ps: seq<Capture.Pulse>, rx: Capture.Rx, perUs: nat, t: nat)
    requires Encodable(data)
    requires perUs > 0 && Capture.GapTicks(perUs) < WRAP
    requires Sees(ps, Transmit.Wave(Encoding(data)), perUs)
    requires rx.Valid() && rx.phase == Capture.Idle
    ensures var frames := Capture.Play(rx, perUs, t, ps).frames;
            && |frames| == 1 && |frames[0]| == 58 * (|data| / 7)
            && frames[0][|frames[0]| - 1].space == 0
            && Recognized(frames[0]) == Some(NOTHING.(proto := SAMSUNG_AC, rawBytes := data))
  {
    hide Encoding, Sees, Capture.GapTicks, Capture.Play, Recognized, Tolerable, Legible;
    CapturedOnce(data, ps, rx, perUs, t);
    CapturedIsTolerable(ps, data, perUs);
    var f := Capture.Frame(ps[1..], |ps| - 2, perUs);
    TolerableIsLegible(f, data);
    LegibleDecodes(f, data);
  }

  lemma CapturedOnce(data: seq<byte>, ps: seq<Capture.Pulse>, rx: Capture.Rx, perUs: nat, t: nat)
    requires Encodable(data)
    requires perUs > 0 && Capture.GapTicks(perUs) < WRAP
    requires Sees(ps, Transmit.Wave(Encoding(data)), perUs)
    requires rx.Valid() && rx.phase == Capture.Idle
    ensures |ps| == 1 + 58 * (|data| / 7)
    ensures Capture.Play(rx, perUs, t, ps).frames == [Capture.Frame(ps[1..], |ps| - 2, perUs)]
  {
    hide Encoding, Sees, Capture.GapTicks, Capture.Play, Capture.IsBurst, Capture.Deliveries, Capture.Frame;
    Capture.CaptureRefines(rx, perUs, t, [], ps);
    SeenIsBurst(ps, data, perUs);
    var rest := ps[1..];
    HeaderIsDropped(ps, perUs);
    Capture.BurstDelivers([], rest, [], perUs);
    assert [] + rest == rest && rest + [] == rest;
    Nothing(perUs);
  }

  lemma Nothing(perUs: nat)
    requires perUs > 0
    ensures Capture.Deliveries([], [], perUs) == []
  {
  }

  lemma HeaderIsDropped(ps: seq<Capture.Pulse>, perUs: nat)
    requires perUs > 0 && ps != [] && ps[0].on <= Capture.GapTicks(perUs) < ps[0].off
    ensures Capture.Deliveries([], ps, perUs) == Capture.Deliveries([], ps[1..], perUs)
  {
  }

  // ------------------------------------------------------------------
  // Retransmission
  // ------------------------------------------------------------------

  // Marks and inner spaces of at least a microsecond.
  predicate Audible(b: Capture.Burst, perUs: nat) {
    && (forall i :: 0 <= i < |b.pulses| && i < Capture.RX_MAX_SYMBOLS ==> b.pulses[i].on >= perUs)
    && (forall i :: 0 <= i < |b.pulses| - 1 && i < Capture.RX_MAX_SYMBOLS - 1 ==> b.pulses[i].off >= perUs)
  }

  // A captured frame can be handed to either transmitter. The thread loop plays it;
  // the sequencer plays it as it is exactly when no duration is below a microsecond
  // and the frame does not end in a zero space, as all do that fit the buffer and
  // were ended by silence. Otherwise its last space holds the line for a full turn
  // of the timer.
  lemma CapturedFrameIsHeldUpIff(b: Capture.Burst, perUs: nat)
    requires perUs > 0 && b.Valid()
    ensures var f := Capture.Frame(b.pulses, b.measured, perUs);
            && f != []
            && (Transmit.AfterMatches(f, 2 * |f|).trace == Transmit.Wave(f) <==>
                  Audible(b, perUs) && !Capture.EndsInZero(b, perUs))
            && |Transmit.AfterMatches(f, 2 * |f|).trace| == 2 * |f|
            && (Capture.EndsInZero(b, perUs) ==>
                  Transmit.AfterMatches(f, 2 * |f|).trace[2 * |f| - 1] == Transmit.Segment(false, WRAP))
  {
    hide Transmit.AfterMatches, Transmit.Held, Capture.GapTicks, Capture.DurUs, Capture.Frame, Transmit.Wave, Capture.EndsInZero, Audible;
    Capture.LastSpaceIsZeroIff(b, perUs);
    var f := Capture.Frame(b.pulses, b.measured, perUs);
    Transmit.SequencerRefinesLoop(f);
    PositiveIff(b, perUs);
    Transmit.WaveAt(f, 2 * |f| - 1);
  }

  lemma PositiveIff(b: Capture.Burst, perUs: nat)
    requires perUs > 0 && b.Valid()
    ensures Transmit.AllPositive(Capture.Frame(b.pulses, b.measured, perUs)) <==>
            Audible(b, perUs) && !Capture.EndsInZero(b, perUs)
  {
    hide Capture.DurUs, Capture.EndsInZero;
    var f := Capture.Frame(b.pulses, b.measured, perUs);
    Capture.LastSpaceIsZeroIff(b, perUs);
    forall i | 0 <= i < |f|
      ensures f[i].mark > 0 <==> b.pulses[i].on >= perUs
      ensures i < |f| - 1 ==> (f[i].space > 0 <==> b.pulses[i].off >= perUs)
    {
      Capture.ZeroDurIff(b.pulses[i].on, perUs);
      Capture.ZeroDurIff(b.pulses[i].off, perUs);
    }
  }
}
