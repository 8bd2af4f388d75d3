// Assembling a full Samsung frame from damaged repeats
// (ir_rx_frame_cb in app/app_main_zephyr.c).
module SectionAssembly {
  import opened Bits
  import opened Symbols
  import opened SamsungCodec
  import opened IrDecode

  datatype Report = Silent | Other(d: Decoded) | Frame(bytes: seq<byte>)

  // What has been collected: the static s_sec and s_have.
  datatype Store = Store(sec: seq<Section>, have: seq<bool>) {
    predicate Valid() {
      && |sec| == 3 && |have| == 3
      && (forall i :: 0 <= i < 3 ==> |sec[i]| == 7)
      && (forall i :: 0 <= i < 3 && have[i] ==> Verifies(sec[i]))
    }

    predicate Empty() {
      |have| == 3 && !have[0] && !have[1] && !have[2]
    }
  }

  // A section is taken over when it decodes and its checksum is right.
  function Accepted(syms: seq<Symbol>, s: nat): (got: Option<Section>)
    ensures got.Some? ==> |got.value| == 7 && Verifies(got.value)
  {
    DecodeSectionLength(syms, s);
    var r := DecodeSection(syms, s);
    if r.Got? && Verifies(r.bytes) then Some(r.bytes) else None
  }

  // A different section 0 means another button: the later sections start over.
  function Collect(st: Store, s: nat, got: Option<Section>): (st': Store)
    requires st.Valid() && s < 3
    requires got.Some? ==> |got.value| == 7 && Verifies(got.value)
    ensures st'.Valid()
  {
    if got.None? then st
    else
      var reset := s == 0 && st.have[0] && got.value != st.sec[0];
      Store(st.sec[s := got.value], (if reset then st.have[1 := false][2 := false] else st.have)[s := true])
  }

  function CollectAll(st: Store, syms: seq<Symbol>): (st': Store)
    requires st.Valid()
    ensures st'.Valid()
  {
    hide Accepted, Verifies;
    Collect(Collect(Collect(st, 0, Accepted(syms, 0)), 1, Accepted(syms, 1)), 2, Accepted(syms, 2))
  }

  datatype Outcome = Outcome(st: Store, report: Report)

  predicate Complete(st: Store)
    requires st.Valid()
  {
    st.have[0] && st.have[1] && st.have[2]
  }

  function OnCapture(st: Store, syms: seq<Symbol>): (o: Outcome)
    requires st.Valid()
    ensures o.st.Valid()
  {
    hide Verifies, CollectAll, DecodeSection, Recognized;
    if DecodeSection(syms, 0).NoHeader? then
      Outcome(st, if Recognized(syms).Some? && Recognized(syms).value.proto != SAMSUNG_AC
                  then Other(Recognized(syms).value) else Silent)
    else
      var st1 := CollectAll(st, syms);
      if Complete(st1) then Outcome(st1.(have := [false, false, false]), Frame(st1.sec[0] + st1.sec[1] + st1.sec[2]))
      else Outcome(st1, Silent)
  }

  class Assembler {
    var sec: seq<Section>
    var have: seq<bool>

    ghost predicate Valid()
      reads this
    {
      Store(sec, have).Valid()
    }

    // Static storage starts zeroed.
    constructor ()
      ensures Valid() && Store(sec, have).Empty()
    {
      sec := seq(3, _ => [0, 0, 0, 0, 0, 0, 0]);
      have := [false, false, false];
    }

    method FrameCallback(syms: seq<Symbol>) returns (report: Report)
      requires Valid()
      modifies this
      ensures Valid()
      ensures Outcome(Store(sec, have), report) == OnCapture(old(Store(sec, have)), syms)
      ensures !Complete(old(Store(sec, have))) ==> !Complete(Store(sec, have))
    {
      hide DecodeSection, Recognized, Verifies;
      var tmp := DecodeSamsungAcSection(syms, 0);
      if tmp.NoHeader? {
        var rc, dec := Decode(syms);
        if rc == 0 && dec.proto != SAMSUNG_AC {
          return Other(dec);
        }
        assert rc == 0 <==> Recognized(syms).Some? by { NotEmpty(syms); }
        return Silent;
      }
      ghost var st := Store(sec, have);
      ghost var cur := st;
      var s := 0;
      while s < 3
        invariant 0 <= s <= 3 && Store(sec, have) == cur && cur.Valid()
        invariant s == 0 ==> cur == st
        invariant s == 1 ==> cur == Collect(st, 0, Accepted(syms, 0))
        invariant s == 2 ==> cur == Collect(Collect(st, 0, Accepted(syms, 0)), 1, Accepted(syms, 1))
        invariant s == 3 ==> cur == CollectAll(st, syms)
      {
        cur := Collect(cur, s, Accepted(syms, s));
        DecodeSectionLength(syms, s);
        tmp := DecodeSamsungAcSection(syms, s);
        if tmp.Got? {
          var ok := Verify(tmp.bytes);
          if ok {
            if s == 0 && have[0] && tmp.bytes != sec[0] {
              have := have[1 := false];
              have := have[2 := false];
            }
            sec := sec[s := tmp.bytes];
            have := have[s := true];
          }
        }
        s := s + 1;
      }
      if have[0] && have[1] && have[2] {
        report := Frame(sec[0] + sec[1] + sec[2]);
        have := [false, false, false];
      } else {
        report := Silent;
      }
    }
  }

  lemma NotEmpty(syms: seq<Symbol>)
    ensures syms == [] ==> Recognized(syms).None?
  {
  }

  // ------------------------------------------------------------------
  // Runs of captures of one frame
  // ------------------------------------------------------------------

  predicate ValidFrame(frame: seq<byte>) {
    |frame| == 21 && forall s :: 0 <= s < 3 ==> Verifies(SectionOf(frame, s))
  }

  // Damage only clears bits of a section or makes it unreadable.
  predicate DamagedCopy(syms: seq<Symbol>, frame: seq<byte>)
    requires |frame| == 21
  {
    forall s :: 0 <= s < 3 && DecodeSection(syms, s).Got? ==>
      |DecodeSection(syms, s).bytes| == 7 && OnlyClears(SectionOf(frame, s), DecodeSection(syms, s).bytes)
  }

  // Section s came through this capture untouched, under an intact section-0 header.
  predicate Survived(syms: seq<Symbol>, frame: seq<byte>, s: nat)
    requires |frame| == 21 && s < 3
  {
    !DecodeSection(syms, 0).NoHeader? && DecodeSection(syms, s) == Got(SectionOf(frame, s))
  }

  function Reports(st: Store, caps: seq<seq<Symbol>>): (rs: seq<Report>)
    requires st.Valid()
    ensures |rs| == |caps|
    decreases |caps|
  {
    if caps == [] then []
    else
      var o := OnCapture(st, caps[0]);
      [o.report] + Reports(o.st, caps[1..])
  }

  function After(st: Store, caps: seq<seq<Symbol>>): (st': Store)
    requires st.Valid()
    ensures st'.Valid()
    decreases |caps|
  {
    if caps == [] then st else After(OnCapture(st, caps[0]).st, caps[1..])
  }

  // Everything collected so far belongs to the frame.
  predicate Consistent(st: Store, frame: seq<byte>)
    requires st.Valid() && |frame| == 21
  {
    forall s :: 0 <= s < 3 && st.have[s] ==> st.sec[s] == SectionOf(frame, s)
  }

  // The checksum lets a damaged section through only if it is undamaged.
  lemma AcceptedIsOriginal(syms: seq<Symbol>, frame: seq<byte>, s: nat)
    requires ValidFrame(frame) && DamagedCopy(syms, frame) && s < 3
    ensures Accepted(syms, s) == if DecodeSection(syms, s) == Got(SectionOf(frame, s)) then Some(SectionOf(frame, s)) else None
  {
    hide Verifies, DecodeSection, OnlyClears;
    var r := DecodeSection(syms, s);
    if r.Got? && r.bytes != SectionOf(frame, s) {
      UnidirectionalErrorsDetected(SectionOf(frame, s), r.bytes);
    }
  }

  lemma CollectKeeps(st: Store, s: nat, got: Option<Section>, frame: seq<byte>)
    requires st.Valid() && ValidFrame(frame) && Consistent(st, frame) && s < 3
    requires got.Some? ==> got.value == SectionOf(frame, s)
    ensures var st' := Collect(st, s, got);
            Consistent(st', frame) && forall i :: 0 <= i < 3 ==> (st'.have[i] <==> st.have[i] || (i == s && got.Some?))
  {
    hide Verifies, SectionOf;
  }

  // One capture adds exactly the surviving sections and reports the frame as
  // soon as all three are there.
  lemma CaptureAdds(st: Store, syms: seq<Symbol>, frame: seq<byte>)
    requires st.Valid() && ValidFrame(frame) && Consistent(st, frame) && DamagedCopy(syms, frame)
    ensures var o := OnCapture(st, syms);
            var all := forall s :: 0 <= s < 3 ==> st.have[s] || Survived(syms, frame, s);
            && Consistent(o.st, frame)
            && (o.report.Frame? ==> all && o.report.bytes == frame && o.st.Empty())
            && (!o.report.Frame? ==> forall s :: 0 <= s < 3 ==> (o.st.have[s] <==> st.have[s] || Survived(syms, frame, s)))
            && (all && !DecodeSection(syms, 0).NoHeader? ==> o.report.Frame?)
  {
    hide DecodeSection, Verifies, Accepted, SectionOf, OnlyClears, Recognized, Collect;
    AcceptedIsOriginal(syms, frame, 0);
    AcceptedIsOriginal(syms, frame, 1);
    AcceptedIsOriginal(syms, frame, 2);
    FrameIsItsSections(frame);
    var st0 := Collect(st, 0, Accepted(syms, 0));
    var st1 := Collect(st0, 1, Accepted(syms, 1));
    CollectKeeps(st, 0, Accepted(syms, 0), frame);
    CollectKeeps(st0, 1, Accepted(syms, 1), frame);
    CollectKeeps(st1, 2, Accepted(syms, 2), frame);
  }

  lemma FrameIsItsSections(frame: seq<byte>)
    requires |frame| == 21
    ensures SectionOf(frame, 0) + SectionOf(frame, 1) + SectionOf(frame, 2) == frame
  {
  }

  // Whatever the damage, no report ever shows anything but the frame that was sent.
  lemma {:induction false} OnlyTheFrameIsReported(st: Store, caps: seq<seq<Symbol>>, frame: seq<byte>)
    requires st.Valid() && ValidFrame(frame) && Consistent(st, frame)
    requires forall i :: 0 <= i < |caps| ==> DamagedCopy(caps[i], frame)
    ensures forall i :: 0 <= i < |caps| && Reports(st, caps)[i].Frame? ==> Reports(st, caps)[i] == Frame(frame)
    ensures Consistent(After(st, caps), frame)
    decreases |caps|
  {
    hide DamagedCopy, ValidFrame, Consistent, OnCapture;
    if caps != [] {
      CaptureAdds(st, caps[0], frame);
      var o := OnCapture(st, caps[0]);
      OnlyTheFrameIsReported(o.st, caps[1..], frame);
      forall i | 0 <= i < |caps| && Reports(st, caps)[i].Frame?
        ensures Reports(st, caps)[i] == Frame(frame)
      {
        if i > 0 { assert Reports(st, caps)[i] == Reports(o.st, caps[1..])[i - 1]; }
      }
    }
  }

  predicate SomeReport(rs: seq<Report>) {
    exists i :: 0 <= i < |rs| && rs[i].Frame?
  }

  predicate SomeSurvived(caps: seq<seq<Symbol>>, frame: seq<byte>, s: nat)
    requires |frame| == 21 && s < 3
  {
    exists i :: 0 <= i < |caps| && Survived(caps[i], frame, s)
  }

  lemma SurvivedSplit(caps: seq<seq<Symbol>>, frame: seq<byte>, s: nat)
    requires |frame| == 21 && s < 3 && caps != []
    ensures SomeSurvived(caps, frame, s) <==> Survived(caps[0], frame, s) || SomeSurvived(caps[1..], frame, s)
  {
    hide Survived;
    if SomeSurvived(caps[1..], frame, s) {
      var i :| 0 <= i < |caps[1..]| && Survived(caps[1..][i], frame, s);
      assert caps[i + 1] == caps[1..][i];
    }
    if SomeSurvived(caps, frame, s) && !Survived(caps[0], frame, s) {
      var i :| 0 <= i < |caps| && Survived(caps[i], frame, s);
      assert caps[1..][i - 1] == caps[i];
    }
  }

  lemma ReportSplit(r: Report, rs: seq<Report>)
    ensures SomeReport([r] + rs) <==> r.Frame? || SomeReport(rs)
  {
    if SomeReport(rs) {
      var i :| 0 <= i < |rs| && rs[i].Frame?;
      assert ([r] + rs)[i + 1] == rs[i];
    }
    if r.Frame? { assert ([r] + rs)[0].Frame?; }
    if SomeReport([r] + rs) && !r.Frame? {
      var i :| 0 <= i < |rs| + 1 && ([r] + rs)[i].Frame?;
      assert rs[i - 1] == ([r] + rs)[i];
    }
  }

  // The frame is reported in a run of captures if and only if each of its
  // sections was there already or survives in one of them.
  lemma {:induction false} ReportedIffSurvived(st: Store, caps: seq<seq<Symbol>>, frame: seq<byte>)
    requires st.Valid() && ValidFrame(frame) && Consistent(st, frame) && !Complete(st)
    requires forall i :: 0 <= i < |caps| ==> DamagedCopy(caps[i], frame)
    ensures SomeReport(Reports(st, caps)) <==> forall s :: 0 <= s < 3 ==> st.have[s] || SomeSurvived(caps, frame, s)
    decreases |caps|
  {
    hide DamagedCopy, Verifies, Consistent, OnCapture, SomeSurvived, SomeReport, Survived;
    if caps == [] {
      NothingYet(frame);
    } else {
      CaptureAdds(st, caps[0], frame);
      SurvivedNeedsHeader(caps[0], frame);
      var o := OnCapture(st, caps[0]);
      ReportSplit(o.report, Reports(o.st, caps[1..]));
      forall s | 0 <= s < 3
        ensures SomeSurvived(caps, frame, s) <==> Survived(caps[0], frame, s) || SomeSurvived(caps[1..], frame, s)
      {
        SurvivedSplit(caps, frame, s);
      }
      if !o.report.Frame? {
        ReportedIffSurvived(o.st, caps[1..], frame);
      }
    }
  }

  lemma NothingYet(frame: seq<byte>)
    requires |frame| == 21
    ensures !SomeReport([]) && forall s :: 0 <= s < 3 ==> !SomeSurvived([], frame, s)
  {
  }

  lemma SurvivedNeedsHeader(syms: seq<Symbol>, frame: seq<byte>)
    requires |frame| == 21
    ensures forall s :: 0 <= s < 3 && Survived(syms, frame, s) ==> !DecodeSection(syms, 0).NoHeader?
  {
    hide DecodeSection;
  }

  lemma EmptyIsConsistent(st: Store, frame: seq<byte>)
    requires st.Valid() && st.Empty() && ValidFrame(frame)
    ensures |frame| == 21 && Consistent(st, frame) && !Complete(st)
    ensures |st.have| == 3 && !st.have[0] && !st.have[1] && !st.have[2]
  {
    hide SectionOf;
  }

  // From an empty store: repeats of one damaged frame yield that frame, as soon
  // as every section has survived once, and nothing else.
  lemma RepeatsAssembleTheFrame(st: Store, caps: seq<seq<Symbol>>, frame: seq<byte>)
    requires st.Valid() && st.Empty() && ValidFrame(frame)
    requires forall i :: 0 <= i < |caps| ==> DamagedCopy(caps[i], frame)
    ensures SomeReport(Reports(st, caps)) <==> forall s :: 0 <= s < 3 ==> SomeSurvived(caps, frame, s)
    ensures forall i :: 0 <= i < |caps| && Reports(st, caps)[i].Frame? ==> Reports(st, caps)[i] == Frame(frame)
  {
    hide *;
    EmptyIsConsistent(st, frame);
    ReportedIffSurvived(st, caps, frame);
    OnlyTheFrameIsReported(st, caps, frame);
  }

  // ------------------------------------------------------------------
  // Captures of another frame
  // ------------------------------------------------------------------

  // The store holds section 0 of another button, and the new one has arrived.
  predicate Resets(st: Store, syms: seq<Symbol>, b: seq<byte>)
    requires st.Valid() && |b| == 21
  {
    st.have[0] && Survived(syms, b, 0) && st.sec[0] != SectionOf(b, 0)
  }

  // Section s of the store outlives the capture.
  predicate Kept(st: Store, syms: seq<Symbol>, b: seq<byte>, s: nat)
    requires st.Valid() && |b| == 21 && s < 3
  {
    st.have[s] && !Survived(syms, b, s) && !(Resets(st, syms, b) && s > 0)
  }

  lemma CollectMixed(st: Store, s: nat, got: Option<Section>, b: seq<byte>)
    requires st.Valid() && |b| == 21 && s < 3 && (got.Some? ==> got.value == SectionOf(b, s) && Verifies(got.value))
    ensures var t := Collect(st, s, got);
            var reset := s == 0 && got.Some? && st.have[0] && st.sec[0] != SectionOf(b, 0);
            forall i :: 0 <= i < 3 ==>
              && (t.have[i] <==> (i == s && got.Some?) || (st.have[i] && !(reset && i > 0)))
              && t.sec[i] == if i == s && got.Some? then SectionOf(b, i) else st.sec[i]
  {
    hide Verifies, SectionOf;
  }

  // What one damaged capture of b makes of a store, whatever is in it: section by
  // section, b's where it came through, the store's own where that is kept.
  lemma CaptureMixes(st: Store, syms: seq<Symbol>, b: seq<byte>)
    requires st.Valid() && ValidFrame(b) && DamagedCopy(syms, b) && !DecodeSection(syms, 0).NoHeader?
    ensures var t := CollectAll(st, syms);
            forall s :: 0 <= s < 3 ==>
              && (t.have[s] <==> Survived(syms, b, s) || Kept(st, syms, b, s))
              && t.sec[s] == if Survived(syms, b, s) then SectionOf(b, s) else st.sec[s]
  {
    hide Verifies, SectionOf, DamagedCopy, DecodeSection, Collect, ValidFrame;
    FrameLength(b);
    AcceptedIsOriginal(syms, b, 0);
    AcceptedIsOriginal(syms, b, 1);
    AcceptedIsOriginal(syms, b, 2);
    var st0 := Collect(st, 0, Accepted(syms, 0));
    var st1 := Collect(st0, 1, Accepted(syms, 1));
    CollectMixed(st, 0, Accepted(syms, 0), b);
    CollectMixed(st0, 1, Accepted(syms, 1), b);
    CollectMixed(st1, 2, Accepted(syms, 2), b);
  }

  lemma FrameLength(frame: seq<byte>)
    requires ValidFrame(frame)
    ensures |frame| == 21
  {
  }

  lemma SameFrameIff(x: seq<byte>, y: seq<byte>)
    requires |x| == 21 && |y| == 21
    ensures x == y <==> SectionOf(x, 0) == SectionOf(y, 0) && SectionOf(x, 1) == SectionOf(y, 1) && SectionOf(x, 2) == SectionOf(y, 2)
  {
    FrameIsItsSections(x);
    FrameIsItsSections(y);
  }

  // The store holds a section s that is not b's.
  predicate Foreign(st: Store, b: seq<byte>, s: nat)
    requires st.Valid() && |b| == 21 && s < 3
  {
    st.have[s] && st.sec[s] != SectionOf(b, s)
  }

  // What a capture of b reports, whatever the store holds by then: a frame exactly
  // when every section came through or is kept, anything but b exactly when one that
  // is kept is not b's.
  lemma ForeignReportIff(st: Store, syms: seq<Symbol>, b: seq<byte>)
    requires st.Valid() && ValidFrame(b) && DamagedCopy(syms, b)
    ensures var r := OnCapture(st, syms).report;
            && (r.Frame? <==>
                !DecodeSection(syms, 0).NoHeader? && forall s :: 0 <= s < 3 ==> Survived(syms, b, s) || Kept(st, syms, b, s))
            && (r.Frame? ==> (r.bytes != b <==> exists s :: 0 <= s < 3 && Kept(st, syms, b, s) && Foreign(st, b, s)))
            && (r.Frame? ==> |r.bytes| == 21 && forall s :: 0 <= s < 3 ==>
                  SectionOf(r.bytes, s) == if Survived(syms, b, s) then SectionOf(b, s) else st.sec[s])
  {
    hide Verifies, SectionOf, DamagedCopy, DecodeSection, CollectAll, Recognized, ValidFrame, Survived, Kept;
    FrameLength(b);
    if !DecodeSection(syms, 0).NoHeader? {
      CaptureMixes(st, syms, b);
      KeptIsHeld(st, syms, b);
      var t := CollectAll(st, syms);
      SectionsOfJoin(t.sec[0], t.sec[1], t.sec[2]);
      SameFrameIff(t.sec[0] + t.sec[1] + t.sec[2], b);
    }
  }

  lemma KeptIsHeld(st: Store, syms: seq<Symbol>, b: seq<byte>)
    requires st.Valid() && |b| == 21
    ensures forall s :: 0 <= s < 3 && Kept(st, syms, b, s) ==> st.have[s] && !Survived(syms, b, s)
  {
    hide Survived, SectionOf;
  }

  // In particular right after captures of one other frame a: the report is a frame
  // that nobody sent when both a section kept and a section taken tell a and b apart.
  lemma MixtureIff(st: Store, syms: seq<Symbol>, a: seq<byte>, b: seq<byte>)
    requires st.Valid() && ValidFrame(a) && ValidFrame(b) && Consistent(st, a) && DamagedCopy(syms, b)
    ensures var r := OnCapture(st, syms).report;
            (r.Frame? && r.bytes != a && r.bytes != b) <==>
            && (forall s :: 0 <= s < 3 ==> st.have[s] || Survived(syms, b, s))
            && !(st.have[0] && Survived(syms, b, 0) && SectionOf(a, 0) != SectionOf(b, 0))
            && (exists s :: 0 <= s < 3 && !Survived(syms, b, s) && SectionOf(a, s) != SectionOf(b, s))
            && (exists s :: 0 <= s < 3 && Survived(syms, b, s) && SectionOf(a, s) != SectionOf(b, s))
  {
    hide Verifies, SectionOf, DamagedCopy, DecodeSection, OnCapture, ValidFrame, Survived;
    FrameLength(a);
    FrameLength(b);
    SurvivedNeedsHeader(syms, b);
    ForeignReportIff(st, syms, b);
    var r := OnCapture(st, syms).report;
    if r.Frame? { SameFrameIff(r.bytes, a); }
  }

  lemma SectionsOfJoin(x: Section, y: Section, z: Section)
    requires |x| == 7 && |y| == 7 && |z| == 7
    ensures SectionOf(x + y + z, 0) == x && SectionOf(x + y + z, 1) == y && SectionOf(x + y + z, 2) == z
  {
  }

  // ------------------------------------------------------------------
  // Runs of captures of another frame
  // ------------------------------------------------------------------

  // Section s was held at first or came through in one of the captures of b in pre.
  predicate There(st: Store, pre: seq<seq<Symbol>>, b: seq<byte>, s: nat)
    requires st.Valid() && |b| == 21 && s < 3
  {
    st.have[s] || SomeSurvived(pre, b, s)
  }

  // Section s is still the foreign one held at first.
  predicate Stays(st: Store, pre: seq<seq<Symbol>>, b: seq<byte>, s: nat)
    requires st.Valid() && |b| == 21 && s < 3
  {
    Foreign(st, b, s) && !SomeSurvived(pre, b, s)
  }

  // A section 0 that replaced a foreign one has cleared the others.
  predicate Renewed(st: Store, pre: seq<seq<Symbol>>, b: seq<byte>)
    requires st.Valid() && |b| == 21
  {
    Foreign(st, b, 0) && SomeSurvived(pre, b, 0)
  }

  predicate Mixes(st: Store, pre: seq<seq<Symbol>>, b: seq<byte>)
    requires st.Valid() && |b| == 21
  {
    && (forall s :: 0 <= s < 3 ==> There(st, pre, b, s))
    && (exists s :: 0 <= s < 3 && Stays(st, pre, b, s))
    && !Renewed(st, pre, b)
  }

  predicate MixesAt(st: Store, caps: seq<seq<Symbol>>, b: seq<byte>, i: nat)
    requires st.Valid() && |b| == 21 && i < |caps|
  {
    Mixes(st, caps[..i + 1], b)
  }

  predicate SomeMixes(st: Store, caps: seq<seq<Symbol>>, b: seq<byte>)
    requires st.Valid() && |b| == 21
  {
    exists i :: 0 <= i < |caps| && MixesAt(st, caps, b, i)
  }

  predicate SomeForeignReport(rs: seq<Report>, b: seq<byte>) {
    exists i :: 0 <= i < |rs| && rs[i].Frame? && rs[i].bytes != b
  }

  lemma FirstMixes(st: Store, caps: seq<seq<Symbol>>, b: seq<byte>)
    requires st.Valid() && !Complete(st) && ValidFrame(b) && |b| == 21 && caps != [] && DamagedCopy(caps[0], b)
    ensures var r := OnCapture(st, caps[0]).report; (r.Frame? && r.bytes != b) <==> MixesAt(st, caps, b, 0)
  {
    hide Verifies, SectionOf, DamagedCopy, DecodeSection, OnCapture, ValidFrame, Survived, SomeSurvived;
    var c := caps[0];
    SurvivedNeedsHeader(c, b);
    ForeignReportIff(st, c, b);
    assert caps[..1] == [c] && [c][1..] == [];
    NothingYet(b);
    forall s | 0 <= s < 3
      ensures There(st, [c], b, s) <==> st.have[s] || Survived(c, b, s)
      ensures Stays(st, [c], b, s) <==> Foreign(st, b, s) && !Survived(c, b, s)
    {
      SurvivedSplit([c], b, s);
    }
    SurvivedSplit([c], b, 0);
  }

  // A capture that resets, or that reports b itself, leaves nothing foreign; any
  // other that reports nothing leaves what was foreign and did not come through.
  lemma CaptureAndForeign(st: Store, cap: seq<Symbol>, b: seq<byte>)
    requires st.Valid() && !Complete(st) && ValidFrame(b) && |b| == 21 && DamagedCopy(cap, b)
    ensures var o := OnCapture(st, cap);
            && ((o.report.Frame? || Resets(st, cap, b)) ==> Consistent(o.st, b))
            && (!o.report.Frame? && !Resets(st, cap, b) ==> !Complete(o.st) && Moves(st, o.st, cap, b))
  {
    hide Verifies, SectionOf, DamagedCopy, DecodeSection, CollectAll, Recognized, ValidFrame, Survived;
    SurvivedNeedsHeader(cap, b);
    if !DecodeSection(cap, 0).NoHeader? {
      CaptureMixes(st, cap, b);
    }
  }

  predicate Moves(st: Store, st': Store, cap: seq<Symbol>, b: seq<byte>)
    requires st.Valid() && st'.Valid() && |b| == 21
  {
    forall s :: 0 <= s < 3 ==>
      && (st'.have[s] <==> st.have[s] || Survived(cap, b, s))
      && (Foreign(st', b, s) <==> Foreign(st, b, s) && !Survived(cap, b, s))
  }

  lemma MixesSplit(st: Store, st': Store, pre: seq<seq<Symbol>>, b: seq<byte>)
    requires st.Valid() && st'.Valid() && |b| == 21 && pre != [] && !Resets(st, pre[0], b) && Moves(st, st', pre[0], b)
    ensures Mixes(st, pre, b) <==> Mixes(st', pre[1..], b)
  {
    hide There, Stays, Renewed, Resets, Moves, Store.Valid;
    forall s | 0 <= s < 3
      ensures There(st, pre, b, s) <==> There(st', pre[1..], b, s)
      ensures Stays(st, pre, b, s) <==> Stays(st', pre[1..], b, s)
    {
      SectionMoves(st, st', pre, b, s);
    }
    SectionMoves(st, st', pre, b, 0);
  }

  lemma SectionMoves(st: Store, st': Store, pre: seq<seq<Symbol>>, b: seq<byte>, s: nat)
    requires st.Valid() && st'.Valid() && |b| == 21 && s < 3 && pre != []
    requires !Resets(st, pre[0], b) && Moves(st, st', pre[0], b)
    ensures There(st, pre, b, s) <==> There(st', pre[1..], b, s)
    ensures Stays(st, pre, b, s) <==> Stays(st', pre[1..], b, s)
    ensures s == 0 ==> (Renewed(st, pre, b) <==> Renewed(st', pre[1..], b))
  {
    assert !(Foreign(st, b, 0) && Survived(pre[0], b, 0));
    hide Survived, SomeSurvived, SectionOf, Foreign, Resets;
    SurvivedSplit(pre, b, s);
  }

  // The first capture settles a run when it resets or reports b.
  lemma SettledAtOnce(st: Store, pre: seq<seq<Symbol>>, b: seq<byte>)
    requires st.Valid() && ValidFrame(b) && |b| == 21 && pre != [] && DamagedCopy(pre[0], b)
    requires OnCapture(st, pre[0]).report == Frame(b) || Resets(st, pre[0], b)
    ensures !Mixes(st, pre, b)
  {
    hide Verifies, SectionOf, DamagedCopy, DecodeSection, OnCapture, ValidFrame, Survived, SomeSurvived;
    SurvivedSplit(pre, b, 0);
    SurvivedSplit(pre, b, 1);
    SurvivedSplit(pre, b, 2);
    ForeignReportIff(st, pre[0], b);
  }

  lemma RestMixes(st: Store, st': Store, caps: seq<seq<Symbol>>, b: seq<byte>)
    requires st.Valid() && st'.Valid() && |b| == 21 && caps != [] && !Resets(st, caps[0], b) && Moves(st, st', caps[0], b)
    requires !MixesAt(st, caps, b, 0)
    ensures SomeMixes(st, caps, b) <==> SomeMixes(st', caps[1..], b)
  {
    hide Mixes, Resets, Moves;
    forall i | 0 < i < |caps|
      ensures MixesAt(st, caps, b, i) <==> MixesAt(st', caps[1..], b, i - 1)
    {
      assert caps[..i + 1][1..] == caps[1..][..i];
      MixesSplit(st, st', caps[..i + 1], b);
    }
    if SomeMixes(st', caps[1..], b) {
      var j :| 0 <= j < |caps[1..]| && MixesAt(st', caps[1..], b, j);
      assert MixesAt(st, caps, b, j + 1);
    }
  }

  lemma ForeignSplit(r: Report, rs: seq<Report>, b: seq<byte>)
    ensures SomeForeignReport([r] + rs, b) <==> (r.Frame? && r.bytes != b) || SomeForeignReport(rs, b)
    ensures !SomeForeignReport([], b)
  {
    if SomeForeignReport(rs, b) {
      var i :| 0 <= i < |rs| && rs[i].Frame? && rs[i].bytes != b;
      assert ([r] + rs)[i + 1] == rs[i];
    }
    if r.Frame? && r.bytes != b { assert ([r] + rs)[0] == r; }
    if SomeForeignReport([r] + rs, b) && !(r.Frame? && r.bytes != b) {
      var i :| 0 <= i < |rs| + 1 && ([r] + rs)[i].Frame? && ([r] + rs)[i].bytes != b;
      assert rs[i - 1] == ([r] + rs)[i];
    }
  }

  lemma NothingForeign(st: Store, caps: seq<seq<Symbol>>, b: seq<byte>)
    requires st.Valid() && ValidFrame(b) && |b| == 21 && Consistent(st, b)
    requires forall i :: 0 <= i < |caps| ==> DamagedCopy(caps[i], b)
    ensures !SomeForeignReport(Reports(st, caps), b)
  {
    hide DamagedCopy, ValidFrame, Consistent, Reports;
    OnlyTheFrameIsReported(st, caps, b);
  }

  // Over any run of captures of b, from any incomplete store, as the callback always
  // leaves it: something other than b is reported if and only if after some of them
  // the store is complete with a foreign section that has neither come through nor
  // been reset.
  lemma {:induction false} RunMixesIff(st: Store, caps: seq<seq<Symbol>>, b: seq<byte>)
    requires st.Valid() && !Complete(st) && ValidFrame(b) && |b| == 21
    requires forall i :: 0 <= i < |caps| ==> DamagedCopy(caps[i], b)
    ensures SomeForeignReport(Reports(st, caps), b) <==> SomeMixes(st, caps, b)
    decreases |caps|
  {
    hide DamagedCopy, ValidFrame, Consistent, OnCapture, Mixes, Resets, Moves, Complete, SomeForeignReport;
    ForeignSplit(Silent, [], b);
    if caps != [] {
      var o, rest := OnCapture(st, caps[0]), caps[1..];
      ForeignSplit(o.report, Reports(o.st, rest), b);
      FirstMixes(st, caps, b);
      CaptureAndForeign(st, caps[0], b);
      if o.report == Frame(b) || Resets(st, caps[0], b) {
        NothingForeign(o.st, rest, b);
        forall i | 0 <= i < |caps|
          ensures !MixesAt(st, caps, b, i)
        {
          SettledAtOnce(st, caps[..i + 1], b);
        }
      } else if !o.report.Frame? {
        RunMixesIff(o.st, rest, b);
        RestMixes(st, o.st, caps, b);
      }
    }
  }

  // ------------------------------------------------------------------
  // Runs over several buttons
  // ------------------------------------------------------------------

  // One button held down: its frame and the damaged repeats of it.
  datatype Press = Press(frame: seq<byte>, caps: seq<seq<Symbol>>) {
    predicate Valid() {
      && ValidFrame(frame) && caps != []
      && forall i :: 0 <= i < |caps| ==> DamagedCopy(caps[i], frame)
    }
  }

  // No section comes through a capture that loses section 0.
  predicate AnchoredCapture(syms: seq<Symbol>, frame: seq<byte>)
    requires |frame| == 21
  {
    forall s :: 0 <= s < 3 && Survived(syms, frame, s) ==> Survived(syms, frame, 0)
  }

  // Nor does the store hold any without it.
  predicate Anchored(st: Store)
    requires st.Valid()
  {
    st.have[0] || st.Empty()
  }

  // Each press begins with an intact section 0 that differs from the one before,
  // and all its captures are anchored.
  predicate Separated(prev: seq<byte>, ps: seq<Press>)
    requires |prev| == 21
    decreases ps
  {
    ps != [] ==>
      var p := ps[0];
      && p.Valid() && Survived(p.caps[0], p.frame, 0) && SectionOf(p.frame, 0) != SectionOf(prev, 0)
      && (forall i :: 0 <= i < |p.caps| ==> AnchoredCapture(p.caps[i], p.frame))
      && Separated(p.frame, ps[1..])
  }

  // Whatever is reported during a press is that press's frame.
  predicate OnlyOwnFrames(st: Store, ps: seq<Press>)
    requires st.Valid()
    decreases ps
  {
    ps != [] ==>
      && (forall i :: 0 <= i < |ps[0].caps| && Reports(st, ps[0].caps)[i].Frame? ==>
            Reports(st, ps[0].caps)[i] == Frame(ps[0].frame))
      && OnlyOwnFrames(After(st, ps[0].caps), ps[1..])
  }

  // A first capture of b with an intact section 0 clears an anchored store of a.
  lemma SwitchIsClean(st: Store, syms: seq<Symbol>, a: seq<byte>, b: seq<byte>)
    requires st.Valid() && ValidFrame(a) && ValidFrame(b) && Consistent(st, a) && Anchored(st) && DamagedCopy(syms, b)
    requires Survived(syms, b, 0) && SectionOf(a, 0) != SectionOf(b, 0)
    ensures var o := OnCapture(st, syms);
            Consistent(o.st, b) && Anchored(o.st) && (o.report.Frame? ==> o.report.bytes == b)
  {
    hide Verifies, SectionOf, DamagedCopy, DecodeSection, CollectAll, Recognized, ValidFrame;
    FrameLength(a);
    FrameLength(b);
    CaptureMixes(st, syms, b);
    FrameIsItsSections(b);
  }

  lemma StaysAnchored(st: Store, syms: seq<Symbol>, frame: seq<byte>)
    requires st.Valid() && ValidFrame(frame) && Consistent(st, frame) && DamagedCopy(syms, frame)
    requires Anchored(st) && AnchoredCapture(syms, frame)
    ensures var o := OnCapture(st, syms);
            Consistent(o.st, frame) && Anchored(o.st) && (o.report.Frame? ==> o.report.bytes == frame)
  {
    hide Verifies, SectionOf, DamagedCopy, DecodeSection, OnCapture, Recognized, ValidFrame, Survived;
    FrameLength(frame);
    CaptureAdds(st, syms, frame);
  }

  lemma {:induction false} PressKeepsToItself(st: Store, caps: seq<seq<Symbol>>, frame: seq<byte>)
    requires st.Valid() && ValidFrame(frame) && Consistent(st, frame) && Anchored(st)
    requires forall i :: 0 <= i < |caps| ==> DamagedCopy(caps[i], frame) && AnchoredCapture(caps[i], frame)
    ensures Consistent(After(st, caps), frame) && Anchored(After(st, caps))
    ensures forall i :: 0 <= i < |caps| && Reports(st, caps)[i].Frame? ==> Reports(st, caps)[i] == Frame(frame)
    decreases |caps|
  {
    hide DamagedCopy, AnchoredCapture, Consistent, Anchored, OnCapture, ValidFrame;
    FrameLength(frame);
    if caps != [] {
      StaysAnchored(st, caps[0], frame);
      PressKeepsToItself(OnCapture(st, caps[0]).st, caps[1..], frame);
    }
  }

  // Over any run of presses that are separated in this way, only frames that were
  // sent are reported, each during its own press.
  lemma {:induction false} SeparatedPressesNeverMix(st: Store, prev: seq<byte>, ps: seq<Press>)
    requires st.Valid() && ValidFrame(prev) && Consistent(st, prev) && Anchored(st)
    requires |prev| == 21 && Separated(prev, ps)
    ensures OnlyOwnFrames(st, ps)
    decreases ps
  {
    hide DamagedCopy, AnchoredCapture, Consistent, Anchored, OnCapture, ValidFrame, Survived, SectionOf;
    if ps != [] {
      var p := ps[0];
      FrameLength(p.frame);
      SwitchIsClean(st, p.caps[0], prev, p.frame);
      var o := OnCapture(st, p.caps[0]);
      PressKeepsToItself(o.st, p.caps[1..], p.frame);
      forall i | 0 <= i < |p.caps| && Reports(st, p.caps)[i].Frame?
        ensures Reports(st, p.caps)[i] == Frame(p.frame)
      {
        if i > 0 { assert Reports(st, p.caps)[i] == Reports(o.st, p.caps[1..])[i - 1]; }
      }
      SeparatedPressesNeverMix(After(st, p.caps), p.frame, ps[1..]);
    }
  }
}
