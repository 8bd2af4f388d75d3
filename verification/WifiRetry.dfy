// Band retry of the Wi-Fi station (app/wifi/app_wifi.c).
module WifiRetry {
  import opened Bits

  const BAND_SEQ_LEN: nat := 2

  // What the handlers report to the application.
  datatype Notice = Quiet | Ready | AuthFailed | Disconnected

  class Station {
    const hasIface: bool
    var started: bool
    var connected: bool
    var retryIdx: nat
    var supported: bool    // whether the stored security type is one of the known ones
    var pending: bool      // the retry work is queued
    var timeoutArmed: bool
    ghost var requests: seq<nat> // band indexes asked for since the last connect call

    ghost predicate Valid()
      reads this
    {
      Model().Valid()
    }

    ghost function Model(): St
      reads this
    {
      St(started, connected, retryIdx, supported, pending, timeoutArmed, requests)
    }

    constructor (iface: bool)
      ensures hasIface == iface
      ensures Valid() && Model() == St(false, false, 0, false, false, false, [])
    {
      hasIface := iface;
      started, connected, retryIdx, supported, pending, timeoutArmed, requests := false, false, 0, false, false, false, [];
    }

    // The configuration, if there is one, matters by whether its security type is known.
    method Connect(cfg: Option<bool>) returns (rc: int)
      requires Valid()
      modifies this
      ensures Valid() && rc == (if cfg.None? then -1 else if !started then -2 else if !hasIface then -3 else 0)
      ensures Model() == if rc == 0 then Step(old(Model()), ConnectCall(cfg.value)) else old(Model())
    {
      if cfg.None? { return -1; }
      if !started { return -2; }
      if !hasIface { return -3; }
      timeoutArmed := false;
      supported := cfg.value;
      retryIdx := 0;
      pending := true;
      requests := [];
      return 0;
    }

    // ret is the driver's answer to the disconnect request.
    method Disconnect(ret: int) returns (rc: int)
      requires Valid()
      modifies this
      ensures Valid() && rc == (if hasIface && ret == 0 then 0 else -1)
      ensures Model() == if hasIface then Step(old(Model()), DisconnectCall) else old(Model())
    {
      if !hasIface { return -1; }
      timeoutArmed := false;
      retryIdx := BAND_SEQ_LEN;
      connected := false;
      return if ret == 0 then 0 else -1;
    }

    // retry_work_fn; ret is the driver's answer to the connect request.
    method RetryWork(ret: int) returns (notice: Notice)
      requires Valid() && pending
      modifies this
      ensures Valid() && Model() == Step(old(Model()), WorkRuns(ret == 0))
      ensures notice == NoticeOf(old(Model()), WorkRuns(ret == 0))
    {
      hide St.Valid;
      StepKeepsValid(Model(), WorkRuns(ret == 0));
      pending := false;
      if retryIdx >= BAND_SEQ_LEN { return AuthFailed; }
      if !supported { return AuthFailed; }
      requests := requests + [retryIdx];
      if ret != 0 {
        retryIdx := retryIdx + 1;
        pending := true;
        return Quiet;
      }
      timeoutArmed := true;
      return Quiet;
    }

    method ConnectTimeout()
      requires Valid() && timeoutArmed
      modifies this
      ensures Valid() && Model() == Step(old(Model()), TimeoutFires)
    {
      hide St.Valid;
      StepKeepsValid(Model(), TimeoutFires);
      timeoutArmed := false;
      retryIdx := retryIdx + 1;
      pending := true;
    }

    method ConnectResult(success: bool, wrongPassword: bool) returns (notice: Notice)
      requires Valid()
      modifies this
      ensures Valid() && Model() == Step(old(Model()), DriverResult(success, wrongPassword))
      ensures notice == NoticeOf(old(Model()), DriverResult(success, wrongPassword))
    {
      hide St.Valid;
      StepKeepsValid(Model(), DriverResult(success, wrongPassword));
      timeoutArmed := false;
      if !success {
        if wrongPassword { return AuthFailed; }
        retryIdx := retryIdx + 1;
        pending := true;
        return Quiet;
      }
      connected := true;
      return Quiet;
    }

    // ready_work_fn and iface_event_handler: the first of the two that runs.
    method DriverIsReady() returns (notice: Notice)
      requires Valid()
      modifies this
      ensures Valid() && Model() == Step(old(Model()), DriverReady)
      ensures notice == NoticeOf(old(Model()), DriverReady)
    {
      if started { return Quiet; }
      started := true;
      return Ready;
    }

    method DisconnectResult() returns (notice: Notice)
      requires Valid()
      modifies this
      ensures Valid() && Model() == Step(old(Model()), DriverDisconnect)
      ensures notice == NoticeOf(old(Model()), DriverDisconnect)
    {
      if connected {
        connected := false;
        return Disconnected;
      }
      return Quiet;
    }
  }

  datatype St = St(started: bool, connected: bool, retryIdx: nat, supported: bool, pending: bool, timeoutArmed: bool, requests: seq<nat>) {
    // Every band was asked for at most once and in order; the current one only
    // if no retry is queued.
    predicate Valid() {
      && (forall i, j :: 0 <= i < j < |requests| ==> requests[i] < requests[j])
      && (forall i :: 0 <= i < |requests| ==> requests[i] < BAND_SEQ_LEN)
      && (forall i :: 0 <= i < |requests| ==> requests[i] < retryIdx || (requests[i] == retryIdx && !pending))
    }
  }

  datatype Event =
    | ConnectCall(known: bool)
    | DisconnectCall
    | WorkRuns(accepted: bool)
    | TimeoutFires
    | DriverResult(success: bool, wrongPassword: bool)
    | DriverDisconnect
    | DriverReady

  predicate Enabled(s: St, e: Event) {
    match e
    case ConnectCall(_) => s.started
    case WorkRuns(_) => s.pending
    case TimeoutFires => s.timeoutArmed
    case _ => true
  }

  function Step(s: St, e: Event): St {
    match e
    case ConnectCall(known) => s.(timeoutArmed := false, supported := known, retryIdx := 0, pending := true, requests := [])
    case DisconnectCall => s.(timeoutArmed := false, retryIdx := BAND_SEQ_LEN, connected := false)
    case WorkRuns(accepted) =>
      if s.retryIdx >= BAND_SEQ_LEN || !s.supported then s.(pending := false)
      else if accepted then s.(pending := false, timeoutArmed := true, requests := s.requests + [s.retryIdx])
      else s.(retryIdx := s.retryIdx + 1, requests := s.requests + [s.retryIdx])
    case TimeoutFires => s.(timeoutArmed := false, retryIdx := s.retryIdx + 1, pending := true)
    case DriverResult(success, wrongPassword) =>
      if success then s.(timeoutArmed := false, connected := true)
      else if wrongPassword then s.(timeoutArmed := false)
      else s.(timeoutArmed := false, retryIdx := s.retryIdx + 1, pending := true)
    case DriverDisconnect => s.(connected := false)
    case DriverReady => s.(started := true)
  }

  // What the application is told.
  function NoticeOf(s: St, e: Event): Notice {
    match e
    case WorkRuns(_) => if s.retryIdx >= BAND_SEQ_LEN || !s.supported then AuthFailed else Quiet
    case DriverResult(success, wrongPassword) => if !success && wrongPassword then AuthFailed else Quiet
    case DriverDisconnect => if s.connected then Disconnected else Quiet
    case DriverReady => if s.started then Quiet else Ready
    case _ => Quiet
  }

  // ------------------------------------------------------------------
  // Runs: handlers interleave in any order; a step that is not enabled does nothing
  // ------------------------------------------------------------------

  function Next(s: St, e: Event): St {
    if Enabled(s, e) then Step(s, e) else s
  }

  function Run(s: St, es: seq<Event>): St
    decreases |es|
  {
    if es == [] then s else Run(Next(s, es[0]), es[1..])
  }

  // Bands left to try.
  function Remaining(s: St): nat {
    if s.retryIdx >= BAND_SEQ_LEN then 0 else BAND_SEQ_LEN - s.retryIdx
  }

  lemma StepKeepsValid(s: St, e: Event)
    requires s.Valid() && Enabled(s, e)
    ensures Step(s, e).Valid()
  {
    hide St.Valid;
    match e
    case ConnectCall(_) => NothingAsked(Step(s, e));
    case DisconnectCall => AllBehind(s, Step(s, e));
    case WorkRuns(_) => WorkKeepsValid(s, Step(s, e));
    case _ => MovesOn(s, Step(s, e));
  }

  lemma NothingAsked(t: St)
    requires t.requests == []
    ensures t.Valid()
  {
  }

  lemma AllBehind(s: St, t: St)
    requires s.Valid() && t.requests == s.requests && t.retryIdx == BAND_SEQ_LEN
    ensures t.Valid()
  {
  }

  lemma MovesOn(s: St, t: St)
    requires s.Valid() && t.requests == s.requests
    requires t.retryIdx > s.retryIdx || (t.retryIdx == s.retryIdx && (t.pending ==> s.pending))
    ensures t.Valid()
  {
  }

  lemma WorkKeepsValid(s: St, t: St)
    requires s.Valid() && s.pending
    requires t == s.(pending := false) || (s.retryIdx < BAND_SEQ_LEN && t.requests == s.requests + [s.retryIdx] &&
               (t.retryIdx == s.retryIdx + 1 || (t.retryIdx == s.retryIdx && !t.pending)))
    ensures t.Valid()
  {
  }

  lemma StepOnlyAccumulates(s: St, e: Event)
    requires Enabled(s, e) && !e.ConnectCall?
    ensures s.requests <= Step(s, e).requests && Remaining(Step(s, e)) <= Remaining(s)
    ensures Remaining(s) == 0 ==> Step(s, e).requests == s.requests
  {
  }

  // Whatever the interleaving, one connect call leads to at most one request
  // per band, in band order.
  lemma {:induction false} AtMostOneRequestPerBand(s: St, es: seq<Event>)
    requires s.Valid()
    ensures var r := Run(s, es).requests;
            && |r| <= BAND_SEQ_LEN
            && (forall i, j :: 0 <= i < j < |r| ==> r[i] < r[j])
            && (forall i :: 0 <= i < |r| ==> r[i] < BAND_SEQ_LEN)
    decreases |es|
  {
    if es == [] {
      IncreasingIsShort(s.requests);
    } else {
      if Enabled(s, es[0]) { StepKeepsValid(s, es[0]); }
      AtMostOneRequestPerBand(Next(s, es[0]), es[1..]);
    }
  }

  lemma IncreasingIsShort(r: seq<nat>)
    requires forall i, j :: 0 <= i < j < |r| ==> r[i] < r[j]
    requires forall i :: 0 <= i < |r| ==> r[i] < BAND_SEQ_LEN
    ensures |r| <= BAND_SEQ_LEN
  {
    if |r| > BAND_SEQ_LEN {
      IndexAtMostValue(r, BAND_SEQ_LEN);
    }
  }

  lemma {:induction false} IndexAtMostValue(r: seq<nat>, i: nat)
    requires i < |r|
    requires forall i, j :: 0 <= i < j < |r| ==> r[i] < r[j]
    ensures i <= r[i]
    decreases i
  {
    if i > 0 { IndexAtMostValue(r, i - 1); }
  }

  // Without a new connect call requests only accumulate and the bands left only
  // shrink; once none is left - for instance after a disconnect call - nothing
  // is requested any more.
  lemma {:induction false} ExhaustedStaysSilent(s: St, es: seq<Event>)
    requires s.Valid()
    requires forall i :: 0 <= i < |es| ==> !es[i].ConnectCall?
    ensures Run(s, es).Valid() && s.requests <= Run(s, es).requests && Remaining(Run(s, es)) <= Remaining(s)
    ensures Remaining(s) == 0 ==> Run(s, es).requests == s.requests
    decreases |es|
  {
    if es != [] {
      if Enabled(s, es[0]) { StepKeepsValid(s, es[0]); StepOnlyAccumulates(s, es[0]); }
      ExhaustedStaysSilent(Next(s, es[0]), es[1..]);
    }
  }

  // Two requests of one connect call: fewer bands were left at the second.
  lemma EachRequestUsesUpABand(s: St, es: seq<Event>)
    requires s.Valid() && s.pending && s.supported && Remaining(s) > 0
    requires forall i :: 0 <= i < |es| ==> !es[i].ConnectCall?
    requires var r := Run(Step(s, WorkRuns(true)), es); r.pending && r.supported && Remaining(r) > 0
    ensures var r := Run(Step(s, WorkRuns(true)), es); Remaining(r) < Remaining(s)
  {
    var asked := Step(s, WorkRuns(true));
    StepKeepsValid(s, WorkRuns(true));
    ExhaustedStaysSilent(asked, es);
    var r := Run(asked, es);
    assert r.requests[|s.requests|] == asked.requests[|s.requests|] == s.retryIdx;
  }

  // ------------------------------------------------------------------
  // When the second band is tried
  // ------------------------------------------------------------------

  // The band index moves on: an armed timeout fires, or the driver reports a
  // failure other than a wrong password.
  predicate Advance(s: St, e: Event) {
    (e.TimeoutFires? && s.timeoutArmed) || (e.DriverResult? && !e.success && !e.wrongPassword)
  }

  function Advances(s: St, es: seq<Event>): nat
    decreases |es|
  {
    if es == [] then 0
    else (if Advance(s, es[0]) then 1 else 0) + Advances(Next(s, es[0]), es[1..])
  }

  // Where in the run the retry work first runs.
  function FirstWork(s: St, es: seq<Event>): (k: Option<nat>)
    ensures k.Some? ==> k.value < |es|
    decreases |es|
  {
    if es == [] then None
    else if es[0].WorkRuns? && s.pending then Some(0)
    else
      match FirstWork(Next(s, es[0]), es[1..])
      case None => None
      case Some(k) => Some(k + 1)
  }

  predicate NoDisconnect(es: seq<Event>) {
    forall i :: 0 <= i < |es| ==> !es[i].DisconnectCall?
  }

  // The next run of the retry work finds the index at this band, with no disconnect
  // call before it.
  predicate NextAsks(s: St, es: seq<Event>, band: nat) {
    var k := FirstWork(s, es);
    s.supported && k.Some? && NoDisconnect(es[..k.value]) && s.retryIdx + Advances(s, es[..k.value]) == band
  }

  // Band 0 has been asked for and the retry work has not run since.
  predicate AwaitsBand1(s: St) {
    s.Valid() && s.supported && s.requests == [0] && (s.pending ==> s.retryIdx > 0)
  }

  // Asking for band 0 leads there, whatever the driver answers.
  lemma AskingLeadsThere(s: St, accepted: bool)
    requires s.Valid() && s.pending && s.supported && s.retryIdx == 0
    ensures var t := Step(s, WorkRuns(accepted));
            AwaitsBand1(t) && t.timeoutArmed == (accepted || s.timeoutArmed) && t.retryIdx == if accepted then 0 else 1
  {
    hide St.Valid;
    StepKeepsValid(s, WorkRuns(accepted));
    NothingAskedYet(s);
  }

  lemma NothingAskedYet(s: St)
    requires s.Valid() && s.pending && s.retryIdx == 0
    ensures s.requests == []
  {
    if s.requests != [] {
      FirstAsked(s);
    }
  }

  lemma FirstAsked(s: St)
    requires s.Valid() && s.requests != []
    ensures s.retryIdx > 0 || !s.pending
  {
    assert s.requests[0] < s.retryIdx || (s.requests[0] == s.retryIdx && !s.pending);
  }

  // After band 0 was asked for (retryIdx is 0 if the driver took the request, 1 if
  // it refused), and until the next connect call, band 1 is asked for exactly when
  // the retry work runs with exactly one advance behind it and no disconnect call:
  // with two, the work finds the sequence exhausted. Handlers may interleave in any
  // way before and after.
  lemma {:induction false} SecondBandIff(s: St, es: seq<Event>)
    requires AwaitsBand1(s)
    requires forall i :: 0 <= i < |es| ==> !es[i].ConnectCall?
    ensures Run(s, es).requests == [0] || Run(s, es).requests == [0, 1]
    ensures Run(s, es).requests == [0, 1] <==> NextAsks(s, es, 1)
    decreases |es|
  {
    hide St.Valid, AwaitsBand1, Next, Advance, NoDisconnect;
    NothingYet(s);
    if es != [] {
      var e, rest := es[0], es[1..];
      if e.WorkRuns? && s.pending {
        assert es[..0] == [];
        NoneInEmpty();
        WorkSettlesIt(s, es);
      } else if e.DisconnectCall? {
        DisconnectEnds(s, es);
      } else {
        var t := Next(s, e);
        QuietStep(s, e);
        NothingYet(t);
        SecondBandIff(t, rest);
        if FirstWork(t, rest).Some? {
          SplitFirst(s, es, FirstWork(t, rest).value);
        }
      }
    }
  }

  lemma NothingYet(s: St)
    requires AwaitsBand1(s)
    ensures s.Valid() && s.supported && s.requests == [0]
  {
  }

  lemma NoneInEmpty()
    ensures NoDisconnect([])
  {
  }

  lemma QuietStep(s: St, e: Event)
    requires AwaitsBand1(s) && !e.ConnectCall? && !e.DisconnectCall? && !(e.WorkRuns? && s.pending)
    ensures AwaitsBand1(Next(s, e)) && Next(s, e).retryIdx == s.retryIdx + (if Advance(s, e) then 1 else 0)
  {
    hide St.Valid;
    if Enabled(s, e) { StepKeepsValid(s, e); }
  }

  lemma DisconnectEnds(s: St, es: seq<Event>)
    requires s.Valid() && es != [] && es[0].DisconnectCall?
    requires forall i :: 0 <= i < |es| ==> !es[i].ConnectCall?
    ensures Run(s, es).requests == s.requests
    ensures FirstWork(s, es).Some? ==> !NoDisconnect(es[..FirstWork(s, es).value])
  {
    hide St.Valid;
    StepKeepsValid(s, es[0]);
    ExhaustedStaysSilent(Next(s, es[0]), es[1..]);
    assert FirstWork(s, es).Some? ==> es[..FirstWork(s, es).value][0] == es[0];
  }

  lemma SplitFirst(s: St, es: seq<Event>, k: nat)
    requires es != [] && k < |es| - 1 && !es[0].DisconnectCall?
    ensures NoDisconnect(es[..k + 1]) <==> NoDisconnect(es[1..][..k])
    ensures Advances(s, es[..k + 1]) == (if Advance(s, es[0]) then 1 else 0) + Advances(Next(s, es[0]), es[1..][..k])
  {
    hide Next, Advance;
    var pre := es[..k + 1];
    assert pre[0] == es[0] && pre[1..] == es[1..][..k];
    assert pre == [es[0]] + es[1..][..k];
  }

  // The first run of the work asks for band 1 if the index is 1, and for nothing
  // if it is beyond; what comes later adds nothing.
  lemma WorkSettlesIt(s: St, es: seq<Event>)
    requires AwaitsBand1(s) && s.pending && es != [] && es[0].WorkRuns?
    requires forall i :: 0 <= i < |es| ==> !es[i].ConnectCall?
    ensures Run(s, es).requests == if s.retryIdx == 1 then [0, 1] else [0]
  {
    hide St.Valid;
    StepKeepsValid(s, es[0]);
    var t := Step(s, es[0]);
    ExhaustedStaysSilent(t, es[1..]);
    AtMostOneRequestPerBand(t, es[1..]);
    var r := Run(t, es[1..]).requests;
    if s.retryIdx == 1 {
      assert t.requests == [0, 1] && t.requests <= r && |r| <= 2;
      assert r == t.requests;
    }
  }

  // In particular the band order of the documentation is kept when a timeout or a
  // failure is followed by the work, and broken when the driver answers the
  // timeout's disconnect with a failure event before the work runs.
  lemma OneAdvanceThenWork(s: St, e: Event, accepted: bool)
    requires AwaitsBand1(s) && s.retryIdx == 0 && Advance(s, e)
    ensures Run(s, [e, WorkRuns(accepted)]).requests == [0, 1]
  {
    hide St.Valid;
    var es := [e, WorkRuns(accepted)];
    assert es[1..] == [WorkRuns(accepted)] && es[..1] == [e] && [e][1..] == [];
    assert FirstWork(s, es) == Some(1) && Advances(s, [e]) == 1;
    SecondBandIff(s, es);
  }

  // A timeout forces a disconnect; if the driver answers it with a failure
  // event before the retry work runs, the index advances twice and the second
  // band is never tried.
  lemma TimeoutThenFailureSkipsSecondBand(s: St)
    requires s.started && s.Valid()
    ensures var r := Run(s, [ConnectCall(true), WorkRuns(true), TimeoutFires, DriverResult(false, false), WorkRuns(true)]);
            r.requests == [0]
  {
    hide St.Valid;
    var late := [TimeoutFires, DriverResult(false, false), WorkRuns(true)];
    var es := [ConnectCall(true), WorkRuns(true)] + late;
    StepKeepsValid(s, es[0]);
    var s1 := Step(s, es[0]);
    StepKeepsValid(s1, es[1]);
    var s2 := Step(s1, es[1]);
    assert es[1..][1..] == late;
    assert Run(s, es) == Run(s1, es[1..]) == Run(s2, late);
    TwoAdvances(s2, late);
    SecondBandIff(s2, late);
  }

  lemma TwoAdvances(s: St, es: seq<Event>)
    requires s.timeoutArmed && es == [TimeoutFires, DriverResult(false, false), WorkRuns(true)]
    ensures FirstWork(s, es) == Some(2) && Advances(s, es[..2]) == 2
  {
    var s1 := Step(s, es[0]);
    var s2 := Step(s1, es[1]);
    assert FirstWork(s2, es[1..][1..]) == Some(0);
    assert FirstWork(s1, es[1..]) == Some(1);
    var p := es[..2];
    assert p[1..][1..] == [];
    assert Advances(s1, p[1..]) == 1;
  }

  // ------------------------------------------------------------------
  // When the bands are tried in the documented order
  // ------------------------------------------------------------------

  // The retry work is queued and no band has been asked for yet.
  predicate AwaitsBand0(s: St) {
    s.Valid() && s.pending && s.requests == []
  }

  // A connect call leads there from any state.
  lemma ConnectingLeadsThere(s: St, known: bool)
    ensures var t := Step(s, ConnectCall(known)); AwaitsBand0(t) && t.retryIdx == 0 && t.supported == known && !t.timeoutArmed
  {
    NothingAsked(Step(s, ConnectCall(known)));
  }

  lemma QuietStart(s: St, e: Event)
    requires AwaitsBand0(s) && !e.ConnectCall? && !e.DisconnectCall? && !e.WorkRuns?
    ensures var t := Next(s, e);
            AwaitsBand0(t) && t.supported == s.supported && t.retryIdx == s.retryIdx + (if Advance(s, e) then 1 else 0)
  {
    hide St.Valid;
    if Enabled(s, e) { StepKeepsValid(s, e); }
  }

  lemma NextAsksSplit(s: St, es: seq<Event>, band: nat)
    requires AwaitsBand0(s) && es != [] && !es[0].ConnectCall? && !es[0].DisconnectCall? && !es[0].WorkRuns?
    ensures NextAsks(s, es, band) <==> NextAsks(Next(s, es[0]), es[1..], band)
  {
    QuietStart(s, es[0]);
    hide St.Valid, AwaitsBand0, Next, Advance, NoDisconnect;
    var k := FirstWork(Next(s, es[0]), es[1..]);
    if k.Some? { SplitFirst(s, es, k.value); }
  }

  lemma {:induction false} UnsupportedStaysSilent(s: St, es: seq<Event>)
    requires !s.supported && forall i :: 0 <= i < |es| ==> !es[i].ConnectCall?
    ensures Run(s, es).requests == s.requests
    decreases |es|
  {
    if es != [] { UnsupportedStaysSilent(Next(s, es[0]), es[1..]); }
  }

  lemma FirstWorkAsks(s: St, es: seq<Event>)
    requires AwaitsBand0(s) && es != [] && es[0].WorkRuns?
    requires forall i :: 0 <= i < |es| ==> !es[i].ConnectCall?
    ensures var r := Run(s, es).requests;
            if s.supported && s.retryIdx < BAND_SEQ_LEN then r != [] && r[0] == s.retryIdx else r == []
  {
    hide St.Valid;
    StepKeepsValid(s, es[0]);
    var t := Step(s, es[0]);
    ExhaustedStaysSilent(t, es[1..]);
    if !s.supported {
      UnsupportedStaysSilent(t, es[1..]);
    } else if s.retryIdx < BAND_SEQ_LEN {
      assert t.requests == [s.retryIdx] && t.requests <= Run(t, es[1..]).requests;
    }
  }

  // The first band asked for, until the next connect call, is the one at which the
  // index stands when the retry work first runs; none is when it stands beyond, when
  // the security type is unknown, or when a disconnect call comes first.
  lemma {:induction false} FirstBandIff(s: St, es: seq<Event>, band: nat)
    requires AwaitsBand0(s) && band < BAND_SEQ_LEN
    requires forall i :: 0 <= i < |es| ==> !es[i].ConnectCall?
    ensures var r := Run(s, es).requests; (r != [] && r[0] == band) <==> NextAsks(s, es, band)
    decreases |es|
  {
    hide St.Valid, Next, Advance, NoDisconnect;
    if es != [] {
      if es[0].WorkRuns? {
        assert es[..0] == [];
        NoneInEmpty();
        FirstWorkAsks(s, es);
      } else if es[0].DisconnectCall? {
        DisconnectEnds(s, es);
      } else {
        QuietStart(s, es[0]);
        NextAsksSplit(s, es, band);
        FirstBandIff(Next(s, es[0]), es[1..], band);
      }
    }
  }

  // The first run of the work finds the index at 0, and the next one at 1.
  predicate InOrder(s: St, es: seq<Event>) {
    && NextAsks(s, es, 0)
    && var k := FirstWork(s, es).value;
       NextAsks(Run(s, es[..k + 1]), es[k + 1..], 1)
  }

  // The documented order, 5 GHz and then 2.4 GHz, is followed exactly when nothing
  // advances the index before the first run of the work and exactly one thing does
  // before the second.
  lemma {:induction false} BandOrderIff(s: St, es: seq<Event>)
    requires AwaitsBand0(s)
    requires forall i :: 0 <= i < |es| ==> !es[i].ConnectCall?
    ensures Run(s, es).requests == [0, 1] <==> InOrder(s, es)
    decreases |es|
  {
    hide St.Valid, Next, Advance, NextAsks;
    FirstBandIff(s, es, 0);
    if NextAsks(s, es, 0) {
      SomethingFirst(s, es);
      if es[0].WorkRuns? {
        WorkFirst(s, es);
      } else {
        var t, rest := Next(s, es[0]), es[1..];
        QuietStart(s, es[0]);
        NextAsksSplit(s, es, 0);
        BandOrderIff(t, rest);
        SomethingFirst(t, rest);
        RunShift(s, es, FirstWork(t, rest).value + 1);
      }
    }
  }

  lemma SomethingFirst(s: St, es: seq<Event>)
    requires AwaitsBand0(s) && NextAsks(s, es, 0)
    ensures es != [] && FirstWork(s, es).Some? && !es[0].DisconnectCall?
    ensures !es[0].WorkRuns? ==> FirstWork(Next(s, es[0]), es[1..]).Some? &&
                                 FirstWork(s, es).value == FirstWork(Next(s, es[0]), es[1..]).value + 1
  {
    hide St.Valid, Next, Advance;
    NoDisconnectAtTheHead(es, FirstWork(s, es).value);
  }

  lemma NoDisconnectAtTheHead(es: seq<Event>, k: nat)
    requires k < |es|
    ensures NoDisconnect(es[..k]) && k > 0 ==> !es[0].DisconnectCall?
  {
    if k > 0 { assert es[..k][0] == es[0]; }
  }

  lemma RunShift(s: St, es: seq<Event>, n: nat)
    requires es != [] && n <= |es[1..]|
    ensures Run(s, es[..n + 1]) == Run(Next(s, es[0]), es[1..][..n])
    ensures es[n + 1..] == es[1..][n..]
  {
    hide Next;
    assert es[..n + 1][0] == es[0] && es[..n + 1][1..] == es[1..][..n];
  }

  lemma WorkFirst(s: St, es: seq<Event>)
    requires AwaitsBand0(s) && NextAsks(s, es, 0) && es != [] && es[0].WorkRuns?
    requires forall i :: 0 <= i < |es| ==> !es[i].ConnectCall?
    ensures Run(s, es).requests == [0, 1] <==> InOrder(s, es)
  {
    hide St.Valid, NoDisconnect;
    assert FirstWork(s, es) == Some(0) && es[..0] == [];
    AskingLeadsThere(s, es[0].accepted);
    SecondBandIff(Step(s, es[0]), es[1..]);
    RunShift(s, es, 0);
    assert es[1..][..0] == [];
  }

  // A failure event that arrives between the connect call and the work - late, from
  // an earlier attempt - moves the index first: 5 GHz is never asked for.
  lemma LateFailureSkipsFirstBand(s: St)
    requires s.started
    ensures Run(s, [ConnectCall(true), DriverResult(false, false), WorkRuns(true)]).requests == [1]
  {
    var es := [ConnectCall(true), DriverResult(false, false), WorkRuns(true)];
    var s1 := Step(s, es[0]);
    var s2 := Step(s1, es[1]);
    assert es[1..][1..] == [es[2]] && [es[2]][1..] == [];
    assert Run(s, es) == Run(s1, es[1..]) == Run(s2, es[1..][1..]) == Step(s2, es[2]);
  }

  // ------------------------------------------------------------------
  // What the application is told
  // ------------------------------------------------------------------

  predicate Success(e: Event) {
    e.DriverResult? && e.success
  }

  // Ends a connection: the application's call or the driver's event.
  predicate Drop(e: Event) {
    e.DisconnectCall? || e.DriverDisconnect?
  }

  predicate NoDrop(es: seq<Event>) {
    forall i :: 0 <= i < |es| ==> !Drop(es[i])
  }

  // The driver reports a success that nothing has ended since.
  predicate Lasts(es: seq<Event>, i: nat)
    requires i < |es|
  {
    Success(es[i]) && NoDrop(es[i + 1..])
  }

  predicate SomeLasts(es: seq<Event>) {
    exists i :: 0 <= i < |es| && Lasts(es, i)
  }

  lemma LastsShift(es: seq<Event>, i: nat)
    requires i + 1 < |es|
    ensures Lasts(es, i + 1) <==> Lasts(es[1..], i)
  {
    hide Success, NoDrop;
    assert es[1..][i + 1..] == es[i + 2..];
  }

  lemma NoDropSplit(es: seq<Event>)
    requires es != []
    ensures NoDrop(es) <==> !Drop(es[0]) && NoDrop(es[1..])
  {
    hide Drop;
    assert es == [es[0]] + es[1..];
  }

  lemma LastsSplit(es: seq<Event>)
    requires es != []
    ensures SomeLasts(es) <==> (Success(es[0]) && NoDrop(es[1..])) || SomeLasts(es[1..])
  {
    assert Lasts(es, 0) <==> Success(es[0]) && NoDrop(es[1..]);
    hide Lasts, Success, NoDrop;
    var rest := es[1..];
    if SomeLasts(rest) {
      var i :| 0 <= i < |rest| && Lasts(rest, i);
      LastsShift(es, i);
      assert Lasts(es, i + 1);
    }
    if SomeLasts(es) {
      var i :| 0 <= i < |es| && Lasts(es, i);
      if i > 0 {
        LastsShift(es, i - 1);
        assert Lasts(rest, i - 1);
      }
    }
  }

  // Over any run the station is connected exactly when it was and nothing ended
  // that, or a success came and nothing has ended it since.
  lemma {:induction false} ConnectedIff(s: St, es: seq<Event>)
    ensures Run(s, es).connected <==> (s.connected && NoDrop(es)) || SomeLasts(es)
    decreases |es|
  {
    hide NoDrop, SomeLasts;
    if es == [] {
      NothingLasts();
    } else {
      LastsSplit(es);
      NoDropSplit(es);
      ConnectedIff(Next(s, es[0]), es[1..]);
    }
  }

  lemma NothingLasts()
    ensures NoDrop([]) && !SomeLasts([])
  {
  }

  // Hence the application is told of a disconnect event exactly when the driver had
  // connected and neither it nor the application had ended that before; each
  // connection is reported lost at most once.
  lemma LossIsToldIff(s: St, es: seq<Event>)
    requires !s.connected
    ensures NoticeOf(Run(s, es), DriverDisconnect) == Disconnected <==> SomeLasts(es)
    ensures NoticeOf(Run(Next(s, DriverDisconnect), es), DriverDisconnect) == Disconnected <==> SomeLasts(es)
  {
    hide SomeLasts, NoDrop, Run;
    ConnectedIff(s, es);
    ConnectedIff(Next(s, DriverDisconnect), es);
  }

  // It is told once that the driver is ready.
  lemma {:induction false} ReadyIsToldOnce(s: St, es: seq<Event>)
    ensures NoticeOf(Run(s, es), DriverReady) == Ready <==> !s.started && forall i :: 0 <= i < |es| ==> !es[i].DriverReady?
    decreases |es|
  {
    if es != [] {
      ReadyIsToldOnce(Next(s, es[0]), es[1..]);
      assert es == [es[0]] + es[1..];
    }
  }

  // The first run of the work tells it that the attempt failed exactly when it asks
  // for no band.
  lemma {:induction false} FirstWorkTellsIff(s: St, es: seq<Event>)
    requires AwaitsBand0(s) && FirstWork(s, es).Some?
    requires forall i :: 0 <= i < |es| ==> !es[i].ConnectCall?
    ensures var k := FirstWork(s, es).value;
            NoticeOf(Run(s, es[..k]), es[k]) == if NextAsks(s, es, 0) || NextAsks(s, es, 1) then Quiet else AuthFailed
    decreases |es|
  {
    hide St.Valid, Advance;
    var k := FirstWork(s, es).value;
    if es[0].WorkRuns? {
      assert es[..0] == [];
      NoneInEmpty();
    } else if es[0].DisconnectCall? {
      DisconnectEnds(s, es);
      var t := Step(s, es[0]);
      StepKeepsValid(s, es[0]);
      ExhaustedStaysSilent(t, es[..k][1..]);
      FirstWorkIsWork(s, es);
      assert Run(s, es[..k]) == Run(t, es[..k][1..]);
    } else {
      var t, rest := Next(s, es[0]), es[1..];
      QuietStart(s, es[0]);
      NextAsksSplit(s, es, 0);
      NextAsksSplit(s, es, 1);
      FirstWorkTellsIff(t, rest);
      RunShift(s, es, k - 1);
    }
  }

  lemma {:induction false} FirstWorkIsWork(s: St, es: seq<Event>)
    requires FirstWork(s, es).Some?
    ensures es[FirstWork(s, es).value].WorkRuns?
    decreases |es|
  {
    if !(es[0].WorkRuns? && s.pending) { FirstWorkIsWork(Next(s, es[0]), es[1..]); }
  }

  // Success, a wrong password, which alone is told, and the disconnect call settle an
  // attempt: with no work queued nothing is asked for until the next connect call,
  // unless the driver reports another failure.
  predicate Settles(e: Event) {
    e.DisconnectCall? || (e.DriverResult? && (e.success || e.wrongPassword))
  }

  lemma SettledIsQuiet(s: St, e: Event, es: seq<Event>)
    requires !s.pending && Settles(e)
    requires forall i :: 0 <= i < |es| ==> !es[i].ConnectCall? && (es[i].DriverResult? ==> es[i].success)
    ensures NoticeOf(s, e) == if e.DriverResult? && !e.success then AuthFailed else Quiet
    ensures var t := Run(Next(s, e), es);
            t.requests == s.requests && !t.pending && !t.timeoutArmed
  {
    StaysQuiet(Next(s, e), es);
  }

  lemma {:induction false} StaysQuiet(s: St, es: seq<Event>)
    requires !s.pending && !s.timeoutArmed
    requires forall i :: 0 <= i < |es| ==> !es[i].ConnectCall? && (es[i].DriverResult? ==> es[i].success)
    ensures var t := Run(s, es);
            t.requests == s.requests && !t.pending && !t.timeoutArmed
    decreases |es|
  {
    if es != [] { StaysQuiet(Next(s, es[0]), es[1..]); }
  }
}
