// The two transmitters: the thread loop (app/ir/ir_tx_zephyr.c) and the timer
// interrupt sequencer (app/ir/ir_tx_nxp_ctimer.c).
module IrTransmit {
  import opened Symbols

  const TX_MAX_SYMBOLS: nat := 384

  // A stretch of time with the carrier on or off, in microseconds.
  datatype Segment = Segment(on: bool, us: nat)

  // The waveform of a symbol array.
  function Wave(syms: seq<Symbol>): (w: seq<Segment>)
    ensures |w| == 2 * |syms|
  {
    seq(2 * |syms|, k requires 0 <= k < 2 * |syms| =>
      if k % 2 == 0 then Segment(true, syms[k / 2].mark) else Segment(false, syms[k / 2].space))
  }

  // ------------------------------------------------------------------
  // Thread loop
  // ------------------------------------------------------------------

  datatype SendError = Ok | NotReady | BadArgument | TooLong

  class ThreadTransmitter {
    const buf: array<Symbol>
    var inited: bool
    var count: nat
    var carrier: bool
    var done: nat                 // the semaphore, at most 1
    ghost var trace: seq<Segment> // everything put on the line so far

    ghost predicate Valid()
      reads this, buf
    {
      buf.Length == TX_MAX_SYMBOLS && count <= TX_MAX_SYMBOLS && done <= 1 && !carrier
    }

    constructor ()
      ensures Valid() && fresh(buf) && inited && trace == [] && done == 0
    {
      buf := new Symbol[TX_MAX_SYMBOLS](_ => Symbol(0, 0));
      inited, count, carrier, done, trace := true, 0, false, 0, [];
    }

    method BusyWait(us: nat)
      modifies this`trace
      ensures trace == old(trace) + [Segment(carrier, us)]
    {
      trace := trace + [Segment(carrier, us)];
    }

    // One round of the transmit thread after it was triggered.
    method PlayOnce()
      requires Valid()
      modifies this
      ensures Valid() && count == old(count) && inited == old(inited) && done == 1
      ensures trace == old(trace) + Wave(buf[..count])
    {
      var cnt := count;
      ghost var start := trace;
      var i := 0;
      while i < cnt
        invariant 0 <= i <= cnt == count == old(count) && inited == old(inited)
        invariant Valid()
        invariant trace == start + Wave(buf[..cnt])[..2 * i]
      {
        carrier := true;
        BusyWait(buf[i].mark);
        carrier := false;
        BusyWait(buf[i].space);
        assert Wave(buf[..cnt])[..2 * (i + 1)] ==
               Wave(buf[..cnt])[..2 * i] + [Segment(true, buf[i].mark)] + [Segment(false, buf[i].space)];
        i := i + 1;
      }
      carrier := false;
      done := 1;
    }

    // ir_tx_send_symbols: one call puts exactly the waveform of its argument on the line.
    method SendSymbols(syms: seq<Symbol>) returns (rc: SendError)
      requires Valid()
      modifies this, buf
      ensures Valid() && inited == old(inited)
      ensures rc == if !inited then NotReady else if |syms| == 0 then BadArgument
                    else if |syms| > 384 then TooLong else Ok
      ensures trace == old(trace) + (if rc == Ok then Wave(syms) else [])
      ensures rc == Ok ==> done == 0
    {
      if !inited { return NotReady; }
      if |syms| == 0 { return BadArgument; }
      if |syms| > TX_MAX_SYMBOLS { return TooLong; }
      forall i | 0 <= i < |syms| {
        buf[i] := syms[i];
      }
      assert buf[..|syms|] == syms;
      count := |syms|;
      done := 0;
      PlayOnce();
      done := 0;
      return Ok;
    }
  }

  // ------------------------------------------------------------------
  // Interrupt sequencer
  // ------------------------------------------------------------------

  datatype Phase = PhaseIdle | PhaseMark | PhaseSpace

  // Variables of the sequencer and of the 32-bit timer it drives; gives counts
  // how often the completion semaphore was given.
  datatype Isr = Isr(phase: Phase, idx: nat, carrier: bool, tc: u32, mr: u32, running: bool, gives: nat, trace: seq<Segment>)

  function Arm(syms: seq<Symbol>): Isr
    requires syms != []
  {
    Isr(PhaseMark, 0, true, 0, syms[0].mark, true, 0, [])
  }

  // The running timer counts up, modulo 2^32, until it meets the match value.
  function TicksToMatch(s: Isr): nat {
    var d := (s.mr - s.tc + WRAP) % WRAP;
    if d == 0 then WRAP else d
  }

  function RunToMatch(s: Isr): Isr {
    s.(tc := s.mr, trace := s.trace + [Segment(s.carrier, TicksToMatch(s))])
  }

  // A match interrupt: ctimer_match_cb, with the timer standing at the match value.
  function Interrupt(s: Isr, syms: seq<Symbol>): Isr
    requires s.idx < |syms|
  {
    if s.phase == PhaseMark then
      s.(carrier := false, mr := (s.tc + syms[s.idx].space) % WRAP, phase := PhaseSpace)
    else if s.idx + 1 >= |syms| then
      s.(idx := s.idx + 1, running := false, carrier := false, phase := PhaseIdle, gives := s.gives + 1)
    else
      s.(idx := s.idx + 1, carrier := true, mr := (s.tc + syms[s.idx + 1].mark) % WRAP, phase := PhaseMark)
  }

  class IsrTransmitter {
    var phase: Phase
    var idx: nat
    var syms: seq<Symbol>
    var carrier: bool
    var tc: u32
    var mr: u32
    var running: bool
    var gives: nat
    ghost var trace: seq<Segment>

    ghost function Model(): Isr
      reads this
    {
      Isr(phase, idx, carrier, tc, mr, running, gives, trace)
    }

    // The part of ir_tx_send_symbols that starts the sequencer.
    method ArmWith(s: seq<Symbol>)
      requires 0 < |s| <= TX_MAX_SYMBOLS
      modifies this
      ensures syms == s && Model() == Arm(s)
    {
      gives := 0;
      trace := [];
      syms := s;
      idx := 0;
      phase := PhaseMark;
      tc := 0;
      mr := s[0].mark;
      carrier := true;
      running := true;
    }

    method MatchCallback()
      requires idx < |syms|
      modifies this
      ensures syms == old(syms)
      ensures Model() == Interrupt(old(Model()), syms)
    {
      if phase == PhaseMark {
        carrier := false;
        var sp := syms[idx].space;
        mr := (tc + sp) % WRAP;
        phase := PhaseSpace;
        return;
      }
      idx := idx + 1;
      if idx >= |syms| {
        running := false;
        carrier := false;
        phase := PhaseIdle;
        gives := gives + 1;
        return;
      }
      var mk := syms[idx].mark;
      carrier := true;
      mr := (tc + mk) % WRAP;
      phase := PhaseMark;
    }
  }

  // ------------------------------------------------------------------
  // The sequencer refines the loop
  // ------------------------------------------------------------------

  predicate AllPositive(syms: seq<Symbol>) {
    forall i :: 0 <= i < |syms| ==> syms[i].mark > 0 && syms[i].space > 0
  }

  // How long the sequencer holds a segment of us microseconds: a match set to the
  // running timer's own value is met only after a full turn.
  function HeldFor(us: nat): nat {
    if us == 0 then WRAP else us
  }

  // What the sequencer makes of the waveform.
  function Held(w: seq<Segment>): (h: seq<Segment>)
    ensures |h| == |w|
  {
    seq(|w|, k requires 0 <= k < |w| => w[k].(us := HeldFor(w[k].us)))
  }

  // Where the sequencer stands after k matches.
  predicate At(s: Isr, syms: seq<Symbol>, k: nat)
    requires syms != [] && k <= 2 * |syms|
  {
    var h := Held(Wave(syms));
    && s.trace == h[..k]
    && s.idx == k / 2
    && if k == 2 * |syms| then !s.running && !s.carrier && s.gives == 1 && s.phase == PhaseIdle
       else
         && s.running && s.gives == 0
         && s.phase == (if k % 2 == 0 then PhaseMark else PhaseSpace)
         && s.carrier == h[k].on
         && TicksToMatch(s) == h[k].us
  }

  // The armed sequencer after k matches; once past the last symbol its timer is
  // stopped and no more come.
  function AfterMatches(syms: seq<Symbol>, k: nat): Isr
    requires syms != []
  {
    if k == 0 then Arm(syms)
    else
      var s := AfterMatches(syms, k - 1);
      if s.idx < |syms| then Interrupt(RunToMatch(s), syms) else s
  }

  lemma {:induction false} MatchesKeepTime(syms: seq<Symbol>, k: nat)
    requires syms != [] && k <= 2 * |syms|
    ensures At(AfterMatches(syms, k), syms, k)
  {
    hide Held, Wave, TicksToMatch, HeldFor;
    if k == 0 {
      WaveAt(syms, 0);
      assert Held(Wave(syms))[..0] == [];
      MatchDue(Arm(syms), syms[0].mark);
    } else {
      MatchesKeepTime(syms, k - 1);
      MatchAdvances(AfterMatches(syms, k - 1), syms, k - 1);
    }
  }

  lemma WaveAt(syms: seq<Symbol>, k: nat)
    requires k < 2 * |syms|
    ensures Held(Wave(syms))[k] ==
            if k % 2 == 0 then Segment(true, HeldFor(syms[k / 2].mark)) else Segment(false, HeldFor(syms[k / 2].space))
  {
  }

  lemma MatchAdvances(s: Isr, syms: seq<Symbol>, k: nat)
    requires syms != [] && k < 2 * |syms| && At(s, syms, k)
    ensures s.idx < |syms| && At(Interrupt(RunToMatch(s), syms), syms, k + 1)
  {
    hide TicksToMatch, Held, HeldFor;
    var h, m := Held(Wave(syms)), RunToMatch(s);
    var t := Interrupt(m, syms);
    assert m.trace == h[..k] + [h[k]] == h[..k + 1];
    if k + 1 < 2 * |syms| { WaveAt(syms, k + 1); }
    if k % 2 == 0 {
      MatchDue(t, syms[s.idx].space);
      assert (k + 1) / 2 == s.idx && (k + 1) % 2 == 1;
    } else {
      assert (k + 1) / 2 == s.idx + 1 && (k + 1) % 2 == 0;
      if s.idx + 1 < |syms| { MatchDue(t, syms[s.idx + 1].mark); }
    }
  }

  lemma MatchDue(s: Isr, d: nat)
    requires d < WRAP && s.mr == (s.tc + d) % WRAP
    ensures TicksToMatch(s) == HeldFor(d)
  {
  }

  // The sequencer stops after exactly two matches per symbol, whatever the
  // durations, having given the semaphore once, with the carrier off; until then
  // it keeps running and never looks past the last symbol. What is on the line is
  // the waveform of the thread loop if and only if every duration is positive.
  lemma SequencerRefinesLoop(syms: seq<Symbol>)
    requires syms != []
    ensures var s := AfterMatches(syms, 2 * |syms|);
            && s.trace == Held(Wave(syms)) && !s.running && !s.carrier && s.gives == 1
            && (s.trace == Wave(syms) <==> AllPositive(syms))
    ensures forall k :: 0 <= k < 2 * |syms| ==>
              var s := AfterMatches(syms, k);
              s.running && s.gives == 0 && s.idx < |syms|
  {
    hide AfterMatches, Held;
    MatchesKeepTime(syms, 2 * |syms|);
    assert Held(Wave(syms))[..2 * |syms|] == Held(Wave(syms));
    HeldIsItselfIff(syms);
    forall k | 0 <= k < 2 * |syms|
      ensures var s := AfterMatches(syms, k); s.running && s.gives == 0 && s.idx < |syms|
    {
      MatchesKeepTime(syms, k);
    }
  }

  lemma HeldIsItselfIff(syms: seq<Symbol>)
    ensures Held(Wave(syms)) == Wave(syms) <==> AllPositive(syms)
  {
    var w := Wave(syms);
    if AllPositive(syms) {
      assert forall k :: 0 <= k < |w| ==> Held(w)[k] == w[k];
    } else {
      var i :| 0 <= i < |syms| && !(syms[i].mark > 0 && syms[i].space > 0);
      assert w[2 * i].us == syms[i].mark && w[2 * i + 1].us == syms[i].space;
      assert Held(w)[2 * i].us == HeldFor(w[2 * i].us) && Held(w)[2 * i + 1].us == HeldFor(w[2 * i + 1].us);
    }
  }

  // A frame that ends in a zero space, as one ended by silence does, is played in full
  // but its last segment lasts a whole turn of the timer, beyond any time-out.
  lemma TrailingZeroIsHeldForATurn(syms: seq<Symbol>)
    requires syms != [] && syms[|syms| - 1].space == 0
    requires forall i :: 0 <= i < |syms| ==> syms[i].mark > 0 && (i < |syms| - 1 ==> syms[i].space > 0)
    ensures var t := AfterMatches(syms, 2 * |syms|).trace;
            && |t| == 2 * |syms|
            && t[..2 * |syms| - 1] == Wave(syms)[..2 * |syms| - 1]
            && t[2 * |syms| - 1] == Segment(false, WRAP) && Wave(syms)[2 * |syms| - 1] == Segment(false, 0)
  {
    hide AfterMatches;
    SequencerRefinesLoop(syms);
    var w, n := Wave(syms), 2 * |syms| - 1;
    forall k | 0 <= k < n
      ensures Held(w)[k] == w[k]
    {
      assert w[k].us > 0;
    }
  }
}
