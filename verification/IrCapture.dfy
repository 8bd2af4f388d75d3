// Edge capture with a double buffer and a gap timer (app/ir/ir_rx_nxp_gpio_ctimer.c).
module IrCapture {
  import opened Bits
  import opened Symbols

  const RX_MAX_SYMBOLS: nat := 384
  const MIN_SYMBOLS: nat := 3
  const GAP_US: nat := 12000

  datatype Phase = Idle | InMark | InSpace

  // Cycle counter ticks as a stored duration: whole microseconds, clamped.
  function DurUs(cycles: nat, perUs: nat): u16
    requires perUs > 0
  {
    if cycles / perUs < 0xFFFF then cycles / perUs else 0xFFFF
  }

  // Ticks between two readings of the 32-bit counter.
  function Elapsed(now: u32, last: u32): u32 {
    (now - last + WRAP) % WRAP
  }

  // The receiver's variables: both buffer halves, which one is being filled and how far.
  datatype Rx = Rx(halves: seq<seq<Symbol>>, wr: nat, len: nat, phase: Phase, last: u32) {
    predicate Valid() {
      && |halves| == 2 && |halves[0]| == RX_MAX_SYMBOLS && |halves[1]| == RX_MAX_SYMBOLS
      && wr < 2 && len <= RX_MAX_SYMBOLS
      && (phase.Idle? ==> len == 0)
      && (phase.InSpace? ==> len >= 1)
    }

    function Filled(): seq<Symbol>
      requires Valid()
    {
      halves[wr][..len]
    }

    function Put(i: nat, s: Symbol): Rx
      requires Valid() && i < RX_MAX_SYMBOLS
    {
      this.(halves := halves[wr := halves[wr][i := s]])
    }
  }

  // One pin edge: low means a mark begins, high means it ends.
  function EdgeStep(r: Rx, perUs: nat, now: u32, low: bool): (r': Rx)
    requires r.Valid() && perUs > 0
    ensures r'.Valid() && r'.wr == r.wr
    ensures r'.halves[1 - r.wr] == r.halves[1 - r.wr]
  {
    var dur := DurUs(Elapsed(now, r.last), perUs);
    var q := r.(last := now);
    if low then
      match r.phase
      case Idle => q.(phase := InMark)
      case InSpace => q.Put(r.len - 1, q.halves[q.wr][r.len - 1].(space := dur)).(phase := InMark)
      case InMark => q
    else
      if r.phase.InMark? then
        if r.len < RX_MAX_SYMBOLS then q.Put(r.len, Symbol(dur, 0)).(len := r.len + 1, phase := InSpace)
        else q.(phase := InSpace)
      else q
  }

  // The gap timer: the filled half is handed over and the other one takes its place.
  function GapStep(r: Rx): (r': Rx)
    requires r.Valid()
    ensures r'.Valid()
  {
    r.(wr := 1 - r.wr, len := 0, phase := Idle)
  }

  function Handed(r: Rx): seq<seq<Symbol>>
    requires r.Valid()
  {
    if r.len >= MIN_SYMBOLS then [r.Filled()] else []
  }

  // ------------------------------------------------------------------
  // The driver itself
  // ------------------------------------------------------------------

  class Receiver {
    const half0: array<Symbol>
    const half1: array<Symbol>
    const perUs: nat
    var wrIdx: nat
    var wrLen: nat
    var phase: Phase
    var lastCyc: u32
    var active: bool

    ghost predicate Valid()
      reads this, half0, half1
    {
      && half0 != half1 && half0.Length == RX_MAX_SYMBOLS && half1.Length == RX_MAX_SYMBOLS && perUs > 0
      && Model().Valid()
    }

    ghost function Model(): Rx
      reads this, half0, half1
    {
      Rx([half0[..], half1[..]], wrIdx, wrLen, phase, lastCyc)
    }

    // ir_rx_init: a cycle rate below 1 MHz counts as one tick per microsecond.
    constructor (cyclesPerSec: nat, now: u32)
      ensures Valid() && fresh(half0) && fresh(half1) && half0.Length == half1.Length == 384
      ensures perUs == (if cyclesPerSec / 1000000 == 0 then 1 else cyclesPerSec / 1000000)
      ensures !active && phase == Idle && wrIdx == 0 && wrLen == 0 && lastCyc == now
    {
      half0 := new Symbol[RX_MAX_SYMBOLS](_ => Symbol(0, 0));
      half1 := new Symbol[RX_MAX_SYMBOLS](_ => Symbol(0, 0));
      perUs := if cyclesPerSec / 1000000 == 0 then 1 else cyclesPerSec / 1000000;
      wrIdx, wrLen, phase, lastCyc, active := 0, 0, Idle, now, false;
    }

    // ret is the driver's answer to enabling the edge interrupt.
    method Start(now: u32, ret: int) returns (rc: int)
      requires Valid()
      modifies this
      ensures Valid() && rc == ret && active == (ret == 0)
      ensures Model() == old(Model()).(len := 0, phase := Idle, last := now)
    {
      wrLen := 0;
      phase := Idle;
      lastCyc := now;
      active := true;
      if ret != 0 {
        active := false;
        return ret;
      }
      return 0;
    }

    method Stop()
      requires Valid()
      modifies this
      ensures Valid() && !active && Model() == old(Model())
    {
      active := false;
    }

    // gpio_edge_cb, in interrupt context.
    method EdgeCallback(now: u32, rawLevel: int)
      requires Valid()
      modifies this, half0, half1
      ensures Valid() && active == old(active)
      ensures Model() == if old(active) then EdgeStep(old(Model()), perUs, now, rawLevel == 0) else old(Model())
    {
      if !active { return; }
      var cur := if wrIdx == 0 then half0 else half1;
      var dt := (now - lastCyc + WRAP) % WRAP;
      lastCyc := now;
      var dur := if dt / perUs < 0xFFFF then dt / perUs else 0xFFFF;
      if rawLevel == 0 {
        if phase == Idle {
          phase := InMark;
          return;
        }
        if phase == InSpace {
          var idx := wrLen;
          if idx > 0 {
            cur[idx - 1] := cur[idx - 1].(space := dur);
          }
          phase := InMark;
        }
      } else {
        if phase == InMark {
          var idx := wrLen;
          if idx < RX_MAX_SYMBOLS {
            cur[idx] := Symbol(dur, 0);
            wrLen := idx + 1;
          }
          phase := InSpace;
        }
      }
    }

    // gap_work_handler; frames is what the callback gets, if it is called.
    method GapWork() returns (frames: seq<seq<Symbol>>)
      requires Valid()
      modifies this
      ensures Valid() && active == old(active)
      ensures Model() == GapStep(old(Model()))
      ensures frames == Handed(old(Model()))
    {
      var doneIdx, doneLen := wrIdx, wrLen;
      wrIdx := 1 - doneIdx;
      wrLen := 0;
      phase := Idle;
      frames := [];
      if doneLen >= MIN_SYMBOLS {
        frames := [if doneIdx == 0 then half0[..doneLen] else half1[..doneLen]];
      }
    }
  }

  // ------------------------------------------------------------------
  // What is captured from a line signal
  // ------------------------------------------------------------------

  // A mark and the space after it, in counter ticks.
  datatype Pulse = Pulse(on: nat, off: nat)

  function GapTicks(perUs: nat): nat {
    GAP_US * perUs
  }

  function Stamp(t: nat): u32 {
    t % WRAP
  }

  // A silent or stuck line runs the gap handler before its next edge.
  function Wait(r: Rx, perUs: nat, d: nat): (r': Rx)
    requires r.Valid()
    ensures r'.Valid()
  {
    if d > GapTicks(perUs) then GapStep(r) else r
  }

  function WaitOut(r: Rx, perUs: nat, d: nat): seq<seq<Symbol>>
    requires r.Valid()
  {
    if d > GapTicks(perUs) then Handed(r) else []
  }

  datatype Played = Played(rx: Rx, frames: seq<seq<Symbol>>)

  // The receiver fed with one pulse that starts at time t.
  function PlayPulse(r: Rx, perUs: nat, t: nat, p: Pulse): (o: Played)
    requires r.Valid() && perUs > 0
    ensures o.rx.Valid()
  {
    var r1 := EdgeStep(r, perUs, Stamp(t), true);
    var r2 := Wait(r1, perUs, p.on);
    var r3 := EdgeStep(r2, perUs, Stamp(t + p.on), false);
    Played(Wait(r3, perUs, p.off), WaitOut(r1, perUs, p.on) + WaitOut(r3, perUs, p.off))
  }

  function Play(r: Rx, perUs: nat, t: nat, ps: seq<Pulse>): (o: Played)
    requires r.Valid() && perUs > 0
    ensures o.rx.Valid()
    decreases |ps|
  {
    if ps == [] then Played(r, [])
    else
      var first := PlayPulse(r, perUs, t, ps[0]);
      var rest := Play(first.rx, perUs, t + ps[0].on + ps[0].off, ps[1..]);
      Played(rest.rx, first.frames + rest.frames)
  }

  // The symbols a burst of pulses leaves in the buffer when the first `measured`
  // of its spaces were ended by another mark: all marks up to the buffer size;
  // spaces likewise, except that the last slot keeps being overwritten once the
  // buffer is full, and an unmeasured space is 0.
  function Frame(ps: seq<Pulse>, measured: nat, perUs: nat): (f: seq<Symbol>)
    requires measured <= |ps| <= measured + 1 && perUs > 0
    ensures |f| == if |ps| < RX_MAX_SYMBOLS then |ps| else RX_MAX_SYMBOLS
  {
    seq(if |ps| < RX_MAX_SYMBOLS then |ps| else RX_MAX_SYMBOLS,
        i requires 0 <= i < |ps| && i < RX_MAX_SYMBOLS =>
          Symbol(DurUs(ps[i].on, perUs),
                 if i == RX_MAX_SYMBOLS - 1 && measured >= RX_MAX_SYMBOLS then DurUs(ps[measured - 1].off, perUs)
                 else if i < measured then DurUs(ps[i].off, perUs)
                 else 0))
  }

  function Reported(f: seq<Symbol>): seq<seq<Symbol>> {
    if |f| >= MIN_SYMBOLS then [f] else []
  }

  // The frames a pulse train yields, given the pulses of the burst in progress:
  // a burst ends with a space longer than the gap time, or is cut by a mark
  // longer than that, which is itself lost.
  function Deliveries(cur: seq<Pulse>, ps: seq<Pulse>, perUs: nat): seq<seq<Symbol>>
    requires perUs > 0
    decreases |ps|
  {
    if ps == [] then []
    else if ps[0].on > GapTicks(perUs) then Reported(Frame(cur, |cur|, perUs)) + Deliveries([], ps[1..], perUs)
    else if ps[0].off > GapTicks(perUs) then Reported(Frame(cur + [ps[0]], |cur|, perUs)) + Deliveries([], ps[1..], perUs)
    else Deliveries(cur + [ps[0]], ps[1..], perUs)
  }

  // Between two pulses the receiver holds exactly the burst in progress, and
  // its last timestamp is that of the last falling-to-rising edge.
  predicate Holds(r: Rx, perUs: nat, t: nat, cur: seq<Pulse>)
    requires r.Valid() && perUs > 0
  {
    if cur == [] then r.phase == Idle
    else
      && r.phase == InSpace
      && cur[|cur| - 1].off <= GapTicks(perUs) && cur[|cur| - 1].off <= t
      && r.last == Stamp(t - cur[|cur| - 1].off)
      && r.Filled() == Frame(cur, |cur| - 1, perUs)
  }

  lemma ElapsedIs(t: nat, d: nat)
    requires d < WRAP
    ensures Elapsed(Stamp(t + d), Stamp(t)) == d
  {
  }

  // A falling edge completes the last space of the burst.
  lemma FallCompletes(r: Rx, perUs: nat, t: nat, cur: seq<Pulse>)
    requires r.Valid() && perUs > 0 && GapTicks(perUs) < WRAP && Holds(r, perUs, t, cur)
    ensures var r1 := EdgeStep(r, perUs, Stamp(t), true);
            r1.phase == InMark && r1.last == Stamp(t) && r1.Filled() == Frame(cur, |cur|, perUs)
  {
    var r1 := EdgeStep(r, perUs, Stamp(t), true);
    if cur != [] {
      var off := cur[|cur| - 1].off;
      ElapsedIs(t - off, off);
      var k := r.len - 1;
      assert r1.Filled() == r.Filled()[k := r.Filled()[k].(space := DurUs(off, perUs))];
      assert r1.Filled() == Frame(cur, |cur|, perUs);
    }
  }

  // A rising edge appends the mark that just ended.
  lemma RiseAppends(r1: Rx, perUs: nat, t: nat, cur: seq<Pulse>, p: Pulse)
    requires r1.Valid() && perUs > 0 && GapTicks(perUs) < WRAP && p.on <= GapTicks(perUs)
    requires r1.phase == InMark && r1.last == Stamp(t) && r1.Filled() == Frame(cur, |cur|, perUs)
    ensures var r3 := EdgeStep(r1, perUs, Stamp(t + p.on), false);
            r3.phase == InSpace && r3.last == Stamp(t + p.on) && r3.Filled() == Frame(cur + [p], |cur|, perUs)
  {
    var r3 := EdgeStep(r1, perUs, Stamp(t + p.on), false);
    ElapsedIs(t, p.on);
    assert r1.len == |r1.Filled()|;
    if r1.len < RX_MAX_SYMBOLS {
      assert r3.Filled() == r1.Filled() + [Symbol(DurUs(p.on, perUs), 0)];
    } else {
      assert r3.Filled() == r1.Filled();
    }
    assert r3.Filled() == Frame(cur + [p], |cur|, perUs);
  }

  lemma PulseStep(r: Rx, perUs: nat, t: nat, cur: seq<Pulse>, p: Pulse)
    requires r.Valid() && perUs > 0 && GapTicks(perUs) < WRAP && Holds(r, perUs, t, cur)
    ensures var o := PlayPulse(r, perUs, t, p);
            if p.on > GapTicks(perUs) then
              o.frames == Reported(Frame(cur, |cur|, perUs)) && Holds(o.rx, perUs, t + p.on + p.off, [])
            else if p.off > GapTicks(perUs) then
              o.frames == Reported(Frame(cur + [p], |cur|, perUs)) && Holds(o.rx, perUs, t + p.on + p.off, [])
            else
              o.frames == [] && Holds(o.rx, perUs, t + p.on + p.off, cur + [p])
  {
    hide Frame, Stamp, Elapsed;
    FallCompletes(r, perUs, t, cur);
    if p.on <= GapTicks(perUs) {
      var r1 := EdgeStep(r, perUs, Stamp(t), true);
      RiseAppends(r1, perUs, t, cur, p);
      assert t + p.on + p.off - p.off == t + p.on;
    }
  }

  // The receiver delivers exactly the frames of the specification, for every
  // pulse train, every start time (counter wrap-around included) and whatever
  // burst was in progress.
  lemma {:induction false} CaptureRefines(r: Rx, perUs: nat, t: nat, cur: seq<Pulse>, ps: seq<Pulse>)
    requires r.Valid() && perUs > 0 && GapTicks(perUs) < WRAP && Holds(r, perUs, t, cur)
    ensures Play(r, perUs, t, ps).frames == Deliveries(cur, ps, perUs)
    decreases |ps|
  {
    hide PlayPulse, Frame, Reported, Stamp, Holds, GapTicks;
    if ps != [] {
      PulseStep(r, perUs, t, cur, ps[0]);
      var o := PlayPulse(r, perUs, t, ps[0]);
      var t' := t + ps[0].on + ps[0].off;
      if ps[0].on > GapTicks(perUs) || ps[0].off > GapTicks(perUs) {
        CaptureRefines(o.rx, perUs, t', [], ps[1..]);
      } else {
        CaptureRefines(o.rx, perUs, t', cur + [ps[0]], ps[1..]);
      }
    }
  }

  // A single burst: inner spaces and all marks within the gap time, then silence.
  predicate IsBurst(ps: seq<Pulse>, perUs: nat) {
    && ps != []
    && (forall i :: 0 <= i < |ps| ==> ps[i].on <= GapTicks(perUs))
    && (forall i :: 0 <= i < |ps| - 1 ==> ps[i].off <= GapTicks(perUs))
    && ps[|ps| - 1].off > GapTicks(perUs)
  }

  lemma {:induction false} BurstDelivers(cur: seq<Pulse>, ps: seq<Pulse>, more: seq<Pulse>, perUs: nat)
    requires perUs > 0 && IsBurst(ps, perUs)
    ensures Deliveries(cur, ps + more, perUs) == Reported(Frame(cur + ps, |cur| + |ps| - 1, perUs)) + Deliveries([], more, perUs)
    decreases |ps|
  {
    hide Frame, Reported;
    assert (ps + more)[1..] == ps[1..] + more;
    if |ps| == 1 {
      assert cur + [ps[0]] == cur + ps && ps[1..] + more == more;
    } else {
      BurstDelivers(cur + [ps[0]], ps[1..], more, perUs);
      assert cur + [ps[0]] + ps[1..] == cur + ps;
    }
  }

  // ------------------------------------------------------------------
  // The last space of a frame
  // ------------------------------------------------------------------

  // A burst as it was delivered: all its pulses, and how many of their spaces were
  // ended by another mark - all but the last, or all when a mark cut it short.
  datatype Burst = Burst(pulses: seq<Pulse>, measured: nat) {
    predicate Valid() {
      pulses != [] && measured <= |pulses| <= measured + 1
    }
  }

  // Its last stored space is zero: it was never measured and there was room for
  // every pulse, or the last one measured was shorter than a microsecond.
  predicate EndsInZero(b: Burst, perUs: nat)
    requires b.Valid()
  {
    b.measured < |b.pulses| <= 384 || (b.measured > 0 && b.pulses[b.measured - 1].off < perUs)
  }

  // The header promises that the last captured space is always 0. For every frame
  // the receiver can deliver, it is so exactly in these cases.
  lemma LastSpaceIsZeroIff(b: Burst, perUs: nat)
    requires perUs > 0 && b.Valid()
    ensures var f := Frame(b.pulses, b.measured, perUs);
            f != [] && (f[|f| - 1].space == 0 <==> EndsInZero(b, perUs))
  {
    if b.measured > 0 {
      ZeroDurIff(b.pulses[b.measured - 1].off, perUs);
    }
  }

  lemma ZeroDurIff(d: nat, perUs: nat)
    requires perUs > 0
    ensures DurUs(d, perUs) == 0 <==> d < perUs
  {
    assert d == perUs * (d / perUs) + d % perUs;
  }

  // The bursts behind the deliveries of a pulse train.
  function Bursts(cur: seq<Pulse>, ps: seq<Pulse>, perUs: nat): (bs: seq<Burst>)
    requires perUs > 0
    ensures forall i :: 0 <= i < |bs| ==> bs[i].Valid()
    decreases |ps|
  {
    if ps == [] then []
    else if ps[0].on > GapTicks(perUs) then LongEnough(Burst(cur, |cur|)) + Bursts([], ps[1..], perUs)
    else if ps[0].off > GapTicks(perUs) then LongEnough(Burst(cur + [ps[0]], |cur|)) + Bursts([], ps[1..], perUs)
    else Bursts(cur + [ps[0]], ps[1..], perUs)
  }

  function LongEnough(b: Burst): (bs: seq<Burst>)
    requires b.measured <= |b.pulses| <= b.measured + 1
    ensures forall i :: 0 <= i < |bs| ==> bs[i].Valid()
  {
    if |b.pulses| >= MIN_SYMBOLS then [b] else []
  }

  lemma {:induction false} DeliveriesAreBursts(cur: seq<Pulse>, ps: seq<Pulse>, perUs: nat)
    requires perUs > 0
    ensures var fs, bs := Deliveries(cur, ps, perUs), Bursts(cur, ps, perUs);
            |fs| == |bs| && forall i :: 0 <= i < |fs| ==> fs[i] == Frame(bs[i].pulses, bs[i].measured, perUs)
    decreases |ps|
  {
    hide Frame, GapTicks;
    if ps != [] {
      if ps[0].on > GapTicks(perUs) || ps[0].off > GapTicks(perUs) {
        DeliveriesAreBursts([], ps[1..], perUs);
      } else {
        DeliveriesAreBursts(cur + [ps[0]], ps[1..], perUs);
      }
    }
  }

  // So for every frame of every run, whatever ended it.
  lemma LastSpacesOfRun(r: Rx, perUs: nat, t: nat, cur: seq<Pulse>, ps: seq<Pulse>)
    requires r.Valid() && perUs > 0 && GapTicks(perUs) < WRAP && Holds(r, perUs, t, cur)
    ensures var fs, bs := Play(r, perUs, t, ps).frames, Bursts(cur, ps, perUs);
            && |fs| == |bs|
            && forall i :: 0 <= i < |fs| ==>
                 && fs[i] == Frame(bs[i].pulses, bs[i].measured, perUs) && fs[i] != []
                 && (fs[i][|fs[i]| - 1].space == 0 <==> EndsInZero(bs[i], perUs))
  {
    hide Frame, Play, Deliveries, Bursts, Holds, GapTicks, EndsInZero;
    CaptureRefines(r, perUs, t, cur, ps);
    DeliveriesAreBursts(cur, ps, perUs);
    forall i | 0 <= i < |Bursts(cur, ps, perUs)|
      ensures var b := Bursts(cur, ps, perUs)[i];
              var f := Frame(b.pulses, b.measured, perUs);
              f != [] && (f[|f| - 1].space == 0 <==> EndsInZero(b, perUs))
    {
      LastSpaceIsZeroIff(Bursts(cur, ps, perUs)[i], perUs);
    }
  }

  // Three short pulses cut by a mark of 13 ms: a frame far below the buffer's size
  // whose last space is not zero.
  lemma MarkCutsBurst(r: Rx, t: nat)
    requires r.Valid() && r.phase == Idle
    ensures var frames := Play(r, 1, t, [Pulse(600, 600), Pulse(600, 600), Pulse(600, 700), Pulse(13000, 20000)]).frames;
            frames == [[Symbol(600, 600), Symbol(600, 600), Symbol(600, 700)]]
  {
    hide Play, Frame;
    var a, b, cut := Pulse(600, 600), Pulse(600, 700), Pulse(13000, 20000);
    var ps := [a, a, b, cut];
    CaptureRefines(r, 1, t, [], ps);
    assert ps[1..] == [a, b, cut] && [a, b, cut][1..] == [b, cut] && [b, cut][1..] == [cut] && [cut][1..] == [];
    assert [] + [a] == [a] && [a] + [a] == [a, a] && [a, a] + [b] == [a, a, b];
    assert Deliveries([a, a, b], [cut], 1) == Reported(Frame([a, a, b], 3, 1)) + Deliveries([], [], 1);
    ThreePulses(a, b);
  }

  lemma ThreePulses(a: Pulse, b: Pulse)
    requires a == Pulse(600, 600) && b == Pulse(600, 700)
    ensures Frame([a, a, b], 3, 1) == [Symbol(600, 600), Symbol(600, 600), Symbol(600, 700)]
  {
  }

  // ------------------------------------------------------------------
  // The half handed to the callback is left alone
  // ------------------------------------------------------------------

  datatype Edge = Edge(now: u32, low: bool)

  function Edges(r: Rx, perUs: nat, es: seq<Edge>): (r': Rx)
    requires r.Valid() && perUs > 0
    ensures r'.Valid()
    decreases |es|
  {
    if es == [] then r else Edges(EdgeStep(r, perUs, es[0].now, es[0].low), perUs, es[1..])
  }

  // However many edges of whatever timing arrive while the callback runs, the
  // symbols it was given do not change.
  lemma {:induction false} CallbackHalfIsStable(r: Rx, perUs: nat, es: seq<Edge>)
    requires r.Valid() && perUs > 0
    ensures var during := Edges(GapStep(r), perUs, es);
            during.halves[r.wr][..r.len] == r.Filled() && during.wr != r.wr
  {
    EdgesKeepOtherHalf(GapStep(r), perUs, es);
  }

  lemma {:induction false} EdgesKeepOtherHalf(r: Rx, perUs: nat, es: seq<Edge>)
    requires r.Valid() && perUs > 0
    ensures var q := Edges(r, perUs, es); q.wr == r.wr && q.halves[1 - r.wr] == r.halves[1 - r.wr]
    decreases |es|
  {
    if es != [] {
      EdgesKeepOtherHalf(EdgeStep(r, perUs, es[0].now, es[0].low), perUs, es[1..]);
    }
  }
}
