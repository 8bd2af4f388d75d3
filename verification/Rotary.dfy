// Quadrature decoding of the rotary encoder (app/rotary_enc/rotary_enc.c).
module Rotary {
  // Pin states are (A << 1) | B.
  type Pins = n: nat | n < 4

  // The lookup table, indexed by (old << 2) | new.
  function Quad(i: nat): int {
    if i == 2 || i == 4 || i == 11 || i == 13 then 1
    else if i == 1 || i == 7 || i == 8 || i == 14 then -1
    else 0
  }

  function Delta(old_: Pins, new_: Pins): int {
    Quad(4 * old_ + new_)
  }

  // 32-bit wrap-around of the atomic counter.
  function Wrap32(n: int): int {
    (n + 0x8000_0000) % 0x1_0000_0000 - 0x8000_0000
  }

  class Encoder {
    var count: int // always within int32
    var state: Pins

    constructor (a: bool, b: bool)
      ensures count == 0 && state == PinsOf(a, b)
    {
      count := 0;
      state := PinsOf(a, b);
    }

    // rotary_isr: sample both pins and look the transition up.
    method Interrupt(a: bool, b: bool)
      modifies this
      ensures state == PinsOf(a, b) == if a && b then 3 else if a then 2 else if b then 1 else 0
      ensures count == if Delta(old(state), PinsOf(a, b)) == 0 then old(count)
                       else Wrap32(old(count) + Delta(old(state), PinsOf(a, b)))
    {
      var newSt := PinsOf(a, b);
      var delta := Quad(4 * state + newSt);
      state := newSt;
      if delta != 0 {
        count := Wrap32(count + delta);
      }
    }
  }

  function PinsOf(a: bool, b: bool): Pins {
    (if a then 2 else 0) + (if b then 1 else 0)
  }

  // Position of a pin state on the Gray circle, in counting direction.
  function Position(p: Pins): nat {
    if p == 0 then 0 else if p == 2 then 1 else if p == 3 then 2 else 3
  }

  // Both pins changed between two samples: an edge was missed.
  predicate Missed(old_: Pins, new_: Pins) {
    Position(new_) == Position(old_) + 2 || Position(old_) == Position(new_) + 2
  }

  // The count after sampling the given states in order, starting from s0.
  function Count(s0: Pins, samples: seq<Pins>): int
    decreases |samples|
  {
    if samples == [] then 0 else Delta(s0, samples[0]) + Count(samples[0], samples[1..])
  }

  function MissedEdges(s0: Pins, samples: seq<Pins>): nat
    decreases |samples|
  {
    if samples == [] then 0 else (if Missed(s0, samples[0]) then 1 else 0) + MissedEdges(samples[0], samples[1..])
  }

  function Final(s0: Pins, samples: seq<Pins>): Pins {
    if samples == [] then s0 else samples[|samples| - 1]
  }

  // How often a transition passes position 0, counted in its own direction.
  function Lap(old_: Pins, new_: Pins): int {
    var d := Position(new_) - Position(old_);
    if d <= -2 then 1 else if d == 3 then -1 else 0
  }

  function Laps(s0: Pins, samples: seq<Pins>): int
    decreases |samples|
  {
    if samples == [] then 0 else Lap(s0, samples[0]) + Laps(samples[0], samples[1..])
  }

  lemma OneStep(a: Pins, b: Pins)
    ensures Delta(a, b) + (if Missed(a, b) then 2 else 0) == Position(b) - Position(a) + 4 * Lap(a, b)
    ensures Delta(b, a) == -Delta(a, b)
  {
    if a == 0 {} else if a == 1 {} else if a == 2 {} else {}
  }

  // Along any sequence of samples the count is the Gray position reached, plus
  // 4 per lap, minus 2 per missed edge.
  lemma {:induction false} CountTracksPosition(s0: Pins, samples: seq<Pins>)
    ensures Count(s0, samples) == Position(Final(s0, samples)) - Position(s0) + 4 * Laps(s0, samples) - 2 * MissedEdges(s0, samples)
    decreases |samples|
  {
    hide Delta, Position, Missed, Lap;
    if samples != [] {
      CountTracksPosition(samples[0], samples[1..]);
      OneStep(s0, samples[0]);
      assert Final(s0, samples) == Final(samples[0], samples[1..]);
    }
  }

  // So the congruence modulo 4 holds exactly when an even number of edges was
  // missed, and modulo 2 it always holds.
  lemma CongruenceIff(s0: Pins, samples: seq<Pins>)
    ensures var moved := Position(Final(s0, samples)) - Position(s0);
            && ((Count(s0, samples) - moved) % 4 == 0 <==> MissedEdges(s0, samples) % 2 == 0)
            && (Count(s0, samples) - moved) % 2 == 0
  {
    hide Count, MissedEdges, Position, Laps, Final;
    CountTracksPosition(s0, samples);
    ParityLaw(Laps(s0, samples), MissedEdges(s0, samples));
  }

  lemma ParityLaw(l: int, m: int)
    ensures ((4 * l - 2 * m) % 4 == 0 <==> m % 2 == 0) && (4 * l - 2 * m) % 2 == 0
  {
    var h := m / 2;
    assert m == 2 * h || m == 2 * h + 1;
    if m == 2 * h {
      FourTimes(l - h, 4 * l - 2 * m);
    } else {
      FourTimesAndTwo(l - h - 1, 4 * l - 2 * m);
    }
  }

  lemma FourTimes(q: int, n: int)
    requires n == 4 * q
    ensures n % 4 == 0 && n % 2 == 0
  {
    RestOfFour(n, q, 0);
    EvenRest(n, 2 * q);
  }

  lemma FourTimesAndTwo(q: int, n: int)
    requires n == 4 * q + 2
    ensures n % 4 == 2 && n % 2 == 0
  {
    RestOfFour(n, q, 2);
    EvenRest(n, 2 * q + 1);
  }

  lemma RestOfFour(n: int, q: int, r: int)
    requires n == 4 * q + r && 0 <= r < 4
    ensures n % 4 == r
  {
    assert n == 4 * (n / 4) + n % 4;
  }

  lemma EvenRest(n: int, q: int)
    requires n == 2 * q
    ensures n % 2 == 0
  {
    assert n == 2 * (n / 2) + n % 2;
  }

  function Reverse(samples: seq<Pins>): (r: seq<Pins>)
    ensures |r| == |samples|
  {
    seq(|samples|, i requires 0 <= i < |samples| => samples[|samples| - 1 - i])
  }

  lemma {:induction false} CountAppend(s0: Pins, a: seq<Pins>, b: seq<Pins>)
    ensures Count(s0, a + b) == Count(s0, a) + Count(Final(s0, a), b)
    decreases |a|
  {
    if a == [] {
      assert a + b == b;
    } else {
      assert (a + b)[1..] == a[1..] + b;
      CountAppend(a[0], a[1..], b);
      assert Final(s0, a) == Final(a[0], a[1..]);
    }
  }

  // The way back from the end of a walk to its start: the earlier states in
  // reverse order.
  function WayBack(s0: Pins, samples: seq<Pins>): seq<Pins> {
    if samples == [] then [] else Reverse(samples[..|samples| - 1]) + [s0]
  }

  // Contact bounce: walking back over the same states cancels the count, even
  // if edges are missed.
  lemma {:induction false} BounceNetsZero(s0: Pins, samples: seq<Pins>)
    ensures Count(s0, samples + WayBack(s0, samples)) == 0
    ensures Final(s0, samples + WayBack(s0, samples)) == s0
    decreases |samples|
  {
    if samples == [] {
      assert samples + WayBack(s0, samples) == [];
    } else {
      WayBackCount(s0, samples);
      CountAppend(s0, samples, WayBack(s0, samples));
    }
  }

  lemma {:induction false} WayBackCount(s0: Pins, samples: seq<Pins>)
    ensures Count(Final(s0, samples), WayBack(s0, samples)) == -Count(s0, samples)
    decreases |samples|
  {
    hide Delta, Missed, Position, Lap;
    if |samples| == 1 {
      OneStep(s0, samples[0]);
      assert WayBack(s0, samples) == [s0];
    } else if |samples| > 1 {
      var rest := samples[1..];
      WayBackCount(samples[0], rest);
      OneStep(s0, samples[0]);
      WayBackLonger(s0, samples);
      CountAppend(Final(s0, samples), WayBack(samples[0], rest), [s0]);
      assert Final(Final(s0, samples), WayBack(samples[0], rest)) == samples[0];
    }
  }

  lemma WayBackLonger(s0: Pins, samples: seq<Pins>)
    requires |samples| > 1
    ensures WayBack(s0, samples) == WayBack(samples[0], samples[1..]) + [s0]
  {
    var n, rest := |samples|, samples[1..];
    var a, b := Reverse(samples[..n - 1]), Reverse(rest[..n - 2]) + [samples[0]];
    forall i | 0 <= i < n - 1
      ensures a[i] == b[i]
    {
      assert a[i] == samples[n - 2 - i];
      assert i < n - 2 ==> b[i] == rest[n - 3 - i] == samples[n - 2 - i];
    }
    assert a == b;
  }

  // What the hardware counter shows after a run: Count, modulo 2^32.
  function Shown(c0: int, s0: Pins, samples: seq<Pins>): int
    decreases |samples|
  {
    if samples == [] then c0
    else Shown(if Delta(s0, samples[0]) == 0 then c0 else Wrap32(c0 + Delta(s0, samples[0])), samples[0], samples[1..])
  }

  // Wrap-around only ever shifts the counter by whole multiples of 2^32, which
  // the congruences do not see.
  lemma {:induction false} ShownIsCount(c0: int, s0: Pins, samples: seq<Pins>) returns (k: int)
    ensures Shown(c0, s0, samples) == c0 + Count(s0, samples) + 0x1_0000_0000 * k
    decreases |samples|
  {
    if samples == [] {
      k := 0;
    } else {
      hide Delta;
      var d := Delta(s0, samples[0]);
      var c1 := if d == 0 then c0 else Wrap32(c0 + d);
      var j := if d == 0 then 0 else -((c0 + d + 0x8000_0000) / 0x1_0000_0000);
      var rest := ShownIsCount(c1, samples[0], samples[1..]);
      k := rest + j;
    }
  }
}
