// Mark/space symbols and the receiver's timing tolerance
// (app/ir/ir_tx.h, app/ir/ir_decode.c).
module Symbols {
  type u16 = n: nat | n < 0x1_0000
  type u32 = n: nat | n < 0x1_0000_0000

  // Timers and cycle counters are 32 bits wide.
  const WRAP: nat := 0x1_0000_0000

  // Durations in microseconds: carrier on, then carrier off.
  datatype Symbol = Symbol(mark: u16, space: u16)

  // The +-25 % test of the decoder, with its integer divisions.
  predicate InRange(v: nat, ref: nat) {
    ref * 3 / 4 <= v <= ref * 5 / 4
  }

  // In whole microseconds: at least three quarters, less the rounding, and at most
  // five quarters.
  lemma InRangeIff(v: nat, ref: nat)
    ensures InRange(v, ref) <==> 3 * ref - 3 <= 4 * v <= 5 * ref
  {
    assert ref * 3 == 4 * (ref * 3 / 4) + ref * 3 % 4 && ref * 5 == 4 * (ref * 5 / 4) + ref * 5 % 4;
  }

  // An actual duration d, counted in ticks of 1/perUs microsecond, lies within
  // 25 % of ref microseconds.
  predicate Within25(d: nat, ref: nat, perUs: nat) {
    3 * ref * perUs <= 4 * d <= 5 * ref * perUs
  }

  lemma CancelFactor(a: int, b: int, c: int)
    requires c > 0 && a * c < b * c
    ensures a < b
  {
  }

  // Rounding a duration down to whole microseconds never leaves the decoder's window.
  lemma Within25IsInRange(d: nat, ref: nat, perUs: nat)
    requires perUs > 0 && Within25(d, ref, perUs)
    ensures InRange(d / perUs, ref)
  {
    var q := d / perUs;
    assert d == perUs * q + d % perUs;
    CancelFactor(3 * ref, 4 * (q + 1), perUs) by {
      assert 4 * (q + 1) * perUs == 4 * (perUs * q) + 4 * perUs;
    }
    CancelFactor(4 * q, 5 * ref + 1, perUs) by {
      assert 4 * q * perUs == 4 * (perUs * q);
      assert (5 * ref + 1) * perUs == 5 * ref * perUs + perUs;
    }
  }
}
