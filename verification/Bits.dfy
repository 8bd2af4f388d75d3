// Bytes, the bits inside them and the order in which they travel (least
// significant bit first).
module Bits {
  type byte = bv8

  datatype Option<+T> = None | Some(value: T)

  // The byte with only bit k set.
  function Mask(k: nat): byte
    requires k < 8
  {
    if k == 0 then 0x01 else if k == 1 then 0x02 else if k == 2 then 0x04 else if k == 3 then 0x08
    else if k == 4 then 0x10 else if k == 5 then 0x20 else if k == 6 then 0x40 else 0x80
  }

  predicate BitAt(v: byte, k: nat)
    requires k < 8
  {
    v & Mask(k) != 0
  }

  function BoolToNat(b: bool): nat {
    if b then 1 else 0
  }

  // Number of 1 bits.
  function Ones(v: byte): nat
    decreases v
  {
    if v == 0 then 0 else (v & 1) as nat + Ones(v >> 1)
  }

  lemma OnesByBits(v: byte)
    ensures Ones(v) == BoolToNat(BitAt(v, 0)) + BoolToNat(BitAt(v, 1)) + BoolToNat(BitAt(v, 2)) + BoolToNat(BitAt(v, 3)) +
                       BoolToNat(BitAt(v, 4)) + BoolToNat(BitAt(v, 5)) + BoolToNat(BitAt(v, 6)) + BoolToNat(BitAt(v, 7))
  {
    OnesHalf(v);
    OnesHalf(v >> 4);
    assert (v >> 4) >> 4 == 0;
    assert Ones(0) == 0;
    HighBits(v);
  }

  lemma OnesHalf(v: byte)
    ensures Ones(v) == BoolToNat(BitAt(v, 0)) + BoolToNat(BitAt(v, 1)) + BoolToNat(BitAt(v, 2)) + BoolToNat(BitAt(v, 3)) + Ones(v >> 4)
  {
    var v1, v2, v3, v4 := v >> 1, v >> 2, v >> 3, v >> 4;
    assert v1 == v >> 1 && v2 == v1 >> 1 && v3 == v2 >> 1 && v4 == v3 >> 1;
    assert Ones(v) == (v & 1) as nat + Ones(v1);
    assert Ones(v1) == (v1 & 1) as nat + Ones(v2);
    assert Ones(v2) == (v2 & 1) as nat + Ones(v3);
    assert Ones(v3) == (v3 & 1) as nat + Ones(v4);
  }

  lemma HighBits(v: byte)
    ensures BitAt(v >> 4, 0) == BitAt(v, 4) && BitAt(v >> 4, 1) == BitAt(v, 5)
    ensures BitAt(v >> 4, 2) == BitAt(v, 6) && BitAt(v >> 4, 3) == BitAt(v, 7)
  {
  }

  // The bits of a byte string in transmission order.
  function BitsOf(bytes: seq<byte>): (bits: seq<bool>)
    ensures |bits| == 8 * |bytes|
  {
    seq(8 * |bytes|, k requires 0 <= k < 8 * |bytes| => BitAt(bytes[k / 8], k % 8))
  }

  // One received bit placed at position k: cur | (bit << k).
  function OrBit(cur: byte, bit: bool, k: nat): byte
    requires k < 8
  {
    cur | (if bit then (1 as byte) << k else 0)
  }

  // What OR-ing each received bit into a byte at increasing positions yields.
  function Assemble(bits: seq<bool>): byte
    requires |bits| <= 8
  {
    if bits == [] then 0
    else OrBit(Assemble(bits[..|bits| - 1]), bits[|bits| - 1], |bits| - 1)
  }

  // Whole bytes only: trailing bits that do not fill a byte are dropped.
  function BytesOf(bits: seq<bool>): (bytes: seq<byte>)
    ensures |bytes| == |bits| / 8
  {
    seq(|bits| / 8, i requires 0 <= i < |bits| / 8 => Assemble(bits[8 * i..8 * i + 8]))
  }

  lemma ShiftLeftIsMask(k: nat)
    requires k < 8
    ensures (1 as byte) << k == Mask(k)
  {
    if k == 0 {} else if k == 1 {} else if k == 2 {} else if k == 3 {}
    else if k == 4 {} else if k == 5 {} else if k == 6 {} else {}
  }

  lemma ShiftRightIsBitAt(v: byte, k: nat)
    requires k < 8
    ensures (v >> k) & 1 == (if BitAt(v, k) then 1 else 0)
  {
    if k == 0 {} else if k == 1 {} else if k == 2 {} else if k == 3 {}
    else if k == 4 {} else if k == 5 {} else if k == 6 {} else {}
  }

  // The low k bits of v.
  function LowBits(v: byte, k: nat): byte
    requires k <= 8
  {
    if k == 8 then v else v & (Mask(k) - 1)
  }

  lemma {:induction false} AssembleLow(v: byte, bits: seq<bool>)
    requires |bits| <= 8
    requires forall k :: 0 <= k < |bits| ==> bits[k] == BitAt(v, k)
    ensures Assemble(bits) == LowBits(v, |bits|)
  {
    hide BitAt, OrBit, LowBits;
    if bits == [] {
      LowBitsEnds(v);
    } else {
      var k := |bits| - 1;
      AssembleLow(v, bits[..k]);
      LowBitsStep(v, k);
    }
  }

  lemma LowBitsEnds(v: byte)
    ensures LowBits(v, 0) == 0 && LowBits(v, 8) == v
  {
  }

  lemma LowBitsStep(v: byte, k: nat)
    requires k < 8
    ensures OrBit(LowBits(v, k), BitAt(v, k), k) == LowBits(v, k + 1)
  {
    ShiftLeftIsMask(k);
    if k == 0 {} else if k == 1 {} else if k == 2 {} else if k == 3 {}
    else if k == 4 {} else if k == 5 {} else if k == 6 {} else {}
  }

  // Reading bytes back from their bits is the identity.
  lemma BytesOfBitsOf(bytes: seq<byte>)
    ensures BytesOf(BitsOf(bytes)) == bytes
  {
    hide BitAt, LowBits, Assemble;
    var bits := BitsOf(bytes);
    forall i | 0 <= i < |bytes|
      ensures BytesOf(bits)[i] == bytes[i]
    {
      AssembleLow(bytes[i], bits[8 * i..8 * i + 8]);
      LowBitsEnds(bytes[i]);
    }
  }
}
