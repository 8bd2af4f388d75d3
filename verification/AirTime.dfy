// How long a frame occupies the carrier (app/ir/ir_codec_samsung_ac.c, app/ir/ir_tx.h).
module AirTime {
  import opened Bits
  import opened Symbols
  import opened SamsungCodec

  const SEND_TIMEOUT_US: nat := 3_000_000

  function AirUs(syms: seq<Symbol>): nat {
    if syms == [] then 0
    else AirUs(syms[..|syms| - 1]) + syms[|syms| - 1].mark + syms[|syms| - 1].space
  }

  function CountTrue(bits: seq<bool>): nat {
    if bits == [] then 0 else CountTrue(bits[..|bits| - 1]) + BoolToNat(bits[|bits| - 1])
  }

  lemma CountOne(bits: seq<bool>, k: nat)
    requires k < |bits|
    ensures CountTrue(bits[..k + 1]) == CountTrue(bits[..k]) + BoolToNat(bits[k])
  {
    assert bits[..k + 1][..k] == bits[..k];
  }

  lemma ByteBits(data: seq<byte>, i: nat)
    requires i < |data|
    ensures forall k :: 8 * i <= k < 8 * i + 8 ==> BitsOf(data)[k] == BitAt(data[i], k - 8 * i)
  {
    hide BitAt;
  }

  lemma {:induction false} CountByte(data: seq<byte>, i: nat)
    requires i < |data|
    ensures CountTrue(BitsOf(data)[..8 * i + 8]) == CountTrue(BitsOf(data)[..8 * i]) + Ones(data[i])
  {
    hide BitAt, CountTrue, Ones, BitsOf;
    var bits := BitsOf(data);
    ByteBits(data, i);
    CountOne(bits, 8 * i);
    CountOne(bits, 8 * i + 1);
    CountOne(bits, 8 * i + 2);
    CountOne(bits, 8 * i + 3);
    CountOne(bits, 8 * i + 4);
    CountOne(bits, 8 * i + 5);
    CountOne(bits, 8 * i + 6);
    CountOne(bits, 8 * i + 7);
    OnesByBits(data[i]);
  }

  lemma {:induction false} CountIsOnes(data: seq<byte>, i: nat)
    requires i <= |data|
    ensures CountTrue(BitsOf(data)[..8 * i]) == OnesIn(data[..i])
  {
    hide BitAt, Ones, BitsOf;
    if i > 0 {
      CountIsOnes(data, i - 1);
      CountByte(data, i - 1);
      assert data[..i][..i - 1] == data[..i - 1];
    }
  }

  lemma {:induction false} OnesInBound(data: seq<byte>)
    ensures OnesIn(data) <= 8 * |data|
    decreases |data|
  {
    hide Ones;
    if data != [] {
      OnesInBound(data[..|data| - 1]);
      OnesBounds(data[|data| - 1]);
    }
  }

  lemma AirStep(syms: seq<Symbol>, k: nat)
    requires k < |syms|
    ensures AirUs(syms[..k + 1]) == AirUs(syms[..k]) + syms[k].mark + syms[k].space
  {
    assert syms[..k + 1][..k] == syms[..k];
  }

  // Microseconds of the first j symbols of a section whose bits are all 0.
  function SectionUs(last: bool, j: nat): nat
    requires j <= 58
  {
    if j == 0 then 0 else if j <= 57 then 11950 + 1022 * (j - 1)
    else 11950 + 1022 * 56 + 586 + (if last then FINAL_GAP else GAP)
  }

  function BitsBefore(j: nat): nat {
    if j == 0 then 0 else if j <= 57 then j - 1 else 56
  }

  lemma {:induction false} AirOfPrefix(data: seq<byte>, s: nat, j: nat)
    requires |data| % 7 == 0 && s < |data| / 7 && j <= 58
    ensures AirUs(Encoding(data)[..1 + 58 * s + j]) ==
            18534 + 72654 * s + SectionUs(s + 1 == |data| / 7, j) + 996 * CountTrue(BitsOf(data)[..56 * s + BitsBefore(j)])
    decreases s, j
  {
    hide BitsOf, Encoding, CountTrue, AirUs;
    var syms := Encoding(data);
    if j > 0 {
      AirOfPrefix(data, s, j - 1);
      AirStep(syms, 1 + 58 * s + j - 1);
      EncodingAt(data, s, j - 1);
      if 2 <= j <= 57 {
        CountOne(BitsOf(data), 56 * s + j - 2);
      }
    } else if s > 0 {
      AirOfPrefix(data, s - 1, 58);
    } else {
      AirStart(data);
    }
  }

  lemma AirStart(data: seq<byte>)
    requires |data| % 7 == 0
    ensures AirUs(Encoding(data)[..1]) == 18534 && CountTrue(BitsOf(data)[..0]) == 0
  {
    hide BitsOf;
    EncodingStart(data);
    AirStep(Encoding(data), 0);
  }

  // The air time depends on the number of sections and of 1 bits only, and
  // every legal frame is far below the transmitter's timeout.
  lemma AirTimeClosedForm(data: seq<byte>)
    requires Encodable(data)
    ensures AirUs(Encoding(data)) == 35648 + 72654 * (|data| / 7) + 996 * OnesIn(data)
    ensures AirUs(Encoding(data)) <= 420938 < SEND_TIMEOUT_US
  {
    hide BitsOf, Encoding, CountTrue, AirUs, OnesIn;
    var n := |data| / 7;
    AirOfPrefix(data, n - 1, 58);
    CountIsOnes(data, |data|);
    OnesInBound(data);
    assert Encoding(data)[..1 + 58 * n] == Encoding(data) && data[..|data|] == data;
  }
}
