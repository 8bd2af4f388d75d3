// Cached air-conditioner state and its in-place edits (app/ir/ir_aircon.c).
module Aircon {
  import opened Bits
  import opened Symbols
  import opened SamsungCodec
  import opened IrDecode
  import IrLink

  const TEMP_MIN: nat := 16
  const TEMP_MAX: nat := 30
  const TEMP_BYTE: nat := 11
  const FRAME_SYMBOLS: nat := 175

  datatype Status = Ok | NotReady | InvalidArg | InvalidState | NotImplemented | TxFailed | EncodeFailed
  datatype Brand = Samsung | OtherBrand | UnknownBrand
  datatype Action = PowerOn | PowerOff | TempUp | TempDown

  const ON_14: seq<byte> := [0x02, 0x92, 0x0F, 0x00, 0x00, 0x00, 0xF0, 0x01, 0xE2, 0xFE, 0x71, 0x80, 0x11, 0xF0]
  const LEARNED_ON_7: seq<byte> := [0x01, 0xE2, 0xFE, 0x01, 0x60, 0x1B, 0xF0]
  const LEARNED_OFF_14: seq<byte> := [0x01, 0xC2, 0x0F, 0x00, 0x00, 0x20, 0x00, 0x01, 0x02, 0xFF, 0x01, 0x80, 0x1F, 0xC0]
  const LEARNED_UP_7: seq<byte> := [0x01, 0xD2, 0xFE, 0x01, 0x70, 0x1B, 0xF0]
  const LEARNED_DOWN_7: seq<byte> := [0x01, 0xE2, 0xFE, 0x01, 0x50, 0x1B, 0xF0]

  function LearnedFrame(action: Action): (frame: seq<byte>)
    ensures |frame| % 7 == 0
  {
    match action
    case PowerOn => LEARNED_ON_7
    case PowerOff => LEARNED_OFF_14
    case TempUp => LEARNED_UP_7
    case TempDown => LEARNED_DOWN_7
  }

  function Clamp(t: nat): (c: nat)
    ensures TEMP_MIN <= c <= TEMP_MAX
    ensures 16 <= t <= 30 ==> c == t
    ensures t < 16 ==> c == 16
    ensures t > 30 ==> c == 30
  {
    if t < TEMP_MIN then TEMP_MIN else if t > TEMP_MAX then TEMP_MAX else t
  }

  // The temperature field: the high nibble of a byte.
  function WithNibble(b: byte, nib: nat): byte
    requires nib < 16
  {
    (b & 0x0F) | (((nib as byte) & 0x0F) << 4)
  }

  function HighNibble(b: byte): nat {
    ((b >> 4) & 0x0F) as nat
  }

  lemma NibbleLaws(b: byte, n: nat)
    requires n < 16
    ensures HighNibble(WithNibble(b, n)) == n && WithNibble(b, n) >> 4 == n as byte
    ensures WithNibble(b, n) & 0x0F == b & 0x0F
  {
  }

  lemma HighNibbleIs(b: byte)
    ensures HighNibble(b) == (b >> 4) as nat
  {
  }

  lemma NibbleOverwrites(b: byte, n: nat, m: nat)
    requires n < 16 && m < 16
    ensures WithNibble(WithNibble(b, n), m) == WithNibble(b, m)
  {
  }

  // The 14-byte state for a temperature: the power-on template with that
  // temperature filled in and both checksums rewritten.
  function StateFor(temp: nat): (s: seq<byte>)
    requires TEMP_MIN <= temp <= TEMP_MAX
  {
    Fixed(ON_14[..7]) + Fixed(ON_14[7..][4 := WithNibble(ON_14[TEMP_BYTE], temp - TEMP_MIN)])
  }

  // ------------------------------------------------------------------
  // State and events
  // ------------------------------------------------------------------

  datatype State = State(power: bool, bytes: seq<byte>)

  // What a call does to the cache. PowerOn and PowerOff take effect only when
  // the frame was transmitted; a temperature request edits the cache first.
  datatype Event = Reset | TurnedOn(sent: bool) | TurnedOff(sent: bool) | Requested(temp: nat) | Nothing

  function Edited(bytes: seq<byte>, temp: nat): (e: seq<byte>)
    requires |bytes| == 14
  {
    var b := bytes[TEMP_BYTE := WithNibble(bytes[TEMP_BYTE], Clamp(temp) - TEMP_MIN)];
    Fixed(b[..7]) + Fixed(b[7..])
  }

  function Apply(st: State, e: Event): State
    requires |st.bytes| == 14
  {
    match e
    case Reset => State(false, seq(14, _ => 0))
    case TurnedOn(sent) => if sent then State(true, ON_14) else st
    case TurnedOff(sent) => if sent then st.(power := false) else st
    case Requested(t) => if st.power then st.(bytes := Edited(st.bytes, t)) else st
    case Nothing => st
  }

  lemma ApplyKeepsLength(st: State, e: Event)
    requires |st.bytes| == 14
    ensures |Apply(st, e).bytes| == 14
  {
    hide WithNibble;
    if e.Requested? {
      FixEstablishes(st.bytes[..7]);
      FixEstablishes(st.bytes[7..]);
    }
  }

  // What an edit leaves in the temperature byte.
  lemma EditShows(bytes: seq<byte>, temp: nat)
    requires |bytes| == 14
    ensures var e := Edited(bytes, temp);
            |e| == 14 && HighNibble(e[11]) == (e[11] >> 4) as nat == Clamp(temp) - 16
  {
    hide WithNibble, HighNibble, ChecksumFor, DataOnes;
    var b := bytes[TEMP_BYTE := WithNibble(bytes[TEMP_BYTE], Clamp(temp) - TEMP_MIN)];
    NibbleLaws(bytes[TEMP_BYTE], Clamp(temp) - TEMP_MIN);
    FixEstablishes(b[..7]);
    FixEstablishes(b[7..]);
    assert Edited(bytes, temp)[11] == Fixed(b[7..])[4] == b[11];
    HighNibbleIs(b[11]);
  }

  function TempShown(st: State): nat
    requires |st.bytes| == 14
  {
    if st.power then HighNibble(st.bytes[TEMP_BYTE]) + TEMP_MIN else 0
  }

  class Controller {
    const sam14: array<byte>
    var power: bool
    var inited: bool
    var txReady: bool
    ghost var onAir: seq<seq<Symbol>> // frames the transmitter accepted

    ghost predicate Valid()
      reads this
    {
      sam14.Length == 14
    }

    ghost function Model(): State
      reads this, sam14
    {
      State(power, sam14[..])
    }

    constructor (tx: bool)
      ensures Valid() && fresh(sam14) && Model() == State(false, seq(14, _ => 0)) && !inited && txReady == tx && onAir == []
    {
      sam14 := new byte[14](_ => 0);
      power, inited, txReady, onAir := false, false, tx, [];
    }

    // ir_aircon_init; up is the answer of the transmitter's own initialisation.
    method Init(up: int) returns (rc: Status)
      requires Valid()
      modifies this, sam14
      ensures Valid() && inited && onAir == old(onAir)
      ensures Model() == Apply(old(Model()), Reset)
      ensures txReady == (old(txReady) || up == 0) && rc == if txReady then Ok else NotReady
    {
      inited := true;
      forall i | 0 <= i < 14 { sam14[i] := 0; }
      power := false;
      if !txReady {
        if up != 0 { return NotReady; }
        txReady := true;
      }
      return Ok;
    }

    // send_symbol_frame; sent is the transmitter's answer.
    method SendSymbolFrame(bytes: seq<byte>, sent: int) returns (rc: Status)
      requires Valid()
      modifies this`onAir
      ensures rc == if !Encodable(bytes) then EncodeFailed else if sent == 0 then Ok else TxFailed
      ensures rc == Ok ==> onAir == old(onAir) + [Encoding(bytes)]
      ensures rc != Ok ==> onAir == old(onAir)
    {
      hide Encoding;
      var syms := new Symbol[FRAME_SYMBOLS](_ => Symbol(0, 0));
      var n := Encode(bytes, syms);
      if n < 0 { return EncodeFailed; }
      if sent != 0 { return TxFailed; }
      onAir := onAir + [syms[..n]];
      return Ok;
    }

    method SetTempLocked(temp: nat)
      requires Valid()
      modifies sam14
      ensures sam14[..] == old(sam14[..])[TEMP_BYTE := WithNibble(old(sam14[TEMP_BYTE]), Clamp(temp) - TEMP_MIN)]
    {
      hide WithNibble;
      var t := temp;
      if t < TEMP_MIN { t := TEMP_MIN; }
      if t > TEMP_MAX { t := TEMP_MAX; }
      var nib := t - TEMP_MIN;
      sam14[TEMP_BYTE] := WithNibble(sam14[TEMP_BYTE], nib);
    }

    method GetTempC(brand: Brand) returns (t: nat)
      requires Valid()
      ensures t == if brand == Samsung && inited then TempShown(Model()) else 0
      ensures t == if brand == Samsung && inited && power then (sam14[11] >> 4) as nat + 16 else 0
    {
      if brand != Samsung { return 0; }
      if !inited { return 0; }
      HighNibbleIs(sam14[TEMP_BYTE]);
      t := if power then HighNibble(sam14[TEMP_BYTE]) + TEMP_MIN else 0;
    }

    // ir_aircon_set_temp_c: the temperature asked for is cached, shown, and in the frame
    // that is sent, which decodes to the cache; sent is the transmitter's answer.
    method SetTempC(brand: Brand, temp: nat, sent: int) returns (rc: Status)
      requires Valid()
      modifies this`onAir, sam14
      ensures Valid()
      ensures rc == if !inited || !txReady then NotReady else if brand != Samsung then NotImplemented
                    else if !power then InvalidState else if sent == 0 then Ok else TxFailed
      ensures Model() == Apply(old(Model()), if inited && txReady && brand == Samsung then Requested(temp) else Nothing)
      ensures rc == Ok || rc == TxFailed ==>
                && 16 <= TempShown(Model()) <= 30 && (sam14[11] >> 4) as nat == TempShown(Model()) - 16
                && TempShown(Model()) == if temp < 16 then 16 else if temp > 30 then 30 else temp
      ensures rc != Ok ==> onAir == old(onAir)
      ensures rc == Ok ==> |onAir| == |old(onAir)| + 1 && onAir[..|old(onAir)|] == old(onAir) &&
                           Recognized(onAir[|old(onAir)|]) == Some(NOTHING.(proto := SAMSUNG_AC, rawBytes := sam14[..]))
    {
      hide WithNibble, HighNibble, Encoding, Recognized, Fixed;
      if !inited || !txReady { return NotReady; }
      if brand != Samsung { return NotImplemented; }
      if !power { return InvalidState; }
      EditShows(sam14[..], temp);
      SetTempLocked(temp);
      ghost var edited := sam14[..];
      assert sam14[..7] == edited[..7] && sam14[7..] == edited[7..];
      FixChecksums14(sam14);
      assert sam14[..] == sam14[..7] + sam14[7..];
      rc := SendSymbolFrame(sam14[..], sent);
      if rc == Ok {
        EncodedDecodes(sam14[..]);
      }
    }

    // exec_samsung_learned; sent is the transmitter's answer.
    method ExecLearned(action: Action, sent: int) returns (rc: Status)
      requires Valid()
      modifies this`onAir, this`power, sam14
      ensures rc == if sent == 0 then Ok else TxFailed
      ensures Model() == Apply(old(Model()), match action
                                             case PowerOn => TurnedOn(rc == Ok)
                                             case PowerOff => TurnedOff(rc == Ok)
                                             case _ => Nothing)
      ensures onAir == old(onAir) + (if rc == Ok then [Encoding(LearnedFrame(action))] else [])
    {
      hide Encoding;
      match action
      case PowerOn =>
        rc := SendSymbolFrame(LEARNED_ON_7, sent);
        if rc == Ok {
          forall i | 0 <= i < 14 { sam14[i] := ON_14[i]; }
          assert sam14[..] == ON_14;
          power := true;
        }
      case PowerOff =>
        rc := SendSymbolFrame(LEARNED_OFF_14, sent);
        if rc == Ok { power := false; }
      case TempUp =>
        rc := SendSymbolFrame(LEARNED_UP_7, sent);
      case TempDown =>
        rc := SendSymbolFrame(LEARNED_DOWN_7, sent);
    }

    // ir_aircon_send; an action code out of range is None. The frames recorded from the
    // remote go out as they are, and the cache follows only the power.
    method Send(brand: Brand, action: Option<Action>, sent: int) returns (rc: Status)
      requires Valid()
      modifies this`onAir, this`power, sam14
      ensures rc == if !inited || !txReady then NotReady
                    else if action.None? || brand == UnknownBrand then InvalidArg
                    else if brand == OtherBrand then NotImplemented
                    else if sent == 0 then Ok else TxFailed
      ensures rc != Ok ==> onAir == old(onAir) && power == old(power) && sam14[..] == old(sam14[..])
      ensures rc == Ok ==>
                && onAir == old(onAir) + [Encoding(
                     match action.value
                     case PowerOn => [0x01, 0xE2, 0xFE, 0x01, 0x60, 0x1B, 0xF0]
                     case PowerOff => [0x01, 0xC2, 0x0F, 0x00, 0x00, 0x20, 0x00, 0x01, 0x02, 0xFF, 0x01, 0x80, 0x1F, 0xC0]
                     case TempUp => [0x01, 0xD2, 0xFE, 0x01, 0x70, 0x1B, 0xF0]
                     case TempDown => [0x01, 0xE2, 0xFE, 0x01, 0x50, 0x1B, 0xF0])]
                && power == (action.value == PowerOn || (old(power) && action.value != PowerOff))
                && sam14[..] == if action.value == PowerOn then ON_14 else old(sam14[..])
    {
      if !inited || !txReady { return NotReady; }
      if action.None? { return InvalidArg; }
      match brand
      case Samsung =>
        rc := ExecLearned(action.value, sent);
        assert sam14[..] == Model().bytes && power == Model().power;
      case OtherBrand => rc := NotImplemented;
      case UnknownBrand => rc := InvalidArg;
    }

    // ir_aircon_samsung_send_raw: with fixCs the frame on the air carries valid
    // checksums and differs from the caller's frame in checksum nibbles only.
    method SendRaw(frame: seq<byte>, fixCs: bool, sent: int) returns (rc: Status)
      requires Valid()
      modifies this`onAir
      ensures !txReady ==> rc == NotReady
      ensures txReady && !Encodable(frame) ==> rc == InvalidArg
      ensures txReady && Encodable(frame) ==> rc == if sent == 0 then Ok else TxFailed
      ensures rc != Ok ==> onAir == old(onAir)
      ensures rc == Ok ==>
                && Encodable(frame)
                && |onAir| == |old(onAir)| + 1
                && onAir[..|old(onAir)|] == old(onAir)
                && (!fixCs ==> onAir[|old(onAir)|] == Encoding(frame))
                && (fixCs ==> exists out :: SameData(out, frame) && onAir[|old(onAir)|] == Encoding(out))
    {
      hide Encoding, SameData;
      if !txReady { return NotReady; }
      if |frame| == 0 || |frame| % 7 != 0 || |frame| > MAX_BYTES { return InvalidArg; }
      var scratch := new byte[MAX_BYTES](_ => 0);
      forall i | 0 <= i < |frame| { scratch[i] := frame[i]; }
      assert scratch[..|frame|] == frame;
      if fixCs {
        FixAll(scratch, frame);
      }
      ghost var out := scratch[..|frame|];
      assert fixCs ==> SameData(out, frame);
      rc := SendSymbolFrame(scratch[..|frame|], sent);
    }

    // The loop of ir_aircon_samsung_send_raw over the sections of its copy.
    static method FixAll(scratch: array<byte>, frame: seq<byte>)
      requires |frame| <= scratch.Length && |frame| % 7 == 0 && scratch[..|frame|] == frame
      modifies scratch
      ensures SameData(scratch[..|frame|], frame)
    {
      hide Fixed;
      var s := 0;
      ghost var done := 0;
      while s < |frame|
        invariant s == 7 * done && done <= |frame| / 7
        invariant scratch[s..|frame|] == frame[s..]
        invariant forall i :: 0 <= i < done ==> SectionOf(scratch[..], i) == Fixed(SectionOf(frame, i))
      {
        ghost var before := scratch[..];
        assert before[s..|frame|] == scratch[s..|frame|] && before[s..s + 7] == scratch[s..s + 7];
        FixChecksum(scratch, s);
        ghost var after := scratch[..];
        assert after[s..s + 7] == scratch[s..s + 7];
        assert after[..s] == before[..s] && after[s + 7..] == before[s + 7..];
        OneMoreFixed(before, after, frame, done);
        assert scratch[s + 7..|frame|] == after[s + 7..|frame|];
        s := s + 7;
        done := done + 1;
      }
      AllFixed(scratch[..], frame);
      assert scratch[..][..|frame|] == scratch[..|frame|];
    }
  }

  // The same sections with valid checksums.
  predicate SameData(out: seq<byte>, frame: seq<byte>) {
    && |out| == |frame| && |frame| % 7 == 0
    && forall i :: 0 <= i < |frame| / 7 ==> Verifies(SectionOf(out, i)) && DataPart(SectionOf(out, i)) == DataPart(SectionOf(frame, i))
  }

  // Fixing section `done` in place keeps those before it and leaves those behind it.
  lemma OneMoreFixed(before: seq<byte>, after: seq<byte>, frame: seq<byte>, done: nat)
    requires var s := 7 * done; s + 7 <= |frame| <= |before| == |after|
    requires var s := 7 * done; before[s..|frame|] == frame[s..] && after[s..s + 7] == Fixed(before[s..s + 7])
    requires var s := 7 * done; after[..s] == before[..s] && after[s + 7..] == before[s + 7..]
    requires forall i :: 0 <= i < done ==> SectionOf(before, i) == Fixed(SectionOf(frame, i))
    ensures forall i :: 0 <= i < done + 1 ==> SectionOf(after, i) == Fixed(SectionOf(frame, i))
    ensures after[7 * done + 7..|frame|] == frame[7 * done + 7..]
  {
    hide Fixed;
    var s := 7 * done;
    Slice(before, s, |frame|, 0, 7);
    assert frame[s..][0..7] == SectionOf(frame, done);
    assert SectionOf(after, done) == Fixed(SectionOf(frame, done));
    assert after[0..s] == after[..s] && before[0..s] == before[..s];
    forall i | 0 <= i < done
      ensures SectionOf(after, i) == SectionOf(before, i)
    {
      Slice(after, 0, s, 7 * i, 7 * i + 7);
      Slice(before, 0, s, 7 * i, 7 * i + 7);
    }
    Slice(after, s + 7, |after|, 0, |frame| - s - 7);
    Slice(before, s + 7, |before|, 0, |frame| - s - 7);
    Slice(before, s, |frame|, 7, |frame| - s);
    assert after[s + 7..|after|] == after[s + 7..] && before[s + 7..|before|] == before[s + 7..];
    assert frame[s..][7..|frame| - s] == frame[s + 7..];
  }

  lemma Slice(a: seq<byte>, lo: nat, hi: nat, from: nat, to: nat)
    requires lo <= hi <= |a| && from <= to <= hi - lo
    ensures a[lo..hi][from..to] == a[lo + from..lo + to]
  {
    forall k | 0 <= k < to - from
      ensures a[lo..hi][from..to][k] == a[lo + from..lo + to][k]
    {
      assert a[lo..hi][from + k] == a[lo + (from + k)];
    }
  }

  lemma AllFixed(scratch: seq<byte>, frame: seq<byte>)
    requires |frame| % 7 == 0 && |frame| <= |scratch|
    requires forall i :: 0 <= i < |frame| / 7 ==> SectionOf(scratch, i) == Fixed(SectionOf(frame, i))
    ensures SameData(scratch[..|frame|], frame)
  {
    hide Fixed, Verifies, DataPart;
    var out := scratch[..|frame|];
    forall i | 0 <= i < |frame| / 7
      ensures Verifies(SectionOf(out, i)) && DataPart(SectionOf(out, i)) == DataPart(SectionOf(frame, i))
    {
      assert SectionOf(out, i) == SectionOf(scratch, i);
      FixEstablishes(SectionOf(frame, i));
    }
  }

  lemma EncodedDecodes(data: seq<byte>)
    requires Encodable(data)
    ensures Recognized(Encoding(data)) == Some(NOTHING.(proto := SAMSUNG_AC, rawBytes := data))
  {
    hide Encoding, Recognized;
    forall k | 0 <= k < |Encoding(data)|
      ensures IrLink.ReadsAs(Encoding(data)[k], Encoding(data)[k])
    {
    }
    IrLink.RoundTrip(Encoding(data), data);
  }

  // ------------------------------------------------------------------
  // All runs
  // ------------------------------------------------------------------

  lemma TemplateIsState24()
    ensures ON_14 == StateFor(24)
  {
    hide Fixed;
    var first, second := ON_14[..7], ON_14[7..];
    TemplateOnes();
    ValidIsFixedPoint(first);
    ValidIsFixedPoint(second);
    assert WithNibble(0x80, 8) == 0x80;
    assert second[4 := WithNibble(ON_14[TEMP_BYTE], 8)] == second;
    assert first + second == ON_14;
  }

  lemma TemplateOnes()
    ensures Verifies(ON_14[..7]) && Verifies(ON_14[7..])
  {
    hide Ones, Data1, Data2, Stored1;
    TemplateBytes();
    TemplateNibbles();
  }

  lemma TemplateBytes()
    ensures Ones(0x00) == 0 && Ones(0x01) == 1 && Ones(0x02) == 1 && Ones(0x80) == 1
    ensures Ones(0x11) == 2 && Ones(0x71) == 4 && Ones(0xF0) == 4
  {
    OnesByBits(0x01);
    OnesByBits(0x02);
    OnesByBits(0x80);
    OnesByBits(0x11);
    OnesByBits(0x71);
    OnesByBits(0xF0);
  }

  lemma TemplateNibbles()
    ensures Data1(0x92) == 0x02 && Data2(0x0F) == 0x00 && Stored1(0x92, 0x0F) == 0xF9
    ensures Data1(0xE2) == 0x02 && Data2(0xFE) == 0xF0 && Stored1(0xE2, 0xFE) == 0xEE
  {
  }

  // Setting a temperature takes the state of any temperature to the state of the new one.
  lemma EditMovesState(temp: nat, request: nat)
    requires TEMP_MIN <= temp <= TEMP_MAX
    ensures |StateFor(temp)| == 14 && Edited(StateFor(temp), request) == StateFor(Clamp(request))
  {
    hide WithNibble, ChecksumFor, DataOnes, WithChecksum, Clamp;
    var a, b := ON_14[..7], ON_14[7..];
    var old4, new4 := WithNibble(b[4], temp - TEMP_MIN), WithNibble(b[4], Clamp(request) - TEMP_MIN);
    DataOnesBound(a);
    DataOnesBound(b[4 := old4]);
    var csA, csB := ChecksumFor(DataOnes(a)), ChecksumFor(DataOnes(b[4 := old4]));
    NibbleOverwrites(b[4], temp - TEMP_MIN, Clamp(request) - TEMP_MIN);
    EditedParts(a, b, csA, csB, old4, new4);
    FixForgets(a, csA);
    FixForgets(b[4 := new4], csB);
  }

  // Replacing byte 11 of two sections replaces byte 4 of the second.
  lemma EditedParts(a: seq<byte>, b: seq<byte>, csA: byte, csB: byte, old4: byte, new4: byte)
    requires |a| == 7 && |b| == 7
    ensures var s := WithChecksum(a, csA) + WithChecksum(b[4 := old4], csB);
            && |s| == 14 && s[TEMP_BYTE] == old4
            && s[TEMP_BYTE := new4][..7] == WithChecksum(a, csA)
            && s[TEMP_BYTE := new4][7..] == WithChecksum(b[4 := new4], csB)
  {
    hide Put1, Put2;
  }

  function Run(st: State, es: seq<Event>): (r: State)
    requires |st.bytes| == 14
    ensures |r.bytes| == 14
    decreases |es|
  {
    if es == [] then st
    else
      var before := Run(st, es[..|es| - 1]);
      ApplyKeepsLength(before, es[|es| - 1]);
      Apply(before, es[|es| - 1])
  }

  // The temperature asked for since the last successful power-on; 24 if none.
  function Wanted(es: seq<Event>): (t: nat)
    ensures 16 <= t <= 30
  {
    if es == [] then 24
    else
      match es[|es| - 1]
      case TurnedOn(true) => 24
      case Requested(t) => if t < 16 then 16 else if t > 30 then 30 else t
      case _ => Wanted(es[..|es| - 1])
  }

  // After any run, a powered unit's cache is exactly the state of the wanted temperature.
  lemma {:induction false} CacheIsWantedState(st: State, es: seq<Event>)
    requires |st.bytes| == 14 && !st.power
    ensures Run(st, es).power ==> Run(st, es).bytes == StateFor(Wanted(es))
    decreases |es|
  {
    hide StateFor, Edited, WithNibble;
    if es != [] {
      var front, e := es[..|es| - 1], es[|es| - 1];
      CacheIsWantedState(st, front);
      match e
      case TurnedOn(sent) => TemplateIsState24();
      case Requested(t) => EditMovesState(Wanted(front), t);
      case _ =>
    }
  }

  // Hence both sections verify, the shown temperature is the wanted one, and
  // every bit outside the temperature and the checksums is the template's.
  lemma StateForLaws(temp: nat)
    requires TEMP_MIN <= temp <= TEMP_MAX
    ensures var s := StateFor(temp);
            && |s| == 14 && Verifies(s[..7]) && Verifies(s[7..])
            && HighNibble(s[TEMP_BYTE]) + TEMP_MIN == temp
            && s[TEMP_BYTE] & 0x0F == ON_14[TEMP_BYTE] & 0x0F
            && DataPart(s[..7]) == DataPart(ON_14[..7])
            && DataPart(s[7..])[4 := ON_14[TEMP_BYTE]] == DataPart(ON_14[7..])
  {
    hide WithNibble, HighNibble, Verifies, ChecksumFor, DataOnes, Put1, Put2, Data1, Data2;
    var a, b := ON_14[..7], ON_14[7..];
    var b' := b[4 := WithNibble(b[4], temp - TEMP_MIN)];
    NibbleLaws(b[4], temp - TEMP_MIN);
    FixEstablishes(a);
    FixEstablishes(b');
    DataOnesBound(b');
    var s := StateFor(temp);
    assert s[..7] == Fixed(a) && s[7..] == Fixed(b');
    assert s[TEMP_BYTE] == Fixed(b')[4] == b'[4];
    assert DataPart(b')[4 := b[4]] == DataPart(b);
  }

  lemma PoweredInvariant(st: State, es: seq<Event>)
    requires |st.bytes| == 14 && !st.power && Run(st, es).power
    ensures var r := Run(st, es);
            && Verifies(r.bytes[..7]) && Verifies(r.bytes[7..])
            && TempShown(r) == Wanted(es)
            && r.bytes[TEMP_BYTE] & 0x0F == ON_14[TEMP_BYTE] & 0x0F
            && DataPart(r.bytes[..7]) == DataPart(ON_14[..7])
            && DataPart(r.bytes[7..])[4 := ON_14[TEMP_BYTE]] == DataPart(ON_14[7..])
  {
    hide StateFor, Verifies, DataPart, HighNibble;
    CacheIsWantedState(st, es);
    StateForLaws(Wanted(es));
  }
}
