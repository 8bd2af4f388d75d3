// The OTA slot writer (app/ota/app_ota.c) over a NOR-like flash slot.
module OtaStore {
  import opened Bits

  const U32_MAX: nat := 0xFFFF_FFFF
  const MAX_CHUNK: nat := 0xFFFF

  datatype Phase = IDLE | READY | WRITING | COMMITTED | FAILED
  datatype Err = OK | PARAM | INVALID_STATE | INVALID_OFFSET | WRITE_FAILED | COMMIT_FAILED | ABORTED

  // The module's variables, the slot, and what a run is judged by: how often each
  // byte was programmed since the last erase, the chunks accepted since the
  // last begin, and whether a write ever went through a closed handle.
  datatype Ota = Ota(inited: bool, state: Phase, lastErr: Err, received: nat, total: nat, ready: bool, open: bool,
                     slot: seq<byte>, burns: seq<nat>, accepted: seq<seq<byte>>, fault: bool)

  // What the flash driver may do during begin and during a write. A failed erase
  // or write may leave anything behind.
  datatype EraseEnv = OpenFails | EraseFails(junk: seq<byte>) | Erases
  datatype WriteEnv = Writes | WriteFails(junk: seq<byte>)

  function Ones8(n: nat): (s: seq<byte>)
    ensures |s| == n
  {
    seq(n, _ => 0xFF)
  }

  function Zeros(n: nat): (s: seq<nat>)
    ensures |s| == n
  {
    seq(n, _ => 0)
  }

  // NOR programming can only clear bits.
  function Program(slot: seq<byte>, off: nat, data: seq<byte>): (s: seq<byte>)
    requires off + |data| <= |slot|
    ensures |s| == |slot|
  {
    slot[..off] + seq(|data|, i requires 0 <= i < |data| => slot[off + i] & data[i]) + slot[off + |data|..]
  }

  function Splice(slot: seq<byte>, off: nat, junk: seq<byte>): (s: seq<byte>)
    ensures |s| == |slot|
  {
    if off + |junk| <= |slot| then slot[..off] + junk + slot[off + |junk|..] else slot
  }

  // What a failed write leaves, within the place it was to fill.
  function Torn(junk: seq<byte>, data: seq<byte>): seq<byte> {
    if |junk| <= |data| then junk else []
  }

  function Burn(burns: seq<nat>, off: nat, len: nat): (b: seq<nat>)
    requires off + len <= |burns|
    ensures |b| == |burns|
  {
    burns[..off] + seq(len, i requires 0 <= i < len => burns[off + i] + 1) + burns[off + len..]
  }

  function Concat(chunks: seq<seq<byte>>): seq<byte> {
    if chunks == [] then [] else Concat(chunks[..|chunks| - 1]) + chunks[|chunks| - 1]
  }

  // ------------------------------------------------------------------
  // The calls, each as the critical section it runs under the mutex
  // ------------------------------------------------------------------

  function InitStep(o: Ota): Ota {
    o.(inited := true, state := IDLE, lastErr := OK, received := 0, total := 0, ready := false, open := false)
  }

  function BeginStep(o: Ota, total: nat, env: EraseEnv): (r: (Ota, Err))
    requires |o.burns| == |o.slot|
    ensures |r.0.burns| == |r.0.slot| == |o.slot|
  {
    if !o.inited then (o, INVALID_STATE)
    else if total == 0 then (o, PARAM)
    else
      var c := o.(open := false, ready := false, received := 0, total := 0, accepted := []);
      if env.OpenFails? then (c.(state := FAILED, lastErr := WRITE_FAILED), WRITE_FAILED)
      else if total > |o.slot| then (c.(state := FAILED, lastErr := PARAM), PARAM)
      else if env.EraseFails? then (c.(slot := Splice(o.slot, 0, env.junk), state := FAILED, lastErr := WRITE_FAILED), WRITE_FAILED)
      else (c.(slot := Ones8(|o.slot|), burns := Zeros(|o.slot|), open := true, ready := true,
               state := READY, lastErr := OK, total := total), OK)
  }

  // The tests a chunk call makes before it takes the mutex.
  function ChunkTest(o: Ota, len: nat): Err {
    if !o.inited then INVALID_STATE
    else if len == 0 then PARAM
    else if len > MAX_CHUNK then PARAM
    else if !o.ready then INVALID_STATE
    else OK
  }

  function ChunkBody(o: Ota, off: nat, data: seq<byte>, env: WriteEnv): (r: (Ota, Err))
    requires |o.burns| == |o.slot|
    ensures |r.0.burns| == |r.0.slot| == |o.slot|
  {
    if o.state != READY && o.state != WRITING then (o.(lastErr := INVALID_STATE), INVALID_STATE)
    else if off != o.received then (o.(lastErr := INVALID_OFFSET), INVALID_OFFSET)
    else if o.total != 0 && off + |data| > o.total then (o.(state := FAILED, lastErr := PARAM), PARAM)
    else if !o.open then (o.(fault := true), WRITE_FAILED)
    else if off + |data| > |o.slot| then (o.(state := FAILED, lastErr := WRITE_FAILED), WRITE_FAILED)
    else
      var b := o.(burns := Burn(o.burns, off, |data|));
      if env.WriteFails? then
        (b.(slot := Splice(o.slot, off, Torn(env.junk, data)), state := FAILED, lastErr := WRITE_FAILED), WRITE_FAILED)
      else
        (b.(slot := Program(o.slot, off, data), received := o.received + |data|, state := WRITING, lastErr := OK,
            accepted := o.accepted + [data]), OK)
  }

  function CommitTest(o: Ota): Err {
    if !o.inited || !o.ready then INVALID_STATE else OK
  }

  function CommitBody(o: Ota, bootAccepts: bool): (Ota, Err) {
    if o.state != WRITING then (o.(lastErr := INVALID_STATE), INVALID_STATE)
    else if o.total != 0 && o.received != o.total then (o.(lastErr := INVALID_OFFSET), INVALID_OFFSET)
    else if !bootAccepts then (o.(state := FAILED, lastErr := COMMIT_FAILED), COMMIT_FAILED)
    else (o.(state := COMMITTED, lastErr := OK), OK)
  }

  function AbortStep(o: Ota): Ota {
    if !o.inited then o
    else o.(state := IDLE, lastErr := ABORTED, received := 0, total := 0, open := false, ready := false)
  }

  // ------------------------------------------------------------------
  // The invariant
  // ------------------------------------------------------------------

  predicate InSession(o: Ota) {
    o.state == READY || o.state == WRITING || o.state == COMMITTED
  }

  predicate CanWrite(o: Ota) {
    o.state == READY || o.state == WRITING
  }

  // While a session is on, the received prefix is exactly the accepted chunks;
  // while it can still take data, everything behind it is erased and untouched.
  predicate Inv(o: Ota) {
    && |o.burns| == |o.slot| <= U32_MAX
    && !o.fault
    && (!o.inited ==> o.state == IDLE)
    && (o.state == IDLE ==> o.received == 0 && o.total == 0 && !o.ready && !o.open)
    && (forall i :: 0 <= i < |o.burns| ==> o.burns[i] <= 1)
    && (InSession(o) ==>
          && o.inited && o.open && o.ready
          && o.received <= o.total <= |o.slot| && o.total > 0
          && o.slot[..o.received] == Concat(o.accepted))
    && (CanWrite(o) ==>
          forall i :: o.received <= i < |o.slot| ==> o.slot[i] == 0xFF && o.burns[i] == 0)
    && (o.state == READY ==> o.received == 0 && o.accepted == [])
    && (o.state == WRITING ==> o.received > 0)
    && (o.state == COMMITTED ==> o.received == o.total)
  }

  lemma ErasedTakesData(b: byte)
    ensures 0xFF & b == b
  {
  }

  // Onto erased flash, programming writes the data itself and leaves the rest.
  lemma ProgramErased(slot: seq<byte>, off: nat, data: seq<byte>)
    requires off + |data| <= |slot|
    requires forall i :: off <= i < |slot| ==> slot[i] == 0xFF
    ensures Program(slot, off, data)[..off + |data|] == slot[..off] + data
    ensures forall i :: off + |data| <= i < |slot| ==> Program(slot, off, data)[i] == 0xFF
  {
    var mid := seq(|data|, i requires 0 <= i < |data| => slot[off + i] & data[i]);
    forall i | 0 <= i < |data|
      ensures mid[i] == data[i]
    {
      ErasedTakesData(data[i]);
    }
    assert mid == data;
  }

  lemma BurnOnce(burns: seq<nat>, off: nat, len: nat)
    requires off + len <= |burns|
    requires forall i :: 0 <= i < |burns| ==> burns[i] <= 1
    requires forall i :: off <= i < |burns| ==> burns[i] == 0
    ensures forall i :: 0 <= i < |burns| ==> Burn(burns, off, len)[i] <= 1
    ensures forall i :: off + len <= i < |burns| ==> Burn(burns, off, len)[i] == 0
  {
  }

  lemma ConcatSnoc(chunks: seq<seq<byte>>, c: seq<byte>)
    ensures Concat(chunks + [c]) == Concat(chunks) + c
  {
    assert (chunks + [c])[..|chunks|] == chunks;
  }

  lemma InitKeepsInv(o: Ota)
    requires Inv(o)
    ensures Inv(InitStep(o)) && Inv(AbortStep(o))
  {
  }

  // After an abort there is nothing left to resume, initialised or not.
  lemma AbortLeavesNothing(o: Ota)
    requires Inv(o)
    ensures var t := AbortStep(o);
            && t.state == IDLE && t.received == 0 && t.total == 0 && !t.ready && !t.open
            && t.inited == o.inited && t.slot == o.slot && t.lastErr == if o.inited then ABORTED else o.lastErr
  {
  }

  lemma BeginKeepsInv(o: Ota, total: nat, env: EraseEnv)
    requires Inv(o)
    ensures Inv(BeginStep(o, total, env).0)
  {
  }

  // After init a session can be begun.
  lemma InitOpensTheStore(o: Ota, total: nat)
    requires Inv(o)
    ensures var t := InitStep(o);
            && t.inited && t.state == IDLE && t.lastErr == OK && |t.burns| == |t.slot| && t.slot == o.slot
            && (BeginStep(t, total, Erases).1 == OK <==> 0 < total <= |o.slot|)
  {
  }

  // Which chunks the tests before the mutex let through.
  lemma ChunkTestIff(o: Ota, len: nat)
    requires Inv(o)
    ensures ChunkTest(o, len) == OK <==> o.ready && 0 < len <= 65535
    ensures ChunkTest(o, len) != OK ==> ChunkTest(o, len) == if o.inited && !(0 < len <= 65535) then PARAM else INVALID_STATE
    ensures InSession(o) ==> o.ready
  {
  }

  // What the body of a chunk call answers, and what it leaves when that is no success.
  lemma ChunkAnswers(o: Ota, off: nat, data: seq<byte>, env: WriteEnv)
    requires Inv(o) && data != []
    ensures |o.burns| == |o.slot|
    ensures var (t, rc) := ChunkBody(o, off, data, env);
            && rc == (if !CanWrite(o) then INVALID_STATE else if off != o.received then INVALID_OFFSET
                      else if off + |data| > o.total then PARAM else if env.WriteFails? then WRITE_FAILED else OK)
            && t.lastErr == rc && t.total == o.total && t.inited == o.inited && t.ready == o.ready
            && t.state == (if rc == OK then WRITING else if rc == PARAM || rc == WRITE_FAILED then FAILED else o.state)
            && t.received == (if rc == OK then o.received + |data| else o.received)
            && (rc != OK && rc != WRITE_FAILED ==> t.slot == o.slot)
  {
    hide Concat, Program, Burn, Splice;
  }

  // Exactly when a begin opens a session, and what session: empty, on erased flash.
  lemma BeginLandsIff(o: Ota, total: nat, env: EraseEnv)
    requires Inv(o)
    ensures |o.burns| == |o.slot|
    ensures var (t, rc) := BeginStep(o, total, env);
            && (rc == OK <==> o.inited && 0 < total <= |o.slot| && env.Erases?)
            && (rc == OK ==> t.state == READY && t.total == total && t.received == 0 && t.accepted == [] && t.open && t.ready)
            && (rc == OK ==> forall i :: 0 <= i < |t.slot| ==> t.slot[i] == 0xFF)
            && (o.inited && total > 0 ==> t.lastErr == rc)
            && (rc != OK && o.inited && total > 0 ==>
                  t.state == FAILED && t.received == 0 && t.total == 0 && !t.ready && !t.open &&
                  rc == if !env.OpenFails? && total > |o.slot| then PARAM else WRITE_FAILED)
            && (!(o.inited && total > 0) ==> t == o && rc == if o.inited then PARAM else INVALID_STATE)
  {
  }

  lemma CommitKeepsInv(o: Ota, bootAccepts: bool)
    requires Inv(o)
    ensures Inv(CommitBody(o, bootAccepts).0)
  {
  }

  // Exactly when a commit succeeds, and what any other one does: a complete image
  // that the boot loader refuses is lost, everything else stays as it was.
  lemma CommitLandsIff(o: Ota, bootAccepts: bool)
    requires Inv(o)
    ensures var (t, rc) := CommitBody(o, bootAccepts);
            && (rc == OK <==> o.state == WRITING && o.received == o.total && bootAccepts)
            && (rc == OK <==> o.state != COMMITTED && t.state == COMMITTED)
            && (rc == COMMIT_FAILED <==> o.state == WRITING && o.received == o.total && !bootAccepts)
            && (rc == COMMIT_FAILED <==> o.state == WRITING && t.state == FAILED)
            && (rc != OK && rc != COMMIT_FAILED ==> t.(lastErr := o.lastErr) == o)
            && (rc == INVALID_STATE <==> o.state != WRITING) && (rc == INVALID_OFFSET <==> o.state == WRITING && o.received != o.total)
            && t.lastErr == rc
    ensures CommitTest(o) == (if o.ready then OK else INVALID_STATE) && (o.state == WRITING ==> o.ready)
  {
  }

  lemma CommitTouchesNoByte(o: Ota, bootAccepts: bool)
    ensures var t := CommitBody(o, bootAccepts).0;
            t.slot == o.slot && t.accepted == o.accepted && t.received == o.received && t.total == o.total
  {
  }

  lemma InvSizes(o: Ota)
    requires Inv(o)
    ensures |o.burns| == |o.slot|
    ensures CanWrite(o) ==> o.open && 0 < o.total <= |o.slot|
  {
  }

  // The body of a chunk call keeps the invariant in whatever state it finds the
  // store, even when the session its test saw is long gone.
  lemma ChunkKeepsInv(o: Ota, off: nat, data: seq<byte>, env: WriteEnv)
    requires Inv(o) && data != []
    ensures Inv(ChunkBody(o, off, data, env).0)
    ensures ChunkBody(o, off, data, env).1 == OK ==>
              ChunkBody(o, off, data, env).0.slot[..off + |data|] == o.slot[..off] + data
  {
    hide Concat, Program, Burn, Splice;
    if CanWrite(o) && off == o.received && off + |data| <= o.total {
      BurnOnce(o.burns, off, |data|);
      if env.Writes? {
        ProgramErased(o.slot, off, data);
        ConcatSnoc(o.accepted, data);
      }
    }
  }

  // Exactly when the body of a chunk call succeeds.
  lemma ChunkLandsIff(o: Ota, off: nat, data: seq<byte>, env: WriteEnv)
    requires Inv(o) && data != []
    ensures ChunkBody(o, off, data, env).1 == OK <==>
            CanWrite(o) && off == o.received && off + |data| <= o.total && env.Writes?
  {
    hide Concat, Program, Burn, Splice;
  }

  // A client that is in step with the session: its next chunk is appended, or the
  // session fails.
  lemma InStepChunk(o: Ota, data: seq<byte>, env: WriteEnv)
    requires Inv(o) && CanWrite(o) && 0 < |data| <= 65535
    ensures ChunkTest(o, |data|) == OK && o.received <= |o.slot| == |o.burns|
    ensures var (t, rc) := ChunkBody(o, o.received, data, env);
            if rc == OK then CanWrite(t) && t.total == o.total && t.received == o.received + |data| <= |t.slot| <= U32_MAX &&
                             t.slot[..t.received] == o.slot[..o.received] + data
            else t.state == FAILED
  {
    hide Concat, Program, Burn, Splice;
    ChunkKeepsInv(o, o.received, data, env);
  }

  // A client that is out of step is turned away and nothing but the last error changes.
  lemma OutOfStepChunk(o: Ota, off: nat, data: seq<byte>, env: WriteEnv)
    requires |o.burns| == |o.slot| && !(CanWrite(o) && off == o.received)
    ensures var (t, rc) := ChunkBody(o, off, data, env);
            rc != OK && t.(lastErr := o.lastErr) == o
  {
  }

  // ------------------------------------------------------------------
  // The module
  // ------------------------------------------------------------------

  class AppOta {
    const slot: array<byte>
    var inited: bool
    var state: Phase
    var lastErr: Err
    var received: nat
    var total: nat
    var ready: bool
    var open: bool
    ghost var burns: seq<nat>
    ghost var accepted: seq<seq<byte>>

    ghost function Model(): Ota
      reads this, slot
    {
      Ota(inited, state, lastErr, received, total, ready, open, slot[..], burns, accepted, false)
    }

    ghost predicate Valid()
      reads this, slot
    {
      Inv(Model())
    }

    constructor (size: nat)
      requires size <= U32_MAX
      ensures Valid() && fresh(slot) && slot.Length == size && !inited && state == IDLE
    {
      slot := new byte[size](_ => 0xFF);
      inited, state, lastErr, received, total, ready, open := false, IDLE, OK, 0, 0, false, false;
      burns, accepted := Zeros(size), [];
    }

    method Init()
      requires Valid()
      modifies this
      ensures Valid() && Model() == InitStep(old(Model()))
    {
      inited := true;
      state := IDLE;
      lastErr := OK;
      received := 0;
      total := 0;
      ready := false;
      open := false;
    }

    // flash_area_erase over the whole slot; env is the flash driver's answer.
    method FlashErase(env: EraseEnv) returns (rc: int)
      modifies slot, `burns
      ensures rc == if env.EraseFails? then -1 else 0
      ensures slot[..] == if env.EraseFails? then Splice(old(slot[..]), 0, env.junk) else Ones8(slot.Length)
      ensures burns == if env.EraseFails? then old(burns) else Zeros(slot.Length)
    {
      if env.EraseFails? {
        FillSlot(0, env.junk);
        return -1;
      }
      forall i | 0 <= i < slot.Length { slot[i] := 0xFF; }
      burns := Zeros(slot.Length);
      return 0;
    }

    // ota_prepare_storage.
    method PrepareStorage(totalSize: nat, env: EraseEnv) returns (rc: Err)
      requires !open && !ready
      modifies slot, `burns, `open, `ready
      ensures open == ready == (rc == OK)
      ensures rc == if env.OpenFails? then WRITE_FAILED else if totalSize > slot.Length then PARAM
                    else if env.EraseFails? then WRITE_FAILED else OK
      ensures slot[..] == if env.OpenFails? || totalSize > slot.Length then old(slot[..])
                          else if env.EraseFails? then Splice(old(slot[..]), 0, env.junk) else Ones8(slot.Length)
      ensures burns == if rc == OK then Zeros(slot.Length) else old(burns)
    {
      if env.OpenFails? { return WRITE_FAILED; }
      open := true;
      if totalSize > slot.Length {
        open := false;
        return PARAM;
      }
      var erc := FlashErase(env);
      if erc != 0 {
        open := false;
        return WRITE_FAILED;
      }
      ready := true;
      return OK;
    }

    method Begin(totalSize: nat, env: EraseEnv) returns (rc: Err)
      requires Valid()
      modifies this, slot
      ensures Valid() && (Model(), rc) == BeginStep(old(Model()), totalSize, env)
    {
      hide Inv, Splice;
      ghost var o := Model();
      BeginKeepsInv(o, totalSize, env);
      InvSizes(o);
      if !inited { return INVALID_STATE; }
      if totalSize == 0 { return PARAM; }
      open := false;
      ready := false;
      received := 0;
      total := 0;
      accepted := [];
      rc := PrepareStorage(totalSize, env);
      if rc != OK {
        state := FAILED;
        lastErr := rc;
      } else {
        state := READY;
        lastErr := OK;
        received := 0;
        total := totalSize;
      }
      assert rc == BeginStep(o, totalSize, env).1;
      assert Model() == BeginStep(o, totalSize, env).0;
    }

    // flash_area_write inside the slot; env is the flash driver's answer.
    method FlashWrite(off: nat, data: seq<byte>, env: WriteEnv) returns (rc: int)
      requires off + |data| <= slot.Length && |burns| == slot.Length
      modifies slot, `burns
      ensures rc == if env.WriteFails? then -1 else 0
      ensures burns == Burn(old(burns), off, |data|)
      ensures slot[..] == if env.WriteFails? then Splice(old(slot[..]), off, Torn(env.junk, data))
                          else Program(old(slot[..]), off, data)
    {
      hide Burn, Program, Splice;
      burns := Burn(burns, off, |data|);
      if env.WriteFails? {
        FillSlot(off, Torn(env.junk, data));
        return -1;
      }
      ProgramSlot(off, data);
      return 0;
    }

    method ProgramSlot(off: nat, data: seq<byte>)
      requires off + |data| <= slot.Length
      modifies slot
      ensures slot[..] == Program(old(slot[..]), off, data)
    {
      forall i | off <= i < off + |data| { slot[i] := slot[i] & data[i - off]; }
    }

    method FillSlot(off: nat, junk: seq<byte>)
      modifies slot
      ensures slot[..] == Splice(old(slot[..]), off, junk)
    {
      if off + |junk| <= slot.Length {
        forall i | off <= i < off + |junk| { slot[i] := junk[i - off]; }
      }
    }

    // The unlocked tests at the head of app_ota_chunk.
    method ChunkEnter(len: nat) returns (rc: Err)
      ensures rc == ChunkTest(Model(), len)
    {
      if !inited { return INVALID_STATE; }
      if len == 0 { return PARAM; }
      if len > MAX_CHUNK { return PARAM; }
      if !ready { return INVALID_STATE; }
      return OK;
    }

    // The rest of app_ota_chunk, under the mutex.
    method ChunkLocked(offset: nat, data: seq<byte>, env: WriteEnv) returns (rc: Err)
      requires Valid() && data != []
      modifies this, slot
      ensures Valid() && (Model(), rc) == ChunkBody(old(Model()), offset, data, env)
    {
      hide Program, Splice, Burn, Concat, Inv, Torn;
      ghost var o := Model();
      ChunkKeepsInv(o, offset, data, env);
      InvSizes(o);
      if state != READY && state != WRITING {
        lastErr := INVALID_STATE;
        return INVALID_STATE;
      }
      if offset != received {
        lastErr := INVALID_OFFSET;
        return INVALID_OFFSET;
      }
      if total != 0 && offset + |data| > total {
        state := FAILED;
        lastErr := PARAM;
        return PARAM;
      }
      var wrc := FlashWrite(offset, data, env);
      if wrc < 0 {
        state := FAILED;
        lastErr := WRITE_FAILED;
        rc := WRITE_FAILED;
      } else {
        received := received + |data|;
        state := WRITING;
        lastErr := OK;
        rc := OK;
        accepted := accepted + [data];
      }
      assert rc == ChunkBody(o, offset, data, env).1;
      assert Model() == ChunkBody(o, offset, data, env).0;
    }

    method Chunk(offset: nat, data: seq<byte>, env: WriteEnv) returns (rc: Err)
      requires Valid()
      modifies this, slot
      ensures Valid()
      ensures ChunkTest(old(Model()), |data|) != OK ==> rc == ChunkTest(old(Model()), |data|) && Model() == old(Model())
      ensures ChunkTest(old(Model()), |data|) == OK ==> (Model(), rc) == ChunkBody(old(Model()), offset, data, env)
    {
      rc := ChunkEnter(|data|);
      if rc != OK { return; }
      rc := ChunkLocked(offset, data, env);
    }

    // up is the answer to boot_request_upgrade.
    method Commit(up: int) returns (rc: Err)
      requires Valid()
      modifies this
      ensures Valid()
      ensures !(old(inited) && old(ready)) ==> rc == INVALID_STATE && Model() == old(Model())
      ensures old(inited) && old(ready) ==> (Model(), rc) == CommitBody(old(Model()), up == 0)
      ensures rc == OK <==> old(state) == WRITING && old(received) == old(total) && up == 0
      ensures rc == OK <==> old(state) != COMMITTED && state == COMMITTED
    {
      CommitLandsIff(Model(), up == 0);
      if !inited || !ready { return INVALID_STATE; }
      if state != WRITING {
        lastErr := INVALID_STATE;
        return INVALID_STATE;
      }
      if total != 0 && received != total {
        lastErr := INVALID_OFFSET;
        return INVALID_OFFSET;
      }
      if up != 0 {
        state := FAILED;
        lastErr := COMMIT_FAILED;
        return COMMIT_FAILED;
      }
      state := COMMITTED;
      lastErr := OK;
      return OK;
    }

    method Abort()
      requires Valid()
      modifies this
      ensures Valid() && Model() == AbortStep(old(Model()))
    {
      if !inited { return; }
      state := IDLE;
      lastErr := ABORTED;
      received := 0;
      total := 0;
      open := false;
      ready := false;
    }
  }
}
