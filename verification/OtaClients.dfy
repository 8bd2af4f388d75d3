// Several clients sharing the OTA store (BLE, HTTP, TCP, shell): every call is
// split where app_ota.c splits it, into tests made before the mutex is taken
// and a body run under it, and the pieces of different calls interleave freely.
module OtaClients {
  import opened Bits
  import opened OtaStore

  // A call that has passed its unlocked tests and is waiting for the mutex.
  datatype Call = InInit | InBegin(total: nat) | InChunk(off: nat, data: seq<byte>) | InCommit | InAbort

  // What the clients have been told, in the order the bodies ran.
  datatype Reply = Began(total: nat, rc: Err) | Wrote(data: seq<byte>, rc: Err) | Committed(rc: Err) | Reset

  datatype Sys = Sys(ota: Ota, calls: map<nat, Call>, log: seq<Reply>)

  // A client enters a call (running its unlocked part), or the body of its
  // pending call runs with what flash and boot loader answer.
  datatype Event =
    | Enter(who: nat, call: Call)
    | Body(who: nat, erase: EraseEnv, write: WriteEnv, bootAccepts: bool)

  // There is one programming count per byte of the slot.
  predicate Sized(s: Sys) {
    |s.ota.burns| == |s.ota.slot|
  }

  function Boot(slot: seq<byte>): Sys
    requires |slot| <= U32_MAX
  {
    Sys(Ota(false, IDLE, OK, 0, 0, false, false, slot, Zeros(|slot|), [], false), map[], [])
  }

  predicate Admits(o: Ota, c: Call) {
    match c
    case InInit => true
    case InBegin(total) => o.inited && total != 0
    case InChunk(_, data) => ChunkTest(o, |data|) == OK
    case InCommit => CommitTest(o) == OK
    case InAbort => o.inited
  }

  // The initialised flag is set before the mutex is taken.
  function EnterStep(o: Ota, c: Call): Ota {
    if c.InInit? then o.(inited := true) else o
  }

  function BodyStep(o: Ota, c: Call, e: Event): (r: (Ota, Reply))
    requires e.Body? && |o.burns| == |o.slot|
    ensures |r.0.burns| == |r.0.slot| == |o.slot|
  {
    match c
    case InInit => (InitStep(o), Reset)
    case InBegin(total) => var r := BeginStep(o, total, e.erase); (r.0, Began(total, r.1))
    case InChunk(off, data) => var r := ChunkBody(o, off, data, e.write); (r.0, Wrote(data, r.1))
    case InCommit => var r := CommitBody(o, e.bootAccepts); (r.0, Committed(r.1))
    case InAbort => (AbortStep(o), Reset)
  }

  function Step(s: Sys, e: Event): (t: Sys)
    requires Sized(s)
    ensures Sized(t) && |t.ota.slot| == |s.ota.slot|
  {
    match e
    case Enter(who, call) =>
      if who in s.calls || !Admits(s.ota, call) then s
      else s.(ota := EnterStep(s.ota, call), calls := s.calls[who := call])
    case Body(who, _, _, _) =>
      if who !in s.calls then s
      else
        var r := BodyStep(s.ota, s.calls[who], e);
        Sys(r.0, s.calls - {who}, s.log + [r.1])
  }

  // The chunks whose calls returned OK since the last begin that returned OK:
  // what the clients, comparing notes, believe the image to be.
  function Delivered(log: seq<Reply>): seq<seq<byte>> {
    if log == [] then []
    else
      var before := Delivered(log[..|log| - 1]);
      match log[|log| - 1]
      case Began(_, rc) => if rc == OK then [] else before
      case Wrote(data, rc) => if rc == OK then before + [data] else before
      case _ => before
  }

  // The size announced by that begin.
  function Announced(log: seq<Reply>): nat {
    if log == [] then 0
    else
      match log[|log| - 1]
      case Began(total, rc) => if rc == OK then total else Announced(log[..|log| - 1])
      case _ => Announced(log[..|log| - 1])
  }

  // How many begins have succeeded: the number of the current session.
  function Sessions(log: seq<Reply>): nat {
    if log == [] then 0
    else Sessions(log[..|log| - 1]) + (if log[|log| - 1].Began? && log[|log| - 1].rc == OK then 1 else 0)
  }

  // Every pending chunk carries data and every pending begin a size: the tests
  // before the lock saw to that.
  predicate Safe(s: Sys) {
    && Inv(s.ota)
    && (forall c :: c in s.calls ==> (s.calls[c].InChunk? ==> s.calls[c].data != []) && (s.calls[c].InBegin? ==> s.calls[c].total != 0))
    && (InSession(s.ota) ==> s.ota.accepted == Delivered(s.log) && s.ota.total == Announced(s.log))
  }

  lemma BodyKeepsInv(o: Ota, c: Call, e: Event)
    requires Inv(o) && e.Body? && (c.InChunk? ==> c.data != [])
    ensures Inv(BodyStep(o, c, e).0)
  {
    match c
    case InInit => InitKeepsInv(o);
    case InBegin(total) => BeginKeepsInv(o, total, e.erase);
    case InChunk(off, data) => ChunkKeepsInv(o, off, data, e.write);
    case InCommit => CommitKeepsInv(o, e.bootAccepts);
    case InAbort => InitKeepsInv(o);
  }

  // The store's own record of a session moves with the replies it gives.
  lemma BodyTellsTheTruth(o: Ota, c: Call, e: Event, log: seq<Reply>)
    requires Inv(o) && e.Body?
    requires InSession(o) ==> o.accepted == Delivered(log) && o.total == Announced(log)
    ensures var r := BodyStep(o, c, e);
            InSession(r.0) ==> r.0.accepted == Delivered(log + [r.1]) && r.0.total == Announced(log + [r.1])
  {
    hide Program, Burn, Splice, Ones8, Zeros, Concat;
    var r := BodyStep(o, c, e);
    assert (log + [r.1])[..|log|] == log;
  }

  lemma StepKeepsSafe(s: Sys, e: Event)
    requires Safe(s)
    ensures Sized(s) && Safe(Step(s, e))
  {
    hide BodyStep, Inv, Delivered, Announced;
    assert |s.ota.burns| == |s.ota.slot| by { InvSizes(s.ota); }
    if e.Body? && e.who in s.calls {
      BodyKeepsInv(s.ota, s.calls[e.who], e);
      BodyTellsTheTruth(s.ota, s.calls[e.who], e, s.log);
    } else if e.Enter? {
      EnterKeepsInv(s.ota, e.call);
    }
  }

  lemma EnterKeepsInv(o: Ota, c: Call)
    requires Inv(o)
    ensures Inv(EnterStep(o, c)) && (InSession(EnterStep(o, c)) ==> InSession(o))
  {
  }

  // ------------------------------------------------------------------
  // Whole runs
  // ------------------------------------------------------------------

  function Run(s: Sys, events: seq<Event>): (t: Sys)
    requires Sized(s)
    ensures Sized(t)
    decreases events
  {
    if events == [] then s else Run(Step(s, events[0]), events[1..])
  }

  lemma {:induction false} RunKeepsSafe(s: Sys, events: seq<Event>)
    requires Safe(s)
    ensures Sized(s) && Safe(Run(s, events))
    decreases events
  {
    hide Step;
    InvSizes(s.ota);
    if events != [] {
      StepKeepsSafe(s, events[0]);
      RunKeepsSafe(Step(s, events[0]), events[1..]);
    }
  }

  // After any run of any number of clients from power-up, with flash and boot
  // loader failing at will: during a session the received prefix of the slot is
  // exactly the concatenation of the chunks acknowledged since the session's
  // begin, within the announced size, which fits the slot; no byte was
  // programmed twice since it was erased; nothing was written through a closed
  // handle; and COMMITTED means complete.
  lemma SafeOverAllInterleavings(slot: seq<byte>, events: seq<Event>)
    requires |slot| <= U32_MAX
    ensures var s := Run(Boot(slot), events);
            var o := s.ota;
            && (InSession(o) ==>
                  && o.received <= o.total == Announced(s.log) && o.total <= |o.slot|
                  && o.slot[..o.received] == Concat(Delivered(s.log)))
            && (forall i :: 0 <= i < |o.burns| ==> o.burns[i] <= 1)
            && !o.fault
            && (o.state == COMMITTED ==> o.slot[..Announced(s.log)] == Concat(Delivered(s.log)))
  {
    hide Step, Concat, Delivered, Run;
    BootIsSafe(slot);
    RunKeepsSafe(Boot(slot), events);
  }

  // Bodies of begins are the only events that erase.
  predicate NoBegin(s: Sys, e: Event) {
    e.Body? && e.who in s.calls ==> !s.calls[e.who].InBegin?
  }

  predicate NoBeginRuns(s: Sys, events: seq<Event>)
    requires Sized(s)
    decreases events
  {
    events != [] ==> NoBegin(s, events[0]) && NoBeginRuns(Step(s, events[0]), events[1..])
  }

  lemma BootIsSafe(slot: seq<byte>)
    requires |slot| <= U32_MAX
    ensures Safe(Boot(slot))
  {
  }

  // Once the store is idle, failed or committed, the slot keeps every byte until
  // some begin runs, whatever calls were already past their unlocked tests.
  lemma {:induction false} FinishedSlotIsStable(s: Sys, events: seq<Event>)
    requires Sized(s) && !CanWrite(s.ota) && NoBeginRuns(s, events)
    ensures Run(s, events).ota.slot == s.ota.slot && !CanWrite(Run(s, events).ota)
    decreases events
  {
    hide Step;
    if events != [] {
      StepOutsideSession(s, events[0]);
      FinishedSlotIsStable(Step(s, events[0]), events[1..]);
    }
  }

  lemma StepOutsideSession(s: Sys, e: Event)
    requires Sized(s) && !CanWrite(s.ota) && NoBegin(s, e)
    ensures Step(s, e).ota.slot == s.ota.slot && !CanWrite(Step(s, e).ota)
  {
    hide BodyStep;
    if e.Body? && e.who in s.calls {
      BodyOutsideSession(s.ota, s.calls[e.who], e);
    }
  }

  lemma BodyOutsideSession(o: Ota, c: Call, e: Event)
    requires |o.burns| == |o.slot| && !CanWrite(o) && e.Body? && !c.InBegin?
    ensures BodyStep(o, c, e).0.slot == o.slot && !CanWrite(BodyStep(o, c, e).0)
  {
    hide Program, Burn, Splice, Concat, Ones8, Zeros;
  }

  // Without a begin a session only extends its received prefix, and once it has
  // ended it stays ended.
  lemma StepGrows(s: Sys, e: Event)
    requires Safe(s) && NoBegin(s, e)
    ensures Sized(s) && (InSession(s.ota) ==> s.ota.received <= |s.ota.slot|)
    ensures InSession(Step(s, e).ota) ==> InSession(s.ota) && Grows(s.ota, Step(s, e).ota)
  {
    hide Program, Burn, Splice, Ones8, Zeros, Concat;
    if e.Body? && e.who in s.calls && s.calls[e.who].InChunk? {
      ChunkKeepsInv(s.ota, s.calls[e.who].off, s.calls[e.who].data, e.write);
    }
  }

  predicate Grows(o: Ota, t: Ota) {
    && o.total == t.total && o.received <= t.received <= |t.slot| && o.received <= |o.slot|
    && o.slot[..o.received] <= t.slot[..t.received] && o.accepted <= t.accepted
  }

  lemma {:induction false} PrefixOnlyGrows(s: Sys, events: seq<Event>)
    requires Safe(s) && Sized(s) && NoBeginRuns(s, events)
    ensures InSession(Run(s, events).ota) ==> InSession(s.ota) && Grows(s.ota, Run(s, events).ota)
    decreases events
  {
    hide Step, NoBegin;
    if events == [] {
      SessionIsBounded(s.ota);
    } else {
      StepGrows(s, events[0]);
      StepKeepsSafe(s, events[0]);
      PrefixOnlyGrows(Step(s, events[0]), events[1..]);
    }
  }

  lemma SessionIsBounded(o: Ota)
    requires Inv(o)
    ensures InSession(o) ==> Grows(o, o)
  {
  }

  // ------------------------------------------------------------------
  // Which session a chunk joins
  // ------------------------------------------------------------------

  // A begin that runs either starts the next session or leaves none.
  lemma BeginDecides(s: Sys, e: Event)
    requires Safe(s) && !NoBegin(s, e)
    ensures Sized(s)
    ensures var t := Step(s, e);
            if InSession(t.ota) then Sessions(t.log) == Sessions(s.log) + 1 else Sessions(t.log) == Sessions(s.log)
  {
    hide Splice, Ones8, Zeros;
    SessionsStep(s, e);
  }

  lemma SessionsStep(s: Sys, e: Event)
    requires Sized(s)
    ensures var t := Step(s, e);
            if t.log == s.log then true
            else |t.log| == |s.log| + 1 && t.log[..|s.log|] == s.log
    ensures Sessions(s.log) <= Sessions(Step(s, e).log)
    ensures NoBegin(s, e) ==> Sessions(Step(s, e).log) == Sessions(s.log)
  {
    hide InitStep, BeginStep, ChunkBody, CommitBody, AbortStep;
    if e.Body? && e.who in s.calls {
      var r := BodyStep(s.ota, s.calls[e.who], e);
      assert (s.log + [r.1])[..|s.log|] == s.log;
    }
  }

  // Over any run that ends in a session, the session is still the one it was (its
  // number is the same) exactly when no begin ran, successful or not; and then it
  // has only grown.
  lemma {:induction false} SameSessionIff(s: Sys, events: seq<Event>)
    requires Safe(s) && Sized(s) && InSession(Run(s, events).ota)
    ensures Sessions(s.log) <= Sessions(Run(s, events).log)
    ensures Sessions(Run(s, events).log) == Sessions(s.log) <==> NoBeginRuns(s, events)
    ensures NoBeginRuns(s, events) ==> InSession(s.ota) && Grows(s.ota, Run(s, events).ota)
    decreases events
  {
    hide Step, NoBegin, Sessions, Inv, InSession, Grows;
    if events == [] {
      SessionIsBounded(s.ota) by { InvOf(s); }
    } else {
      var t := Step(s, events[0]);
      StepKeepsSafe(s, events[0]);
      SessionsStep(s, events[0]);
      SameSessionIff(t, events[1..]);
      if NoBegin(s, events[0]) {
        StepGrows(s, events[0]);
        if NoBeginRuns(t, events[1..]) {
          GrowsOn(s.ota, t.ota, Run(s, events).ota);
        }
      } else {
        BeginDecides(s, events[0]);
      }
    }
  }

  lemma InvOf(s: Sys)
    requires Safe(s)
    ensures Inv(s.ota)
  {
  }

  lemma GrowsOn(a: Ota, b: Ota, c: Ota)
    requires Grows(a, b) && Grows(b, c)
    ensures Grows(a, c)
  {
  }

  // A call that has been entered stays pending while others run.
  lemma {:induction false} StaysPending(s: Sys, who: nat, events: seq<Event>)
    requires Sized(s) && who in s.calls
    requires forall i :: 0 <= i < |events| ==> events[i].Body? ==> events[i].who != who
    ensures who in Run(s, events).calls && Run(s, events).calls[who] == s.calls[who]
    decreases events
  {
    hide BodyStep, EnterStep, Admits;
    if events != [] {
      StaysPending(Step(s, events[0]), who, events[1..]);
    }
  }

  // The test before the lock is not repeated inside it. A chunk that is accepted
  // joins the session its test saw exactly when no begin ran in between; if one
  // did, it has landed in a later session.
  lemma ChunkJoinsTheSessionItSawIff(s: Sys, who: nat, off: nat, data: seq<byte>, between: seq<Event>, e: Event)
    requires Safe(s) && Sized(s) && who !in s.calls && Admits(s.ota, InChunk(off, data))
    requires e.Body? && e.who == who
    requires forall i :: 0 <= i < |between| ==> between[i].Body? ==> between[i].who != who
    requires var s1 := Step(s, Enter(who, InChunk(off, data))); ChunkBody(Run(s1, between).ota, off, data, e.write).1 == OK
    ensures var s1 := Step(s, Enter(who, InChunk(off, data)));
            var s2 := Run(s1, between);
            var s3 := Step(s2, e);
            && s3.log == s2.log + [Wrote(data, OK)] && s3.ota.accepted == s2.ota.accepted + [data]
            && Sessions(s.log) <= Sessions(s3.log)
            && (Sessions(s3.log) == Sessions(s.log) <==> NoBeginRuns(s1, between))
            && (NoBeginRuns(s1, between) ==> InSession(s.ota) && Grows(s.ota, s2.ota))
  {
    hide Step, Admits, InSession, Grows, Sessions, Run, NoBeginRuns, NoBegin, Inv, ChunkBody;
    var call := Enter(who, InChunk(off, data));
    var s1 := Step(s, call);
    EntersCall(s, who, InChunk(off, data));
    StepKeepsSafe(s, call);
    RunKeepsSafe(s1, between);
    StaysPending(s1, who, between);
    var s2 := Run(s1, between);
    ChunkBodyStep(s2, off, data, e);
    SameSessionIff(s1, between);
    SessionsStep(s2, e);
  }

  // The body of a pending chunk call that succeeds.
  lemma ChunkBodyStep(s: Sys, off: nat, data: seq<byte>, e: Event)
    requires Safe(s) && Sized(s) && e.Body? && e.who in s.calls && s.calls[e.who] == InChunk(off, data)
    requires ChunkBody(s.ota, off, data, e.write).1 == OK
    ensures InSession(s.ota) && NoBegin(s, e)
    ensures Step(s, e).log == s.log + [Wrote(data, OK)] && Step(s, e).ota.accepted == s.ota.accepted + [data]
  {
    hide Program, Burn, Splice, Concat;
    ChunkLandsIff(s.ota, off, data, e.write);
  }

  // Whether a pending first chunk lands in a session that has just been begun.
  lemma FreshSessionTakesChunkIff(o: Ota, total: nat, off: nat, data: seq<byte>)
    requires Inv(o) && o.inited && data != [] && BeginStep(o, total, Erases).1 == OK
    ensures ChunkBody(BeginStep(o, total, Erases).0, off, data, Writes).1 == OK <==> off == 0 && |data| <= total
  {
    hide Concat, Program, Burn, Splice;
  }

  const DONE := Body(2, Erases, Writes, true)

  // Client 2 opens a session for 4 bytes and client 1's chunk passes its test.
  function OpenAndTest(x: byte): seq<Event> {
    [Enter(2, InInit), DONE, Enter(2, InBegin(4)), DONE, Enter(1, InChunk(0, [x]))]
  }

  // Client 2 aborts and opens another for 8, and only then client 1's body runs.
  function ReopenAndWrite(): seq<Event> {
    [Enter(2, InAbort), DONE, Enter(2, InBegin(8)), DONE, Body(1, Erases, Writes, true)]
  }

  lemma TestedInTheFirstSession(slot: seq<byte>, x: byte) returns (t: Sys)
    requires 8 <= |slot| <= U32_MAX
    ensures Sized(Boot(slot)) && Run(Boot(slot), OpenAndTest(x)) == t && Safe(t)
    ensures t.calls == map[1 := InChunk(0, [x])] && Sessions(t.log) == 1
    ensures t.ota.inited && t.ota.state == READY && t.ota.total == 4 && |t.ota.slot| == |slot|
  {
    hide Run, Sessions, Safe, Inv, Step;
    BootIsSafe(slot);
    var begin, chunk := Enter(2, InBegin(4)), Enter(1, InChunk(0, [x]));
    var a := AfterStep(Boot(slot), Enter(2, InInit), [DONE, begin, DONE, chunk]);
    var b := AfterStep(a, DONE, [begin, DONE, chunk]);
    FirstInit(slot);
    var c := WholeCall(b, 2, InBegin(4), DONE, [chunk]);
    var d := AfterStep(c, chunk, []);
    EntersCall(c, 1, InChunk(0, [x]));
    SessionsSnoc([], Reset);
    SessionsSnoc([Reset], Began(4, OK));
    assert [] + [Reset] == [Reset];
    t := d;
    assert OpenAndTest(x) == [Enter(2, InInit)] + [DONE, begin, DONE, chunk];
    assert [DONE, begin, DONE, chunk] == [DONE] + [begin, DONE, chunk];
    assert [begin, DONE, chunk] == [begin, DONE] + [chunk] && [chunk] == [chunk] + [];
  }

  lemma FirstInit(slot: seq<byte>)
    requires |slot| <= U32_MAX
    ensures var t := Step(Step(Boot(slot), Enter(2, InInit)), DONE);
            t.ota == Boot(slot).ota.(inited := true) && t.calls == map[] && t.log == [Reset]
  {
  }

  lemma EntersCall(s: Sys, who: nat, call: Call)
    requires Sized(s) && who !in s.calls && Admits(s.ota, call) && !call.InInit?
    ensures Step(s, Enter(who, call)) == s.(calls := s.calls[who := call])
  {
  }

  lemma SessionsSnoc(log: seq<Reply>, r: Reply)
    ensures Sessions([]) == 0
    ensures Sessions(log + [r]) == Sessions(log) + (if r.Began? && r.rc == OK then 1 else 0)
  {
    assert (log + [r])[..|log|] == log;
  }

  // Sessions do get mixed up: from power-up, one client's chunk passes its test in
  // the first session and is written into the second, which another client opened.
  lemma StaleChunkLandsInTheNextSession(slot: seq<byte>, x: byte)
    requires 8 <= |slot| <= U32_MAX
    ensures Sized(Boot(slot))
    ensures var atTest := Run(Boot(slot), OpenAndTest(x));
            var after := Run(atTest, ReopenAndWrite());
            && atTest.ota.total == 4 && Sessions(atTest.log) == 1 && atTest.calls == map[1 := InChunk(0, [x])]
            && after.ota.total == 8 && Sessions(after.log) == 2 && after.ota.accepted == [[x]]
  {
    hide Run, Sessions, Safe, Inv, Step, BodyStep;
    var s := TestedInTheFirstSession(slot, x);
    var begin, body := Enter(2, InBegin(8)), Body(1, Erases, Writes, true);
    AdmitsWhenInited(s.ota, InAbort);
    var t := WholeCall(s, 2, InAbort, DONE, [begin, DONE, body]);
    AbortThenBegin(s.ota, 8, DONE);
    var u := WholeCall(t, 2, InBegin(8), DONE, [body]);
    var v := AfterStep(u, body, []);
    FirstChunkLands(u, body);
    SessionsSnoc(s.log, Reset);
    SessionsSnoc(s.log + [Reset], Began(8, OK));
    SessionsSnoc(u.log, Wrote([x], OK));
    assert ReopenAndWrite() == [Enter(2, InAbort), DONE] + [begin, DONE, body];
    assert [begin, DONE, body] == [begin, DONE] + [body] && [body] == [body] + [];
  }

  lemma AdmitsWhenInited(o: Ota, c: Call)
    requires o.inited && (c.InAbort? || (c.InBegin? && c.total != 0))
    ensures Admits(o, c) && EnterStep(o, c) == o
  {
  }

  lemma AbortThenBegin(o: Ota, total: nat, e: Event)
    requires o.inited && |o.burns| == |o.slot| && 0 < total <= |o.slot| && e.Body? && e.erase.Erases?
    ensures var t := BodyStep(o, InAbort, e).0;
            var u := BodyStep(t, InBegin(total), e).0;
            && |t.burns| == |t.slot| == |o.slot| && Admits(t, InBegin(total)) && EnterStep(t, InBegin(total)) == t
            && |u.burns| == |u.slot| == |o.slot| && u.state == READY && u.total == total && u.received == 0 && u.accepted == [] && u.open
            && BodyStep(o, InAbort, e).1 == Reset && BodyStep(t, InBegin(total), e).1 == Began(total, OK)
  {
  }

  lemma FirstChunkLands(s: Sys, e: Event)
    requires Sized(s) && e.Body? && e.who in s.calls && e.write.Writes?
    requires var c := s.calls[e.who]; c.InChunk? && c.off == 0 && |c.data| <= s.ota.total <= |s.ota.slot|
    requires s.ota.state == READY && s.ota.received == 0 && s.ota.accepted == [] && s.ota.open
    ensures var t := Step(s, e);
            && t.ota.state == WRITING && t.ota.total == s.ota.total && t.ota.accepted == [s.calls[e.who].data]
            && t.log == s.log + [Wrote(s.calls[e.who].data, OK)]
  {
    hide Program, Burn, Splice, Concat;
  }

  // A call whose body runs before anybody else does anything.
  lemma WholeCall(s: Sys, who: nat, call: Call, body: Event, rest: seq<Event>) returns (t: Sys)
    requires Safe(s) && who !in s.calls && body.Body? && body.who == who
    requires |s.ota.burns| == |s.ota.slot| && Admits(s.ota, call) && EnterStep(s.ota, call) == s.ota
    ensures Safe(t) && t.ota == BodyStep(s.ota, call, body).0 && t.calls == s.calls
    ensures Sized(t) && t.log == s.log + [BodyStep(s.ota, call, body).1]
    ensures Run(s, [Enter(who, call), body] + rest) == Run(t, rest)
  {
    hide BodyStep, Admits, EnterStep, Run, Safe;
    var s1 := AfterStep(s, Enter(who, call), [body] + rest);
    t := AfterStep(s1, body, rest);
    assert [Enter(who, call)] + ([body] + rest) == [Enter(who, call), body] + rest;
    assert s.calls[who := call] - {who} == s.calls;
  }

  lemma AfterStep(s: Sys, e: Event, rest: seq<Event>) returns (t: Sys)
    requires Safe(s)
    ensures Sized(s) && t == Step(s, e) && Safe(t) && Sized(t)
    ensures Run(s, [e] + rest) == Run(t, rest)
    ensures rest == [] ==> Run(t, rest) == t
  {
    hide Program, Burn, Splice, Concat;
    InvSizes(s.ota);
    StepKeepsSafe(s, e);
    t := Step(s, e);
    assert ([e] + rest)[1..] == rest;
  }

  // Calling app_ota_init again leaves the store as it is, the last error apart,
  // exactly when the store is idle.
  lemma InitIsHarmlessIff(o: Ota)
    requires Inv(o) && o.inited
    ensures InitStep(o).(lastErr := o.lastErr) == o <==> o.state == IDLE
    ensures InitStep(InitStep(o)) == InitStep(o)
  {
  }

  // In the middle of a session it is not: the chunk that would have been taken is
  // refused, before the lock and inside it.
  lemma InitForgetsTheSession(o: Ota, data: seq<byte>)
    requires Inv(o) && CanWrite(o) && 0 < |data| <= MAX_CHUNK && o.received + |data| <= o.total
    ensures ChunkTest(o, |data|) == OK && ChunkBody(o, o.received, data, Writes).1 == OK
    ensures ChunkTest(InitStep(o), |data|) == INVALID_STATE
    ensures ChunkBody(InitStep(o), o.received, data, Writes).1 == INVALID_STATE
  {
    hide Concat, Program, Burn, Splice;
    ChunkLandsIff(o, o.received, data, Writes);
  }

  // ------------------------------------------------------------------
  // Whole uploads
  // ------------------------------------------------------------------

  // A pending commit succeeds exactly when the chunks acknowledged since the last
  // begin add up to the size it announced, none of it was committed before, and the
  // boot loader takes the image.
  lemma CommitLandsInRun(s: Sys, e: Event)
    requires Safe(s) && Sized(s) && e.Body? && e.who in s.calls && s.calls[e.who].InCommit?
    ensures Step(s, e).log == s.log + [Committed(OK)] <==>
            s.ota.state == WRITING && |Concat(Delivered(s.log))| == Announced(s.log) && e.bootAccepts
    ensures Step(s, e).log == s.log + [Committed(OK)] <==> s.ota.state != COMMITTED && Step(s, e).ota.state == COMMITTED
  {
    hide Concat, Delivered, Announced, CommitBody;
    CommitLandsIff(s.ota, e.bootAccepts);
    SameLast(s.log, Committed(CommitBody(s.ota, e.bootAccepts).1), Committed(OK));
  }

  lemma SameLast(log: seq<Reply>, a: Reply, b: Reply)
    ensures log + [a] == log + [b] <==> a == b
  {
    assert (log + [a])[|log|] == a && (log + [b])[|log|] == b;
  }

  lemma {:induction false} ConcatPlus(a: seq<seq<byte>>, b: seq<seq<byte>>)
    ensures Concat(a + b) == Concat(a) + Concat(b)
  {
    if b == [] {
      assert a + b == a;
    } else {
      var n := |b| - 1;
      ConcatPlus(a, b[..n]);
      assert (a + b)[..|a| + n] == a + b[..n];
    }
  }

  predicate Sendable(chunks: seq<seq<byte>>) {
    forall i :: 0 <= i < |chunks| ==> 0 < |chunks[i]| <= 65535
  }

  // One client's chunk calls, one after the other.
  function Upload(who: nat, off: nat, chunks: seq<seq<byte>>): seq<Event>
    decreases |chunks|
  {
    if chunks == [] then []
    else [Enter(who, InChunk(off, chunks[0])), Works(who)] + Upload(who, off + |chunks[0]|, chunks[1..])
  }

  // The body of a call, with flash and boot loader working.
  function Works(who: nat): Event {
    Body(who, Erases, Writes, true)
  }

  lemma OneChunkLands(s: Sys, who: nat, data: seq<byte>, rest: seq<Event>) returns (t: Sys)
    requires Safe(s) && Sized(s) && who !in s.calls && CanWrite(s.ota)
    requires 0 < |data| <= MAX_CHUNK && s.ota.received + |data| <= s.ota.total
    ensures Safe(t) && Sized(t) && t.calls == s.calls && t.ota.state == WRITING && t.ota.total == s.ota.total
    ensures t.ota.received == s.ota.received + |data| && t.ota.accepted == s.ota.accepted + [data]
    ensures Run(s, [Enter(who, InChunk(s.ota.received, data)), Works(who)] + rest) == Run(t, rest)
  {
    hide Concat, Program, Burn, Splice, Run, Safe, Inv;
    InvOf(s);
    InStepChunk(s.ota, data, Writes);
    ChunkLandsIff(s.ota, s.ota.received, data, Writes);
    t := WholeCall(s, who, InChunk(s.ota.received, data), Works(who), rest);
  }

  lemma {:induction false} UploadLands(s: Sys, who: nat, chunks: seq<seq<byte>>, rest: seq<Event>) returns (t: Sys)
    requires Safe(s) && Sized(s) && who !in s.calls && CanWrite(s.ota) && Sendable(chunks)
    requires |Concat(s.ota.accepted + chunks)| <= s.ota.total
    ensures Safe(t) && Sized(t) && t.calls == s.calls && CanWrite(t.ota) && t.ota.total == s.ota.total
    ensures t.ota.accepted == s.ota.accepted + chunks && (if chunks == [] then t == s else t.ota.state == WRITING)
    ensures Run(s, Upload(who, s.ota.received, chunks) + rest) == Run(t, rest)
    decreases |chunks|
  {
    hide Concat, Run, Safe, Inv;
    if chunks == [] {
      t := s;
      assert Upload(who, s.ota.received, chunks) + rest == rest;
      assert s.ota.accepted + chunks == s.ota.accepted;
    } else {
      var c, more := chunks[0], chunks[1..];
      var later := Upload(who, s.ota.received + |c|, more) + rest;
      assert chunks == [c] + more;
      RoomForFirst(s, c, more);
      assert s.ota.accepted + chunks == (s.ota.accepted + [c]) + more;
      var s1 := OneChunkLands(s, who, c, later);
      t := UploadLands(s1, who, more, rest);
      assert Upload(who, s.ota.received, chunks) + rest == [Enter(who, InChunk(s.ota.received, c)), Works(who)] + later;
    }
  }

  lemma RoomForFirst(s: Sys, c: seq<byte>, more: seq<seq<byte>>)
    requires Safe(s) && CanWrite(s.ota) && |Concat(s.ota.accepted + ([c] + more))| <= s.ota.total
    ensures s.ota.received + |c| <= s.ota.total
  {
    hide Concat;
    ReceivedIsAccepted(s.ota);
    ConcatPlus(s.ota.accepted + [c], more);
    ConcatSnoc(s.ota.accepted, c);
    assert s.ota.accepted + ([c] + more) == (s.ota.accepted + [c]) + more;
  }

  lemma ReceivedIsAccepted(o: Ota)
    requires Inv(o) && InSession(o)
    ensures o.received == |Concat(o.accepted)| && o.received <= |o.slot| && o.slot[..o.received] == Concat(o.accepted)
  {
    hide Concat;
  }

  // Begin, upload, commit.
  function Session(who: nat, chunks: seq<seq<byte>>): seq<Event> {
    [Enter(who, InBegin(|Concat(chunks)|)), Works(who)] + Upload(who, 0, chunks) + [Enter(who, InCommit), Works(who)]
  }

  // An upload that nobody disturbs ends committed, with exactly its bytes in the
  // slot, whatever the store was doing before.
  lemma UploadIsCommitted(s: Sys, who: nat, chunks: seq<seq<byte>>)
    requires Safe(s) && Sized(s) && who !in s.calls && s.ota.inited
    requires chunks != [] && Sendable(chunks) && |Concat(chunks)| <= |s.ota.slot|
    ensures var o := Run(s, Session(who, chunks)).ota;
            o.state == COMMITTED && |Concat(chunks)| <= |o.slot| && o.slot[..|Concat(chunks)|] == Concat(chunks)
  {
    hide Concat, Run, Safe, Inv, BeginStep, CommitBody;
    var total := |Concat(chunks)|;
    var commit := [Enter(who, InCommit), Works(who)];
    InvOf(s);
    SomethingToSend(chunks);
    BeginLandsIff(s.ota, total, Erases);
    var s1 := WholeCall(s, who, InBegin(total), Works(who), Upload(who, 0, chunks) + commit);
    assert s1.ota.accepted + chunks == chunks;
    var s2 := UploadLands(s1, who, chunks, commit);
    InvOf(s2);
    ReceivedIsAccepted(s2.ota);
    CommitLandsIff(s2.ota, true);
    var s3 := WholeCall(s2, who, InCommit, Works(who), []);
    InvOf(s3);
    CommitTouchesNoByte(s2.ota, true);
    ReceivedIsAccepted(s3.ota);
    assert Session(who, chunks) == [Enter(who, InBegin(total)), Works(who)] + (Upload(who, 0, chunks) + commit);
    assert commit == commit + [];
    NothingMore(s3);
  }

  lemma NothingMore(s: Sys)
    requires Sized(s)
    ensures Run(s, []) == s
  {
  }

  lemma SomethingToSend(chunks: seq<seq<byte>>)
    requires chunks != [] && Sendable(chunks)
    ensures |Concat(chunks)| > 0
  {
    ConcatPlus(chunks[..|chunks| - 1], [chunks[|chunks| - 1]]);
  }

  // The flag that lets calls in is set before init takes the mutex: a begin that
  // another client makes meanwhile succeeds, and init's body then forgets it.
  lemma InitForgetsAnEarlyBegin(slot: seq<byte>, total: nat)
    requires 0 < total <= |slot| <= U32_MAX
    ensures Sized(Boot(slot))
    ensures var s := Run(Boot(slot), [Enter(1, InInit), Enter(2, InBegin(total)), Works(2)]);
            var t := Run(s, [Works(1)]);
            && s.log == [Began(total, OK)] && s.ota.state == READY
            && t.log == [Began(total, OK), Reset] && t.ota.state == IDLE
  {
    hide Run, Safe, Inv, Step;
    BootIsSafe(slot);
    var enter, begin := Enter(1, InInit), Enter(2, InBegin(total));
    var a := AfterStep(Boot(slot), enter, [begin, Works(2)]);
    EntersInit(slot);
    var c := AfterStep(a, begin, [Works(2)]);
    EntersCall(a, 2, InBegin(total));
    var d := AfterStep(c, Works(2), []);
    BeginRuns(c, total);
    var e := AfterStep(d, Works(1), []);
    InitRuns(d);
    assert [enter] + [begin, Works(2)] == [enter, begin, Works(2)] && [begin] + [Works(2)] == [begin, Works(2)];
    assert [Works(2)] + [] == [Works(2)] && [Works(1)] + [] == [Works(1)];
  }

  lemma EntersInit(slot: seq<byte>)
    requires |slot| <= U32_MAX
    ensures var a := Step(Boot(slot), Enter(1, InInit));
            a.ota == Boot(slot).ota.(inited := true) && a.calls == map[1 := InInit] && a.log == []
  {
  }

  lemma BeginRuns(s: Sys, total: nat)
    requires Sized(s) && 2 in s.calls && s.calls[2] == InBegin(total) && 1 in s.calls && s.calls[1] == InInit
    requires s.ota.inited && s.log == [] && 0 < total <= |s.ota.slot|
    ensures var t := Step(s, Works(2));
            t.log == [Began(total, OK)] && t.ota.state == READY && 1 in t.calls && t.calls[1] == InInit
  {
  }

  lemma InitRuns(s: Sys)
    requires Sized(s) && 1 in s.calls && s.calls[1] == InInit
    ensures var t := Step(s, Works(1)); t.log == s.log + [Reset] && t.ota.state == IDLE
  {
  }
}
