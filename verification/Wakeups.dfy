/**
 Senders out of credit. `send_data` reads a zero credit under the lock, releases it, and only then registers with the
 stream's `Notify`; a CONTINUE or CLOSE in between rings nobody. This module says exactly which runs lose a wake-up.
 */
module Wakeups {
  import opened Bytes
  import opened Frame
  import opened MuxModel
  import opened StreamIds
  import opened Demux
  import opened Credit

  predicate OutOfCredit(s: Sys, id: u32) {
    id in s.inner.streams && s.inner.streams[id].kind.Tcp? && s.inner.streams[id].credit == 0
  }

  predicate AboutToRing(s: Sys, id: u32) {
    s.pump.Ringing? && s.pump.id == id
  }

  /** Every parked sender is parked for a reason: its live stream has no credit, or it is about to be woken. */
  ghost predicate Wakeful(s: Sys) {
    forall t | t in s.tasks && s.tasks[t].Parked? :: OutOfCredit(s, s.tasks[t].id) || AboutToRing(s, s.tasks[t].id)
  }

  /** The two moments that matter: registering with `Notify`, and removing a stream from this side. */
  ghost predicate Careful(s: Sys, e: Event)
    requires Enabled(s, e)
  {
    match e
    case Park(t) => OutOfCredit(s, s.tasks[t].id) || AboutToRing(s, s.tasks[t].id)
    case Shut(_, id, _) => AboutToRing(s, id) || forall t | t in s.tasks && s.tasks[t].Parked? :: s.tasks[t].id != id
    case _ => true
  }

  ghost predicate AlwaysWakeful(s: Sys, events: seq<Event>)
    requires IsRun(s, events)
    decreases |events|
  {
    Wakeful(s) && (events != [] ==> AlwaysWakeful(Step(s, events[0]), events[1..]))
  }

  ghost predicate AlwaysCareful(s: Sys, events: seq<Event>)
    requires IsRun(s, events)
    decreases |events|
  {
    events != [] ==> Careful(s, events[0]) && AlwaysCareful(Step(s, events[0]), events[1..])
  }

  lemma ParkOrShut(s: Sys, e: Event)
    requires Wakeful(s) && Enabled(s, e) && (e.Park? || e.Shut?)
    ensures Wakeful(Step(s, e)) <==> Careful(s, e)
  {
    var s' := Step(s, e);
    if e.Park? {
      assert s'.tasks[e.t].Parked?;
    } else if t :| t in s.tasks && s.tasks[t].Parked? && s.tasks[t].id == e.id {
      assert s'.tasks[t] == s.tasks[t];
      assert !OutOfCredit(s', e.id);
    }
  }

  lemma DispatchStaysWakeful(s: Sys, frame: bytes)
    requires Wakeful(s) && s.pump.Idle?
    ensures Wakeful(StepDispatch(s, frame))
  {
  }

  lemma GateStaysWakeful(s: Sys, t: TaskId)
    requires Wakeful(s) && t in s.tasks && s.tasks[t].AtGate?
    ensures Wakeful(StepGate(s, t))
  {
  }

  lemma InsertStaysWakeful(s: Sys, t: TaskId)
    requires Sound(s) && Wakeful(s) && t in s.tasks && s.tasks[t].Inserting?
    ensures Wakeful(StepInsert(s, t))
  {
  }

  lemma TalkStaysWakeful(s: Sys, e: Event)
    requires Wakeful(s) && Enabled(s, e) && (InHandshake(e) || e.Deliver? || e.Ring? || e.Receive?)
    ensures Wakeful(Step(s, e))
  {
    hide DecodePacket, DecodeContinue, DecodedInfo, InfoBytes, PacketBytes;
  }

  lemma OthersStayWakeful(s: Sys, e: Event)
    requires Wakeful(s) && Enabled(s, e) && (e.Open? || e.Send? || e.Transmit? || e.Cancel?)
    ensures Wakeful(Step(s, e))
  {
    hide FrameOf;
  }

  lemma StepWakeful(s: Sys, e: Event)
    requires Sound(s) && Wakeful(s) && Enabled(s, e)
    ensures Wakeful(Step(s, e)) <==> Careful(s, e)
  {
    match e
    case Park(_) => ParkOrShut(s, e);
    case Shut(_, _, _) => ParkOrShut(s, e);
    case Dispatch(frame) => DispatchStaysWakeful(s, frame);
    case TryGate(t) => GateStaysWakeful(s, t);
    case Insert(t) => InsertStaysWakeful(s, t);
    case Open(_, _, _) => OthersStayWakeful(s, e);
    case Send(_, _, _) => OthersStayWakeful(s, e);
    case Transmit(_, _) => OthersStayWakeful(s, e);
    case Cancel(_) => OthersStayWakeful(s, e);
    case _ => TalkStaysWakeful(s, e);
  }

  lemma {:induction false} WakefulIffCareful(s: Sys, events: seq<Event>)
    requires Sound(s) && Wakeful(s) && IsRun(s, events)
    ensures AlwaysWakeful(s, events) <==> AlwaysCareful(s, events)
    decreases |events|
  {
    if events != [] {
      StepWakeful(s, events[0]);
      StepKeepsSound(s, events[0]);
      if Careful(s, events[0]) {
        WakefulIffCareful(Step(s, events[0]), events[1..]);
      }
    }
  }

  /**
   Over every interleaving, no wake-up is ever lost if and only if each sender registers while its stream is still out
   of credit (or about to be rung), and no stream is closed from this side while a sender is parked on it.
   */
  lemma WakeupsAreKeptIff(extensions: seq<Extension>, events: seq<Event>)
    requires IsRun(Init(extensions), events)
    ensures AlwaysWakeful(Init(extensions), events) <==> AlwaysCareful(Init(extensions), events)
  {
    WakefulIffCareful(Init(extensions), events);
  }

  // ---- The single-threaded executor ----

  /** No task runs between the zero check and the registration, nor inside `dispatch_inbound`. */
  ghost predicate Uninterrupted(s: Sys, e: Event) {
    && (forall t | t in s.tasks && s.tasks[t].ZeroSeen? :: e == Park(t))
    && (s.pump.Ringing? ==> e == Ring)
    && (s.pump.Holding? ==> e == Deliver)
  }

  ghost predicate ClosesNobodyBlocked(s: Sys, e: Event) {
    e.Shut? ==> forall t | t in s.tasks && s.tasks[t].Parked? :: s.tasks[t].id != e.id
  }

  ghost predicate SingleThreaded(s: Sys, events: seq<Event>)
    requires IsRun(s, events)
    decreases |events|
  {
    events != [] ==>
      && Uninterrupted(s, events[0]) && ClosesNobodyBlocked(s, events[0])
      && SingleThreaded(Step(s, events[0]), events[1..])
  }

  ghost predicate ChecksStand(s: Sys) {
    forall t | t in s.tasks && s.tasks[t].ZeroSeen? :: OutOfCredit(s, s.tasks[t].id)
  }

  lemma NoChecksPending(s: Sys, e: Event)
    requires Enabled(s, e) && forall t | t in s.tasks :: !s.tasks[t].ZeroSeen?
    ensures ChecksStand(Step(s, e))
  {
    hide DecodePacket, DecodeContinue, DecodedInfo, InfoBytes, PacketBytes, FrameOf;
  }

  lemma UninterruptedKeepsChecks(s: Sys, e: Event)
    requires ChecksStand(s) && Enabled(s, e) && Uninterrupted(s, e)
    ensures ChecksStand(Step(s, e))
  {
    if e.Park? {
      assert forall t | t in s.tasks && s.tasks[t].ZeroSeen? :: e == Park(t);
    } else {
      NoChecksPending(s, e);
    }
  }

  lemma {:induction false} SingleThreadIsCareful(s: Sys, events: seq<Event>)
    requires ChecksStand(s) && IsRun(s, events) && SingleThreaded(s, events)
    ensures AlwaysCareful(s, events)
    decreases |events|
  {
    if events != [] {
      UninterruptedKeepsChecks(s, events[0]);
      SingleThreadIsCareful(Step(s, events[0]), events[1..]);
    }
  }

  lemma {:induction false} WakefulAtTheEnd(s: Sys, events: seq<Event>)
    requires IsRun(s, events) && AlwaysWakeful(s, events)
    ensures Wakeful(Run(s, events))
    decreases |events|
  {
    if events != [] {
      WakefulAtTheEnd(Step(s, events[0]), events[1..]);
    }
  }

  /**
   On a single-threaded executor, with no `close_stream` on a stream somebody is blocked on, every sender parked in any
   reachable state waits on a live stream whose credit is zero (unless the ring that wakes it is the very next step).
   */
  lemma NoLostWakeup(extensions: seq<Extension>, events: seq<Event>, t: TaskId)
    requires IsRun(Init(extensions), events) && SingleThreaded(Init(extensions), events)
    ensures var s := Run(Init(extensions), events);
            t in s.tasks && s.tasks[t].Parked? ==> OutOfCredit(s, s.tasks[t].id) || AboutToRing(s, s.tasks[t].id)
  {
    SingleThreadIsCareful(Init(extensions), events);
    WakefulIffCareful(Init(extensions), events);
    WakefulAtTheEnd(Init(extensions), events);
  }

  // ---- A CONTINUE shared by the senders it wakes ----

  ghost function GateSet(s: Sys, id: u32): set<TaskId> {
    set t | t in s.tasks && s.tasks[t].AtGate? && s.tasks[t].id == id
  }

  ghost function ParkedSet(s: Sys, id: u32): set<TaskId> {
    set t | t in s.tasks && s.tasks[t].Parked? && s.tasks[t].id == id
  }

  predicate LiveTcp(s: Sys, id: u32) {
    id in s.inner.streams && s.inner.streams[id].kind.Tcp?
  }

  /** Either a woken sender on `id` runs until it passes or parks again, or something else happens elsewhere. */
  datatype Turn = Resume(t: TaskId) | Elsewhere(e: Event)

  /** An event that is no sender's progress, frame or close on stream `id`. */
  predicate Foreign(s: Sys, e: Event, id: u32)
    requires Enabled(s, e)
  {
    match e
    case Insert(t) => s.tasks[t].id != id
    case Send(_, i, _) => i != id
    case TryGate(t) => s.tasks[t].id != id
    case Park(t) => s.tasks[t].id != id
    case Cancel(t) => s.tasks[t].id != id
    case Shut(_, i, _) => i != id
    case Dispatch(frame) => !FrameCarries(frame, id)
    case Ring => s.pump.id != id
    case _ => true
  }

  predicate TurnOk(s: Sys, turn: Turn, id: u32) {
    match turn
    case Resume(t) => t in s.tasks && s.tasks[t].AtGate? && s.tasks[t].id == id
    case Elsewhere(e) => Enabled(s, e) && Foreign(s, e, id)
  }

  function Take(s: Sys, turn: Turn, id: u32): Sys
    requires TurnOk(s, turn, id)
  {
    match turn
    case Elsewhere(e) => Step(s, e)
    case Resume(t) =>
      var s1 := StepGate(s, t);
      if t in s1.tasks && s1.tasks[t].ZeroSeen? then StepPark(s1, t) else s1
  }

  predicate TurnsOk(s: Sys, turns: seq<Turn>, id: u32)
    decreases |turns|
  {
    turns == [] || (TurnOk(s, turns[0], id) && TurnsOk(Take(s, turns[0], id), turns[1..], id))
  }

  function TakeAll(s: Sys, turns: seq<Turn>, id: u32): Sys
    requires TurnsOk(s, turns, id)
    decreases |turns|
  {
    if turns == [] then s else TakeAll(Take(s, turns[0], id), turns[1..], id)
  }

  function Resumes(turns: seq<Turn>): nat {
    if turns == [] then 0 else (if turns[0].Resume? then 1 else 0) + Resumes(turns[1..])
  }

  lemma ForeignLeavesStream(s: Sys, e: Event, id: u32)
    requires Enabled(s, e) && Foreign(s, e, id) && LiveTcp(s, id)
    ensures id in Step(s, e).inner.streams && Step(s, e).inner.streams[id] == s.inner.streams[id]
  {
  }

  /** The same senders of stream `id` are at their gates and parked in both states. */
  ghost predicate SameSenders(s: Sys, s': Sys, id: u32) {
    GateSet(s', id) == GateSet(s, id) && ParkedSet(s', id) == ParkedSet(s, id)
  }

  lemma TalkLeavesSenders(s: Sys, e: Event, id: u32)
    requires Enabled(s, e) && Foreign(s, e, id) && (InHandshake(e) || InDispatch(e))
    ensures SameSenders(s, Step(s, e), id)
  {
    hide DecodePacket, DecodeContinue, DecodedInfo, InfoBytes, PacketBytes;
  }

  lemma TasksLeaveSenders(s: Sys, e: Event, id: u32)
    requires Enabled(s, e) && Foreign(s, e, id) && (e.Open? || e.Insert? || InSending(e) || InClosing(e))
    ensures SameSenders(s, Step(s, e), id)
  {
    hide FrameOf;
  }

  lemma ForeignLeavesSenders(s: Sys, e: Event, id: u32)
    requires Enabled(s, e) && Foreign(s, e, id)
    ensures SameSenders(s, Step(s, e), id)
  {
    if InHandshake(e) || InDispatch(e) {
      TalkLeavesSenders(s, e, id);
    } else {
      TasksLeaveSenders(s, e, id);
    }
  }

  lemma ForeignPassesNobody(s: Sys, e: Event, id: u32)
    requires Enabled(s, e) && Foreign(s, e, id)
    ensures Passes(Own(Step(s, e).log, id)) == Passes(Own(s.log, id))
  {
    hide Own, Passes, WireData;
    CountsMove(s, e, id);
  }

  lemma ResumeMovesCredit(s: Sys, t: TaskId, id: u32)
    requires TurnOk(s, Resume(t), id) && LiveTcp(s, id)
    ensures var s', c := Take(s, Resume(t), id), s.inner.streams[id].credit;
            LiveTcp(s', id) && s'.inner.streams[id].credit == if c > 0 then c - 1 else 0
  {
  }

  lemma ResumeMovesSender(s: Sys, t: TaskId, id: u32)
    requires TurnOk(s, Resume(t), id) && LiveTcp(s, id)
    ensures var s', c := Take(s, Resume(t), id), s.inner.streams[id].credit;
            && t in GateSet(s, id) && t !in ParkedSet(s, id)
            && GateSet(s', id) == GateSet(s, id) - {t}
            && ParkedSet(s', id) == ParkedSet(s, id) + if c > 0 then {} else {t}
  {
  }

  lemma ResumeCountsPass(s: Sys, t: TaskId, id: u32)
    requires TurnOk(s, Resume(t), id) && LiveTcp(s, id)
    ensures var s', c := Take(s, Resume(t), id), s.inner.streams[id].credit;
            Passes(Own(s'.log, id)) == Passes(Own(s.log, id)) + if c > 0 then 1 else 0
  {
    hide Own, Passes, WireData;
    CountsMove(s, TryGate(t), id);
  }

  /** `n` senders have shared credit `c`, from `s` to `s'`. */
  ghost predicate Shared(s: Sys, s': Sys, id: u32, n: nat) {
    && LiveTcp(s, id) && LiveTcp(s', id)
    && var c := s.inner.streams[id].credit;
    && s'.inner.streams[id].credit == c - Min(n, c)
    && Passes(Own(s'.log, id)) == Passes(Own(s.log, id)) + Min(n, c)
    && |ParkedSet(s', id)| == |ParkedSet(s, id)| + n - Min(n, c)
    && |GateSet(s', id)| == |GateSet(s, id)| - n
  }

  lemma OneTurn(s: Sys, turn: Turn, id: u32)
    requires TurnOk(s, turn, id) && LiveTcp(s, id)
    ensures Shared(s, Take(s, turn, id), id, if turn.Resume? then 1 else 0)
  {
    match turn
    case Resume(t) =>
      ResumeMovesCredit(s, t, id);
      ResumeMovesSender(s, t, id);
      ResumeCountsPass(s, t, id);
    case Elsewhere(e) =>
      ForeignLeavesStream(s, e, id);
      ForeignLeavesSenders(s, e, id);
      ForeignPassesNobody(s, e, id);
  }

  lemma SharesAdd(s: Sys, s1: Sys, s2: Sys, id: u32, m: nat, n: nat)
    requires Shared(s, s1, id, m) && Shared(s1, s2, id, n)
    ensures Shared(s, s2, id, m + n)
  {
    hide Own, Passes;
  }

  /**
   `n` woken senders, resumed in any order and interleaved with anything foreign to the stream: exactly the smaller of
   `n` and the credit pass, and the others park again.
   */
  lemma {:induction false} WokenSendersShare(s: Sys, turns: seq<Turn>, id: u32)
    requires LiveTcp(s, id) && TurnsOk(s, turns, id)
    ensures Shared(s, TakeAll(s, turns, id), id, Resumes(turns))
    decreases |turns|
  {
    hide Own, Passes;
    if turns != [] {
      var s1 := Take(s, turns[0], id);
      OneTurn(s, turns[0], id);
      WokenSendersShare(s1, turns[1..], id);
      SharesAdd(s, s1, TakeAll(s, turns, id), id, if turns[0].Resume? then 1 else 0, Resumes(turns[1..]));
    }
  }

  /** What a CONTINUE does before anybody it woke has run. */
  lemma ContinueRings(s: Sys, id: u32, c: u32)
    requires s.pump.Idle? && LiveTcp(s, id) && id != HANDSHAKE_STREAM_ID
    ensures var s1 := StepDispatch(s, PacketBytes(Continue, id, U32Le(c)));
            && s1.pump == Ringing(id)
            && LiveTcp(s1, id) && s1.inner.streams[id].credit == c && s1.tasks == s.tasks
            && Passes(Own(s1.log, id)) == Passes(Own(s.log, id))
  {
    var frame := PacketBytes(Continue, id, U32Le(c));
    PacketCodec(frame, Packet(Continue, id, U32Le(c)));
    ContinueCodec(c, []);
    assert U32Le(c) + [] == U32Le(c);
    CountsMove(s, Dispatch(frame), id);
  }

  lemma RingMovesSenders(s: Sys, id: u32)
    requires s.pump == Ringing(id)
    ensures GateSet(StepRing(s), id) == GateSet(s, id) + ParkedSet(s, id)
    ensures ParkedSet(StepRing(s), id) == {}
  {
  }

  /** The state in which the senders a CONTINUE woke are about to run. */
  function Woken(s: Sys, id: u32, c: u32): Sys
    requires s.pump.Idle? && LiveTcp(s, id) && id != HANDSHAKE_STREAM_ID
  {
    ContinueRings(s, id, c);
    StepRing(StepDispatch(s, PacketBytes(Continue, id, U32Le(c))))
  }

  /** CONTINUE(c) on a stream with `k` parked senders and nobody else at its gate lets exactly min(k, c) of them through. */
  lemma ContinueWakesExactly(s: Sys, id: u32, c: u32, turns: seq<Turn>)
    requires s.pump.Idle? && LiveTcp(s, id) && id != HANDSHAKE_STREAM_ID && GateSet(s, id) == {}
    requires TurnsOk(Woken(s, id, c), turns, id) && Resumes(turns) == |ParkedSet(s, id)|
    ensures var s', k := TakeAll(Woken(s, id, c), turns, id), |ParkedSet(s, id)|;
            && LiveTcp(s', id) && s'.inner.streams[id].credit == c - Min(k, c)
            && Passes(Own(s'.log, id)) == Passes(Own(s.log, id)) + Min(k, c)
            && |ParkedSet(s', id)| == k - Min(k, c)
            && GateSet(s', id) == {}
  {
    ContinueRings(s, id, c);
    var s1 := StepDispatch(s, PacketBytes(Continue, id, U32Le(c)));
    RingMovesSenders(s1, id);
    assert GateSet(s1, id) == GateSet(s, id) && ParkedSet(s1, id) == ParkedSet(s, id);
    WokenSendersShare(Woken(s, id, c), turns, id);
  }

  // ---- A wake-up that is lost ----

  /** On several threads: the credit check, then a whole CONTINUE, then the registration. */
  function LosingEvents(t: TaskId, id: u32, data: bytes, c: u32): seq<Event> {
    [Send(t, id, data), TryGate(t)] + [Dispatch(PacketBytes(Continue, id, U32Le(c))), Ring, Park(t)]
  }

  lemma RunOfOne(s: Sys, e: Event)
    requires Enabled(s, e)
    ensures IsRun(s, [e]) && Run(s, [e]) == Step(s, e)
  {
    StatesMakeARun([s, Step(s, e)], [e]);
  }

  lemma RingThenPark(s: Sys, t: TaskId, id: u32)
    requires s.pump == Ringing(id) && t in s.tasks && s.tasks[t].ZeroSeen? && s.tasks[t].id == id
    ensures IsRun(s, [Ring, Park(t)])
    ensures Run(s, [Ring, Park(t)]) ==
            StepRing(s).(tasks := StepRing(s).tasks[t := Parked(id, s.tasks[t].data)])
  {
    var s1 := StepRing(s);
    assert s1.tasks[t] == s.tasks[t];
    StatesMakeARun([s, s1, StepPark(s1, t)], [Ring, Park(t)]);
  }

  lemma RegisteringTooLate(s: Sys, t: TaskId, id: u32, c: u32, frame: bytes)
    requires s.pump.Idle? && t in s.tasks && s.tasks[t].ZeroSeen? && s.tasks[t].id == id
    requires var s1 := StepDispatch(s, frame);
             s1.pump == Ringing(id) && LiveTcp(s1, id) && s1.inner.streams[id].credit == c && s1.tasks == s.tasks
    ensures IsRun(s, [Dispatch(frame), Ring, Park(t)])
    ensures var s' := Run(s, [Dispatch(frame), Ring, Park(t)]);
            && t in s'.tasks && s'.tasks[t] == Parked(id, s.tasks[t].data) && s'.pump.Idle?
            && LiveTcp(s', id) && s'.inner.streams[id].credit == c
  {
    RingThenPark(StepDispatch(s, frame), t, id);
    hide StepDispatch, Run, IsRun;
    RunOfOne(s, Dispatch(frame));
    RunsJoin(s, [Dispatch(frame)], [Ring, Park(t)]);
    assert [Dispatch(frame)] + [Ring, Park(t)] == [Dispatch(frame), Ring, Park(t)];
  }

  /** A sender that reads zero credit, and has not registered yet. */
  lemma ZeroIsSeen(s: Sys, t: TaskId, id: u32, data: bytes)
    requires OutOfCredit(s, id) && t !in s.tasks
    ensures IsRun(s, [Send(t, id, data), TryGate(t)])
    ensures var s' := Run(s, [Send(t, id, data), TryGate(t)]);
            s'.tasks == s.tasks[t := ZeroSeen(id, data)] && s'.inner == s.inner && s'.queues == s.queues && s'.pump == s.pump
  {
    var s1 := StepSend(s, t, id, data);
    var s2 := StepGate(s1, t);
    assert s2 == s1.(tasks := s1.tasks[t := ZeroSeen(id, data)]);
    StatesMakeARun([s, s1, s2], [Send(t, id, data), TryGate(t)]);
  }

  /** Whenever a live TCP stream is out of credit, a sender can end up asleep on `c` credits with no ring on its way. */
  lemma AWakeupCanBeLost(s: Sys, t: TaskId, id: u32, data: bytes, c: u32)
    requires s.pump.Idle? && OutOfCredit(s, id) && id != HANDSHAKE_STREAM_ID && t !in s.tasks
    ensures IsRun(s, LosingEvents(t, id, data, c))
    ensures var s' := Run(s, LosingEvents(t, id, data, c));
            && t in s'.tasks && s'.tasks[t] == Parked(id, data) && s'.pump.Idle?
            && LiveTcp(s', id) && s'.inner.streams[id].credit == c
  {
    ZeroIsSeen(s, t, id, data);
    var s2 := Run(s, [Send(t, id, data), TryGate(t)]);
    hide Run, IsRun;
    var frame := PacketBytes(Continue, id, U32Le(c));
    ContinueRings(s2, id, c);
    RegisteringTooLate(s2, t, id, c, frame);
    RunsJoin(s, [Send(t, id, data), TryGate(t)], [Dispatch(frame), Ring, Park(t)]);
  }

  /** A stream opened through a version 1 handshake that grants nothing. */
  function OpeningEvents(dest: Dest): seq<Event> {
    [HandshakeFirst(PacketBytes(Continue, HANDSHAKE_STREAM_ID, U32Le(0))), Open(0, Tcp, dest), Insert(0), Transmit(0, true)]
  }

  lemma AStreamOutOfCredit(dest: Dest)
    ensures IsRun(Init([]), OpeningEvents(dest))
    ensures var s := Run(Init([]), OpeningEvents(dest)); s.pump.Idle? && OutOfCredit(s, 1) && s.tasks == map[]
  {
    hide PacketBytes, U32Le, StepHandshakeFirst, FrameOf;
    var hello := PacketBytes(Continue, HANDSHAKE_STREAM_ID, U32Le(0));
    GreetedWithNothing(hello);
    var s1 := StepHandshakeFirst(Init([]), hello);
    var s2 := StepOpen(s1, 0, Tcp, dest);
    var s3 := StepInsert(s2, 0);
    var s4 := StepTransmit(s3, 0, true);
    StatesMakeARun([Init([]), s1, s2, s3, s4], OpeningEvents(dest));
  }

  /** From the start, then: a run after which a sender sleeps on a stream with `c` credits. */
  lemma AReachableLoss(dest: Dest, data: bytes, c: u32)
    requires c > 0
    ensures var events := OpeningEvents(dest) + LosingEvents(0, 1, data, c);
            && IsRun(Init([]), events) && !AlwaysWakeful(Init([]), events)
            && var s := Run(Init([]), events);
               0 in s.tasks && s.tasks[0] == Parked(1, data) && LiveTcp(s, 1) && s.inner.streams[1].credit == c
  {
    hide IsRun, Run, OpeningEvents, LosingEvents, AlwaysWakeful;
    AStreamOutOfCredit(dest);
    var s := Run(Init([]), OpeningEvents(dest));
    AWakeupCanBeLost(s, 0, 1, data, c);
    var events := OpeningEvents(dest) + LosingEvents(0, 1, data, c);
    RunsJoin(Init([]), OpeningEvents(dest), LosingEvents(0, 1, data, c));
    if AlwaysWakeful(Init([]), events) {
      WakefulAtTheEnd(Init([]), events);
      assert false;
    }
  }

  // ---- A sender that nobody can wake ----

  /** `t` waits on a stream that is gone, and the ring that announces removals is not on its way. */
  predicate Stranded(s: Sys, t: TaskId) {
    && t in s.tasks && s.tasks[t].Parked? && s.tasks[t].id in s.queues
    && s.tasks[t].id !in s.inner.streams && !AboutToRing(s, s.tasks[t].id)
  }

  /** Closing a stream from this side strands every sender parked on it. */
  lemma ClosingStrands(s: Sys, t: TaskId, u: TaskId, reason: byte)
    requires Sound(s) && t in s.tasks && s.tasks[t].Parked? && s.tasks[t].id in s.inner.streams
    requires !AboutToRing(s, s.tasks[t].id) && u !in s.tasks
    ensures Stranded(StepShut(s, u, s.tasks[t].id, reason), t)
  {
  }

  /** What keeps a sender stranded: nothing touches it, revives its stream or rings for it. */
  predicate LeavesStranded(s: Sys, s': Sys, t: TaskId) {
    Stranded(s, t) ==> Stranded(s', t) && s'.tasks[t] == s.tasks[t]
  }

  lemma DispatchLeavesStranded(s: Sys, frame: bytes, t: TaskId)
    requires s.pump.Idle?
    ensures LeavesStranded(s, StepDispatch(s, frame), t)
  {
    hide DecodePacket, DecodeContinue;
  }

  lemma PumpLeavesStranded(s: Sys, t: TaskId)
    ensures s.pump.Holding? ==> LeavesStranded(s, StepDeliver(s), t)
    ensures s.pump.Ringing? ==> LeavesStranded(s, StepRing(s), t)
  {
  }

  lemma OpenLeavesStranded(s: Sys, e: Event, t: TaskId)
    requires Sound(s) && Enabled(s, e) && (e.Open? || e.Insert?)
    ensures LeavesStranded(s, Step(s, e), t)
  {
    if e.Insert? {
      assert s.tasks[e.t].id !in s.queues;
    }
  }

  lemma SendersLeaveStranded(s: Sys, e: Event, t: TaskId)
    requires Enabled(s, e) && (e.Send? || e.TryGate? || e.Park? || e.Shut? || e.Transmit? || e.Cancel?) && e != Cancel(t)
    ensures LeavesStranded(s, Step(s, e), t)
  {
    hide FrameOf;
  }

  lemma RestLeavesStranded(s: Sys, e: Event, t: TaskId)
    requires Enabled(s, e) && (e.HandshakeFirst? || e.HandshakeIntroduce? || e.HandshakeFinish? || e.Receive?)
    ensures LeavesStranded(s, Step(s, e), t)
  {
    hide DecodePacket, DecodeContinue, DecodedInfo, InfoBytes, PacketBytes;
  }

  lemma StrandedStays(s: Sys, e: Event, t: TaskId)
    requires Sound(s) && Stranded(s, t) && Enabled(s, e) && e != Cancel(t)
    ensures Stranded(Step(s, e), t) && Step(s, e).tasks[t] == s.tasks[t]
  {
    hide Stranded, Sound;
    match e
    case Dispatch(frame) => DispatchLeavesStranded(s, frame, t);
    case Deliver => PumpLeavesStranded(s, t);
    case Ring => PumpLeavesStranded(s, t);
    case Open(_, _, _) => OpenLeavesStranded(s, e, t);
    case Insert(_) => OpenLeavesStranded(s, e, t);
    case HandshakeFirst(_) => RestLeavesStranded(s, e, t);
    case HandshakeIntroduce(_) => RestLeavesStranded(s, e, t);
    case HandshakeFinish(_) => RestLeavesStranded(s, e, t);
    case Receive(_) => RestLeavesStranded(s, e, t);
    case _ => SendersLeaveStranded(s, e, t);
  }

  /** A stranded sender is never woken: nothing but dropping its future ever changes it, in any continuation. */
  lemma {:induction false} StrandedForGood(s: Sys, events: seq<Event>, t: TaskId)
    requires Sound(s) && Stranded(s, t) && IsRun(s, events) && Cancel(t) !in events
    ensures Stranded(Run(s, events), t) && Run(s, events).tasks[t] == s.tasks[t]
    decreases |events|
  {
    if events != [] {
      assert events[0] in events && forall e | e in events[1..] :: e in events;
      StrandedStays(s, events[0], t);
      StepKeepsSound(s, events[0]);
      hide Step, Stranded, Sound, Enabled;
      StrandedForGood(Step(s, events[0]), events[1..], t);
    }
  }

  /** A sender parks and `close_stream` is called, all on one thread. */
  function StrandingEvents(data: bytes, reason: byte): seq<Event> {
    [Send(0, 1, data), TryGate(0)] + [Park(0), Shut(1, 1, reason)]
  }

  lemma ParkThenClose(s: Sys, data: bytes, reason: byte)
    requires 1 in s.queues && s.pump.Idle? && 1 in s.inner.streams && s.tasks == map[0 := ZeroSeen(1, data)]
    ensures var s' := StepShut(StepPark(s, 0), 1, 1, reason); Stranded(s', 0) && s'.tasks[0] == Parked(1, data)
  {
  }

  lemma ParkThenCloseRuns(s: Sys, data: bytes, reason: byte)
    requires Sound(s) && s.pump.Idle? && 1 in s.inner.streams && s.tasks == map[0 := ZeroSeen(1, data)]
    ensures IsRun(s, [Park(0), Shut(1, 1, reason)])
    ensures var s' := Run(s, [Park(0), Shut(1, 1, reason)]); Stranded(s', 0) && s'.tasks[0] == Parked(1, data)
  {
    assert 1 in s.queues;
    hide Sound, Stranded, IsRun, Run;
    ParkThenClose(s, data, reason);
    var s1 := StepPark(s, 0);
    StatesMakeARun([s, s1, StepShut(s1, 1, 1, reason)], [Park(0), Shut(1, 1, reason)]);
  }

  lemma StrandingRuns(s: Sys, data: bytes, reason: byte)
    requires Sound(s) && s.pump.Idle? && OutOfCredit(s, 1) && s.tasks == map[]
    ensures IsRun(s, StrandingEvents(data, reason)) && Stranded(Run(s, StrandingEvents(data, reason)), 0)
    ensures Run(s, StrandingEvents(data, reason)).tasks[0] == Parked(1, data)
  {
    ZeroIsSeen(s, 0, 1, data);
    hide Run, IsRun, Sound, Stranded;
    RunKeepsSound(s, [Send(0, 1, data), TryGate(0)]);
    ParkThenCloseRuns(Run(s, [Send(0, 1, data), TryGate(0)]), data, reason);
    RunsJoin(s, [Send(0, 1, data), TryGate(0)], [Park(0), Shut(1, 1, reason)]);
  }

  lemma InitIsSound()
    ensures Sound(Init([]))
  {
  }

  /**
   From the start, on one thread: a sender parks on a stream that is then closed from this side, and in every
   continuation that does not drop its future it sleeps on.
   */
  lemma AReachableStranding(dest: Dest, data: bytes, reason: byte)
    ensures var events := OpeningEvents(dest) + StrandingEvents(data, reason);
            && IsRun(Init([]), events) && !AlwaysWakeful(Init([]), events)
            && var s := Run(Init([]), events);
               && Stranded(s, 0) && s.tasks[0] == Parked(1, data)
               && forall more | IsRun(s, more) && Cancel(0) !in more ::
                    Stranded(Run(s, more), 0) && Run(s, more).tasks[0] == Parked(1, data)
  {
    hide IsRun, Run, OpeningEvents, StrandingEvents, AlwaysWakeful, Sound;
    AStreamOutOfCredit(dest);
    InitIsSound();
    RunKeepsSound(Init([]), OpeningEvents(dest));
    StrandingRuns(Run(Init([]), OpeningEvents(dest)), data, reason);
    var events := OpeningEvents(dest) + StrandingEvents(data, reason);
    RunsJoin(Init([]), OpeningEvents(dest), StrandingEvents(data, reason));
    RunKeepsSound(Init([]), events);
    if AlwaysWakeful(Init([]), events) {
      WakefulAtTheEnd(Init([]), events);
      assert false;
    }
    var s := Run(Init([]), events);
    forall more | IsRun(s, more) && Cancel(0) !in more
      ensures Stranded(Run(s, more), 0) && Run(s, more).tasks[0] == Parked(1, data)
    {
      StrandedForGood(s, more, 0);
    }
  }
}
