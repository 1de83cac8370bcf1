/**
 The multiplexer of `drift-core/src/wisp/mux.rs` as a state machine.

 `Inner` is what the source keeps under its lock. `Sys` adds what surrounds it: the inbound channel of every
 stream, the async operations in progress, the pump that dispatches inbound frames, and a log of what happened.
 Every locked section and every send on the transport is one step; between two steps any other may run.
 */
module MuxModel {
  import opened Bytes
  import opened Frame

  type TaskId = nat

  datatype HandshakeState = Pending | Established

  datatype Stream = Stream(kind: StreamType, credit: u32)

  datatype Inner = Inner(handshake: HandshakeState, nextId: u32, streams: map<u32, Stream>, initialCredit: u32)

  datatype Dest = Dest(host: bytes, port: u16)

  /**
   An async operation, named after the point it has reached. `since` is the log position of the locked section
   that entitles the operation to the frame it is about to send.
   */
  datatype Task =
    | Inserting(kind: StreamType, dest: Dest, id: u32, credit: u32) // `open` between its two locked sections
    | Connecting(kind: StreamType, dest: Dest, id: u32, since: nat) // `open` sending CONNECT
    | AtGate(id: u32, data: bytes)                                  // `send_data` at the top of its loop
    | ZeroSeen(id: u32, data: bytes)                                // zero credit read, lock released
    | Parked(id: u32, data: bytes)                                  // waiting on the stream's `Notify`
    | Sending(id: u32, data: bytes, since: nat)                     // `send_data` past its gate
    | Closing(id: u32, reason: byte, since: nat)                    // `close_stream` sending CLOSE

  /** `dispatch_inbound` between its locked section and what it does after releasing the lock. */
  datatype Pump = Idle | Holding(id: u32, payload: bytes) | Ringing(id: u32)

  /** `run_handshake`. */
  datatype Introduction =
    | AwaitFirst(extensions: seq<Extension>)
    | Introducing(extensions: seq<Extension>)
    | AwaitContinue
    | Finished

  datatype Obs =
    | Greeted(credit: u32)                            // the handshake completed
    | Allocated(id: u32)
    | Exhausted
    | Inserted(id: u32, kind: StreamType, credit: u32)
    | Submitted(id: u32, data: bytes)                 // `send_data` was called
    | Passed(id: u32)                                 // `send_data` passed its gate
    | Removed(id: u32)                                // `close_stream` removed the entry
    | Inbound(frame: bytes)                           // `dispatch_inbound` took the lock
    | Received(id: u32)                               // the stream's receiver took one payload
    | Sent(frame: bytes, since: nat)                  // the transport accepted a frame

  datatype Sys = Sys(
    inner: Inner,
    queues: map<u32, seq<bytes>>,
    tasks: map<TaskId, Task>,
    pump: Pump,
    intro: Introduction,
    log: seq<Obs>
  )

  function Init(extensions: seq<Extension>): Sys {
    Sys(Inner(Pending, 1, map[], 0), map[], map[], Idle, AwaitFirst(extensions), [])
  }

  // ---- Locked sections ----

  datatype Allocation = NotReady | NoIds | Id(id: u32, credit: u32)

  /** First locked section of `open`. */
  function Allocate(m: Inner): (Inner, Allocation) {
    if m.handshake != Established then (m, NotReady)
    else
      var id: u32 := if m.nextId == 0 then 1 else m.nextId;
      if id == U32_MAX then (m.(nextId := id), NoIds)
      else
        var next := id + 1;
        (m.(nextId := if next == HANDSHAKE_STREAM_ID then 1 else next), Id(id, m.initialCredit))
  }

  function OpeningCredit(kind: StreamType, initial: u32): u32 {
    if kind.Tcp? then initial else U32_MAX
  }

  datatype Verdict = Unknown | Pass | Zero

  /** The locked section of `send_data`. */
  function Gate(m: Inner, id: u32): (Inner, Verdict) {
    if id !in m.streams then (m, Unknown)
    else
      var st := m.streams[id];
      if st.kind.Udp? then (m, Pass)
      else if st.credit > 0 then (m.(streams := m.streams[id := st.(credit := st.credit - 1)]), Pass)
      else (m, Zero)
  }

  /** The locked section of `dispatch_inbound`, and what is left to do after it. */
  function DispatchLocked(m: Inner, frame: bytes): (Inner, Pump) {
    match DecodePacket(frame)
    case Err(_) => (m, Idle)
    case Ok(p) =>
      match p.packetType
      case Data => (m, if p.streamId in m.streams then Holding(p.streamId, p.payload) else Idle)
      case Continue =>
        if p.streamId == HANDSHAKE_STREAM_ID || DecodeContinue(p.payload).Err? || p.streamId !in m.streams then (m, Idle)
        else
          (m.(streams := m.streams[p.streamId := m.streams[p.streamId].(credit := DecodeContinue(p.payload).value)]),
           Ringing(p.streamId))
      case Close =>
        (m.(streams := m.streams - {p.streamId}), if p.streamId in m.streams then Ringing(p.streamId) else Idle)
      case _ => (m, Idle)
  }

  /** What `dispatch_inbound` returns. */
  function DispatchResult(frame: bytes): Result<(), DecodeError> {
    match DecodePacket(frame)
    case Err(e) => Err(e)
    case Ok(p) =>
      if p.packetType.Continue? && p.streamId != HANDSHAKE_STREAM_ID && DecodeContinue(p.payload).Err? then
        Err(DecodeContinue(p.payload).error)
      else Ok(())
  }

  /**
   `dispatch_inbound` refuses a frame without a whole header, one of a type that is none of 1 to 5, and a CONTINUE on a
   stream other than 0 with fewer than four credit bytes; a refused frame changes nothing.
   */
  lemma DispatchRefusals(m: Inner, frame: bytes)
    ensures DispatchResult(frame) ==
            if |frame| < 5 then Err(TooShort(|frame|, 5))
            else if !(1 <= frame[0] <= 5) then Err(UnknownPacketType(frame[0]))
            else if frame[0] == 3 && frame[1..5] != [0, 0, 0, 0] && |frame| < 9 then Err(TooShort(|frame| - 5, 4))
            else Ok(())
    ensures DispatchResult(frame).Err? ==> DispatchLocked(m, frame) == (m, Idle)
  {
    hide DecodePacket, DecodeContinue, LittleEndian;
    HeaderReads(frame);
    if DecodePacket(frame).Ok? {
      var p := DecodePacket(frame).value;
      PacketLayout(frame, p);
      CreditRefused(p.payload);
      ZeroBytes(frame[1], frame[2], frame[3], frame[4]);
      assert frame[1..5] == [frame[1], frame[2], frame[3], frame[4]];
    }
  }

  // ---- Steps ----

  datatype Event =
    | HandshakeFirst(frame: bytes)
    | HandshakeIntroduce(ok: bool)
    | HandshakeFinish(frame: bytes)
    | Open(t: TaskId, kind: StreamType, dest: Dest)
    | Insert(t: TaskId)
    | Send(t: TaskId, id: u32, data: bytes)
    | TryGate(t: TaskId)
    | Park(t: TaskId)
    | Shut(t: TaskId, id: u32, reason: byte)
    | Transmit(t: TaskId, ok: bool)
    | Dispatch(frame: bytes)
    | Deliver
    | Ring
    | Receive(id: u32)
    | Cancel(t: TaskId)

  function QueueOf(s: Sys, id: u32): seq<bytes> {
    if id in s.queues then s.queues[id] else []
  }

  predicate Transmitting(task: Task) {
    task.Connecting? || task.Sending? || task.Closing?
  }

  predicate Enabled(s: Sys, e: Event) {
    match e
    case HandshakeFirst(_) => s.intro.AwaitFirst?
    case HandshakeIntroduce(_) => s.intro.Introducing?
    case HandshakeFinish(_) => s.intro.AwaitContinue?
    case Open(t, _, _) => t !in s.tasks
    case Insert(t) => t in s.tasks && s.tasks[t].Inserting?
    case Send(t, _, _) => t !in s.tasks
    case TryGate(t) => t in s.tasks && s.tasks[t].AtGate?
    case Park(t) => t in s.tasks && s.tasks[t].ZeroSeen?
    case Shut(t, _, _) => t !in s.tasks
    case Transmit(t, _) => t in s.tasks && Transmitting(s.tasks[t])
    case Dispatch(_) => s.pump.Idle?
    case Deliver => s.pump.Holding?
    case Ring => s.pump.Ringing?
    case Receive(id) => QueueOf(s, id) != []
    case Cancel(t) => t in s.tasks && (s.tasks[t].AtGate? || s.tasks[t].Parked? || Transmitting(s.tasks[t]))
  }

  // Events by the operation they belong to; together with `Open` and `Insert` they are all there are.

  predicate InHandshake(e: Event) {
    e.HandshakeFirst? || e.HandshakeIntroduce? || e.HandshakeFinish?
  }

  predicate InDispatch(e: Event) {
    e.Dispatch? || e.Deliver? || e.Ring? || e.Receive?
  }

  predicate InSending(e: Event) {
    e.Send? || e.TryGate? || e.Park?
  }

  predicate InClosing(e: Event) {
    e.Shut? || e.Transmit? || e.Cancel?
  }

  function Greet(s: Sys, credit: u32): Sys {
    s.(inner := s.inner.(handshake := Established, initialCredit := credit), intro := Finished,
       log := s.log + [Greeted(credit)])
  }

  function StepHandshakeFirst(s: Sys, frame: bytes): Sys
    requires s.intro.AwaitFirst?
  {
    match DecodePacket(frame)
    case Err(_) => s.(intro := Finished)
    case Ok(p) =>
      if p.streamId != HANDSHAKE_STREAM_ID then s.(intro := Finished)
      else if p.packetType.Continue? then
        match DecodeContinue(p.payload)
        case Err(_) => s.(intro := Finished)
        case Ok(credit) => Greet(s, credit)
      else if p.packetType.Info? && DecodedInfo(p.payload).Ok? then s.(intro := Introducing(s.intro.extensions))
      else s.(intro := Finished)
  }

  function StepHandshakeIntroduce(s: Sys, ok: bool): Sys
    requires s.intro.Introducing?
  {
    if ok then
      s.(intro := AwaitContinue,
         log := s.log + [Sent(PacketBytes(Info, HANDSHAKE_STREAM_ID, InfoBytes(s.intro.extensions)), |s.log|)])
    else s.(intro := Finished)
  }

  function StepHandshakeFinish(s: Sys, frame: bytes): Sys {
    match DecodePacket(frame)
    case Err(_) => s.(intro := Finished)
    case Ok(p) =>
      if !p.packetType.Continue? || p.streamId != HANDSHAKE_STREAM_ID then s.(intro := Finished)
      else
        match DecodeContinue(p.payload)
        case Err(_) => s.(intro := Finished)
        case Ok(credit) => Greet(s, credit)
  }

  function StepOpen(s: Sys, t: TaskId, kind: StreamType, dest: Dest): Sys {
    var (m, a) := Allocate(s.inner);
    match a
    case NotReady => s.(inner := m)
    case NoIds => s.(inner := m, log := s.log + [Exhausted])
    case Id(id, credit) =>
      s.(inner := m, tasks := s.tasks[t := Inserting(kind, dest, id, credit)], log := s.log + [Allocated(id)])
  }

  function StepInsert(s: Sys, t: TaskId): Sys
    requires t in s.tasks && s.tasks[t].Inserting?
  {
    var Inserting(kind, dest, id, initial) := s.tasks[t];
    var credit := OpeningCredit(kind, initial);
    s.(inner := s.inner.(streams := s.inner.streams[id := Stream(kind, credit)]),
       queues := s.queues[id := []],
       tasks := s.tasks[t := Connecting(kind, dest, id, |s.log|)],
       log := s.log + [Inserted(id, kind, credit)])
  }

  function StepSend(s: Sys, t: TaskId, id: u32, data: bytes): Sys {
    s.(tasks := s.tasks[t := AtGate(id, data)], log := s.log + [Submitted(id, data)])
  }

  function StepGate(s: Sys, t: TaskId): Sys
    requires t in s.tasks && s.tasks[t].AtGate?
  {
    var AtGate(id, data) := s.tasks[t];
    var (m, v) := Gate(s.inner, id);
    match v
    case Unknown => s.(tasks := s.tasks - {t})
    case Zero => s.(tasks := s.tasks[t := ZeroSeen(id, data)])
    case Pass => s.(inner := m, tasks := s.tasks[t := Sending(id, data, |s.log|)], log := s.log + [Passed(id)])
  }

  function StepPark(s: Sys, t: TaskId): Sys
    requires t in s.tasks && s.tasks[t].ZeroSeen?
  {
    s.(tasks := s.tasks[t := Parked(s.tasks[t].id, s.tasks[t].data)])
  }

  function StepShut(s: Sys, t: TaskId, id: u32, reason: byte): Sys {
    s.(inner := s.inner.(streams := s.inner.streams - {id}),
       tasks := s.tasks[t := Closing(id, reason, |s.log|)],
       log := s.log + [Removed(id)])
  }

  function FrameOf(task: Task): bytes
    requires Transmitting(task)
  {
    match task
    case Connecting(kind, dest, id, _) => PacketBytes(Connect, id, ConnectBytes(kind, dest.port, dest.host))
    case Sending(id, data, _) => PacketBytes(Data, id, data)
    case Closing(id, reason, _) => PacketBytes(Close, id, [reason])
  }

  function StepTransmit(s: Sys, t: TaskId, ok: bool): Sys
    requires t in s.tasks && Transmitting(s.tasks[t])
  {
    s.(tasks := s.tasks - {t},
       log := if ok then s.log + [Sent(FrameOf(s.tasks[t]), s.tasks[t].since)] else s.log)
  }

  function StepDispatch(s: Sys, frame: bytes): Sys {
    var (m, pump) := DispatchLocked(s.inner, frame);
    s.(inner := m, pump := pump, log := s.log + [Inbound(frame)])
  }

  function StepDeliver(s: Sys): Sys
    requires s.pump.Holding?
  {
    s.(queues := s.queues[s.pump.id := QueueOf(s, s.pump.id) + [s.pump.payload]], pump := Idle)
  }

  /** `notify_waiters`: every sender waiting on the stream goes back to the top of its loop. */
  function Wake(tasks: map<TaskId, Task>, id: u32): map<TaskId, Task> {
    map t | t in tasks :: if tasks[t].Parked? && tasks[t].id == id then AtGate(id, tasks[t].data) else tasks[t]
  }

  function StepRing(s: Sys): Sys
    requires s.pump.Ringing?
  {
    s.(tasks := Wake(s.tasks, s.pump.id), pump := Idle)
  }

  function StepReceive(s: Sys, id: u32): Sys
    requires QueueOf(s, id) != []
  {
    s.(queues := s.queues[id := QueueOf(s, id)[1..]], log := s.log + [Received(id)])
  }

  function Step(s: Sys, e: Event): Sys
    requires Enabled(s, e)
  {
    match e
    case HandshakeFirst(frame) => StepHandshakeFirst(s, frame)
    case HandshakeIntroduce(ok) => StepHandshakeIntroduce(s, ok)
    case HandshakeFinish(frame) => StepHandshakeFinish(s, frame)
    case Open(t, kind, dest) => StepOpen(s, t, kind, dest)
    case Insert(t) => StepInsert(s, t)
    case Send(t, id, data) => StepSend(s, t, id, data)
    case TryGate(t) => StepGate(s, t)
    case Park(t) => StepPark(s, t)
    case Shut(t, id, reason) => StepShut(s, t, id, reason)
    case Transmit(t, ok) => StepTransmit(s, t, ok)
    case Dispatch(frame) => StepDispatch(s, frame)
    case Deliver => StepDeliver(s)
    case Ring => StepRing(s)
    case Receive(id) => StepReceive(s, id)
    case Cancel(t) => s.(tasks := s.tasks - {t})
  }

  // ---- Futures driven by polling ----

  /** What the transport answers when a send on it is polled. */
  datatype Wire = NotYet | Accepted | Refused

  datatype SendPoll = SendPending | SendDone | SendFailed

  predicate InSend(task: Task) {
    task.AtGate? || task.Parked? || task.Sending?
  }

  function PollTransmit(s: Sys, t: TaskId, w: Wire): (Sys, SendPoll)
    requires t in s.tasks && s.tasks[t].Sending?
  {
    match w
    case NotYet => (s, SendPending)
    case Accepted => (StepTransmit(s, t, true), SendDone)
    case Refused => (StepTransmit(s, t, false), SendFailed)
  }

  /** One poll of a `send_data` future: the gate if it is at it, then the transport if it is past it. */
  function PollSend(s: Sys, t: TaskId, w: Wire): (Sys, SendPoll)
    requires t in s.tasks && InSend(s.tasks[t])
  {
    if s.tasks[t].Parked? then (s, SendPending)
    else if s.tasks[t].Sending? then PollTransmit(s, t, w)
    else
      match Gate(s.inner, s.tasks[t].id).1
      case Unknown => (StepGate(s, t), SendFailed)
      case Zero => (StepPark(StepGate(s, t), t), SendPending)
      case Pass => PollTransmit(StepGate(s, t), t, w)
  }

  // ---- Runs ----

  /** `events` can happen one after the other from `s`. */
  predicate IsRun(s: Sys, events: seq<Event>)
    decreases |events|
  {
    events == [] || (Enabled(s, events[0]) && IsRun(Step(s, events[0]), events[1..]))
  }

  function Run(s: Sys, events: seq<Event>): Sys
    requires IsRun(s, events)
    decreases |events|
  {
    if events == [] then s else Run(Step(s, events[0]), events[1..])
  }

  /** A list of states, each stepping to the next, is a run. */
  lemma {:induction false} StatesMakeARun(states: seq<Sys>, events: seq<Event>)
    requires |states| == |events| + 1
    requires forall i | 0 <= i < |events| :: Enabled(states[i], events[i]) && Step(states[i], events[i]) == states[i + 1]
    ensures IsRun(states[0], events) && Run(states[0], events) == states[|events|]
    decreases |events|
  {
    if events != [] {
      StatesMakeARun(states[1..], events[1..]);
    }
  }

  lemma {:induction false} RunsJoin(s: Sys, first: seq<Event>, second: seq<Event>)
    requires IsRun(s, first) && IsRun(Run(s, first), second)
    ensures IsRun(s, first + second) && Run(s, first + second) == Run(Run(s, first), second)
    decreases |first|
  {
    if first == [] {
      assert first + second == second;
    } else {
      assert (first + second)[1..] == first[1..] + second;
      RunsJoin(Step(s, first[0]), first[1..], second);
    }
  }

  /** A version 1 handshake that grants nothing. */
  lemma GreetedWithNothing(hello: bytes)
    requires hello == PacketBytes(Continue, HANDSHAKE_STREAM_ID, U32Le(0))
    ensures StepHandshakeFirst(Init([]), hello) == Greet(Init([]), 0)
  {
    PacketCodec(hello, Packet(Continue, HANDSHAKE_STREAM_ID, U32Le(0)));
    ContinueCodec(0, []);
    assert U32Le(0) + [] == U32Le(0);
  }

  /** Some run leads to `s`. */
  ghost predicate Reachable(s: Sys) {
    exists extensions, events :: IsRun(Init(extensions), events) && Run(Init(extensions), events) == s
  }

  lemma {:induction false} RunSnoc(s: Sys, events: seq<Event>, e: Event)
    requires IsRun(s, events) && Enabled(Run(s, events), e)
    ensures IsRun(s, events + [e]) && Run(s, events + [e]) == Step(Run(s, events), e)
    decreases |events|
  {
    hide Step, Enabled;
    if events == [] {
      assert [] + [e] == [e] && [e][1..] == [];
    } else {
      assert (events + [e])[1..] == events[1..] + [e];
      RunSnoc(Step(s, events[0]), events[1..], e);
    }
  }

  lemma InitIsReachable(extensions: seq<Extension>)
    ensures Reachable(Init(extensions))
  {
    assert IsRun(Init(extensions), []) && Run(Init(extensions), []) == Init(extensions);
  }

  lemma StepIsReachable(s: Sys, e: Event)
    requires Reachable(s) && Enabled(s, e)
    ensures Reachable(Step(s, e))
  {
    var extensions, events :| IsRun(Init(extensions), events) && Run(Init(extensions), events) == s;
    hide Step, Enabled, Init, IsRun, Run;
    RunSnoc(Init(extensions), events, e);
  }
}
