/**
 The `Mux` object of `drift-core/src/wisp/mux.rs`, with one method per locked section and per send on the
 transport, each tied to the step of the same name. Beside the fields the source keeps under its lock, the object
 carries what surrounds them: the channels of the streams, the operations in progress and a log.
 */
module Multiplexer {
  import opened Bytes
  import opened Frame
  import opened MuxModel
  import opened StreamIds
  import opened Demux
  import opened WireContents

  datatype MuxError =
    | Transport
    | Decode(error: DecodeError)
    | Handshake
    | UnknownStream(id: u32)
    | StreamIdExhausted

  /** What `run_handshake` does after a frame. */
  datatype Progress = Done | SendInfo | Failed(error: MuxError)

  /** `dispatch_inbound` after it has released the lock. */
  function Settled(s: Sys): Sys {
    match s.pump
    case Idle => s
    case Holding(_, _) => StepDeliver(s)
    case Ringing(_) => StepRing(s)
  }

  lemma SettledTouchesOne(s: Sys, frame: bytes, id: u32)
    requires Sound(s) && s.pump.Idle? && !FrameCarries(frame, id)
    ensures ViewOf(Settled(StepDispatch(s, frame)), id) == ViewOf(s, id)
  {
    FrameTouchesOneStream(s, frame, id);
    hide FrameCarries, Sound, DispatchLocked;
  }

  /** The frame decodes to a packet of that description. */
  predicate ReadsAs(frame: bytes, description: Packet -> bool) {
    DecodePacket(frame).Ok? && description(DecodePacket(frame).value)
  }

  function SkipReserved(id: u32): u32 {
    if id == HANDSHAKE_STREAM_ID then 1 else id
  }

  class Mux {
    var handshake: HandshakeState
    var nextStreamId: u32
    var streams: map<u32, Stream>
    var initialCredit: u32

    var queues: map<u32, seq<bytes>>
    var tasks: map<TaskId, Task>
    var pump: Pump
    var introduction: Introduction
    var log: seq<Obs>

    function State(): Sys
      reads this
    {
      Sys(Inner(handshake, nextStreamId, streams, initialCredit), queues, tasks, pump, introduction, log)
    }

    /** The object is in a state some interleaving leads to. */
    ghost predicate Valid()
      reads this
    {
      Reachable(State())
    }

    constructor (extensions: seq<Extension>)
      ensures Valid() && State() == Init(extensions)
    {
      InitIsReachable(extensions);
      handshake, nextStreamId, streams, initialCredit := Pending, 1, map[], 0;
      queues, tasks, pump, introduction, log := map[], map[], Idle, AwaitFirst(extensions), [];
    }

    // ---- run_handshake ----

    method Establish(credit: u32)
      modifies this
      ensures State() == Greet(old(State()), credit)
    {
      handshake := Established;
      initialCredit := credit;
      introduction := Finished;
      log := log + [Greeted(credit)];
    }

    method ReceiveServerGreeting(frame: bytes) returns (r: Progress)
      requires Valid() && Enabled(State(), HandshakeFirst(frame))
      modifies this
      ensures Valid()
      ensures State() == Step(old(State()), HandshakeFirst(frame))
      ensures r.Done? <==> GrantOf(frame).Some?
      ensures r.SendInfo? <==> IsGreeting(frame) && introduction.Introducing?
      ensures r.Failed? ==> introduction.Finished? && (r.error.Handshake? || r.error.Decode?)
      ensures r == Failed(Handshake) <==> ReadsAs(frame, (p: Packet) => p.streamId != 0 || (!p.packetType.Continue? && !p.packetType.Info?))
    {
      GrantDecodes(frame);
      GreetingDecodes(frame);
      hide Reachable, GrantOf, IsGreeting;
      StepIsReachable(State(), HandshakeFirst(frame));
      var decoded := DecodePacket(frame);
      if decoded.Err? {
        introduction := Finished;
        return Failed(Decode(decoded.error));
      }
      var packet := decoded.value;
      if packet.streamId != HANDSHAKE_STREAM_ID {
        introduction := Finished;
        return Failed(Handshake);
      }
      if packet.packetType == Continue {
        var credit := DecodeContinue(packet.payload);
        if credit.Err? {
          introduction := Finished;
          return Failed(Decode(credit.error));
        }
        Establish(credit.value);
        return Done;
      }
      if packet.packetType != Info {
        introduction := Finished;
        return Failed(Handshake);
      }
      var info := DecodeInfo(packet.payload);
      if info.Err? {
        introduction := Finished;
        return Failed(Decode(info.error));
      }
      introduction := Introducing(introduction.extensions);
      return SendInfo;
    }

    method SendClientInfo(ok: bool) returns (r: Result<(), MuxError>)
      requires Valid() && Enabled(State(), HandshakeIntroduce(ok))
      modifies this
      ensures Valid()
      ensures State() == Step(old(State()), HandshakeIntroduce(ok))
      ensures r == if ok then Ok(()) else Err(Transport)
      ensures ok ==>
                && introduction.AwaitContinue?
                && log == old(log) + [Sent(ClientInfo(old(introduction).extensions), |old(log)|)]
      ensures !ok ==> introduction.Finished? && log == old(log)
    {
      InfoFrame(introduction.extensions);
      hide Reachable, ClientInfo;
      StepIsReachable(State(), HandshakeIntroduce(ok));
      var payload := EncodeInfo(introduction.extensions);
      var packet := EncodePacketToVec(Info, HANDSHAKE_STREAM_ID, payload);
      if !ok {
        introduction := Finished;
        return Err(Transport);
      }
      log := log + [Sent(packet, |log|)];
      introduction := AwaitContinue;
      return Ok(());
    }

    method ReceiveServerContinue(frame: bytes) returns (r: Result<(), MuxError>)
      requires Valid() && Enabled(State(), HandshakeFinish(frame))
      modifies this
      ensures Valid()
      ensures State() == Step(old(State()), HandshakeFinish(frame))
      ensures r.Ok? <==> GrantOf(frame).Some? && log == old(log) + [Greeted(initialCredit)]
      ensures r.Ok? ==> initialCredit == GrantOf(frame).value
      ensures r.Err? ==> r.error.Handshake? || r.error.Decode?
      ensures r == Err(Handshake) <==> ReadsAs(frame, (p: Packet) => p.streamId != 0 || !p.packetType.Continue?)
    {
      GrantDecodes(frame);
      hide Reachable, GrantOf;
      StepIsReachable(State(), HandshakeFinish(frame));
      var decoded := DecodePacket(frame);
      if decoded.Err? {
        introduction := Finished;
        return Err(Decode(decoded.error));
      }
      var packet := decoded.value;
      if packet.packetType != Continue || packet.streamId != HANDSHAKE_STREAM_ID {
        introduction := Finished;
        return Err(Handshake);
      }
      var credit := DecodeContinue(packet.payload);
      if credit.Err? {
        introduction := Finished;
        return Err(Decode(credit.error));
      }
      Establish(credit.value);
      return Ok(());
    }

    // ---- open ----

    /** First locked section of `open`. */
    method AllocateId(t: TaskId, kind: StreamType, dest: Dest) returns (r: Result<u32, MuxError>)
      requires Valid() && Enabled(State(), Open(t, kind, dest))
      modifies this
      ensures Valid()
      ensures State() == Step(old(State()), Open(t, kind, dest))
      ensures r == match Allocate(old(State()).inner).1
                   case NotReady => Err(Handshake)
                   case NoIds => Err(StreamIdExhausted)
                   case Id(id, _) => Ok(id)
      ensures r.Ok? ==> r.value != HANDSHAKE_STREAM_ID && r.value !in old(streams) && r.value !in old(queues)
      ensures r == Err(StreamIdExhausted) ==> log == old(log) + [Exhausted]
      ensures r.Ok? ==> t in tasks && PacketDue(tasks[t]) == ConnectPacket(r.value, kind, dest)
    {
      ReachableIsSound(State());
      hide Reachable;
      StepIsReachable(State(), Open(t, kind, dest));
      if handshake != Established {
        return Err(Handshake);
      }
      nextStreamId := SkipReserved(nextStreamId);
      var id := nextStreamId;
      if nextStreamId == U32_MAX {
        log := log + [Exhausted];
        return Err(StreamIdExhausted);
      }
      nextStreamId := SkipReserved(nextStreamId + 1);
      tasks := tasks[t := Inserting(kind, dest, id, initialCredit)];
      log := log + [Allocated(id)];
      return Ok(id);
    }

    /** Second locked section of `open`. */
    method InsertStream(t: TaskId)
      requires Valid() && Enabled(State(), Insert(t))
      modifies this
      ensures Valid()
      ensures State() == Step(old(State()), Insert(t))
      ensures old(tasks)[t].id !in old(streams) && old(tasks)[t].id !in old(queues)
      ensures var Inserting(kind, _, id, initial) := old(tasks)[t];
              id in streams && streams[id] == Stream(kind, if kind.Tcp? then initial else 0xFFFF_FFFF)
      ensures t in tasks && PacketDue(tasks[t]) == PacketDue(old(tasks)[t])
    {
      ReachableIsSound(State());
      hide Reachable;
      StepIsReachable(State(), Insert(t));
      var Inserting(kind, dest, id, initial) := tasks[t];
      var credit: u32 := initial;
      match kind {
        case Tcp =>
        case Udp => credit := U32_MAX;
      }
      streams := streams[id := Stream(kind, credit)];
      queues := queues[id := []];
      tasks := tasks[t := Connecting(kind, dest, id, |log|)];
      log := log + [Inserted(id, kind, credit)];
    }

    /** The send on the transport that ends `open`, `send_data` and `close_stream`. */
    method SendFrame(t: TaskId, ok: bool) returns (r: Result<(), MuxError>)
      requires Valid() && Enabled(State(), Transmit(t, ok))
      modifies this
      ensures Valid()
      ensures State() == Step(old(State()), Transmit(t, ok))
      ensures r == if ok then Ok(()) else Err(Transport)
      ensures ok ==> exists o :: log == old(log) + [o] && OnWireAs(o) == Some(PacketDue(old(tasks)[t]))
    {
      hide Reachable;
      StepIsReachable(State(), Transmit(t, ok));
      var task, packet := tasks[t], [];
      DueOnTheWire(task);
      match task {
        case Connecting(kind, dest, id, _) =>
          packet := EncodePacketToVec(Connect, id, ConnectBytes(kind, dest.port, dest.host));
        case Sending(id, data, _) =>
          packet := EncodePacketToVec(Data, id, data);
        case Closing(id, reason, _) =>
          packet := EncodePacketToVec(Close, id, [reason]);
      }
      tasks := tasks - {t};
      if !ok {
        return Err(Transport);
      }
      log := log + [Sent(packet, task.since)];
      return Ok(());
    }

    // ---- send_data ----

    method StartSendData(t: TaskId, id: u32, data: bytes)
      requires Valid() && Enabled(State(), Send(t, id, data))
      modifies this
      ensures Valid()
      ensures State() == Step(old(State()), Send(t, id, data))
    {
      hide Reachable;
      StepIsReachable(State(), Send(t, id, data));
      tasks := tasks[t := AtGate(id, data)];
      log := log + [Submitted(id, data)];
    }

    /** The locked section of `send_data`. */
    method PassGate(t: TaskId) returns (r: Result<bool, MuxError>)
      requires Valid() && Enabled(State(), TryGate(t))
      modifies this
      ensures Valid()
      ensures State() == Step(old(State()), TryGate(t))
      ensures r == match Gate(old(State()).inner, old(tasks)[t].id).1
                   case Unknown => Err(UnknownStream(old(tasks)[t].id))
                   case Pass => Ok(true)
                   case Zero => Ok(false)
    {
      hide Reachable;
      StepIsReachable(State(), TryGate(t));
      var AtGate(id, data) := tasks[t];
      if id !in streams {
        tasks := tasks - {t};
        return Err(UnknownStream(id));
      }
      var st := streams[id];
      match st.kind {
        case Udp =>
        case Tcp =>
          if st.credit == 0 {
            tasks := tasks[t := ZeroSeen(id, data)];
            return Ok(false);
          }
          streams := streams[id := st.(credit := st.credit - 1)];
      }
      tasks := tasks[t := Sending(id, data, |log|)];
      log := log + [Passed(id)];
      return Ok(true);
    }

    /** Creating the future of `notified` makes the waiter. */
    method AwaitCredit(t: TaskId)
      requires Valid() && Enabled(State(), Park(t))
      modifies this
      ensures Valid()
      ensures State() == Step(old(State()), Park(t))
    {
      hide Reachable;
      StepIsReachable(State(), Park(t));
      tasks := tasks[t := Parked(tasks[t].id, tasks[t].data)];
    }

    /** One poll of a `send_data` future; the transport answers `w`. */
    method PollSendData(t: TaskId, w: Wire) returns (p: SendPoll)
      requires Valid() && t in tasks && InSend(tasks[t])
      modifies this
      ensures Valid()
      ensures (State(), p) == PollSend(old(State()), t, w)
    {
      if tasks[t].Parked? {
        return SendPending;
      }
      if tasks[t].AtGate? {
        var passed := PassGate(t);
        if passed.Err? {
          return SendFailed;
        }
        if !passed.value {
          AwaitCredit(t);
          return SendPending;
        }
      }
      if w.NotYet? {
        return SendPending;
      }
      var sent := SendFrame(t, w.Accepted?);
      return if sent.Ok? then SendDone else SendFailed;
    }

    /** The future is dropped before it finished. */
    method DropOperation(t: TaskId)
      requires Valid() && Enabled(State(), Cancel(t))
      modifies this
      ensures Valid()
      ensures State() == Step(old(State()), Cancel(t))
    {
      hide Reachable;
      StepIsReachable(State(), Cancel(t));
      tasks := tasks - {t};
    }

    // ---- close_stream ----

    method RemoveStream(t: TaskId, id: u32, reason: byte)
      requires Valid() && Enabled(State(), Shut(t, id, reason))
      modifies this
      ensures Valid()
      ensures State() == Step(old(State()), Shut(t, id, reason))
    {
      hide Reachable;
      StepIsReachable(State(), Shut(t, id, reason));
      streams := streams - {id};
      tasks := tasks[t := Closing(id, reason, |log|)];
      log := log + [Removed(id)];
    }

    // ---- dispatch_inbound ----

    method DispatchUnderLock(frame: bytes) returns (r: Result<(), MuxError>)
      requires Valid() && Enabled(State(), Dispatch(frame))
      modifies this
      ensures Valid()
      ensures State() == Step(old(State()), Dispatch(frame))
      ensures r == match DispatchResult(frame) case Ok(_) => Ok(()) case Err(e) => Err(Decode(e))
    {
      hide Reachable;
      StepIsReachable(State(), Dispatch(frame));
      log := log + [Inbound(frame)];
      var decoded := DecodePacket(frame);
      if decoded.Err? {
        return Err(Decode(decoded.error));
      }
      var packet := decoded.value;
      var id := packet.streamId;
      match packet.packetType {
        case Data =>
          if id in streams {
            pump := Holding(id, packet.payload);
          }
        case Continue =>
          if id == HANDSHAKE_STREAM_ID {
            return Ok(());
          }
          var credit := DecodeContinue(packet.payload);
          if credit.Err? {
            return Err(Decode(credit.error));
          }
          if id in streams {
            streams := streams[id := streams[id].(credit := credit.value)];
            pump := Ringing(id);
          }
        case Close =>
          if id in streams {
            pump := Ringing(id);
          }
          streams := streams - {id};
        case _ =>
      }
      return Ok(());
    }

    method DeliverPayload()
      requires Valid() && Enabled(State(), Deliver)
      modifies this
      ensures Valid()
      ensures State() == Step(old(State()), Deliver)
    {
      hide Reachable;
      StepIsReachable(State(), Deliver);
      var queue := if pump.id in queues then queues[pump.id] else [];
      queues := queues[pump.id := queue + [pump.payload]];
      pump := Idle;
    }

    method NotifyWaiters()
      requires Valid() && Enabled(State(), Ring)
      modifies this
      ensures Valid()
      ensures State() == Step(old(State()), Ring)
    {
      hide Reachable;
      StepIsReachable(State(), Ring);
      tasks := Wake(tasks, pump.id);
      pump := Idle;
    }

    /** The whole of `dispatch_inbound`, as it runs where nothing else can run in between. */
    method DispatchInbound(frame: bytes) returns (r: Result<(), MuxError>)
      requires Valid() && pump.Idle?
      modifies this
      ensures Valid()
      ensures State() == Settled(Step(old(State()), Dispatch(frame))) && pump.Idle?
      ensures forall id | !FrameCarries(frame, id) :: ViewOf(State(), id) == ViewOf(old(State()), id)
      ensures r == match DispatchResult(frame) case Ok(_) => Ok(()) case Err(e) => Err(Decode(e))
    {
      hide Reachable, Sound, ViewOf, FrameCarries, DispatchLocked, DispatchResult;
      ghost var before := State();
      ReachableIsSound(before);
      r := DispatchUnderLock(frame);
      match pump {
        case Holding(_, _) => DeliverPayload();
        case Ringing(_) => NotifyWaiters();
        case Idle =>
      }
      forall id | !FrameCarries(frame, id) ensures ViewOf(State(), id) == ViewOf(before, id) {
        SettledTouchesOne(before, frame, id);
      }
    }

    /** The receiver takes a payload. */
    method TakePayload(id: u32) returns (payload: bytes)
      requires Valid() && Enabled(State(), Receive(id))
      modifies this
      ensures Valid()
      ensures State() == Step(old(State()), Receive(id)) && payload == QueueOf(old(State()), id)[0]
    {
      hide Reachable;
      StepIsReachable(State(), Receive(id));
      payload := queues[id][0];
      queues := queues[id := queues[id][1..]];
      log := log + [Received(id)];
    }
  }
}
