/**
 Demultiplexing: the multiplexer behaves, for every stream id, as one small machine that sees only the entries
 of the log that carry that id. A frame carries an id when its decoded header does.
 */
module Demux {
  import opened Bytes
  import opened Frame
  import opened MuxModel
  import opened StreamIds

  /** One stream on its own: its credit, and the payloads on their way to the receiver. */
  datatype View = Unopened | Live(kind: StreamType, credit: u32, queue: seq<bytes>) | Dead(queue: seq<bytes>)

  function QueueIn(v: View): seq<bytes> {
    if v.Unopened? then [] else v.queue
  }

  predicate FrameCarries(frame: bytes, id: u32) {
    DecodePacket(frame).Ok? && DecodePacket(frame).value.streamId == id
  }

  predicate About(o: Obs, id: u32) {
    match o
    case Inserted(i, _, _) => i == id
    case Submitted(i, _) => i == id
    case Passed(i) => i == id
    case Removed(i) => i == id
    case Received(i) => i == id
    case Inbound(frame) => FrameCarries(frame, id)
    case Sent(frame, _) => FrameCarries(frame, id)
    case Allocated(_) => false
    case Greeted(_) => false
    case Exhausted => false
  }

  /** The part of the log that carries `id`. */
  function Own(log: seq<Obs>, id: u32): seq<Obs> {
    if log == [] then []
    else
      var o := log[|log| - 1];
      Own(log[..|log| - 1], id) + if About(o, id) then [o] else []
  }

  /** The value of a CONTINUE this machine obeys: one on a real stream, with a whole credit field. */
  function Refill(p: Packet): Option<u32> {
    if p.packetType.Continue? && p.streamId != HANDSHAKE_STREAM_ID && DecodeContinue(p.payload).Ok? then
      Some(DecodeContinue(p.payload).value)
    else None
  }

  function Accept(v: View, p: Packet): View
    requires v.Live?
  {
    if p.packetType.Data? then v.(queue := v.queue + [p.payload])
    else if p.packetType.Close? then Dead(v.queue)
    else if Refill(p).Some? then v.(credit := Refill(p).value)
    else v
  }

  /** The machine of one stream. */
  function Advance(v: View, o: Obs): View {
    match o
    case Inserted(_, kind, credit) => Live(kind, credit, [])
    case Passed(_) => if v.Live? && v.kind.Tcp? && v.credit > 0 then v.(credit := v.credit - 1) else v
    case Removed(_) => if v.Live? then Dead(v.queue) else v
    case Received(_) => if QueueIn(v) == [] then v else v.(queue := v.queue[1..])
    case Inbound(frame) => if v.Live? && DecodePacket(frame).Ok? then Accept(v, DecodePacket(frame).value) else v
    case _ => v
  }

  /** What may happen next to a stream in view `v`. */
  predicate May(v: View, o: Obs) {
    match o
    case Inserted(_, _, _) => v.Unopened?
    case Passed(_) => v.Live? && (v.kind.Tcp? ==> v.credit > 0)
    case Received(_) => QueueIn(v) != []
    case _ => true
  }

  function Replay(own: seq<Obs>): View {
    if own == [] then Unopened else Advance(Replay(own[..|own| - 1]), own[|own| - 1])
  }

  predicate Lawful(own: seq<Obs>) {
    own == [] || (Lawful(own[..|own| - 1]) && May(Replay(own[..|own| - 1]), own[|own| - 1]))
  }

  /** What the pump still holds for `id` after releasing the lock. */
  function InHand(s: Sys, id: u32): seq<bytes> {
    if s.pump.Holding? && s.pump.id == id then [s.pump.payload] else []
  }

  /** The state of stream `id` as the whole system stores it. */
  function ViewOf(s: Sys, id: u32): View {
    var queue := QueueOf(s, id) + InHand(s, id);
    if id in s.inner.streams then Live(s.inner.streams[id].kind, s.inner.streams[id].credit, queue)
    else if id in s.queues then Dead(queue)
    else Unopened
  }

  ghost predicate Refines(s: Sys, id: u32) {
    ViewOf(s, id) == Replay(Own(s.log, id)) && Lawful(Own(s.log, id))
  }

  lemma OwnSnoc(log: seq<Obs>, o: Obs, id: u32)
    ensures Own(log + [o], id) == Own(log, id) + if About(o, id) then [o] else []
  {
    assert (log + [o])[..|log|] == log;
  }

  lemma ReplaySnoc(own: seq<Obs>, o: Obs)
    ensures Replay(own + [o]) == Advance(Replay(own), o)
    ensures Lawful(own + [o]) <==> Lawful(own) && May(Replay(own), o)
  {
    assert (own + [o])[..|own|] == own;
  }

  /** What a step writes in the log, if anything. */
  function Written(s: Sys, e: Event): Option<Obs>
    requires Enabled(s, e)
  {
    var s' := Step(s, e);
    if |s'.log| > |s.log| then Some(s'.log[|s'.log| - 1]) else None
  }

  /** The step `e` seen from stream `id`. */
  ghost predicate SeenFrom(s: Sys, e: Event, id: u32)
    requires Enabled(s, e)
  {
    var o := Written(s, e);
    if o.Some? && About(o.value, id) then
      May(ViewOf(s, id), o.value) && ViewOf(Step(s, e), id) == Advance(ViewOf(s, id), o.value)
    else ViewOf(Step(s, e), id) == ViewOf(s, id)
  }

  lemma DispatchSeen(s: Sys, frame: bytes, id: u32)
    requires Sound(s) && s.pump.Idle?
    ensures SeenFrom(s, Dispatch(frame), id)
  {
    hide DecodePacket, DecodeContinue;
  }

  lemma DeliverSeen(s: Sys, id: u32)
    requires Sound(s) && s.pump.Holding?
    ensures SeenFrom(s, Deliver, id)
  {
    if s.pump.id == id {
      assert QueueOf(StepDeliver(s), id) + [] == QueueOf(s, id) + [s.pump.payload];
    }
  }

  lemma ReceiveSeen(s: Sys, i: u32, id: u32)
    requires Sound(s) && QueueOf(s, i) != []
    ensures SeenFrom(s, Receive(i), id)
  {
    if i == id {
      assert (QueueOf(s, id) + InHand(s, id))[1..] == QueueOf(s, id)[1..] + InHand(s, id);
    }
  }

  lemma InsertSeen(s: Sys, t: TaskId, id: u32)
    requires Sound(s) && t in s.tasks && s.tasks[t].Inserting?
    ensures SeenFrom(s, Insert(t), id)
  {
    hide FrameOf;
    if s.tasks[t].id == id {
      assert QueueOf(StepInsert(s, t), id) + InHand(s, id) == [];
    }
  }

  lemma HandshakeSeen(s: Sys, e: Event, id: u32)
    requires Sound(s) && Enabled(s, e)
    requires e.HandshakeFirst? || e.HandshakeFinish?
    ensures SeenFrom(s, e, id)
  {
  }

  lemma IntroduceSeen(s: Sys, ok: bool, id: u32)
    requires Sound(s) && s.intro.Introducing?
    ensures SeenFrom(s, HandshakeIntroduce(ok), id)
  {
  }

  lemma GateSeen(s: Sys, t: TaskId, id: u32)
    requires Sound(s) && t in s.tasks && s.tasks[t].AtGate?
    ensures SeenFrom(s, TryGate(t), id)
  {
    hide FrameOf;
  }

  lemma ShutSeen(s: Sys, t: TaskId, i: u32, reason: byte, id: u32)
    requires Sound(s) && t !in s.tasks
    ensures SeenFrom(s, Shut(t, i, reason), id)
  {
  }

  lemma TransmitSeen(s: Sys, t: TaskId, ok: bool, id: u32)
    requires Sound(s) && t in s.tasks && Transmitting(s.tasks[t])
    ensures SeenFrom(s, Transmit(t, ok), id)
  {
  }

  lemma OpenSeen(s: Sys, e: Event, id: u32)
    requires Sound(s) && Enabled(s, e) && (e.Open? || e.Send?)
    ensures SeenFrom(s, e, id)
  {
    hide Sound;
  }

  lemma QuietSeen(s: Sys, e: Event, id: u32)
    requires Sound(s) && Enabled(s, e) && (e.Park? || e.Ring? || e.Cancel?)
    ensures SeenFrom(s, e, id)
  {
    hide Sound, Wake;
  }

  lemma EveryStepSeen(s: Sys, e: Event, id: u32)
    requires Sound(s) && Enabled(s, e)
    ensures SeenFrom(s, e, id)
  {
    match e
    case Dispatch(frame) => DispatchSeen(s, frame, id);
    case Deliver => DeliverSeen(s, id);
    case Receive(i) => ReceiveSeen(s, i, id);
    case Insert(t) => InsertSeen(s, t, id);
    case TryGate(t) => GateSeen(s, t, id);
    case HandshakeFirst(_) => HandshakeSeen(s, e, id);
    case HandshakeFinish(_) => HandshakeSeen(s, e, id);
    case HandshakeIntroduce(ok) => IntroduceSeen(s, ok, id);
    case Transmit(t, ok) => TransmitSeen(s, t, ok, id);
    case Shut(t, i, reason) => ShutSeen(s, t, i, reason, id);
    case Open(_, _, _) => OpenSeen(s, e, id);
    case Send(_, _, _) => OpenSeen(s, e, id);
    case _ => QuietSeen(s, e, id);
  }

  lemma OwnStep(s: Sys, e: Event, id: u32)
    requires Enabled(s, e)
    ensures var o := Written(s, e);
            Own(Step(s, e).log, id) == Own(s.log, id) + if o.Some? && About(o.value, id) then [o.value] else []
  {
    hide Step, Own, About;
    StepWritesOnce(s, e);
    var s' := Step(s, e);
    if s'.log != s.log {
      assert s'.log == s.log + [s'.log[|s.log|]];
      OwnSnoc(s.log, s'.log[|s.log|], id);
    } else {
      assert Own(s.log, id) + [] == Own(s.log, id);
    }
  }

  lemma StepRefines(s: Sys, e: Event, id: u32)
    requires Sound(s) && Refines(s, id) && Enabled(s, e)
    ensures Refines(Step(s, e), id)
  {
    EveryStepSeen(s, e, id);
    OwnStep(s, e, id);
    var o := Written(s, e);
    if o.Some? && About(o.value, id) {
      ReplaySnoc(Own(s.log, id), o.value);
    } else {
      assert Own(s.log, id) + [] == Own(s.log, id);
    }
  }

  lemma {:induction false} RunRefines(s: Sys, events: seq<Event>, id: u32)
    requires Sound(s) && Refines(s, id) && IsRun(s, events)
    ensures Refines(Run(s, events), id)
    decreases |events|
  {
    if events != [] {
      StepKeepsSound(s, events[0]);
      StepRefines(s, events[0], id);
      RunRefines(Step(s, events[0]), events[1..], id);
    }
  }

  /**
   After any interleaving of opens, sends, closes and inbound frames, the liveness, kind, credit and queue of every
   stream are what its own machine computes from the log entries carrying its id, and nothing else.
   */
  lemma EachStreamIsItsOwnMachine(extensions: seq<Extension>, events: seq<Event>, id: u32)
    requires IsRun(Init(extensions), events)
    ensures var s := Run(Init(extensions), events);
            ViewOf(s, id) == Replay(Own(s.log, id)) && Lawful(Own(s.log, id))
  {
    RunRefines(Init(extensions), events, id);
  }

  /** An inbound frame changes no stream but the one its header names; a frame that does not decode changes none. */
  lemma FrameTouchesOneStream(s: Sys, frame: bytes, id: u32)
    requires Sound(s) && s.pump.Idle? && !FrameCarries(frame, id)
    ensures var s1 := StepDispatch(s, frame);
            ViewOf(s1, id) == ViewOf(s, id) && (s1.pump.Holding? ==> ViewOf(StepDeliver(s1), id) == ViewOf(s, id))
  {
    DispatchSeen(s, frame, id);
    var s1 := StepDispatch(s, frame);
    if s1.pump.Holding? {
      StepKeepsSound(s, Dispatch(frame));
      DeliverSeen(s1, id);
    }
  }
}
