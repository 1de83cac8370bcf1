/** Flow control: what a stream may put on the wire against what the peer granted. */
module Credit {
  import opened Bytes
  import opened Frame
  import opened MuxModel
  import opened Demux

  /** The grant a log entry makes to a stream in view `v`: its opening credit, or the CONTINUE it obeys. */
  function GrantIn(v: View, o: Obs): Option<u32> {
    match o
    case Inserted(_, _, credit) => Some(credit)
    case Inbound(frame) => if v.Live? && DecodePacket(frame).Ok? then Refill(DecodePacket(frame).value) else None
    case _ => None
  }

  function LastGrant(own: seq<Obs>): nat {
    if own == [] then 0
    else
      var g := GrantIn(Replay(own[..|own| - 1]), own[|own| - 1]);
      if g.Some? then g.value else LastGrant(own[..|own| - 1])
  }

  function PassesSinceGrant(own: seq<Obs>): nat {
    if own == [] then 0
    else if GrantIn(Replay(own[..|own| - 1]), own[|own| - 1]).Some? then 0
    else PassesSinceGrant(own[..|own| - 1]) + if own[|own| - 1].Passed? then 1 else 0
  }

  /** The opening credit plus every CONTINUE the live stream received. */
  function Granted(own: seq<Obs>): nat {
    if own == [] then 0
    else
      var g := GrantIn(Replay(own[..|own| - 1]), own[|own| - 1]);
      Granted(own[..|own| - 1]) + if g.Some? then g.value else 0
  }

  function Passes(own: seq<Obs>): nat {
    if own == [] then 0 else Passes(own[..|own| - 1]) + if own[|own| - 1].Passed? then 1 else 0
  }

  function DataIn(o: Obs): seq<bytes> {
    if o.Sent? && DecodePacket(o.frame).Ok? && DecodePacket(o.frame).value.packetType.Data? then
      [DecodePacket(o.frame).value.payload]
    else []
  }

  /** The DATA payloads the wire carried, decoded from the frames the transport accepted. */
  function WireData(own: seq<Obs>): seq<bytes> {
    if own == [] then [] else WireData(own[..|own| - 1]) + DataIn(own[|own| - 1])
  }

  lemma CountsSnoc(own: seq<Obs>, o: Obs)
    ensures Passes(own + [o]) == Passes(own) + if o.Passed? then 1 else 0
    ensures WireData(own + [o]) == WireData(own) + DataIn(o)
  {
    assert (own + [o])[..|own|] == own;
  }

  predicate OnlyTcp(own: seq<Obs>) {
    own == [] || (OnlyTcp(own[..|own| - 1]) && !(own[|own| - 1].Inserted? && own[|own| - 1].kind.Udp?))
  }

  /** The balance of one machine: credit plus passes since the last grant is that grant, and no pass is unpaid for. */
  lemma {:induction false} MachineBalance(own: seq<Obs>)
    requires Lawful(own) && OnlyTcp(own)
    ensures var v := Replay(own);
            && (v.Live? ==> v.kind.Tcp? && v.credit + PassesSinceGrant(own) == LastGrant(own))
            && (v.Unopened? ==> Passes(own) == 0)
            && Passes(own) + (if v.Live? then v.credit else 0) <= Granted(own)
    decreases |own|
  {
    if own != [] {
      MachineBalance(own[..|own| - 1]);
    }
  }

  // ---- From gate to wire ----

  ghost function SendingOn(s: Sys, id: u32): set<TaskId> {
    set t | t in s.tasks && s.tasks[t].Sending? && s.tasks[t].id == id
  }

  ghost predicate Accounted(s: Sys, id: u32) {
    |WireData(Own(s.log, id))| + |SendingOn(s, id)| <= Passes(Own(s.log, id))
  }

  /** The sender a step moves past its gate on `id`, or takes off the list of those about to send. */
  ghost predicate Passing(s: Sys, e: Event, id: u32)
    requires Enabled(s, e)
  {
    e.TryGate? && s.tasks[e.t].id == id && Gate(s.inner, id).1.Pass?
  }

  ghost predicate Ending(s: Sys, e: Event, id: u32)
    requires Enabled(s, e)
  {
    (e.Transmit? || e.Cancel?) && e.t in SendingOn(s, id)
  }

  lemma SendingMoves(s: Sys, e: Event, id: u32)
    requires Enabled(s, e)
    ensures Passing(s, e, id) ==> SendingOn(Step(s, e), id) == SendingOn(s, id) + {e.t} && e.t !in SendingOn(s, id)
    ensures Ending(s, e, id) ==> SendingOn(Step(s, e), id) == SendingOn(s, id) - {e.t}
    ensures !Passing(s, e, id) && !Ending(s, e, id) ==> SendingOn(Step(s, e), id) == SendingOn(s, id)
  {
  }

  function PacketOf(task: Task): Packet
    requires Transmitting(task)
  {
    match task
    case Connecting(kind, dest, id, _) => Packet(Connect, id, ConnectBytes(kind, dest.port, dest.host))
    case Sending(id, data, _) => Packet(Data, id, data)
    case Closing(id, reason, _) => Packet(Close, id, [reason])
  }

  /** What the frame of a step's log entry decodes to. */
  lemma WrittenSent(s: Sys, e: Event)
    requires Enabled(s, e) && Written(s, e).Some?
    ensures var o := Written(s, e).value;
            && (o.Passed? <==> e.TryGate? && Gate(s.inner, s.tasks[e.t].id).1.Pass?)
            && (o.Passed? ==> o.id == s.tasks[e.t].id)
            && (o.Sent? <==> (e.HandshakeIntroduce? || e.Transmit?) && e.ok)
            && (o.Sent? ==>
                  || (e.HandshakeIntroduce? && e.ok
                      && DecodePacket(o.frame) == Ok(Packet(Info, HANDSHAKE_STREAM_ID, InfoBytes(s.intro.extensions))))
                  || (e.Transmit? && e.ok && DecodePacket(o.frame) == Ok(PacketOf(s.tasks[e.t]))))
  {
    match e
    case HandshakeIntroduce(ok) =>
      PacketCodec(Written(s, e).value.frame, Packet(Info, HANDSHAKE_STREAM_ID, InfoBytes(s.intro.extensions)));
    case Transmit(t, ok) => PacketCodec(FrameOf(s.tasks[t]), PacketOf(s.tasks[t]));
    case _ =>
  }

  /** A pass on `id`, or a DATA frame sent on it, is written as an entry about `id`. */
  lemma WrittenIsAbout(s: Sys, e: Event, id: u32)
    requires Enabled(s, e)
    requires Passing(s, e, id) || (Ending(s, e, id) && e.Transmit? && e.ok)
    ensures Written(s, e).Some? && About(Written(s, e).value, id)
  {
    WrittenSent(s, e);
  }

  /** What a step adds to a stream's passes and wire. */
  lemma CountsMove(s: Sys, e: Event, id: u32)
    requires Enabled(s, e)
    ensures var own, own' := Own(s.log, id), Own(Step(s, e).log, id);
            && Passes(own') == Passes(own) + (if Passing(s, e, id) then 1 else 0)
            && WireData(own') == WireData(own) +
               (if Ending(s, e, id) && e.Transmit? && e.ok then [s.tasks[e.t].data] else [])
  {
    hide Step, Own, Passes, WireData;
    OwnStep(s, e, id);
    var own, o := Own(s.log, id), Written(s, e);
    if o.Some? && About(o.value, id) {
      CountsSnoc(own, o.value);
      WrittenSent(s, e);
      assert WireData(own) + [] == WireData(own);
    } else {
      assert own + [] == own;
      if Passing(s, e, id) || (Ending(s, e, id) && e.Transmit? && e.ok) {
        WrittenIsAbout(s, e, id);
      }
    }
  }

  lemma StepAccounted(s: Sys, e: Event, id: u32)
    requires Accounted(s, id) && Enabled(s, e)
    ensures Accounted(Step(s, e), id)
  {
    SendingMoves(s, e, id);
    CountsMove(s, e, id);
  }

  lemma {:induction false} RunAccounted(s: Sys, events: seq<Event>, id: u32)
    requires Accounted(s, id) && IsRun(s, events)
    ensures Accounted(Run(s, events), id)
    decreases |events|
  {
    if events != [] {
      StepAccounted(s, events[0], id);
      RunAccounted(Step(s, events[0]), events[1..], id);
    }
  }

  /**
   In every interleaving, a live TCP stream's credit and its gate passes since the last grant add up to that grant,
   and the DATA packets the wire ever carried for it are at most the opening credit plus its CONTINUE values.
   */
  lemma CreditAccounting(extensions: seq<Extension>, events: seq<Event>, id: u32)
    requires IsRun(Init(extensions), events)
    requires OnlyTcp(Own(Run(Init(extensions), events).log, id))
    ensures var s := Run(Init(extensions), events);
            var own := Own(s.log, id);
            && (id in s.inner.streams ==> s.inner.streams[id].credit + PassesSinceGrant(own) == LastGrant(own))
            && |WireData(own)| <= Passes(own) <= Granted(own)
  {
    EachStreamIsItsOwnMachine(extensions, events, id);
    MachineBalance(Own(Run(Init(extensions), events).log, id));
    assert SendingOn(Init(extensions), id) == {};
    RunAccounted(Init(extensions), events, id);
  }
}
