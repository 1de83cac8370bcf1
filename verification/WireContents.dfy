/**
 What the multiplexer puts on the wire, and with what credit its streams open, against what its callers and the
 server's handshake asked for: nothing is made up, changed or sent twice.
 */
module WireContents {
  import opened Bytes
  import opened Frame
  import Text
  import opened MuxModel
  import opened StreamIds
  import opened Demux
  import opened Credit

  // ---- What the handshake grants ----

  /** The credit a CONTINUE frame on stream 0 grants. */
  function GrantOf(frame: bytes): Option<u32> {
    if |frame| >= 9 && frame[..5] == [3, 0, 0, 0, 0] then
      Some(LittleEndian(frame[5], frame[6], frame[7], frame[8]))
    else None
  }

  lemma FirstFive(frame: bytes, kind: byte)
    requires |frame| >= 5
    ensures frame[..5] == [kind, 0, 0, 0, 0] <==>
            frame[0] == kind && frame[1] == 0 && frame[2] == 0 && frame[3] == 0 && frame[4] == 0
  {
    assert frame[..5] == [frame[0], frame[1], frame[2], frame[3], frame[4]];
  }

  /** The decoder's view of such a frame. */
  lemma GrantDecodes(frame: bytes)
    ensures GrantOf(frame) ==
            match DecodePacket(frame)
            case Err(_) => None
            case Ok(p) =>
              if p.packetType.Continue? && p.streamId == 0 && DecodeContinue(p.payload).Ok? then
                Some(DecodeContinue(p.payload).value)
              else None
  {
    hide DecodePacket, DecodeContinue, LittleEndian;
    HeaderReads(frame);
    if DecodePacket(frame).Ok? {
      var p := DecodePacket(frame).value;
      FirstFive(frame, 3);
      PacketLayout(frame, p);
      ZeroBytes(frame[1], frame[2], frame[3], frame[4]);
      ContinueLayout(p.payload, if DecodeContinue(p.payload).Ok? then DecodeContinue(p.payload).value else 0);
    } else if |frame| >= 5 {
      FirstFive(frame, 3);
    }
  }

  /** An INFO frame on stream 0 whose payload is in the grammar. */
  predicate IsGreeting(frame: bytes) {
    |frame| >= 5 && frame[..5] == [5, 0, 0, 0, 0] && IsInfo(frame[5..])
  }

  lemma GreetingDecodes(frame: bytes)
    ensures IsGreeting(frame) <==>
            && DecodePacket(frame).Ok? && DecodePacket(frame).value.packetType.Info?
            && DecodePacket(frame).value.streamId == 0 && DecodedInfo(DecodePacket(frame).value.payload).Ok?
  {
    hide DecodePacket, DecodedInfo, IsInfo, LittleEndian;
    HeaderReads(frame);
    if |frame| >= 5 {
      FirstFive(frame, 5);
      InfoAcceptsTheGrammar(frame[5..]);
    }
    if DecodePacket(frame).Ok? {
      PacketLayout(frame, DecodePacket(frame).value);
      ZeroBytes(frame[1], frame[2], frame[3], frame[4]);
    }
  }

  /** What the frames of the handshake do: a grant ends it well, a greeting is answered, and anything else ends it. */
  lemma HandshakeFrames(s: Sys, frame: bytes)
    ensures s.intro.AwaitFirst? ==>
              StepHandshakeFirst(s, frame) ==
              if GrantOf(frame).Some? then Greet(s, GrantOf(frame).value)
              else if IsGreeting(frame) then s.(intro := Introducing(s.intro.extensions))
              else s.(intro := Finished)
    ensures StepHandshakeFinish(s, frame) ==
            if GrantOf(frame).Some? then Greet(s, GrantOf(frame).value) else s.(intro := Finished)
  {
    GrantDecodes(frame);
    GreetingDecodes(frame);
    hide DecodePacket, DecodedInfo, DecodeContinue, GrantOf, IsGreeting;
  }

  function GrantIn(e: Event): Option<u32> {
    if e.HandshakeFirst? || e.HandshakeFinish? then GrantOf(e.frame) else None
  }

  /** The credit of the first frame of the handshake that grants one. */
  function HandshakeCredit(events: seq<Event>): Option<u32> {
    if events == [] then None
    else if GrantIn(events[0]).Some? then GrantIn(events[0])
    else HandshakeCredit(events[1..])
  }

  /** Once `granted` is known, the handshake is over and every stream opens with it, or without limit. */
  ghost predicate OpensWith(s: Sys, granted: Option<u32>) {
    && (s.inner.handshake == Established <==> granted.Some?)
    && (granted.Some? ==> s.inner.initialCredit == granted.value && s.intro.Finished?)
    && (forall t | t in s.tasks && s.tasks[t].Inserting? :: granted == Some(s.tasks[t].credit))
    && (forall i | 0 <= i < |s.log| && s.log[i].Inserted? ::
          granted.Some? && s.log[i].credit == if s.log[i].kind.Tcp? then granted.value else 0xFFFF_FFFF)
  }

  function GrantAfter(granted: Option<u32>, e: Event): Option<u32> {
    if granted.Some? then granted else GrantIn(e)
  }

  lemma HandshakeOpens(s: Sys, granted: Option<u32>, e: Event)
    requires OpensWith(s, granted) && Enabled(s, e) && InHandshake(e)
    ensures OpensWith(Step(s, e), GrantAfter(granted, e))
  {
    if !e.HandshakeIntroduce? {
      GrantDecodes(e.frame);
      hide GrantOf, DecodePacket, DecodeContinue, DecodedInfo;
    }
  }

  lemma OpenOpens(s: Sys, granted: Option<u32>, e: Event)
    requires OpensWith(s, granted) && Enabled(s, e) && (e.Open? || e.Insert?)
    ensures OpensWith(Step(s, e), granted)
  {
  }

  lemma TalkOpens(s: Sys, granted: Option<u32>, e: Event)
    requires OpensWith(s, granted) && Enabled(s, e) && InDispatch(e)
    ensures OpensWith(Step(s, e), granted)
  {
    hide DecodePacket, DecodeContinue;
  }

  lemma TasksOpen(s: Sys, granted: Option<u32>, e: Event)
    requires OpensWith(s, granted) && Enabled(s, e) && (InSending(e) || InClosing(e))
    ensures OpensWith(Step(s, e), granted)
  {
    hide FrameOf;
  }

  lemma StepOpens(s: Sys, granted: Option<u32>, e: Event)
    requires OpensWith(s, granted) && Enabled(s, e)
    ensures OpensWith(Step(s, e), GrantAfter(granted, e))
  {
    assert !InHandshake(e) ==> GrantAfter(granted, e) == granted;
    hide OpensWith, GrantAfter;
    if InHandshake(e) {
      HandshakeOpens(s, granted, e);
    } else if e.Open? || e.Insert? {
      OpenOpens(s, granted, e);
    } else if InDispatch(e) {
      TalkOpens(s, granted, e);
    } else {
      TasksOpen(s, granted, e);
    }
  }

  lemma {:induction false} RunOpens(s: Sys, granted: Option<u32>, events: seq<Event>)
    requires OpensWith(s, granted) && IsRun(s, events)
    ensures OpensWith(Run(s, events), if granted.Some? then granted else HandshakeCredit(events))
    decreases |events|
  {
    hide OpensWith, Step, Enabled, GrantIn;
    if events != [] {
      StepOpens(s, granted, events[0]);
      RunOpens(Step(s, events[0]), GrantAfter(granted, events[0]), events[1..]);
    }
  }

  /**
   Over every interleaving: the handshake is established exactly when the server has sent a CONTINUE on stream 0, every
   TCP stream opens with the credit of that frame, and every UDP stream with 2^32 - 1.
   */
  lemma StreamsOpenWithTheGrant(extensions: seq<Extension>, events: seq<Event>)
    requires IsRun(Init(extensions), events)
    ensures var s := Run(Init(extensions), events);
            && (s.inner.handshake == Established <==> HandshakeCredit(events).Some?)
            && (forall id: u32, c: u32 | Inserted(id, Tcp, c) in s.log :: HandshakeCredit(events) == Some(c))
            && (forall id: u32, c: u32 | Inserted(id, Udp, c) in s.log :: c == 0xFFFF_FFFF)
  {
    assert OpensWith(Init(extensions), None);
    RunOpens(Init(extensions), None, events);
    var s := Run(Init(extensions), events);
    hide IsRun, Run;
    forall o | o in s.log && o.Inserted?
      ensures HandshakeCredit(events).Some? && o.credit == if o.kind.Tcp? then HandshakeCredit(events).value else 0xFFFF_FFFF
    {
      var i :| 0 <= i < |s.log| && s.log[i] == o;
    }
  }

  // ---- What callers ask for ----

  /** CONNECT as the protocol lays it out. */
  function ConnectPacket(id: u32, kind: StreamType, dest: Dest): Packet {
    Packet(Connect, id, [if kind.Tcp? then 1 else 2, dest.port % 256, dest.port / 256] + dest.host)
  }

  /** The packet that an operation in progress will send if nothing stops it. */
  function PacketDue(task: Task): Packet {
    match task
    case Inserting(kind, dest, id, _) => ConnectPacket(id, kind, dest)
    case Connecting(kind, dest, id, _) => ConnectPacket(id, kind, dest)
    case AtGate(id, data) => Packet(Data, id, data)
    case ZeroSeen(id, data) => Packet(Data, id, data)
    case Parked(id, data) => Packet(Data, id, data)
    case Sending(id, data, _) => Packet(Data, id, data)
    case Closing(id, reason, _) => Packet(Close, id, [reason])
  }

  /** The packet a caller asks for: `open`, once it has an id, `send_data` or `close_stream`. */
  function Asked(s: Sys, e: Event): Option<Packet>
    requires Enabled(s, e)
  {
    match e
    case Open(_, kind, dest) =>
      var o := Written(s, e);
      if o.Some? && o.value.Allocated? then Some(ConnectPacket(o.value.id, kind, dest)) else None
    case Send(_, id, data) => Some(Packet(Data, id, data))
    case Shut(_, id, reason) => Some(Packet(Close, id, [reason]))
    case _ => None
  }

  /** Which packets to count. */
  type Pick = Packet -> bool

  function One(p: Option<Packet>, pick: Pick): nat {
    if p.Some? && pick(p.value) then 1 else 0
  }

  /** How many of the packets asked for in a run are picked. */
  function AskedCount(s: Sys, events: seq<Event>, pick: Pick): nat
    requires IsRun(s, events)
    decreases |events|
  {
    if events == [] then 0
    else One(Asked(s, events[0]), pick) + AskedCount(Step(s, events[0]), events[1..], pick)
  }

  /** The packet a log entry put on the wire; the handshake's INFO is not counted. */
  function OnWireAs(o: Obs): Option<Packet> {
    if o.Sent? && DecodePacket(o.frame).Ok? && !DecodePacket(o.frame).value.packetType.Info? then
      Some(DecodePacket(o.frame).value)
    else None
  }

  function SentCount(log: seq<Obs>, pick: Pick): nat {
    if log == [] then 0 else SentCount(log[..|log| - 1], pick) + One(OnWireAs(log[|log| - 1]), pick)
  }

  ghost function Due(s: Sys, pick: Pick): set<TaskId> {
    set t | t in s.tasks && pick(PacketDue(s.tasks[t]))
  }

  lemma SentSnoc(log: seq<Obs>, o: Obs, pick: Pick)
    ensures SentCount(log + [o], pick) == SentCount(log, pick) + One(OnWireAs(o), pick)
  {
    assert (log + [o])[..|log|] == log;
  }

  lemma DueOnTheWire(task: Task)
    requires Transmitting(task)
    ensures DecodePacket(FrameOf(task)) == Ok(PacketDue(task))
  {
    PacketCodec(FrameOf(task), PacketDue(task));
  }

  /** The packet a step puts on the wire. */
  function WiredBy(s: Sys, e: Event): Option<Packet>
    requires Enabled(s, e)
  {
    if e.Transmit? && e.ok then Some(PacketDue(s.tasks[e.t])) else None
  }

  lemma WrittenAs(s: Sys, e: Event)
    requires Enabled(s, e)
    ensures (if Written(s, e).Some? then OnWireAs(Written(s, e).value) else None) == WiredBy(s, e)
  {
    if Written(s, e).Some? {
      WrittenSent(s, e);
    }
    if e.Transmit? {
      DueOnTheWire(s.tasks[e.t]);
    }
    hide Step, DecodePacket, FrameOf, PacketBytes;
  }

  lemma StepSends(s: Sys, e: Event, pick: Pick)
    requires Enabled(s, e)
    ensures SentCount(Step(s, e).log, pick) == SentCount(s.log, pick) + One(WiredBy(s, e), pick)
  {
    StepWritesOnce(s, e);
    WrittenAs(s, e);
    hide Step, OnWireAs, SentCount, WiredBy;
    var s' := Step(s, e);
    if s'.log != s.log {
      assert s'.log == s.log + [s'.log[|s.log|]];
      SentSnoc(s.log, s'.log[|s.log|], pick);
    }
  }

  lemma FewerTasks(a: set<TaskId>, b: set<TaskId>)
    requires a <= b
    ensures |a| <= |b|
  {
    assert b == a + (b - a);
  }

  /** An operation that begins owes the packet that was asked for. */
  lemma AskingOwes(s: Sys, e: Event, pick: Pick)
    requires Enabled(s, e) && (e.Open? || e.Send? || e.Shut?)
    ensures Due(Step(s, e), pick) == Due(s, pick) + if One(Asked(s, e), pick) == 1 then {e.t} else {}
  {
    hide ConnectPacket;
  }

  /** No other step owes more, and one that sends owes less. */
  lemma DueShrinks(s: Sys, e: Event, pick: Pick)
    requires Enabled(s, e) && (e.Insert? || e.TryGate? || e.Park? || e.Transmit? || e.Cancel?)
    ensures Due(Step(s, e), pick) <= Due(s, pick)
    ensures e.Transmit? ==> e.t !in Due(Step(s, e), pick)
  {
    hide ConnectPacket, FrameOf;
  }

  lemma DueStays(s: Sys, e: Event, pick: Pick)
    requires Enabled(s, e) && (InHandshake(e) || InDispatch(e))
    ensures Due(Step(s, e), pick) == Due(s, pick)
  {
    hide ConnectPacket, DecodePacket, DecodeContinue, DecodedInfo;
  }

  /** What is owed and what is sent never exceed what is asked. */
  lemma StepOwes(s: Sys, e: Event, pick: Pick)
    requires Enabled(s, e)
    ensures |Due(Step(s, e), pick)| + One(WiredBy(s, e), pick) <= |Due(s, pick)| + One(Asked(s, e), pick)
  {
    if e.Open? || e.Send? || e.Shut? {
      AskingOwes(s, e, pick);
    } else if InHandshake(e) || InDispatch(e) {
      DueStays(s, e, pick);
    } else {
      DueShrinks(s, e, pick);
      hide Step, PacketDue;
      var before, after := Due(s, pick), Due(Step(s, e), pick);
      if One(WiredBy(s, e), pick) == 1 {
        assert e.t in before;
        FewerTasks(after, before - {e.t});
      } else {
        FewerTasks(after, before);
      }
    }
  }

  lemma {:induction false} RunOwes(s: Sys, events: seq<Event>, pick: Pick)
    requires IsRun(s, events)
    ensures SentCount(Run(s, events).log, pick) + |Due(Run(s, events), pick)| <=
            SentCount(s.log, pick) + |Due(s, pick)| + AskedCount(s, events, pick)
    decreases |events|
  {
    hide Step, Enabled, SentCount, WiredBy, Asked;
    if events != [] {
      StepSends(s, events[0], pick);
      StepOwes(s, events[0], pick);
      RunOwes(Step(s, events[0]), events[1..], pick);
    }
  }

  /**
   Over every interleaving and whatever packets are counted: those on the wire and those still owed by operations in
   progress are no more than those asked for. So no packet is made up, altered or sent twice.
   */
  lemma PacketsAreAskedFor(extensions: seq<Extension>, events: seq<Event>, pick: Pick)
    requires IsRun(Init(extensions), events)
    ensures var s := Run(Init(extensions), events);
            SentCount(s.log, pick) + |Due(s, pick)| <= AskedCount(Init(extensions), events, pick)
  {
    RunOwes(Init(extensions), events, pick);
    assert Due(Init(extensions), pick) == {};
  }

  // ---- CONNECT ----

  /** The `i`-th event of a run asked for `p`. */
  predicate AsksAt(s: Sys, events: seq<Event>, i: nat, p: Packet)
    requires IsRun(s, events) && i < |events|
    decreases i
  {
    if i == 0 then Asked(s, events[0]) == Some(p) else AsksAt(Step(s, events[0]), events[1..], i - 1, p)
  }

  lemma {:induction false} SomeEventAsks(s: Sys, events: seq<Event>, pick: Pick) returns (i: nat, p: Packet)
    requires IsRun(s, events) && AskedCount(s, events, pick) > 0
    ensures i < |events| && AsksAt(s, events, i, p) && pick(p)
    decreases |events|
  {
    hide Step, Enabled, Asked;
    if One(Asked(s, events[0]), pick) == 1 {
      i, p := 0, Asked(s, events[0]).value;
    } else {
      i, p := SomeEventAsks(Step(s, events[0]), events[1..], pick);
      i := i + 1;
    }
  }

  lemma {:induction false} ConnectsAreOpens(s: Sys, events: seq<Event>, i: nat, p: Packet)
    requires IsRun(s, events) && i < |events| && AsksAt(s, events, i, p) && p.packetType.Connect?
    ensures events[i].Open? && p == ConnectPacket(p.streamId, events[i].kind, events[i].dest)
    decreases i
  {
    hide Step, Enabled;
    if i > 0 {
      ConnectsAreOpens(Step(s, events[0]), events[1..], i - 1, p);
    }
  }

  lemma ConnectReads(payload: bytes, kind: StreamType, dest: Dest)
    requires payload == ConnectPacket(0, kind, dest).payload
    ensures DecodeConnect(payload)
            == if Text.ValidUtf8(dest.host) then Ok(ConnectPayload(kind, dest.port, dest.host)) else Err(InvalidHostname)
  {
    ConnectLayout(payload, ConnectPayload(kind, dest.port, dest.host));
    assert payload[3..] == dest.host;
  }

  function ConnectsOn(id: u32): Pick {
    (p: Packet) => p.packetType.Connect? && p.streamId == id
  }

  lemma OpensMoveOn(s: Sys, e: Event, id: u32)
    requires Enabled(s, e) && 0 < s.inner.nextId
    ensures s.inner.nextId <= Step(s, e).inner.nextId
    ensures One(Asked(s, e), ConnectsOn(id)) == 1 ==> id == s.inner.nextId < Step(s, e).inner.nextId
  {
    if !e.Open? {
      StepWritesOnce(s, e);
      hide Step;
    }
  }

  /** Only one `open` gets any id. */
  lemma {:induction false} OneOpenAsks(s: Sys, events: seq<Event>, id: u32)
    requires IsRun(s, events) && 0 < s.inner.nextId
    ensures AskedCount(s, events, ConnectsOn(id)) <= if id < s.inner.nextId then 0 else 1
    decreases |events|
  {
    hide Step, Enabled, Asked, ConnectsOn;
    if events != [] {
      OpensMoveOn(s, events[0], id);
      OneOpenAsks(Step(s, events[0]), events[1..], id);
    }
  }

  lemma {:induction false} SentIsCounted(log: seq<Obs>, i: nat, pick: Pick)
    requires i < |log| && One(OnWireAs(log[i]), pick) == 1
    ensures SentCount(log, pick) >= 1
    decreases |log|
  {
    hide OnWireAs;
    if i < |log| - 1 {
      SentIsCounted(log[..|log| - 1], i, pick);
    }
  }

  lemma {:induction false} TwoAreCounted(log: seq<Obs>, i: nat, j: nat, pick: Pick)
    requires i < j < |log| && One(OnWireAs(log[i]), pick) == 1 && One(OnWireAs(log[j]), pick) == 1
    ensures SentCount(log, pick) >= 2
    decreases |log|
  {
    hide OnWireAs;
    if j < |log| - 1 {
      TwoAreCounted(log[..|log| - 1], i, j, pick);
    } else {
      SentIsCounted(log[..j], i, pick);
    }
  }

  /** The log entry `k` is the CONNECT of stream `id`, with this payload. */
  predicate IsConnect(log: seq<Obs>, k: nat, id: u32, payload: bytes) {
    k < |log| && log[k].Sent? && DecodePacket(log[k].frame) == Ok(Packet(Connect, id, payload))
  }

  lemma ConnectIsPicked(log: seq<Obs>, k: nat, id: u32, payload: bytes)
    requires IsConnect(log, k, id, payload)
    ensures k < |log| && One(OnWireAs(log[k]), ConnectsOn(id)) == 1
    ensures One(OnWireAs(log[k]), (p: Packet) => p == Packet(Connect, id, payload)) == 1
  {
    hide DecodePacket;
  }

  lemma OneConnectOnly(extensions: seq<Extension>, events: seq<Event>, j: nat, k: nat, id: u32, first: bytes, second: bytes)
    requires IsRun(Init(extensions), events) && j < k
    requires IsConnect(Run(Init(extensions), events).log, j, id, first)
    ensures !IsConnect(Run(Init(extensions), events).log, k, id, second)
  {
    var log := Run(Init(extensions), events).log;
    OneOpenAsks(Init(extensions), events, id);
    PacketsAreAskedFor(extensions, events, ConnectsOn(id));
    hide Run, IsRun, Init, SentCount, AskedCount, OnWireAs, IsConnect;
    ConnectIsPicked(log, j, id, first);
    if IsConnect(log, k, id, second) {
      ConnectIsPicked(log, k, id, second);
      TwoAreCounted(log, j, k, ConnectsOn(id));
    }
  }

  lemma SomeOpenAsked(extensions: seq<Extension>, events: seq<Event>, k: nat, id: u32, payload: bytes)
    returns (i: nat)
    requires IsRun(Init(extensions), events)
    requires IsConnect(Run(Init(extensions), events).log, k, id, payload)
    ensures i < |events| && events[i].Open?
    ensures var p := ConnectPacket(id, events[i].kind, events[i].dest);
            AsksAt(Init(extensions), events, i, p) && payload == p.payload
  {
    var log, pick := Run(Init(extensions), events).log, (p: Packet) => p == Packet(Connect, id, payload);
    ConnectIsPicked(log, k, id, payload);
    SentIsCounted(log, k, pick);
    PacketsAreAskedFor(extensions, events, pick);
    hide Run, IsRun, Init, SentCount, AskedCount, AsksAt, OnWireAs, ConnectPacket;
    var p;
    i, p := SomeEventAsks(Init(extensions), events, pick);
    ConnectsAreOpens(Init(extensions), events, i, p);
  }

  /**
   Over every interleaving, a CONNECT on the wire carries the stream type, port and host of the one `open` that was given
   that id, and no second CONNECT for that id is ever sent.
   */
  lemma ConnectsAreAskedFor(extensions: seq<Extension>, events: seq<Event>, k: nat, id: u32, payload: bytes)
    returns (i: nat)
    requires IsRun(Init(extensions), events)
    requires IsConnect(Run(Init(extensions), events).log, k, id, payload)
    ensures i < |events| && events[i].Open?
    ensures var (kind, dest) := (events[i].kind, events[i].dest);
            && AsksAt(Init(extensions), events, i, ConnectPacket(id, kind, dest))
            && payload == [if kind.Tcp? then 1 else 2, dest.port % 256, dest.port / 256] + dest.host
            && DecodeConnect(payload)
               == if Text.ValidUtf8(dest.host) then Ok(ConnectPayload(kind, dest.port, dest.host)) else Err(InvalidHostname)
    ensures forall j: nat, other | IsConnect(Run(Init(extensions), events).log, j, id, other) :: j == k
  {
    i := SomeOpenAsked(extensions, events, k, id, payload);
    ConnectReads(payload, events[i].kind, events[i].dest);
    hide IsRun, Run, Init, AsksAt, IsConnect, DecodeConnect;
    forall j: nat, other | IsConnect(Run(Init(extensions), events).log, j, id, other)
      ensures j == k
    {
      if j < k {
        OneConnectOnly(extensions, events, j, k, id, other, payload);
      } else if k < j {
        OneConnectOnly(extensions, events, k, j, id, payload, other);
      }
    }
  }

  // ---- INFO ----

  predicate IsInfoFrame(o: Obs) {
    o.Sent? && DecodePacket(o.frame).Ok? && DecodePacket(o.frame).value.packetType.Info?
  }

  ghost predicate NoInfo(log: seq<Obs>) {
    forall i | 0 <= i < |log| :: !IsInfoFrame(log[i])
  }

  /** Header type 5 on stream 0, version 2.1, and the extensions as configured. */
  function ClientInfo(extensions: seq<Extension>): bytes {
    [5, 0, 0, 0, 0, 2, 1] + ExtensionsBytes(extensions)
  }

  /** At most one INFO, and that the configured one. */
  ghost predicate OneInfo(log: seq<Obs>, extensions: seq<Extension>) {
    && (forall i | 0 <= i < |log| && IsInfoFrame(log[i]) :: log[i].frame == ClientInfo(extensions))
    && (forall i, j | 0 <= i < j < |log| :: !(IsInfoFrame(log[i]) && IsInfoFrame(log[j])))
  }

  ghost predicate Introduces(s: Sys, extensions: seq<Extension>) {
    && (s.intro.AwaitFirst? || s.intro.Introducing? ==> s.intro.extensions == extensions && NoInfo(s.log))
    && (s.intro.AwaitContinue? ==> exists i | 0 <= i < |s.log| :: IsInfoFrame(s.log[i]))
    && OneInfo(s.log, extensions)
  }

  lemma OneInfoSnoc(log: seq<Obs>, o: Obs, extensions: seq<Extension>)
    requires OneInfo(log, extensions)
    requires IsInfoFrame(o) ==> NoInfo(log) && o.frame == ClientInfo(extensions)
    ensures OneInfo(log + [o], extensions)
    ensures NoInfo(log) && !IsInfoFrame(o) ==> NoInfo(log + [o])
  {
    hide IsInfoFrame, ClientInfo;
    var more := log + [o];
    assert forall i | 0 <= i < |more| :: more[i] == if i < |log| then log[i] else o;
  }

  lemma InfoFrame(extensions: seq<Extension>)
    ensures PacketBytes(Info, HANDSHAKE_STREAM_ID, InfoBytes(extensions)) == ClientInfo(extensions)
  {
    hide ExtensionsBytes;
  }

  /** Only the introduction writes an INFO. */
  lemma InfoIsWritten(s: Sys, e: Event)
    requires Enabled(s, e) && Written(s, e).Some?
    ensures IsInfoFrame(Written(s, e).value) <==> e.HandshakeIntroduce?
    ensures e.HandshakeIntroduce? ==> Written(s, e).value.frame == ClientInfo(s.intro.extensions)
  {
    WrittenSent(s, e);
    if e.HandshakeIntroduce? {
      InfoFrame(s.intro.extensions);
    }
    hide DecodePacket, PacketBytes, InfoBytes, FrameOf, ClientInfo;
  }

  /** The introduction is on its way, or has been made or given up for good. */
  lemma IntroMoves(s: Sys, e: Event)
    requires Enabled(s, e)
    ensures var intro := Step(s, e).intro;
            || intro.Finished? || (e.HandshakeIntroduce? && intro.AwaitContinue?)
            || (!e.HandshakeIntroduce? && intro == s.intro)
            || (e.HandshakeFirst? && intro == Introducing(s.intro.extensions))
    ensures e.HandshakeIntroduce? && Step(s, e).intro.AwaitContinue? ==> Written(s, e).Some?
  {
    hide DecodePacket, DecodeContinue, DecodedInfo, PacketBytes, InfoBytes, FrameOf;
  }

  lemma StepIntroduces(s: Sys, extensions: seq<Extension>, e: Event)
    requires Introduces(s, extensions) && Enabled(s, e)
    ensures Introduces(Step(s, e), extensions)
  {
    hide Step, IsInfoFrame, ClientInfo, OneInfo, NoInfo;
    StepWritesOnce(s, e);
    IntroMoves(s, e);
    var s' := Step(s, e);
    if Written(s, e).Some? {
      InfoIsWritten(s, e);
    }
    if s'.log != s.log {
      var o := s'.log[|s.log|];
      assert s'.log == s.log + [o] && Written(s, e) == Some(o);
      OneInfoSnoc(s.log, o, extensions);
      assert e.HandshakeIntroduce? ==> IsInfoFrame(s'.log[|s.log|]);
    }
    if s'.intro.AwaitContinue? && !e.HandshakeIntroduce? {
      var i :| 0 <= i < |s.log| && IsInfoFrame(s.log[i]);
      assert s'.log[i] == s.log[i];
    }
  }

  lemma {:induction false} RunIntroduces(s: Sys, extensions: seq<Extension>, events: seq<Event>)
    requires Introduces(s, extensions) && IsRun(s, events)
    ensures Introduces(Run(s, events), extensions)
    decreases |events|
  {
    hide Introduces, Step, Enabled;
    if events != [] {
      StepIntroduces(s, extensions, events[0]);
      RunIntroduces(Step(s, events[0]), extensions, events[1..]);
    }
  }

  /**
   Over every interleaving at most one INFO is sent, and it carries the extensions the handshake was given; a client that
   waits for the last CONTINUE has sent it.
   */
  lemma InfoIsAsConfigured(extensions: seq<Extension>, events: seq<Event>)
    requires IsRun(Init(extensions), events)
    ensures var log := Run(Init(extensions), events).log;
            && (forall i | 0 <= i < |log| && IsInfoFrame(log[i]) ::
                  log[i].frame == [5, 0, 0, 0, 0, 2, 1] + ExtensionsBytes(extensions))
            && (forall i, j | 0 <= i < |log| && 0 <= j < |log| && IsInfoFrame(log[i]) && IsInfoFrame(log[j]) :: i == j)
            && (Run(Init(extensions), events).intro.AwaitContinue? ==> exists i | 0 <= i < |log| :: IsInfoFrame(log[i]))
  {
    RunIntroduces(Init(extensions), extensions, events);
  }
}
