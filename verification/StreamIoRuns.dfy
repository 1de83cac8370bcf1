/**
 The adapter at work inside the multiplexer. One stream is read and written through its adapter, by polls in any order;
 between polls anything else the multiplexer can do may happen. Bytes are counted from the caller to the wire and back.
 */
module StreamIoRuns {
  import opened Bytes
  import opened Frame
  import opened MuxModel
  import opened StreamIds
  import opened Demux
  import opened Credit
  import opened Wakeups
  import opened StreamIoModel

  /** The adapter, the multiplexer, and what the caller has done and seen. */
  datatype Net = Net(
    sys: Sys,
    io: Io,
    appended: bytes, // bytes `poll_write` copied into the write buffer, whatever it returned
    handed: bytes,   // bytes `poll_read` handed out
    flushes: nat,    // calls of `poll_flush`
    failures: nat,   // polls that reported a failed send
    shut: bool       // `poll_shutdown` was called
  )

  datatype Act =
    | Env(e: Event)
    | Write(buf: bytes, w: Wire, next: TaskId, w2: Wire)
    | Flush(w: Wire, next: TaskId, w2: Wire)
    | Read(room: nat)
    | Shutdown

  /** An event of the rest of the program: it neither sends nor receives on our stream, nor drives our future. */
  predicate Elsewhere(net: Net, e: Event)
    requires Enabled(net.sys, e)
  {
    match e
    case Send(_, id, _) => id != net.io.id
    case Receive(id) => id != net.io.id
    case TryGate(t) => net.io.writeFut != Some(t)
    case Park(t) => net.io.writeFut != Some(t)
    case Transmit(t, _) => net.io.writeFut != Some(t)
    case Cancel(t) => net.io.writeFut != Some(t)
    case _ => true
  }

  predicate CanAct(net: Net, act: Act) {
    match act
    case Env(e) => Enabled(net.sys, e) && Elsewhere(net, e)
    case Write(_, _, next, _) => HoldsFuture(net.io, net.sys) && next !in net.sys.tasks
    case Flush(_, next, _) => HoldsFuture(net.io, net.sys) && next !in net.sys.tasks
    case Read(_) => true
    case Shutdown => true
  }

  /** `poll_write` copies the caller's bytes unless it stops before that: closed, or a send still in flight or failed. */
  predicate Appends(net: Net, w: Wire, next: TaskId, w2: Wire)
    requires HoldsFuture(net.io, net.sys) && next !in net.sys.tasks
  {
    !net.io.closed && (net.io.writeFut.Some? ==> PollFlushBuf(net.io, net.sys, w, next, w2).2.SendDone?)
  }

  function Do(net: Net, act: Act): Net
    requires CanAct(net, act)
  {
    match act
    case Env(e) => net.(sys := Step(net.sys, e))
    case Write(buf, w, next, w2) =>
      var (io, s, p) := PollWrite(net.io, net.sys, buf, w, next, w2);
      net.(io := io, sys := s,
           appended := net.appended + (if Appends(net, w, next, w2) then buf else []),
           failures := net.failures + if p.WriteFailed? then 1 else 0)
    case Flush(w, next, w2) =>
      var (io, s, p) := PollFlushBuf(net.io, net.sys, w, next, w2);
      net.(io := io, sys := s, flushes := net.flushes + 1, failures := net.failures + if p.SendFailed? then 1 else 0)
    case Read(room) =>
      var (io, s, p) := PollRead(net.io, net.sys, room);
      net.(io := io, sys := s, handed := net.handed + if p.Served? then p.chunk else [])
    case Shutdown => net.(io := net.io.(closed := true), shut := true)
  }

  predicate ActsOk(net: Net, acts: seq<Act>)
    decreases |acts|
  {
    acts == [] || (CanAct(net, acts[0]) && ActsOk(Do(net, acts[0]), acts[1..]))
  }

  function DoAll(net: Net, acts: seq<Act>): Net
    requires ActsOk(net, acts)
    decreases |acts|
  {
    if acts == [] then net else DoAll(Do(net, acts[0]), acts[1..])
  }

  // ---- What the log says about one stream ----

  /** The payload a log entry brings to a stream in view `v`: a DATA frame while it is live. */
  function ArrivedIn(v: View, o: Obs): seq<bytes> {
    if o.Inbound? && v.Live? && DecodePacket(o.frame).Ok? && DecodePacket(o.frame).value.packetType.Data? then
      [DecodePacket(o.frame).value.payload]
    else []
  }

  /** All DATA payloads dispatched while the stream was live. */
  function Arrived(own: seq<Obs>): seq<bytes> {
    if own == [] then [] else Arrived(own[..|own| - 1]) + ArrivedIn(Replay(own[..|own| - 1]), own[|own| - 1])
  }

  /** The payloads given to `send_data`. */
  function SubmittedData(own: seq<Obs>): seq<bytes> {
    if own == [] then []
    else SubmittedData(own[..|own| - 1]) + if own[|own| - 1].Submitted? then [own[|own| - 1].data] else []
  }

  lemma ArrivedSnoc(own: seq<Obs>, o: Obs)
    ensures Arrived(own + [o]) == Arrived(own) + ArrivedIn(Replay(own), o)
    ensures SubmittedData(own + [o]) == SubmittedData(own) + if o.Submitted? then [o.data] else []
  {
    assert (own + [o])[..|own|] == own;
  }

  function OnWire(s: Sys, id: u32): bytes {
    Concat(WireData(Own(s.log, id)))
  }

  function Submits(s: Sys, id: u32): seq<bytes> {
    SubmittedData(Own(s.log, id))
  }

  /** Bytes that arrived and were not yet taken from the channel. */
  function Queued(s: Sys, id: u32): bytes {
    Concat(QueueIn(ViewOf(s, id)))
  }

  function ArrivedBytes(s: Sys, id: u32): bytes {
    Concat(Arrived(Own(s.log, id)))
  }

  /** Everything that arrived is what was taken, then what is queued. */
  predicate Balanced(s: Sys, id: u32, taken: bytes) {
    taken + Queued(s, id) == ArrivedBytes(s, id)
  }

  /** No entry but a receive takes from the queue, and only an arrival adds to it. */
  lemma QueueAdvances(v: View, o: Obs)
    requires !o.Received? && !o.Inserted?
    ensures QueueIn(Advance(v, o)) == QueueIn(v) + ArrivedIn(v, o)
  {
    assert QueueIn(v) + [] == QueueIn(v);
  }

  lemma Regroup(a: bytes, b: bytes, c: bytes)
    ensures a + (b + c) == a + b + c
  {
  }

  lemma BothGrow(queue: seq<bytes>, arrived: seq<bytes>, news: seq<bytes>, taken: bytes)
    requires taken + Concat(queue) == Concat(arrived)
    ensures taken + Concat(queue + news) == Concat(arrived + news)
  {
    ConcatSum(queue, news);
    ConcatSum(arrived, news);
    Regroup(taken, Concat(queue), Concat(news));
  }

  lemma BalanceAdvances(own: seq<Obs>, o: Obs, taken: bytes)
    requires !o.Received? && !o.Inserted?
    requires taken + Concat(QueueIn(Replay(own))) == Concat(Arrived(own))
    ensures taken + Concat(QueueIn(Advance(Replay(own), o))) == Concat(Arrived(own + [o]))
  {
    QueueAdvances(Replay(own), o);
    ArrivedSnoc(own, o);
    BothGrow(QueueIn(Replay(own)), Arrived(own), ArrivedIn(Replay(own), o), taken);
  }

  lemma WrittenReceives(s: Sys, e: Event, id: u32)
    requires Sound(s) && Enabled(s, e) && id in s.queues && Written(s, e).Some? && About(Written(s, e).value, id)
    ensures Written(s, e).value.Received? ==> e == Receive(id)
    ensures !Written(s, e).value.Inserted?
  {
  }

  lemma StepBalanced(s: Sys, e: Event, id: u32, taken: bytes)
    requires Sound(s) && Refines(s, id) && Enabled(s, e) && Balanced(s, id, taken)
    requires id in s.queues && e != Receive(id)
    ensures Balanced(Step(s, e), id, taken)
  {
    EveryStepSeen(s, e, id);
    OwnStep(s, e, id);
    var o := Written(s, e);
    if o.Some? && About(o.value, id) {
      WrittenReceives(s, e, id);
      BalanceAdvances(Own(s.log, id), o.value, taken);
    } else {
      assert Own(s.log, id) + [] == Own(s.log, id);
    }
  }

  lemma WrittenSubmits(s: Sys, e: Event)
    requires Enabled(s, e)
    ensures Written(s, e).Some? && Written(s, e).value.Submitted? <==> e.Send?
    ensures e.Send? ==> Written(s, e).value == Obs.Submitted(e.id, e.data)
  {
  }

  lemma StepSubmits(s: Sys, e: Event, id: u32)
    requires Enabled(s, e)
    ensures Submits(Step(s, e), id) == Submits(s, id) + if e.Send? && e.id == id then [e.data] else []
  {
    OwnStep(s, e, id);
    WrittenSubmits(s, e);
    var own, o := Own(s.log, id), Written(s, e);
    if o.Some? && About(o.value, id) {
      ArrivedSnoc(own, o.value);
    } else {
      assert own + [] == own;
    }
  }

  function PassCount(s: Sys, id: u32): nat {
    Passes(Own(s.log, id))
  }

  /** What one step does to the outgoing side of stream `id`. */
  lemma StepOutgoing(s: Sys, e: Event, id: u32)
    requires Enabled(s, e)
    ensures OnWire(Step(s, e), id) == OnWire(s, id) + if Ending(s, e, id) && e.Transmit? && e.ok then s.tasks[e.t].data else []
    ensures PassCount(Step(s, e), id) == PassCount(s, id) + if Passing(s, e, id) then 1 else 0
  {
    CountsMove(s, e, id);
    if Ending(s, e, id) && e.Transmit? && e.ok {
      ConcatSnoc(WireData(Own(s.log, id)), s.tasks[e.t].data);
    } else {
      assert WireData(Own(s.log, id)) + [] == WireData(Own(s.log, id));
    }
  }

  // ---- One step, seen from the stream ----

  /** What every step but a receive keeps about stream `id`, `taken` being what its reader has taken so far. */
  ghost predicate Kept(s: Sys, id: u32, taken: bytes) {
    Sound(s) && Refines(s, id) && id in s.queues && Balanced(s, id, taken)
  }

  lemma ChannelsStay(s: Sys, e: Event, id: u32)
    requires Sound(s) && Enabled(s, e) && id in s.queues
    ensures id in Step(s, e).queues
  {
    if !e.Open? && !e.Insert? {
      OthersLeaveIdsAlone(s, e);
    }
  }

  lemma StepKept(s: Sys, e: Event, id: u32, taken: bytes)
    requires Kept(s, id, taken) && Enabled(s, e) && e != Receive(id)
    ensures Kept(Step(s, e), id, taken)
    ensures ViewOf(s, id) == Dead([]) ==> ViewOf(Step(s, e), id) == Dead([])
  {
    StepKeepsSound(s, e);
    StepRefines(s, e, id);
    StepBalanced(s, e, id, taken);
    EveryStepSeen(s, e, id);
    if Written(s, e).Some? && About(Written(s, e).value, id) {
      WrittenReceives(s, e, id);
    }
    ChannelsStay(s, e, id);
  }

  predicate SendsOn(task: Task, id: u32) {
    (task.AtGate? || task.ZeroSeen? || task.Parked? || task.Sending?) && task.id == id
  }

  /** Gate passes a sender still has ahead of it. */
  function Owed(task: Task): nat {
    if task.Sending? then 0 else 1
  }

  /** A poll of the send future `t` of stream `id` turned `s` into `s'`. */
  ghost predicate Polled(s: Sys, s': Sys, t: TaskId, id: u32, p: SendPoll)
    requires t in s.tasks && InSend(s.tasks[t])
  {
    && Submits(s', id) == Submits(s, id)
    && OnWire(s', id) == OnWire(s, id) + (if p.SendDone? then s.tasks[t].data else [])
    && s'.tasks - {t} == s.tasks - {t}
    && (p.SendPending? ==>
          && t in s'.tasks && InSend(s'.tasks[t]) && s'.tasks[t].id == id && s'.tasks[t].data == s.tasks[t].data
          && PassCount(s', id) + Owed(s'.tasks[t]) <= PassCount(s, id) + Owed(s.tasks[t]))
    && (!p.SendPending? ==> t !in s'.tasks && PassCount(s', id) <= PassCount(s, id) + Owed(s.tasks[t]))
  }

  lemma TransmitPolled(s: Sys, t: TaskId, id: u32, w: Wire, taken: bytes)
    requires Kept(s, id, taken) && t in s.tasks && s.tasks[t].Sending? && s.tasks[t].id == id
    ensures var (s', p) := PollTransmit(s, t, w);
            && Kept(s', id, taken) && Polled(s, s', t, id, p)
            && (ViewOf(s, id) == Dead([]) ==> ViewOf(s', id) == Dead([]))
  {
    hide OnWire, Submits, Balanced, Refines, Sound, PassCount, ViewOf;
    if w == NotYet {
      assert OnWire(s, id) + [] == OnWire(s, id);
    } else {
      var e := Transmit(t, w == Accepted);
      StepKept(s, e, id, taken);
      StepSubmits(s, e, id);
      StepOutgoing(s, e, id);
      assert Submits(s, id) + [] == Submits(s, id);
      assert OnWire(s, id) + [] == OnWire(s, id);
    }
  }

  /** The gate step of a sender on `id`. */
  lemma GatePolled(s: Sys, t: TaskId, id: u32, taken: bytes)
    requires Kept(s, id, taken) && t in s.tasks && s.tasks[t].AtGate? && s.tasks[t].id == id
    ensures var s1 := StepGate(s, t);
            && Kept(s1, id, taken) && Submits(s1, id) == Submits(s, id) && OnWire(s1, id) == OnWire(s, id)
            && (ViewOf(s, id) == Dead([]) ==> ViewOf(s1, id) == Dead([]))
            && PassCount(s1, id) == PassCount(s, id) + (if Gate(s.inner, id).1.Pass? then 1 else 0)
  {
    StepKept(s, TryGate(t), id, taken);
    StepSubmits(s, TryGate(t), id);
    StepOutgoing(s, TryGate(t), id);
    assert Submits(s, id) + [] == Submits(s, id);
    assert OnWire(s, id) + [] == OnWire(s, id);
  }

  lemma ParkPolled(s: Sys, t: TaskId, id: u32, taken: bytes)
    requires Kept(s, id, taken) && t in s.tasks && s.tasks[t].ZeroSeen? && s.tasks[t].id == id
    ensures var s1 := StepPark(s, t);
            && Kept(s1, id, taken)
            && Submits(s1, id) == Submits(s, id) && OnWire(s1, id) == OnWire(s, id) && PassCount(s1, id) == PassCount(s, id)
            && (ViewOf(s, id) == Dead([]) ==> ViewOf(s1, id) == Dead([]))
  {
    StepKept(s, Park(t), id, taken);
  }

  lemma PassThenTransmit(s: Sys, t: TaskId, id: u32, w: Wire)
    requires t in s.tasks && s.tasks[t].AtGate? && s.tasks[t].id == id && Gate(s.inner, id).1.Pass?
    ensures StepGate(s, t).tasks - {t} == s.tasks - {t}
    ensures t in StepGate(s, t).tasks && StepGate(s, t).tasks[t].Sending? && StepGate(s, t).tasks[t].data == s.tasks[t].data
  {
  }

  lemma SendPolled(s: Sys, t: TaskId, id: u32, w: Wire, taken: bytes)
    requires Kept(s, id, taken) && t in s.tasks && InSend(s.tasks[t]) && s.tasks[t].id == id
    ensures var (s', p) := PollSend(s, t, w);
            && Kept(s', id, taken) && Polled(s, s', t, id, p)
            && (ViewOf(s, id) == Dead([]) ==> ViewOf(s', id) == Dead([]))
  {
    hide OnWire, Submits, Balanced, Refines, Sound, PassCount, ViewOf;
    assert OnWire(s, id) + [] == OnWire(s, id);
    if s.tasks[t].Sending? {
      TransmitPolled(s, t, id, w, taken);
    } else if s.tasks[t].AtGate? {
      GatePolled(s, t, id, taken);
      var s1 := StepGate(s, t);
      match Gate(s.inner, id).1
      case Unknown =>
      case Zero => ParkPolled(s1, t, id, taken);
      case Pass =>
        TransmitPolled(s1, t, id, w, taken);
        PassThenTransmit(s, t, id, w);
    }
  }

  // ---- The adapter's invariant ----

  /** Our future is the only sender on our stream, and while it is in flight the write buffer is empty. */
  ghost predicate Mine(s: Sys, io: Io) {
    && (forall t | t in s.tasks && SendsOn(s.tasks[t], io.id) :: io.writeFut == Some(t))
    && (io.writeFut.Some? ==>
          var t := io.writeFut.value;
          t in s.tasks && InSend(s.tasks[t]) && s.tasks[t].id == io.id && s.tasks[t].data != [] && io.writeBuf == [])
  }

  /** The payload of the send in flight. */
  function InFlight(s: Sys, io: Io): bytes {
    if io.writeFut.Some? && io.writeFut.value in s.tasks && InSend(s.tasks[io.writeFut.value]) then
      s.tasks[io.writeFut.value].data
    else []
  }

  /** Gate passes the send in flight may still take. */
  function Debt(s: Sys, io: Io): nat {
    if io.writeFut.Some? && io.writeFut.value in s.tasks then Owed(s.tasks[io.writeFut.value]) else 0
  }

  /** Every byte between the caller and the peer: on the wire, then in flight, then buffered. */
  function Pipe(s: Sys, io: Io): bytes {
    OnWire(s, io.id) + InFlight(s, io) + io.writeBuf
  }

  /** The two adapters differ only in what writing changes. */
  predicate SameReader(io: Io, io': Io) {
    io'.id == io.id && io'.leftover == io.leftover && io'.closed == io.closed
  }

  /** A send was polled: nothing is lost unless it failed, and then the bytes in flight are. */
  ghost predicate Flowed(s: Sys, io: Io, s': Sys, io': Io, p: SendPoll, taken: bytes) {
    && Kept(s', io.id, taken) && Mine(s', io') && SameReader(io, io')
    && (!p.SendFailed? ==> Pipe(s', io') == Pipe(s, io))
    && (p.SendFailed? ==> |Pipe(s', io')| < |Pipe(s, io)|)
    && (p.SendDone? ==> io'.writeFut.None? && io'.writeBuf == [])
    && (ViewOf(s, io.id) == Dead([]) ==> ViewOf(s', io.id) == Dead([]))
  }

  lemma OthersStayOff(s: Sys, s': Sys, io: Io, t: TaskId, u: TaskId)
    requires Mine(s, io) && io.writeFut == Some(t) && s'.tasks - {t} == s.tasks - {t}
    requires u in s'.tasks && u != t
    ensures u in s.tasks && !SendsOn(s'.tasks[u], io.id)
  {
    assert u in s'.tasks - {t};
    assert (s'.tasks - {t})[u] == (s.tasks - {t})[u];
  }

  lemma InFlightPolled(io: Io, s: Sys, w: Wire, taken: bytes)
    requires Kept(s, io.id, taken) && Mine(s, io) && io.writeFut.Some?
    ensures var (s', p) := PollSend(s, io.writeFut.value, w);
            var io' := if p.SendPending? then io else io.(writeFut := None);
            && Flowed(s, io, s', io', p, taken)
            && Submits(s', io.id) == Submits(s, io.id)
            && PassCount(s', io.id) + Debt(s', io') <= PassCount(s, io.id) + Debt(s, io)
  {
    hide OnWire, Submits, Balanced, Refines, Sound, PassCount, ViewOf, PollSend;
    var t := io.writeFut.value;
    SendPolled(s, t, io.id, w, taken);
    var (s', p) := PollSend(s, t, w);
    forall u | u in s'.tasks && u != t
      ensures !SendsOn(s'.tasks[u], io.id)
    {
      OthersStayOff(s, s', io, t, u);
    }
    var wire, data := OnWire(s, io.id), s.tasks[t].data;
    assert wire + data + [] == wire + data;
    assert wire + data + [] + [] == wire + data;
    assert wire + [] + [] == wire;
  }

  lemma StartSendFlows(io: Io, s: Sys, next: TaskId, w2: Wire, taken: bytes)
    requires Kept(s, io.id, taken) && Mine(s, io) && io.writeFut.None? && io.writeBuf != [] && next !in s.tasks
    ensures var (io', s', p) := StartSend(io, s, next, w2);
            && Flowed(s, io, s', io', p, taken)
            && Submits(s', io.id) == Submits(s, io.id) + [io.writeBuf] && io'.writeBuf == []
            && PassCount(s', io.id) + Debt(s', io') <= PassCount(s, io.id) + 1
  {
    hide OnWire, Submits, Balanced, Refines, Sound, PassCount, ViewOf, PollSend;
    var e := Send(next, io.id, io.writeBuf);
    StepKept(s, e, io.id, taken);
    StepSubmits(s, e, io.id);
    StepOutgoing(s, e, io.id);
    var s1, io1 := StepSend(s, next, io.id, io.writeBuf), io.(writeBuf := [], writeFut := Some(next));
    assert OnWire(s, io.id) + [] == OnWire(s, io.id);
    InFlightPolled(io1, s1, w2, taken);
    assert OnWire(s, io.id) + io.writeBuf + [] == OnWire(s, io.id) + [] + io.writeBuf;
  }

  // ---- One poll ----

  lemma FlushFlows(io: Io, s: Sys, w: Wire, next: TaskId, w2: Wire, taken: bytes)
    requires Kept(s, io.id, taken) && Mine(s, io) && next !in s.tasks
    ensures var (io', s', p) := PollFlushBuf(io, s, w, next, w2);
            && Flowed(s, io, s', io', p, taken)
            && (io'.writeBuf == io.writeBuf || io'.writeBuf == [])
            && (io.writeFut.Some? ==> io'.writeBuf == [])
            && Submits(s', io.id) == Submits(s, io.id) +
               (if io.writeFut.None? && io.writeBuf != [] then [io.writeBuf] else [])
            && PassCount(s', io.id) + Debt(s', io') <= PassCount(s, io.id) + Debt(s, io) +
               (if io.writeFut.None? && io.writeBuf != [] then 1 else 0)
  {
    hide OnWire, Submits, Balanced, Refines, Sound, PassCount, ViewOf, PollSend, StartSend;
    assert Submits(s, io.id) + [] == Submits(s, io.id);
    if io.writeFut.Some? {
      InFlightPolled(io, s, w, taken);
      var (s1, p1) := PollSend(s, io.writeFut.value, w);
      assert PollFlushBuf(io, s, w, next, w2) == (if p1.SendPending? then io else io.(writeFut := None), s1, p1);
    } else if io.writeBuf != [] {
      StartSendFlows(io, s, next, w2, taken);
    } else {
      assert PollFlushBuf(io, s, w, next, w2) == (io, s, SendDone);
    }
  }

  /** What the writing side keeps: nothing lost without a reported failure, and few, full sends. */
  ghost predicate Writing(net: Net) {
    && Mine(net.sys, net.io)
    && |net.io.writeBuf| < WRITE_FLUSH_THRESHOLD
    && (net.failures == 0 ==> Pipe(net.sys, net.io) == net.appended)
    && (net.failures > 0 ==> |Pipe(net.sys, net.io)| < |net.appended|)
    && (forall x | x in Submits(net.sys, net.io.id) :: x != [])
    && WRITE_FLUSH_THRESHOLD * |Submits(net.sys, net.io.id)| + |net.io.writeBuf| <=
       |net.appended| + WRITE_FLUSH_THRESHOLD * net.flushes
    && PassCount(net.sys, net.io.id) + Debt(net.sys, net.io) <= |Submits(net.sys, net.io.id)|
  }

  /** What the reading side keeps: everything that arrived was handed out, is left over, or is queued. */
  ghost predicate Reading(net: Net) {
    && Kept(net.sys, net.io.id, net.handed + net.io.leftover)
    && (net.io.closed && !net.shut ==> net.io.leftover == [] && ViewOf(net.sys, net.io.id) == Dead([]))
  }

  lemma FlushKeeps(net: Net, w: Wire, next: TaskId, w2: Wire)
    requires Writing(net) && Reading(net) && next !in net.sys.tasks
    ensures var net' := Do(net, Flush(w, next, w2)); Writing(net') && Reading(net')
  {
    hide OnWire, Submits, Balanced, Refines, Sound, PassCount, ViewOf, PollFlushBuf, Pipe, Debt;
    FlushFlows(net.io, net.sys, w, next, w2, net.handed + net.io.leftover);
  }

  /** Appending moves the caller's bytes into the pipe, and at 16 KiB the buffer into a send. */
  lemma AppendFlows(io: Io, s: Sys, buf: bytes, next: TaskId, w2: Wire, taken: bytes)
    requires Kept(s, io.id, taken) && Mine(s, io) && io.writeFut.None? && next !in s.tasks
    ensures var (io', s', p) := AppendAndMaybeSend(io, s, buf, next, w2);
            && Kept(s', io.id, taken) && Mine(s', io') && SameReader(io, io')
            && (!p.WriteFailed? ==> Pipe(s', io') == Pipe(s, io) + buf)
            && (p.WriteFailed? ==> |Pipe(s', io')| < |Pipe(s, io)| + |buf|)
            && (ViewOf(s, io.id) == Dead([]) ==> ViewOf(s', io.id) == Dead([]))
            && (if |io.writeBuf + buf| >= WRITE_FLUSH_THRESHOLD then
                  && io'.writeBuf == [] && Submits(s', io.id) == Submits(s, io.id) + [io.writeBuf + buf]
                  && PassCount(s', io.id) + Debt(s', io') <= PassCount(s, io.id) + 1
                else
                  && io'.writeBuf == io.writeBuf + buf && Submits(s', io.id) == Submits(s, io.id)
                  && PassCount(s', io.id) + Debt(s', io') == PassCount(s, io.id))
  {
    hide OnWire, Submits, Balanced, Refines, Sound, PassCount, ViewOf, StartSend;
    var io1 := io.(writeBuf := io.writeBuf + buf);
    assert Pipe(s, io1) == Pipe(s, io) + buf;
    if |io1.writeBuf| >= WRITE_FLUSH_THRESHOLD {
      StartSendFlows(io1, s, next, w2, taken);
    }
  }

  lemma FreshWriteKeeps(net: Net, buf: bytes, w: Wire, next: TaskId, w2: Wire)
    requires Writing(net) && Reading(net) && next !in net.sys.tasks && !net.io.closed && net.io.writeFut.None?
    ensures var net' := Do(net, Write(buf, w, next, w2)); Writing(net') && Reading(net')
  {
    hide OnWire, Submits, Balanced, Refines, Sound, PassCount, ViewOf, PollFlushBuf, AppendAndMaybeSend, Pipe, Debt;
    AppendFlows(net.io, net.sys, buf, next, w2, net.handed + net.io.leftover);
  }

  lemma LaterWriteKeeps(net: Net, buf: bytes, w: Wire, next: TaskId, w2: Wire)
    requires Writing(net) && Reading(net) && next !in net.sys.tasks && !net.io.closed && net.io.writeFut.Some?
    ensures var net' := Do(net, Write(buf, w, next, w2)); Writing(net') && Reading(net')
  {
    hide OnWire, Submits, Balanced, Refines, Sound, PassCount, ViewOf, PollFlushBuf, AppendAndMaybeSend, Pipe, Debt;
    var taken := net.handed + net.io.leftover;
    FlushFlows(net.io, net.sys, w, next, w2, taken);
    var (io1, s1, p1) := PollFlushBuf(net.io, net.sys, w, next, w2);
    if p1.SendDone? {
      AppendFlows(io1, s1, buf, next, w2, taken);
    } else {
      assert net.appended + [] == net.appended;
    }
  }

  lemma WriteKeeps(net: Net, buf: bytes, w: Wire, next: TaskId, w2: Wire)
    requires Writing(net) && Reading(net) && next !in net.sys.tasks
    ensures var net' := Do(net, Write(buf, w, next, w2)); Writing(net') && Reading(net')
  {
    hide Writing, Reading;
    if net.io.closed {
      assert net.appended + [] == net.appended;
    } else if net.io.writeFut.Some? {
      LaterWriteKeeps(net, buf, w, next, w2);
    } else {
      FreshWriteKeeps(net, buf, w, next, w2);
    }
  }

  // ---- The rest of the program ----

  lemma ElsewhereSends(net: Net, e: Event, t: TaskId)
    requires Kept(net.sys, net.io.id, net.handed + net.io.leftover) && Mine(net.sys, net.io)
    requires Enabled(net.sys, e) && Elsewhere(net, e)
    requires t in Step(net.sys, e).tasks && SendsOn(Step(net.sys, e).tasks[t], net.io.id)
    ensures net.io.writeFut == Some(t)
  {
    hide DecodePacket, DecodeContinue, DecodedInfo, FrameOf, Kept;
  }

  lemma ElsewhereKeepsFuture(net: Net, e: Event)
    requires Mine(net.sys, net.io) && net.io.writeFut.Some? && Enabled(net.sys, e) && Elsewhere(net, e)
    ensures var t, s' := net.io.writeFut.value, Step(net.sys, e);
            && t in s'.tasks && InSend(s'.tasks[t]) && s'.tasks[t].id == net.io.id
            && s'.tasks[t].data == net.sys.tasks[t].data && Owed(s'.tasks[t]) == Owed(net.sys.tasks[t])
  {
  }

  lemma ElsewherePassesNot(net: Net, e: Event)
    requires Mine(net.sys, net.io) && Enabled(net.sys, e) && Elsewhere(net, e)
    ensures !Passing(net.sys, e, net.io.id) && !Ending(net.sys, e, net.io.id)
  {
  }

  lemma EnvKeeps(net: Net, e: Event)
    requires Writing(net) && Reading(net) && Enabled(net.sys, e) && Elsewhere(net, e)
    ensures var net' := Do(net, Env(e)); Writing(net') && Reading(net')
  {
    hide OnWire, Submits, Balanced, Refines, Sound, PassCount, ViewOf, Step, Passing, Ending;
    var s, s', id := net.sys, Step(net.sys, e), net.io.id;
    StepKept(s, e, id, net.handed + net.io.leftover);
    StepSubmits(s, e, id);
    StepOutgoing(s, e, id);
    ElsewherePassesNot(net, e);
    assert OnWire(s, id) + [] == OnWire(s, id);
    assert Submits(s, id) + [] == Submits(s, id);
    forall t | t in s'.tasks && SendsOn(s'.tasks[t], id)
      ensures net.io.writeFut == Some(t)
    {
      ElsewhereSends(net, e, t);
    }
    if net.io.writeFut.Some? {
      ElsewhereKeepsFuture(net, e);
    }
  }

  // ---- Reading ----

  lemma TakeFirst(queue: seq<bytes>, taken: bytes)
    requires queue != []
    ensures taken + queue[0] + Concat(queue[1..]) == taken + Concat(queue)
  {
    hide Concat;
    assert queue == [queue[0]] + queue[1..];
    ConcatCons(queue[0], queue[1..]);
    Regroup(taken, queue[0], Concat(queue[1..]));
  }

  lemma ReceivedArrives(s: Sys, id: u32)
    requires QueueOf(s, id) != []
    ensures Arrived(Own(StepReceive(s, id).log, id)) == Arrived(Own(s.log, id))
  {
    hide Own, Arrived;
    OwnSnoc(s.log, Received(id), id);
    ArrivedSnoc(Own(s.log, id), Received(id));
    assert Arrived(Own(s.log, id)) + [] == Arrived(Own(s.log, id));
  }

  lemma ReceiveDequeues(s: Sys, id: u32)
    requires Sound(s) && QueueOf(s, id) != []
    ensures var queue, s' := QueueIn(ViewOf(s, id)), StepReceive(s, id);
            && queue != [] && queue[0] == QueueOf(s, id)[0] && QueueIn(ViewOf(s', id)) == queue[1..]
            && Arrived(Own(s'.log, id)) == Arrived(Own(s.log, id)) && id in s'.queues
  {
    hide Own, Arrived;
    ReceivedArrives(s, id);
    assert (QueueOf(s, id) + InHand(s, id))[1..] == QueueOf(s, id)[1..] + InHand(s, id);
  }

  /** Taking the first payload off the channel. */
  lemma ReceiveTakes(s: Sys, id: u32, taken: bytes)
    requires Kept(s, id, taken) && QueueOf(s, id) != []
    ensures Kept(StepReceive(s, id), id, taken + QueueOf(s, id)[0])
  {
    var e := Receive(id);
    StepKeepsSound(s, e);
    StepRefines(s, e, id);
    ReceiveDequeues(s, id);
    hide Concat, Arrived, Own, ViewOf;
    TakeFirst(QueueIn(ViewOf(s, id)), taken);
  }

  lemma ReceiveSparesWriters(s: Sys, io: Io)
    requires QueueOf(s, io.id) != []
    ensures var s' := StepReceive(s, io.id);
            && s'.tasks == s.tasks && OnWire(s', io.id) == OnWire(s, io.id)
            && Submits(s', io.id) == Submits(s, io.id) && PassCount(s', io.id) == PassCount(s, io.id)
  {
    hide OnWire, Submits, PassCount;
    StepSubmits(s, Receive(io.id), io.id);
    StepOutgoing(s, Receive(io.id), io.id);
    assert OnWire(s, io.id) + [] == OnWire(s, io.id);
    assert Submits(s, io.id) + [] == Submits(s, io.id);
  }

  lemma SameWriters(net: Net, net': Net)
    requires Writing(net) && net'.sys.tasks == net.sys.tasks && net'.io.id == net.io.id
    requires net'.io.writeFut == net.io.writeFut && net'.io.writeBuf == net.io.writeBuf
    requires net'.appended == net.appended && net'.failures == net.failures && net'.flushes == net.flushes
    requires OnWire(net'.sys, net.io.id) == OnWire(net.sys, net.io.id)
    requires Submits(net'.sys, net.io.id) == Submits(net.sys, net.io.id)
    requires PassCount(net'.sys, net.io.id) == PassCount(net.sys, net.io.id)
    ensures Writing(net')
  {
    hide OnWire, Submits, PassCount;
  }

  lemma ReadSparesWriters(net: Net, room: nat)
    requires Writing(net)
    ensures Writing(Do(net, Read(room)))
  {
    hide Writing, OnWire, Submits, PassCount, StepReceive;
    if net.io.leftover == [] && !net.io.closed && QueueOf(net.sys, net.io.id) != [] {
      ReceiveSparesWriters(net.sys, net.io);
    }
    SameWriters(net, Do(net, Read(room)));
  }

  lemma NothingQueued(s: Sys, id: u32)
    requires id in s.queues && QueueOf(s, id) == [] && Disconnected(s, id)
    ensures ViewOf(s, id) == Dead([])
  {
    assert QueueOf(s, id) + [] == QueueOf(s, id);
  }

  lemma ReadKeeps(net: Net, room: nat)
    requires Reading(net)
    ensures Reading(Do(net, Read(room)))
  {
    hide Balanced, Refines, Sound, ViewOf, StepReceive;
    var io, s := net.io, net.sys;
    assert net.handed + [] == net.handed;
    if io.leftover != [] {
      var take := Min(|io.leftover|, room);
      assert net.handed + io.leftover[..take] + io.leftover[take..] == net.handed + io.leftover;
    } else if io.closed {
    } else if QueueOf(s, io.id) != [] {
      var payload := QueueOf(s, io.id)[0];
      ReceiveTakes(s, io.id, net.handed + io.leftover);
      var take := Min(|payload|, room);
      assert net.handed + payload[..take] + payload[take..] == net.handed + payload;
    } else if Disconnected(s, io.id) {
      NothingQueued(s, io.id);
    }
  }

  // ---- Runs of the adapter ----

  lemma ActKeeps(net: Net, act: Act)
    requires Writing(net) && Reading(net) && CanAct(net, act)
    ensures Writing(Do(net, act)) && Reading(Do(net, act))
  {
    match act
    case Env(e) => EnvKeeps(net, e);
    case Write(buf, w, next, w2) => WriteKeeps(net, buf, w, next, w2);
    case Flush(w, next, w2) => FlushKeeps(net, w, next, w2);
    case Read(room) => ReadSparesWriters(net, room); ReadKeeps(net, room);
    case Shutdown =>
  }

  lemma ActKeepsId(net: Net, act: Act)
    requires CanAct(net, act)
    ensures Do(net, act).io.id == net.io.id
  {
    hide PollSend, Step, StepReceive, StepSend, HoldsFuture;
  }

  lemma {:induction false} ActsKeep(net: Net, acts: seq<Act>)
    requires Writing(net) && Reading(net) && ActsOk(net, acts)
    ensures Writing(DoAll(net, acts)) && Reading(DoAll(net, acts))
    ensures DoAll(net, acts).io.id == net.io.id
    decreases |acts|
  {
    hide Writing, Reading;
    if acts != [] {
      ActKeeps(net, acts[0]);
      ActKeepsId(net, acts[0]);
      hide Do;
      ActsKeep(Do(net, acts[0]), acts[1..]);
    }
  }

  // ---- Where a run of the adapter starts ----

  /** Nobody has sent or received on stream `id` yet. */
  ghost predicate Unused(s: Sys, id: u32) {
    && Sound(s) && Refines(s, id) && Balanced(s, id, [])
    && (forall t | t in s.tasks :: !SendsOn(s.tasks[t], id))
    && OnWire(s, id) == [] && Submits(s, id) == [] && PassCount(s, id) == 0
  }

  lemma UnusedSenders(s: Sys, e: Event, id: u32)
    requires (forall t | t in s.tasks :: !SendsOn(s.tasks[t], id)) && Enabled(s, e) && !(e.Send? && e.id == id)
    ensures forall t | t in Step(s, e).tasks :: !SendsOn(Step(s, e).tasks[t], id)
    ensures !Passing(s, e, id) && !Ending(s, e, id)
  {
  }

  lemma OnlyReceiveReceives(s: Sys, e: Event)
    requires Enabled(s, e) && Written(s, e).Some? && Written(s, e).value.Received?
    ensures e == Receive(Written(s, e).value.id)
  {
  }

  lemma UnusedBalance(s: Sys, e: Event, id: u32)
    requires Sound(s) && Refines(s, id) && Balanced(s, id, []) && Enabled(s, e) && e != Receive(id)
    ensures Balanced(Step(s, e), id, [])
  {
    hide Concat, Step, Own, Replay, Arrived, ViewOf;
    EveryStepSeen(s, e, id);
    OwnStep(s, e, id);
    var own, o := Own(s.log, id), Written(s, e);
    if o.Some? && About(o.value, id) {
      ArrivedSnoc(own, o.value);
      if o.value.Inserted? {
        assert QueueIn(ViewOf(s, id)) == [] && Arrived(own) + [] == Arrived(own);
      } else {
        if o.value.Received? {
          OnlyReceiveReceives(s, e);
        }
        BalanceAdvances(own, o.value, []);
      }
    } else {
      assert own + [] == own;
    }
  }

  lemma StepUnused(s: Sys, e: Event, id: u32)
    requires Unused(s, id) && Enabled(s, e) && !(e.Send? && e.id == id) && e != Receive(id)
    ensures Unused(Step(s, e), id)
  {
    hide OnWire, Submits, PassCount, Balanced, Refines, Sound;
    StepKeepsSound(s, e);
    StepRefines(s, e, id);
    StepSubmits(s, e, id);
    StepOutgoing(s, e, id);
    UnusedBalance(s, e, id);
    UnusedSenders(s, e, id);
  }

  predicate Untouched(events: seq<Event>, id: u32) {
    forall e | e in events :: !(e.Send? && e.id == id) && e != Receive(id)
  }

  lemma {:induction false} RunUnused(s: Sys, events: seq<Event>, id: u32)
    requires Unused(s, id) && IsRun(s, events) && Untouched(events, id)
    ensures Unused(Run(s, events), id)
    decreases |events|
  {
    if events != [] {
      assert events[0] in events && forall e | e in events[1..] :: e in events;
      StepUnused(s, events[0], id);
      RunUnused(Step(s, events[0]), events[1..], id);
    }
  }

  /** A new adapter over stream `id`. */
  function Adapted(s: Sys, id: u32): Net {
    Net(s, NewIo(id), [], [], 0, 0, false)
  }

  /** Any run of the multiplexer that opened stream `id` and left it alone, then any polls of a new adapter over it. */
  ghost predicate Start(extensions: seq<Extension>, events: seq<Event>, id: u32, acts: seq<Act>) {
    && IsRun(Init(extensions), events) && Untouched(events, id)
    && id in Run(Init(extensions), events).queues
    && ActsOk(Adapted(Run(Init(extensions), events), id), acts)
  }

  function End(extensions: seq<Extension>, events: seq<Event>, id: u32, acts: seq<Act>): Net
    requires Start(extensions, events, id, acts)
  {
    DoAll(Adapted(Run(Init(extensions), events), id), acts)
  }

  lemma InitUnused(extensions: seq<Extension>, id: u32)
    ensures Unused(Init(extensions), id)
  {
  }

  lemma AdaptedStarts(s: Sys, id: u32)
    requires Unused(s, id) && id in s.queues
    ensures Writing(Adapted(s, id)) && Reading(Adapted(s, id))
  {
    hide Own, Concat, Passes, WireData, SubmittedData, Arrived;
    assert [] + Adapted(s, id).io.leftover == [];
  }

  lemma EndKeeps(extensions: seq<Extension>, events: seq<Event>, id: u32, acts: seq<Act>)
    requires Start(extensions, events, id, acts)
    ensures var net := End(extensions, events, id, acts); Writing(net) && Reading(net) && net.io.id == id
  {
    hide Writing, Reading, Unused, DoAll, Run, IsRun, ActsOk;
    InitUnused(extensions, id);
    RunUnused(Init(extensions), events, id);
    AdaptedStarts(Run(Init(extensions), events), id);
    ActsKeep(Adapted(Run(Init(extensions), events), id), acts);
  }

  // ---- Histories ----

  /** `net` is what some run of the multiplexer and some polls of an adapter over stream `id` lead to. */
  ghost predicate Lived(net: Net) {
    exists extensions, events, id, acts :: Start(extensions, events, id, acts) && End(extensions, events, id, acts) == net
  }

  lemma {:induction false} ActsSnoc(net: Net, acts: seq<Act>, act: Act)
    requires ActsOk(net, acts) && CanAct(DoAll(net, acts), act)
    ensures ActsOk(net, acts + [act]) && DoAll(net, acts + [act]) == Do(DoAll(net, acts), act)
    decreases |acts|
  {
    hide Do, CanAct;
    if acts == [] {
      assert [] + [act] == [act] && [act][1..] == [];
    } else {
      assert (acts + [act])[1..] == acts[1..] + [act];
      ActsSnoc(Do(net, acts[0]), acts[1..], act);
    }
  }

  lemma ActLives(net: Net, act: Act)
    requires Lived(net) && CanAct(net, act)
    ensures Lived(Do(net, act))
  {
    var extensions, events, id, acts :| Start(extensions, events, id, acts) && End(extensions, events, id, acts) == net;
    hide Do, CanAct, DoAll, ActsOk, Run, IsRun, Init, Untouched;
    ActsSnoc(Adapted(Run(Init(extensions), events), id), acts, act);
    assert Start(extensions, events, id, acts + [act]);
    assert End(extensions, events, id, acts + [act]) == Do(net, act);
  }

  lemma LivedKeeps(net: Net)
    requires Lived(net)
    ensures Writing(net) && Reading(net) && HoldsFuture(net.io, net.sys)
  {
    var extensions, events, id, acts :| Start(extensions, events, id, acts) && End(extensions, events, id, acts) == net;
    hide DoAll, ActsOk, Run, IsRun, Init, Untouched, Pipe, Submits, PassCount, Debt, Kept;
    EndKeeps(extensions, events, id, acts);
  }

  /** A stream that was opened and that nobody has sent or received on. */
  ghost predicate FreshStream(s: Sys, id: u32) {
    exists extensions, events :: IsRun(Init(extensions), events) && Untouched(events, id)
                                 && id in s.queues && Run(Init(extensions), events) == s
  }

  lemma AdaptedLives(s: Sys, id: u32)
    requires FreshStream(s, id)
    ensures Lived(Adapted(s, id))
  {
    var extensions, events :| IsRun(Init(extensions), events) && Untouched(events, id)
                              && id in s.queues && Run(Init(extensions), events) == s;
    assert Start(extensions, events, id, []) && End(extensions, events, id, []) == Adapted(s, id);
  }

  // ---- The theorems ----

  /**
   Caller to wire, over every sequence of polls and everything that can happen between them: the stream's DATA
   payloads decoded from the frames sent, then the payload in flight, then the write buffer, are exactly the bytes
   appended, if and only if no poll has reported a failed send. A send in flight means an empty write buffer.
   */
  lemma WritesAreConserved(extensions: seq<Extension>, events: seq<Event>, id: u32, acts: seq<Act>)
    requires Start(extensions, events, id, acts)
    ensures var net := End(extensions, events, id, acts);
            && (Concat(WireData(Own(net.sys.log, id))) + InFlight(net.sys, net.io) + net.io.writeBuf == net.appended
                <==> net.failures == 0)
            && (net.io.writeFut.Some? ==> net.io.writeBuf == [])
  {
    hide Concat, WireData, Own, Submits, PassCount, DoAll, Debt;
    EndKeeps(extensions, events, id, acts);
  }

  // ---- The caller's view of writing ----

  /** The bytes a poll tells the caller were accepted. */
  function ReportedBy(net: Net, act: Act): bytes
    requires CanAct(net, act)
  {
    match act
    case Write(buf, w, next, w2) =>
      var p := PollWrite(net.io, net.sys, buf, w, next, w2).2;
      if p.Wrote? then buf[..Min(p.n, |buf|)] else []
    case _ => []
  }

  function AppendedBy(net: Net, act: Act): bytes
    requires CanAct(net, act)
  {
    match act
    case Write(buf, w, next, w2) => if Appends(net, w, next, w2) then buf else []
    case _ => []
  }

  /** `poll_write` appended, and then did not say so: it returned Pending, or the failure of the send it started. */
  predicate AppendsUnsaid(net: Net, act: Act)
    requires CanAct(net, act)
  {
    match act
    case Write(buf, w, next, w2) => Appends(net, w, next, w2) && !PollWrite(net.io, net.sys, buf, w, next, w2).2.Wrote?
    case _ => false
  }

  /** The send in flight goes out in this poll: it is past its gate, or passes it now, and the transport takes it. */
  predicate GoesOut(s: Sys, t: TaskId, w: Wire)
    requires t in s.tasks && InSend(s.tasks[t])
  {
    w.Accepted? && (s.tasks[t].Sending? || (s.tasks[t].AtGate? && Gate(s.inner, s.tasks[t].id).1.Pass?))
  }

  /** The adapter takes the caller's bytes: it is open, and no send in flight holds it up. */
  predicate TakesBytes(net: Net, w: Wire)
    requires HoldsFuture(net.io, net.sys)
  {
    !net.io.closed && (net.io.writeFut.Some? ==> GoesOut(net.sys, net.io.writeFut.value, w))
  }

  /** What is under the lock once the send in flight, if there is one, has gone out. */
  function AfterFlight(net: Net): Inner
    requires HoldsFuture(net.io, net.sys)
  {
    if net.io.writeFut.Some? && net.sys.tasks[net.io.writeFut.value].AtGate? then Gate(net.sys.inner, net.io.id).0
    else net.sys.inner
  }

  predicate ReachesThreshold(net: Net, buf: bytes) {
    |net.io.writeBuf| + |buf| >= 16384
  }

  /**
   The branch of `poll_write` whose result is not about the bytes it appended: the buffer reaches the threshold, and
   the send that starts does not finish at once, for want of credit or of a ready transport.
   */
  predicate StuckAtThreshold(net: Net, act: Act)
    requires CanAct(net, act)
  {
    match act
    case Write(buf, w, _, w2) =>
      TakesBytes(net, w) && ReachesThreshold(net, buf) && !(w2.Accepted? && Gate(AfterFlight(net), net.io.id).1.Pass?)
    case _ => false
  }

  lemma SendFinishes(s: Sys, t: TaskId, w: Wire)
    requires t in s.tasks && InSend(s.tasks[t])
    ensures PollSend(s, t, w).1.SendDone? <==> GoesOut(s, t, w)
    ensures GoesOut(s, t, w) ==>
              PollSend(s, t, w).0.inner == if s.tasks[t].AtGate? then Gate(s.inner, s.tasks[t].id).0 else s.inner
  {
    hide FrameOf;
  }

  lemma NewSendFinishes(io: Io, s: Sys, next: TaskId, w2: Wire)
    requires io.writeFut.None? && next !in s.tasks
    ensures StartSend(io, s, next, w2).2.SendDone? <==> w2.Accepted? && Gate(s.inner, io.id).1.Pass?
    ensures StartSend(io, s, next, w2).2.SendDone? ==> StartSend(io, s, next, w2).0 == io.(writeBuf := [])
  {
    SendFinishes(StepSend(s, next, io.id, io.writeBuf), next, w2);
    hide PollSend;
  }

  /** The first half of a write: the send in flight. */
  lemma TakingIsFlushing(net: Net, w: Wire, next: TaskId, w2: Wire)
    requires Mine(net.sys, net.io) && HoldsFuture(net.io, net.sys) && next !in net.sys.tasks
    ensures Appends(net, w, next, w2) <==> TakesBytes(net, w)
    ensures TakesBytes(net, w) && net.io.writeFut.Some? ==>
              var (io, s, _) := PollFlushBuf(net.io, net.sys, w, next, w2);
              io == net.io.(writeFut := None) && s.inner == AfterFlight(net) && next !in s.tasks
  {
    if net.io.writeFut.Some? {
      SendFinishes(net.sys, net.io.writeFut.value, w);
    }
    hide PollSend, StartSend;
  }

  /** The second half: the append. */
  lemma AppendIsSaid(io: Io, s: Sys, buf: bytes, next: TaskId, w2: Wire)
    requires io.writeFut.None? && next !in s.tasks
    ensures AppendAndMaybeSend(io, s, buf, next, w2).2.Wrote? <==>
            |io.writeBuf| + |buf| < WRITE_FLUSH_THRESHOLD || (w2.Accepted? && Gate(s.inner, io.id).1.Pass?)
    ensures AppendAndMaybeSend(io, s, buf, next, w2).2.Wrote? ==>
              && AppendAndMaybeSend(io, s, buf, next, w2).2.n == |buf|
              && AppendAndMaybeSend(io, s, buf, next, w2).0 ==
                 io.(writeBuf := if |io.writeBuf| + |buf| < WRITE_FLUSH_THRESHOLD then io.writeBuf + buf else [])
  {
    NewSendFinishes(io.(writeBuf := io.writeBuf + buf), s, next, w2);
    hide StartSend;
  }

  /** The guard of the failing branch, in terms of what is there before the call, is exact. */
  lemma UnsaidIsStuck(net: Net, act: Act)
    requires Mine(net.sys, net.io) && CanAct(net, act)
    ensures AppendsUnsaid(net, act) <==> StuckAtThreshold(net, act)
  {
    if act.Write? {
      TakingIsFlushing(net, act.w, act.next, act.w2);
      hide TakesBytes, PollFlushBuf, AppendAndMaybeSend;
      if Appends(net, act.w, act.next, act.w2) {
        if net.io.writeFut.Some? {
          var (io, s, _) := PollFlushBuf(net.io, net.sys, act.w, act.next, act.w2);
          AppendIsSaid(io, s, act.buf, act.next, act.w2);
        } else {
          AppendIsSaid(net.io, net.sys, act.buf, act.next, act.w2);
        }
      }
    }
  }

  function Reported(net: Net, acts: seq<Act>): bytes
    requires ActsOk(net, acts)
    decreases |acts|
  {
    if acts == [] then [] else ReportedBy(net, acts[0]) + Reported(Do(net, acts[0]), acts[1..])
  }

  /** No write of the run meets the guard. */
  predicate NeverStuck(net: Net, acts: seq<Act>)
    requires ActsOk(net, acts)
    decreases |acts|
  {
    acts == [] || (!StuckAtThreshold(net, acts[0]) && NeverStuck(Do(net, acts[0]), acts[1..]))
  }

  /** Only a write that is taken is reported, and then all of it. */
  lemma SaidIsWhole(net: Net, buf: bytes, w: Wire, next: TaskId, w2: Wire)
    requires HoldsFuture(net.io, net.sys) && next !in net.sys.tasks
    ensures var p := PollWrite(net.io, net.sys, buf, w, next, w2).2;
            p.Wrote? ==> Appends(net, w, next, w2) && p.n == |buf|
  {
    hide PollFlushBuf, StartSend;
  }

  lemma ActReports(net: Net, act: Act)
    requires Writing(net) && CanAct(net, act)
    ensures Do(net, act).appended == net.appended + AppendedBy(net, act)
    ensures if StuckAtThreshold(net, act) then ReportedBy(net, act) == [] && AppendedBy(net, act) != []
            else ReportedBy(net, act) == AppendedBy(net, act)
  {
    hide PollWrite, PollFlushBuf, PollRead, Step, TakesBytes, Gate, OnWire, Submits, Pipe, PassCount, Debt, Appends;
    UnsaidIsStuck(net, act);
    assert net.appended + [] == net.appended;
    if act.Write? {
      assert act.buf[..|act.buf|] == act.buf;
      SaidIsWhole(net, act.buf, act.w, act.next, act.w2);
    }
  }

  lemma AddedInTwo(base: bytes, part: bytes, all: bytes)
    requires base + part <= all
    ensures base <= all && all[|base|..] == part + all[|base + part|..]
  {
  }

  lemma {:induction false} ActsReport(net: Net, acts: seq<Act>)
    requires Writing(net) && Reading(net) && ActsOk(net, acts)
    ensures net.appended <= DoAll(net, acts).appended
    ensures var added := DoAll(net, acts).appended[|net.appended|..];
            if NeverStuck(net, acts) then Reported(net, acts) == added else |Reported(net, acts)| < |added|
    decreases |acts|
  {
    hide Writing, Reading, Do, CanAct, StuckAtThreshold, ReportedBy, AppendedBy;
    if acts != [] {
      var act, net1 := acts[0], Do(net, acts[0]);
      ActReports(net, act);
      ActKeeps(net, act);
      ActsReport(net1, acts[1..]);
      AddedInTwo(net.appended, AppendedBy(net, act), DoAll(net, acts).appended);
    }
  }

  /**
   What the caller is told was accepted is what was appended, if and only if no write is taken that reaches the
   threshold while the send it starts lacks credit or a ready transport. Otherwise the adapter holds more than the
   caller knows.
   */
  lemma ReportsAreAppends(extensions: seq<Extension>, events: seq<Event>, id: u32, acts: seq<Act>)
    requires Start(extensions, events, id, acts)
    ensures var net := Adapted(Run(Init(extensions), events), id);
            Reported(net, acts) == End(extensions, events, id, acts).appended <==> NeverStuck(net, acts)
  {
    hide Writing, Reading, Unused, DoAll, Run, IsRun, ActsOk, Reported, NeverStuck;
    InitUnused(extensions, id);
    RunUnused(Init(extensions), events, id);
    AdaptedStarts(Run(Init(extensions), events), id);
    var net := Adapted(Run(Init(extensions), events), id);
    ActsReport(net, acts);
    assert DoAll(net, acts).appended[0..] == DoAll(net, acts).appended;
  }

  /** A write that is taken is reported whatever the peer and the transport do, exactly when it stays under the threshold. */
  lemma ThresholdDecides(net: Net, buf: bytes, w: Wire, next: TaskId)
    requires Mine(net.sys, net.io) && HoldsFuture(net.io, net.sys) && next !in net.sys.tasks && TakesBytes(net, w)
    ensures (forall w2 :: PollWrite(net.io, net.sys, buf, w, next, w2).2.Wrote?) <==> !ReachesThreshold(net, buf)
  {
    forall w2
      ensures PollWrite(net.io, net.sys, buf, w, next, w2).2.Wrote? <==> !StuckAtThreshold(net, Write(buf, w, next, w2))
    {
      UnsaidIsStuck(net, Write(buf, w, next, w2));
      TakingIsFlushing(net, w, next, w2);
    }
    hide PollWrite, TakesBytes, Gate;
    if ReachesThreshold(net, buf) {
      assert StuckAtThreshold(net, Write(buf, w, next, NotYet));
    }
  }

  /** Every write leaves the buffer under the threshold; the caller can see to that by flushing in between. */
  predicate StaysUnder(net: Net, acts: seq<Act>)
    requires ActsOk(net, acts)
    decreases |acts|
  {
    acts == [] || ((acts[0].Write? ==> !ReachesThreshold(net, acts[0].buf)) && StaysUnder(Do(net, acts[0]), acts[1..]))
  }

  lemma {:induction false} UnderIsNeverStuck(net: Net, acts: seq<Act>)
    requires ActsOk(net, acts) && StaysUnder(net, acts)
    ensures NeverStuck(net, acts)
    decreases |acts|
  {
    hide Do, TakesBytes, ReachesThreshold;
    if acts != [] {
      UnderIsNeverStuck(Do(net, acts[0]), acts[1..]);
    }
  }

  /** A caller that stays under the threshold is told of every byte, whatever the peer and the transport do. */
  lemma SmallWritesAreReported(extensions: seq<Extension>, events: seq<Event>, id: u32, acts: seq<Act>)
    requires Start(extensions, events, id, acts)
    requires StaysUnder(Adapted(Run(Init(extensions), events), id), acts)
    ensures Reported(Adapted(Run(Init(extensions), events), id), acts) == End(extensions, events, id, acts).appended
  {
    hide Run, IsRun, DoAll, Reported, NeverStuck, StaysUnder, ActsOk;
    ReportsAreAppends(extensions, events, id, acts);
    UnderIsNeverStuck(Adapted(Run(Init(extensions), events), id), acts);
  }

  /** A UDP stream, opened through a version 1 handshake. */
  function UdpOpening(dest: Dest): seq<Event> {
    [HandshakeFirst(PacketBytes(Continue, HANDSHAKE_STREAM_ID, U32Le(0))), Open(0, Udp, dest), Insert(0), Transmit(0, true)]
  }

  lemma UdpOpens(dest: Dest)
    ensures IsRun(Init([]), UdpOpening(dest))
    ensures var s := Run(Init([]), UdpOpening(dest));
            && 1 in s.inner.streams && s.inner.streams[1].kind.Udp? && 1 in s.queues && s.tasks == map[]
  {
    hide PacketBytes, U32Le, StepHandshakeFirst, FrameOf;
    var hello := PacketBytes(Continue, HANDSHAKE_STREAM_ID, U32Le(0));
    GreetedWithNothing(hello);
    var s1 := StepHandshakeFirst(Init([]), hello);
    var s2 := StepOpen(s1, 0, Udp, dest);
    var s3 := StepInsert(s2, 0);
    var s4 := StepTransmit(s3, 0, true);
    StatesMakeARun([Init([]), s1, s2, s3, s4], UdpOpening(dest));
  }

  /** A write large enough to be sent at once, while the transport is not ready. */
  lemma FirstTry(io: Io, s: Sys, buf: bytes, next: TaskId)
    requires !io.closed && io.writeFut.None? && io.writeBuf == [] && |buf| >= WRITE_FLUSH_THRESHOLD && next !in s.tasks
    requires io.id in s.inner.streams && s.inner.streams[io.id].kind.Udp?
    ensures var (io1, s1, p) := PollWrite(io, s, buf, NotYet, next, NotYet);
            && p.WritePending? && io1 == io.(writeFut := Some(next)) && s1.inner == s.inner
            && next in s1.tasks && s1.tasks[next].Sending? && s1.tasks.Keys == s.tasks.Keys + {next}
  {
    assert [] + buf == buf;
  }

  /** The same write again, the transport having accepted the first one meanwhile. */
  lemma SecondTry(io: Io, s: Sys, buf: bytes, next: TaskId)
    requires !io.closed && io.writeFut.Some? && io.writeBuf == [] && |buf| >= WRITE_FLUSH_THRESHOLD && next !in s.tasks
    requires io.id in s.inner.streams && s.inner.streams[io.id].kind.Udp?
    requires io.writeFut.value in s.tasks && s.tasks[io.writeFut.value].Sending?
    ensures PollFlushBuf(io, s, Accepted, next, Accepted).2.SendDone?
    ensures var (io1, s1, p) := PollWrite(io, s, buf, Accepted, next, Accepted);
            p == Wrote(|buf|) && io1 == io.(writeFut := None)
  {
    hide FrameOf;
    assert [] + buf == buf;
  }

  function TwoTries(buf: bytes): seq<Act> {
    [Write(buf, NotYet, 0, NotYet), Write(buf, Accepted, 1, Accepted)]
  }

  lemma OneAct(net: Net, act: Act)
    requires CanAct(net, act)
    ensures ActsOk(net, [act]) && DoAll(net, [act]) == Do(net, act) && Reported(net, [act]) == ReportedBy(net, act) + []
  {
    hide Do, CanAct, ReportedBy;
    assert [act][1..] == [];
    assert DoAll(Do(net, act), []) == Do(net, act) && Reported(Do(net, act), []) == [];
  }

  lemma TwoActs(net: Net, acts: seq<Act>)
    requires |acts| == 2 && CanAct(net, acts[0]) && CanAct(Do(net, acts[0]), acts[1])
    ensures var net1 := Do(net, acts[0]);
            && ActsOk(net, acts) && DoAll(net, acts) == Do(net1, acts[1])
            && Reported(net, acts) == ReportedBy(net, acts[0]) + (ReportedBy(net1, acts[1]) + [])
  {
    hide Do, CanAct, ReportedBy;
    OneAct(Do(net, acts[0]), acts[1]);
    assert acts[1..] == [acts[1]];
  }

  lemma TwoTriesDouble(net: Net, buf: bytes)
    requires !net.io.closed && net.io.writeFut.None? && net.io.writeBuf == [] && |buf| >= WRITE_FLUSH_THRESHOLD
    requires net.io.id in net.sys.inner.streams && net.sys.inner.streams[net.io.id].kind.Udp? && net.sys.tasks == map[]
    ensures ActsOk(net, TwoTries(buf)) && Reported(net, TwoTries(buf)) == buf
    ensures var net2 := DoAll(net, TwoTries(buf));
            && net2.appended == net.appended + buf + buf && net2.failures == net.failures
            && net2.io == net.io && InFlight(net2.sys, net2.io) == []
  {
    FirstTry(net.io, net.sys, buf, 0);
    var act1, act2 := TwoTries(buf)[0], TwoTries(buf)[1];
    var net1 := Do(net, act1);
    SecondTry(net1.io, net1.sys, buf, 1);
    hide PollWrite, PollFlushBuf, ActsOk, DoAll, Reported;
    TwoActs(net, TwoTries(buf));
    assert ReportedBy(net, act1) == [] && ReportedBy(net1, act2) == buf[..|buf|] == buf;
    assert [] + (buf + []) == buf;
  }

  /**
   `poll_write` may return Pending after appending. A caller that then offers the same bytes again, as a writer does
   after Pending, puts them on the wire twice, although it is told once that they were accepted.
   */
  lemma ARetryDoubles(dest: Dest, buf: bytes)
    requires |buf| >= WRITE_FLUSH_THRESHOLD
    ensures Start([], UdpOpening(dest), 1, TwoTries(buf))
    ensures Reported(Adapted(Run(Init([]), UdpOpening(dest)), 1), TwoTries(buf)) == buf
    ensures var net := End([], UdpOpening(dest), 1, TwoTries(buf));
            net.failures == 0 && Concat(WireData(Own(net.sys.log, 1))) == buf + buf
  {
    hide IsRun, Run, DoAll, ActsOk, Reported, Own, WireData, Concat;
    UdpOpens(dest);
    assert Untouched(UdpOpening(dest), 1);
    var net := Adapted(Run(Init([]), UdpOpening(dest)), 1);
    TwoTriesDouble(net, buf);
    hide UdpOpening, TwoTries;
    WritesAreConserved([], UdpOpening(dest), 1, TwoTries(buf));
    var wire := Concat(WireData(Own(End([], UdpOpening(dest), 1, TwoTries(buf)).sys.log, 1)));
    assert wire + [] + [] == wire && [] + buf + buf == buf + buf;
  }

  /** The same on a TCP stream that is out of credit: the transport is ready, and a CONTINUE comes between the tries. */
  function TriesAroundContinue(buf: bytes, c: u32): seq<Act> {
    [Write(buf, Accepted, 0, Accepted), Env(Dispatch(PacketBytes(Continue, 1, U32Le(c)))), Env(Ring),
     Write(buf, Accepted, 1, Accepted)]
  }

  lemma TryWithoutCredit(net: Net, buf: bytes)
    requires net.io == NewIo(1) && net.sys.tasks == map[] && OutOfCredit(net.sys, 1) && |buf| >= WRITE_FLUSH_THRESHOLD
    ensures var net1 := Do(net, Write(buf, Accepted, 0, Accepted));
            && net1 == net.(io := net.io.(writeFut := Some(0)), sys := net1.sys, appended := net.appended + buf)
            && net1.sys.tasks == map[0 := Parked(1, buf)] && net1.sys.inner == net.sys.inner && net1.sys.pump == net.sys.pump
    ensures ReportedBy(net, Write(buf, Accepted, 0, Accepted)) == []
  {
    assert [] + buf == buf;
  }

  lemma ContinueReaches(net: Net, c: u32)
    requires net.io.id == 1 && net.sys.pump.Idle? && LiveTcp(net.sys, 1)
    ensures var act := Env(Dispatch(PacketBytes(Continue, 1, U32Le(c))));
            && CanAct(net, act)
            && var net1 := Do(net, act);
               && net1 == net.(sys := net1.sys) && net1.sys.tasks == net.sys.tasks && net1.sys.pump == Ringing(1)
               && LiveTcp(net1.sys, 1) && net1.sys.inner.streams[1].credit == c
  {
    hide StepDispatch, PacketBytes, U32Le, LiveTcp;
    ContinueRings(net.sys, 1, c);
  }

  lemma RingReaches(net: Net, buf: bytes)
    requires net.io.id == 1 && net.sys.tasks == map[0 := Parked(1, buf)] && net.sys.pump == Ringing(1)
    ensures CanAct(net, Env(Ring))
    ensures var net1 := Do(net, Env(Ring));
            && net1 == net.(sys := net1.sys) && net1.sys.tasks == map[0 := AtGate(1, buf)]
            && net1.sys.inner == net.sys.inner
  {
    assert Wake(net.sys.tasks, 1) == map[0 := AtGate(1, buf)];
  }

  lemma CreditComes(net: Net, buf: bytes, c: u32)
    requires net.io.id == 1 && net.sys.tasks == map[0 := Parked(1, buf)] && net.sys.pump.Idle? && LiveTcp(net.sys, 1)
    ensures var acts := [Env(Dispatch(PacketBytes(Continue, 1, U32Le(c)))), Env(Ring)];
            && CanAct(net, acts[0]) && CanAct(Do(net, acts[0]), acts[1])
            && var net2 := Do(Do(net, acts[0]), acts[1]);
               && net2 == net.(sys := net2.sys) && net2.sys.tasks == map[0 := AtGate(1, buf)]
               && LiveTcp(net2.sys, 1) && net2.sys.inner.streams[1].credit == c
  {
    hide Do, CanAct, PacketBytes, U32Le;
    ContinueReaches(net, c);
    RingReaches(Do(net, Env(Dispatch(PacketBytes(Continue, 1, U32Le(c))))), buf);
  }

  lemma TryWithCredit(net: Net, buf: bytes)
    requires net.io == NewIo(1).(writeFut := Some(0)) && net.sys.tasks == map[0 := AtGate(1, buf)] && buf != []
    requires LiveTcp(net.sys, 1) && net.sys.inner.streams[1].credit >= 2 && |buf| >= WRITE_FLUSH_THRESHOLD
    ensures CanAct(net, Write(buf, Accepted, 1, Accepted))
    ensures var net1 := Do(net, Write(buf, Accepted, 1, Accepted));
            && net1.io == NewIo(1) && net1.failures == net.failures && net1.appended == net.appended + buf
    ensures ReportedBy(net, Write(buf, Accepted, 1, Accepted)) == buf
  {
    assert Mine(net.sys, net.io);
    TakingIsFlushing(net, Accepted, 1, Accepted);
    var (io, s, _) := PollFlushBuf(net.io, net.sys, Accepted, 1, Accepted);
    AppendIsSaid(io, s, buf, 1, Accepted);
    hide PollFlushBuf, AppendAndMaybeSend;
    assert buf[..|buf|] == buf;
  }

  lemma EnvReportsNothing(net: Net, act: Act)
    requires CanAct(net, act) && act.Env?
    ensures ReportedBy(net, act) == []
  {
  }

  lemma FourActs(net: Net, acts: seq<Act>)
    requires |acts| == 4 && CanAct(net, acts[0])
    requires CanAct(Do(net, acts[0]), acts[1]) && CanAct(Do(Do(net, acts[0]), acts[1]), acts[2])
    requires CanAct(Do(Do(Do(net, acts[0]), acts[1]), acts[2]), acts[3])
    ensures var (net1, net2) := (Do(net, acts[0]), Do(Do(net, acts[0]), acts[1]));
            var net3 := Do(net2, acts[2]);
            && ActsOk(net, acts) && DoAll(net, acts) == Do(net3, acts[3])
            && Reported(net, acts) == ReportedBy(net, acts[0]) + (ReportedBy(net1, acts[1])
                                      + (ReportedBy(net2, acts[2]) + (ReportedBy(net3, acts[3]) + [])))
  {
    hide Do, CanAct, ReportedBy;
    var (net1, net2) := (Do(net, acts[0]), Do(Do(net, acts[0]), acts[1]));
    var a2, a1 := acts[1..][1..], acts[1..];
    assert a2[0] == acts[2] && a2[1] == acts[3] && a1[0] == acts[1];
    TwoActs(net2, a2);
    assert ActsOk(net1, a1) && DoAll(net1, a1) == DoAll(net2, a2);
    assert Reported(net1, a1) == ReportedBy(net1, acts[1]) + Reported(net2, a2);
  }

  lemma TriesAreOk(net: Net, buf: bytes, c: u32)
    requires net.io == NewIo(1) && net.sys.tasks == map[] && net.sys.pump.Idle? && OutOfCredit(net.sys, 1)
    requires |buf| >= WRITE_FLUSH_THRESHOLD && c >= 2
    ensures var acts := TriesAroundContinue(buf, c);
            && ActsOk(net, acts) && Reported(net, acts) == buf
            && var net' := DoAll(net, acts);
               net'.io == NewIo(1) && net'.failures == net.failures && net'.appended == net.appended + buf + buf
  {
    hide Do, PacketBytes, U32Le, ReportedBy;
    var acts := TriesAroundContinue(buf, c);
    var net1 := Do(net, acts[0]);
    TryWithoutCredit(net, buf);
    CreditComes(net1, buf, c);
    var net2 := Do(net1, acts[1]);
    var net3 := Do(net2, acts[2]);
    TryWithCredit(net3, buf);
    EnvReportsNothing(net1, acts[1]);
    EnvReportsNothing(net2, acts[2]);
    FourActs(net, acts);
    assert [] + ([] + ([] + (buf + []))) == buf;
  }

  /** A write that waits for credit, offered again after the CONTINUE that brings it, goes out twice as well. */
  lemma ARetryDoublesWithoutCredit(dest: Dest, buf: bytes, c: u32)
    requires |buf| >= WRITE_FLUSH_THRESHOLD && c >= 2
    ensures Start([], OpeningEvents(dest), 1, TriesAroundContinue(buf, c))
    ensures Reported(Adapted(Run(Init([]), OpeningEvents(dest)), 1), TriesAroundContinue(buf, c)) == buf
    ensures var net := End([], OpeningEvents(dest), 1, TriesAroundContinue(buf, c));
            net.failures == 0 && Concat(WireData(Own(net.sys.log, 1))) == buf + buf
  {
    hide IsRun, Run, DoAll, ActsOk, Reported, Own, WireData, Concat, TriesAroundContinue;
    AStreamOutOfCredit(dest);
    assert Untouched(OpeningEvents(dest), 1);
    hide OpeningEvents;
    RunKeepsSound(Init([]), OpeningEvents(dest));
    var net := Adapted(Run(Init([]), OpeningEvents(dest)), 1);
    TriesAreOk(net, buf, c);
    WritesAreConserved([], OpeningEvents(dest), 1, TriesAroundContinue(buf, c));
    var wire := Concat(WireData(Own(End([], OpeningEvents(dest), 1, TriesAroundContinue(buf, c)).sys.log, 1)));
    assert wire + [] + [] == wire && [] + buf + buf == buf + buf;
  }

  lemma AllOnTheWire(s: Sys, io: Io, appended: bytes)
    requires Pipe(s, io) == appended && io.writeFut.None? && io.writeBuf == []
    ensures Concat(WireData(Own(s.log, io.id))) == appended
  {
    assert OnWire(s, io.id) + [] + [] == OnWire(s, io.id);
  }

  /** After a `poll_flush` that returns Ready(Ok), with no failure so far, every appended byte is on the wire. */
  lemma FlushedIsOnTheWire(extensions: seq<Extension>, events: seq<Event>, id: u32, acts: seq<Act>,
                           w: Wire, next: TaskId, w2: Wire)
    requires Start(extensions, events, id, acts)
    requires var net := End(extensions, events, id, acts);
             CanAct(net, Flush(w, next, w2)) && net.failures == 0 && PollFlushBuf(net.io, net.sys, w, next, w2).2.SendDone?
    ensures var net := Do(End(extensions, events, id, acts), Flush(w, next, w2));
            Concat(WireData(Own(net.sys.log, id))) == net.appended
  {
    hide PollFlushBuf, OnWire, Own, WireData, Concat, Submits, PassCount, Debt, Pipe, DoAll, Balanced;
    var net := End(extensions, events, id, acts);
    EndKeeps(extensions, events, id, acts);
    FlushKeeps(net, w, next, w2);
    FlushFlows(net.io, net.sys, w, next, w2, net.handed + net.io.leftover);
    var net' := Do(net, Flush(w, next, w2));
    AllOnTheWire(net'.sys, net'.io, net'.appended);
  }

  /** The same for any history. */
  lemma LivedFlush(net: Net, w: Wire, next: TaskId, w2: Wire)
    requires Lived(net) && CanAct(net, Flush(w, next, w2))
    ensures var net' := Do(net, Flush(w, next, w2));
            PollFlushBuf(net.io, net.sys, w, next, w2).2.SendDone? && net'.failures == 0 ==>
              OnWire(net'.sys, net.io.id) == net'.appended
  {
    hide PollFlushBuf, Own, WireData, Concat, Submits, PassCount, Debt, Pipe, Lived;
    LivedKeeps(net);
    FlushKeeps(net, w, next, w2);
    FlushFlows(net.io, net.sys, w, next, w2, net.handed + net.io.leftover);
    var net' := Do(net, Flush(w, next, w2));
    if PollFlushBuf(net.io, net.sys, w, next, w2).2.SendDone? && net'.failures == 0 {
      AllOnTheWire(net'.sys, net'.io, net'.appended);
    }
  }

  /**
   Coalescing: the write buffer stays under 16 KiB, no empty DATA is submitted, B appended bytes and F calls of
   `poll_flush` start at most floor(B / 16384) + F sends, and those take at most one credit each.
   */
  lemma SendsAreFew(extensions: seq<Extension>, events: seq<Event>, id: u32, acts: seq<Act>)
    requires Start(extensions, events, id, acts)
    ensures var net := End(extensions, events, id, acts);
            var sends := SubmittedData(Own(net.sys.log, id));
            && |net.io.writeBuf| < 16384
            && (forall x | x in sends :: x != [])
            && |sends| <= |net.appended| / 16384 + net.flushes
            && Passes(Own(net.sys.log, id)) <= |sends|
  {
    hide Own, Passes, SubmittedData, Pipe, Kept, Mine, DoAll;
    EndKeeps(extensions, events, id, acts);
  }

  /**
   Wire to caller: the bytes handed out by `poll_read`, then the leftover, then what is still queued, are exactly the
   DATA payloads dispatched while the stream was live.
   */
  lemma ReadsAreConserved(extensions: seq<Extension>, events: seq<Event>, id: u32, acts: seq<Act>)
    requires Start(extensions, events, id, acts)
    ensures var net := End(extensions, events, id, acts);
            net.handed + net.io.leftover + Concat(QueueOf(net.sys, id) + InHand(net.sys, id)) ==
            Concat(Arrived(Own(net.sys.log, id)))
  {
    EndKeeps(extensions, events, id, acts);
  }

  /** What ends a stream: a `close_stream`, or the peer's CLOSE. */
  predicate Ends(o: Obs) {
    o.Removed? || (o.Inbound? && DecodePacket(o.frame).Ok? && DecodePacket(o.frame).value.packetType.Close?)
  }

  lemma {:induction false} DeadWasEnded(own: seq<Obs>)
    requires Replay(own).Dead?
    ensures exists i | 0 <= i < |own| :: Ends(own[i])
    decreases |own|
  {
    var front, o := own[..|own| - 1], own[|own| - 1];
    if Replay(front).Dead? {
      DeadWasEnded(front);
      var i :| 0 <= i < |front| && Ends(front[i]);
      assert Ends(own[i]);
    } else {
      assert Ends(o);
    }
  }

  /**
   Without a local shutdown, a read into a non-empty buffer sees the end of the stream only after the stream was
   closed, by the peer's CLOSE or by `close_stream`, and after every byte that arrived was handed out.
   */
  lemma EofComesLast(extensions: seq<Extension>, events: seq<Event>, id: u32, acts: seq<Act>, room: nat)
    requires Start(extensions, events, id, acts) && room > 0
    requires var net := End(extensions, events, id, acts);
             !net.shut && PollRead(net.io, net.sys, room).2 == Served([])
    ensures var net := End(extensions, events, id, acts);
            && net.handed == Concat(Arrived(Own(net.sys.log, id)))
            && exists i | 0 <= i < |Own(net.sys.log, id)| :: Ends(Own(net.sys.log, id)[i])
  {
    hide OnWire, Submits, PassCount, Arrived, Run, DoAll, IsRun, ActsOk, Unused;
    var net := End(extensions, events, id, acts);
    EndKeeps(extensions, events, id, acts);
    if !net.io.closed {
      NothingQueued(net.sys, id);
    }
    assert ViewOf(net.sys, id) == Dead([]);
    DeadWasEnded(Own(net.sys.log, id));
    assert net.handed + [] + [] == net.handed;
  }

  // ---- After a shutdown ----

  lemma FutureIsSpared(net: Net, e: Event)
    requires Mine(net.sys, net.io) && Enabled(net.sys, e) && Elsewhere(net, e)
    ensures InFlight(Step(net.sys, e), net.io) == InFlight(net.sys, net.io)
  {
    if net.io.writeFut.Some? {
      ElsewhereKeepsFuture(net, e);
    }
    hide Step;
  }

  /** A closed adapter refuses every write, and of the polls only `poll_flush` still moves bytes towards the wire. */
  lemma ClosedKeepsBytes(net: Net, act: Act)
    requires Writing(net) && net.io.closed && CanAct(net, act) && !act.Flush?
    ensures act.Write? ==> PollWrite(net.io, net.sys, act.buf, act.w, act.next, act.w2).2.BrokenPipe?
    ensures var net' := Do(net, act);
            && net'.io.closed && net'.io.id == net.io.id && net'.appended == net.appended && net'.failures == net.failures
            && OnWire(net'.sys, net'.io.id) == OnWire(net.sys, net.io.id)
            && InFlight(net'.sys, net'.io) == InFlight(net.sys, net.io) && net'.io.writeBuf == net.io.writeBuf
  {
    hide OnWire, Submits, PassCount, Step, StepReceive, Passing, Ending;
    assert net.appended + [] == net.appended && OnWire(net.sys, net.io.id) + [] == OnWire(net.sys, net.io.id);
    match act
    case Env(e) =>
      StepOutgoing(net.sys, e, net.io.id);
      ElsewherePassesNot(net, e);
      FutureIsSpared(net, e);
    case Read(room) =>
      if QueueOf(net.sys, net.io.id) != [] {
        ReceiveSparesWriters(net.sys, net.io);
      }
    case _ =>
  }

  /** After a shutdown, whatever happens without a flush, what was not on the wire stays off it. */
  lemma {:induction false} ClosedNeedsAFlush(net: Net, acts: seq<Act>)
    requires Writing(net) && Reading(net) && net.io.closed && ActsOk(net, acts) && forall a | a in acts :: !a.Flush?
    ensures var net' := DoAll(net, acts);
            && net'.io.closed && net'.appended == net.appended && net'.failures == net.failures
            && OnWire(net'.sys, net'.io.id) == OnWire(net.sys, net.io.id)
            && InFlight(net'.sys, net'.io) == InFlight(net.sys, net.io) && net'.io.writeBuf == net.io.writeBuf
    decreases |acts|
  {
    hide Do, CanAct, Writing, Reading, OnWire, InFlight;
    if acts != [] {
      assert acts[0] in acts && forall a | a in acts[1..] :: a in acts;
      ClosedKeepsBytes(net, acts[0]);
      ActKeeps(net, acts[0]);
      ClosedNeedsAFlush(Do(net, acts[0]), acts[1..]);
    }
  }

  lemma FrontIsAll(wire: bytes, flight: bytes, left: bytes)
    ensures wire == wire + flight + left <==> flight == [] && left == []
  {
    assert |wire + flight + left| == |wire| + |flight| + |left|;
    assert wire + [] + [] == wire;
  }

  lemma WritingAccounts(net: Net)
    requires Writing(net) && net.failures == 0
    ensures OnWire(net.sys, net.io.id) + InFlight(net.sys, net.io) + net.io.writeBuf == net.appended
    ensures InFlight(net.sys, net.io) == [] <==> net.io.writeFut.None?
  {
    hide OnWire, Submits, PassCount, Debt;
  }

  /** Everything appended is on the wire exactly when nothing is in flight or buffered, as long as no send has failed. */
  lemma NothingLeftIff(net: Net)
    requires Lived(net) && net.failures == 0
    ensures OnWire(net.sys, net.io.id) == net.appended <==> net.io.writeFut.None? && net.io.writeBuf == []
  {
    hide Lived, Writing, Reading, OnWire, InFlight;
    LivedKeeps(net);
    WritingAccounts(net);
    FrontIsAll(OnWire(net.sys, net.io.id), InFlight(net.sys, net.io), net.io.writeBuf);
  }
}
