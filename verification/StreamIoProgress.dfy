/**
 The adapter gets on: what makes a poll wait, that reading hands out everything that arrived, and that a flush with
 credit and a ready transport sends everything that was written.
 */
module StreamIoProgress {
  import opened Bytes
  import opened MuxModel
  import opened StreamIds
  import opened Demux
  import opened StreamIoModel
  import opened StreamIoRuns

  // ---- One read ----

  /** More may come: the stream is open, or the pump still holds a payload for it. */
  predicate MayGetMore(s: Sys, id: u32) {
    id in s.inner.streams || (s.pump.Holding? && s.pump.id == id)
  }

  /**
   A read waits only when nothing is left over and either no payload is queued and more may come, or the payload in front
   is empty. A read that reaches the queue takes the payload in front off it; a receive is in flight after a read exactly
   when that read found nothing and more may come.
   */
  lemma ReadsThatWait(io: Io, s: Sys, room: nat)
    ensures PollRead(io, s, room).2.ReadPending? <==>
            && io.leftover == [] && !io.closed
            && if QueueOf(s, io.id) == [] then MayGetMore(s, io.id) else QueueOf(s, io.id)[0] == []
    ensures io.leftover == [] && !io.closed && QueueOf(s, io.id) != [] ==>
              QueueOf(PollRead(io, s, room).1, io.id) == QueueOf(s, io.id)[1..]
    ensures io.leftover != [] || io.closed || QueueOf(s, io.id) == [] ==> PollRead(io, s, room).1 == s
    ensures io.leftover == [] && !io.closed ==>
              (PollRead(io, s, room).0.readFut <==> QueueOf(s, io.id) == [] && MayGetMore(s, io.id))
  {
  }

  /** What the next read serves from: the leftover, or the payload in front of the queue. */
  function InFront(io: Io, s: Sys): bytes {
    if io.leftover != [] then io.leftover
    else if !io.closed && QueueOf(s, io.id) != [] then QueueOf(s, io.id)[0]
    else []
  }

  /**
   A served chunk is as much of what is in front as fits, and the rest is left over. It is empty only at the end of the
   stream, which closes the adapter.
   */
  lemma ServedChunks(io: Io, s: Sys, room: nat)
    requires room > 0 && PollRead(io, s, room).2.Served?
    ensures var (io', s', p) := PollRead(io, s, room);
            && p.chunk == InFront(io, s)[..Min(room, |InFront(io, s)|)]
            && io'.leftover == InFront(io, s)[Min(room, |InFront(io, s)|)..]
            && (p.chunk == [] <==>
                  && io.leftover == []
                  && (io.closed || (QueueOf(s, io.id) == [] && !MayGetMore(s, io.id))))
            && (p.chunk == [] ==> io'.closed)
  {
  }

  /** What a read from `io` and `s` gives: it waits only when it must, and otherwise serves what is in front. */
  predicate GetsOn(io: Io, s: Sys, room: nat, io': Io, p: ReadPoll) {
    var queue, front := QueueOf(s, io.id), InFront(io, s);
    && (p.ReadPending? <==>
          io.leftover == [] && !io.closed && if queue == [] then MayGetMore(s, io.id) else queue[0] == [])
    && (p.Served? && room > 0 ==>
          && p.chunk == front[..Min(room, |front|)] && io'.leftover == front[Min(room, |front|)..]
          && (p.chunk == [] ==> io'.closed))
  }

  lemma ReadsGetOn(io: Io, s: Sys, room: nat)
    ensures GetsOn(io, s, room, PollRead(io, s, room).0, PollRead(io, s, room).2)
  {
    ReadsThatWait(io, s, room);
    if room > 0 && PollRead(io, s, room).2.Served? {
      ServedChunks(io, s, room);
    }
    hide PollRead;
  }

  // ---- Reading on ----

  /** How many reads it can take to empty a queue: one for each byte, and one for each payload. */
  function ReadsFor(queue: seq<bytes>): nat {
    if queue == [] then 0 else 1 + |queue[0]| + ReadsFor(queue[1..])
  }

  function ReadsLeft(net: Net): nat {
    |net.io.leftover| + ReadsFor(QueueOf(net.sys, net.io.id))
  }

  /** Reads into buffers of these sizes, one after the other. */
  function Reads(rooms: seq<nat>): seq<Act> {
    if rooms == [] then [] else [Read(rooms[0])] + Reads(rooms[1..])
  }

  /** A read changes nothing about what arrived or may still arrive. */
  ghost predicate SameSource(net: Net, net': Net) {
    && net'.io.id == net.io.id && net'.shut == net.shut
    && net'.sys.inner == net.sys.inner && net'.sys.pump == net.sys.pump
    && Arrived(Own(net'.sys.log, net.io.id)) == Arrived(Own(net.sys.log, net.io.id))
  }

  lemma ClosedIsEmpty(net: Net)
    requires Reading(net) && !net.shut && net.io.closed
    ensures net.io.leftover == [] && QueueOf(net.sys, net.io.id) == []
  {
    assert QueueIn(ViewOf(net.sys, net.io.id)) == QueueOf(net.sys, net.io.id) + InHand(net.sys, net.io.id);
  }

  lemma LeftoverGetsOn(net: Net, room: nat)
    requires net.io.leftover != [] && room > 0
    ensures ReadsLeft(Do(net, Read(room))) < ReadsLeft(net) && SameSource(net, Do(net, Read(room)))
  {
    hide Arrived, Own, ReadsFor;
  }

  lemma ReceiveKeepsSource(s: Sys, id: u32)
    requires QueueOf(s, id) != []
    ensures var s' := StepReceive(s, id);
            && s'.inner == s.inner && s'.pump == s.pump && Arrived(Own(s'.log, id)) == Arrived(Own(s.log, id))
            && QueueOf(s', id) == QueueOf(s, id)[1..]
  {
    ReceivedArrives(s, id);
    hide Arrived, Own;
  }

  lemma QueueGetsOn(net: Net, room: nat)
    requires net.io.leftover == [] && !net.io.closed && QueueOf(net.sys, net.io.id) != [] && room > 0
    ensures ReadsLeft(Do(net, Read(room))) < ReadsLeft(net) && SameSource(net, Do(net, Read(room)))
  {
    hide Arrived, Own, StepReceive, QueueOf;
    ReceiveKeepsSource(net.sys, net.io.id);
    var queue := QueueOf(net.sys, net.io.id);
    assert ReadsFor(queue) == 1 + |queue[0]| + ReadsFor(queue[1..]);
    hide ReadsFor;
  }

  lemma ReadGetsOn(net: Net, room: nat)
    requires Reading(net) && !net.shut && room > 0 && ReadsLeft(net) > 0
    ensures ReadsLeft(Do(net, Read(room))) < ReadsLeft(net) && SameSource(net, Do(net, Read(room)))
  {
    if net.io.closed {
      ClosedIsEmpty(net);
    }
    hide Reading, Do, SameSource, QueueOf;
    if net.io.leftover != [] {
      LeftoverGetsOn(net, room);
    } else {
      QueueGetsOn(net, room);
    }
  }

  lemma ReadWhenDone(net: Net, room: nat)
    requires ReadsLeft(net) == 0
    ensures var net' := Do(net, Read(room)); ReadsLeft(net') == 0 && SameSource(net, net')
  {
    hide Arrived, Own;
  }

  lemma {:induction false} ReadsEmpty(net: Net, rooms: seq<nat>)
    requires Reading(net) && !net.shut && (forall r | r in rooms :: r > 0) && |rooms| >= ReadsLeft(net)
    ensures ActsOk(net, Reads(rooms))
    ensures var net' := DoAll(net, Reads(rooms)); Reading(net') && ReadsLeft(net') == 0 && SameSource(net, net')
    decreases |rooms|
  {
    hide Reading, ReadsLeft, Do, Arrived, Own;
    if rooms != [] {
      assert rooms[0] in rooms && forall r | r in rooms[1..] :: r in rooms;
      if ReadsLeft(net) > 0 {
        ReadGetsOn(net, rooms[0]);
      } else {
        ReadWhenDone(net, rooms[0]);
      }
      ReadKeeps(net, rooms[0]);
      assert Reads(rooms)[0] == Read(rooms[0]) && Reads(rooms)[1..] == Reads(rooms[1..]);
      ReadsEmpty(Do(net, Read(rooms[0])), rooms[1..]);
    }
  }

  lemma NothingQueuedIff(queue: seq<bytes>)
    ensures ReadsFor(queue) == 0 <==> queue == []
  {
  }

  /** With nothing left over or queued, everything that arrived was handed out but for what the pump holds. */
  lemma AllHanded(net: Net)
    requires Reading(net) && ReadsLeft(net) == 0
    ensures net.handed + Concat(InHand(net.sys, net.io.id)) == Concat(Arrived(Own(net.sys.log, net.io.id)))
  {
    NothingQueuedIff(QueueOf(net.sys, net.io.id));
    hide Arrived, Own, Concat;
    var held := InHand(net.sys, net.io.id);
    assert [] + held == held;
    assert QueueIn(ViewOf(net.sys, net.io.id)) == held;
    assert net.handed + [] == net.handed;
  }

  /**
   Reading gets everything: in any history without a local shutdown, as many reads into non-empty buffers as there are
   bytes and payloads waiting hand out all that arrived, but for a payload the pump has not delivered yet.
   */
  lemma ReadsGetEverything(net: Net, rooms: seq<nat>)
    requires Lived(net) && !net.shut && (forall r | r in rooms :: r > 0) && |rooms| >= ReadsLeft(net)
    ensures ActsOk(net, Reads(rooms))
    ensures var net' := DoAll(net, Reads(rooms));
            && Arrived(Own(net'.sys.log, net.io.id)) == Arrived(Own(net.sys.log, net.io.id))
            && net'.handed + Concat(InHand(net.sys, net.io.id)) == Concat(Arrived(Own(net.sys.log, net.io.id)))
  {
    hide Lived, Reading, DoAll, ActsOk, ReadsLeft, Arrived, Own, Writing;
    LivedKeeps(net);
    ReadsEmpty(net, rooms);
    AllHanded(DoAll(net, Reads(rooms)));
  }

  lemma DeadHoldsNothing(s: Sys, id: u32)
    requires id in s.queues
    ensures ViewOf(s, id) == Dead([]) <==> QueueOf(s, id) == [] && !MayGetMore(s, id)
  {
    assert QueueOf(s, id) + [] == QueueOf(s, id);
    assert |QueueOf(s, id) + InHand(s, id)| == |QueueOf(s, id)| + |InHand(s, id)|;
  }

  /**
   In any history without a local shutdown, a read into a non-empty buffer sees the end of the stream exactly when the
   stream's log has closed it, nothing that arrived waits to be taken, and all of it was handed out.
   */
  lemma EofExactly(net: Net, room: nat)
    requires Lived(net) && !net.shut && room > 0
    ensures PollRead(net.io, net.sys, room).2 == Served([]) <==>
            && Replay(Own(net.sys.log, net.io.id)) == Dead([])
            && net.handed == Concat(Arrived(Own(net.sys.log, net.io.id)))
  {
    hide Lived, Writing, Arrived, Own, Replay, Lawful;
    LivedKeeps(net);
    var id := net.io.id;
    assert ViewOf(net.sys, id) == Replay(Own(net.sys.log, id));
    DeadHoldsNothing(net.sys, id);
    hide ViewOf;
    if PollRead(net.io, net.sys, room).2.Served? {
      ServedChunks(net.io, net.sys, room);
    }
    ReadsThatWait(net.io, net.sys, room);
    hide PollRead;
    if Replay(Own(net.sys.log, id)) == Dead([]) {
      assert net.handed + net.io.leftover + [] == net.handed + net.io.leftover;
      assert |net.handed + net.io.leftover| == |net.handed| + |net.io.leftover|;
      assert net.handed + [] == net.handed;
    }
  }

  /** After the reads that get everything, the next one sees the end exactly when no more may come. */
  lemma TheEndIsSeen(net: Net, rooms: seq<nat>, room: nat)
    requires Lived(net) && !net.shut && (forall r | r in rooms :: r > 0) && |rooms| >= ReadsLeft(net) && room > 0
    ensures ActsOk(net, Reads(rooms))
    ensures var net' := DoAll(net, Reads(rooms));
            PollRead(net'.io, net'.sys, room).2 == Served([]) <==> !MayGetMore(net.sys, net.io.id)
  {
    hide Lived, Writing, Arrived, Own, DoAll, ActsOk, QueueOf;
    LivedKeeps(net);
    ReadsEmpty(net, rooms);
    var net' := DoAll(net, Reads(rooms));
    NothingQueuedIff(QueueOf(net'.sys, net.io.id));
    ReadsThatWait(net'.io, net'.sys, room);
    if PollRead(net'.io, net'.sys, room).2.Served? {
      ServedChunks(net'.io, net'.sys, room);
    }
    if net'.io.closed {
      DeadHoldsNothing(net'.sys, net.io.id);
    }
  }

  // ---- Writing on ----

  /** A packet may pass the gate of stream `id`. */
  predicate HasCredit(m: Inner, id: u32) {
    id in m.streams && (m.streams[id].kind.Udp? || m.streams[id].credit > 0)
  }

  /** The send in flight is refused by the transport, or its stream is gone. */
  predicate GoesWrong(s: Sys, t: TaskId, w: Wire)
    requires t in s.tasks && InSend(s.tasks[t])
  {
    var id := s.tasks[t].id;
    || (s.tasks[t].AtGate? && id !in s.inner.streams)
    || (w.Refused? && (s.tasks[t].Sending? || (s.tasks[t].AtGate? && HasCredit(s.inner, id))))
  }

  lemma GateIff(m: Inner, id: u32)
    ensures Gate(m, id).1.Pass? <==> HasCredit(m, id)
    ensures Gate(m, id).1.Unknown? <==> id !in m.streams
  {
  }

  lemma SendGoesWrong(s: Sys, t: TaskId, w: Wire)
    requires t in s.tasks && InSend(s.tasks[t])
    ensures PollSend(s, t, w).1.SendFailed? <==> GoesWrong(s, t, w)
  {
    GateIff(s.inner, s.tasks[t].id);
    hide FrameOf;
  }

  /**
   A flush is done exactly when the send in flight goes out, or, where there is none, nothing is buffered or what is
   buffered passes the gate and the transport takes it. It fails exactly when that send is refused or its stream is gone.
   */
  lemma FlushOutcomes(net: Net, w: Wire, next: TaskId, w2: Wire)
    requires Mine(net.sys, net.io) && HoldsFuture(net.io, net.sys) && next !in net.sys.tasks
    ensures var (p, t) := (PollFlushBuf(net.io, net.sys, w, next, w2).2, net.io.writeFut);
            && (p.SendDone? <==>
                  if t.Some? then GoesOut(net.sys, t.value, w)
                  else net.io.writeBuf == [] || (w2.Accepted? && HasCredit(net.sys.inner, net.io.id)))
            && (p.SendFailed? <==>
                  if t.Some? then GoesWrong(net.sys, t.value, w)
                  else && net.io.writeBuf != []
                       && (net.io.id !in net.sys.inner.streams || (w2.Refused? && HasCredit(net.sys.inner, net.io.id))))
  {
    GateIff(net.sys.inner, net.io.id);
    if net.io.writeFut.Some? {
      SendFinishes(net.sys, net.io.writeFut.value, w);
      SendGoesWrong(net.sys, net.io.writeFut.value, w);
    } else {
      var s1 := StepSend(net.sys, next, net.io.id, net.io.writeBuf);
      NewSendFinishes(net.io, net.sys, next, w2);
      SendGoesWrong(s1, next, w2);
    }
    hide PollSend, Gate, GoesOut;
  }

  /**
   In any history without a failure: on a stream with credit, or UDP, and with a transport that takes what it is given,
   one flush puts every byte ever appended on the wire, unless a send still waits to be woken.
   */
  lemma FlushDelivers(net: Net, next: TaskId)
    requires Lived(net) && net.failures == 0 && next !in net.sys.tasks && HasCredit(net.sys.inner, net.io.id)
    requires net.io.writeFut.Some? ==> !(net.io.writeFut.value in net.sys.tasks && net.sys.tasks[net.io.writeFut.value].Parked?)
    ensures CanAct(net, Flush(Accepted, next, Accepted))
    ensures var net' := Do(net, Flush(Accepted, next, Accepted));
            net'.failures == 0 && OnWire(net'.sys, net.io.id) == net'.appended == net.appended
  {
    hide Lived, Reading, OnWire, Submits, PassCount, Debt, Pipe, PollFlushBuf;
    LivedKeeps(net);
    FlushOutcomes(net, Accepted, next, Accepted);
    GateIff(net.sys.inner, net.io.id);
    LivedFlush(net, Accepted, next, Accepted);
  }
}
