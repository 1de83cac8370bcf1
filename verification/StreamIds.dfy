/** Stream ids: what `open` allocates, and why an insertion never meets an existing entry. */
module StreamIds {
  import opened Bytes
  import opened Frame
  import opened MuxModel

  /** What every step keeps about ids: all known ids, opened or about to be, are below the allocator. */
  ghost predicate Sound(s: Sys) {
    && 0 < s.inner.nextId
    && (forall id | id in s.inner.streams :: id in s.queues)
    && (forall id | id in s.queues :: 0 < id < s.inner.nextId)
    && (s.pump.Holding? ==> s.pump.id in s.queues)
    && (forall t | t in s.tasks && s.tasks[t].Inserting? :: 0 < s.tasks[t].id < s.inner.nextId && s.tasks[t].id !in s.queues)
    && (forall t, u | t in s.tasks && u in s.tasks && s.tasks[t].Inserting? && s.tasks[u].Inserting? && t != u ::
          s.tasks[t].id != s.tasks[u].id)
  }

  /** Only `open` moves the allocator, creates a channel or has an insertion ahead of it. */
  ghost predicate LeavesIdsAlone(s: Sys, s': Sys) {
    && s'.inner.nextId == s.inner.nextId
    && s'.inner.streams.Keys <= s.inner.streams.Keys
    && s'.queues.Keys == s.queues.Keys
    && (s'.pump.Holding? ==> s'.pump == s.pump || s'.pump.id in s.inner.streams)
    && (forall t | t in s'.tasks && s'.tasks[t].Inserting? :: t in s.tasks && s.tasks[t] == s'.tasks[t])
  }

  lemma DispatchLeavesIdsAlone(s: Sys, frame: bytes)
    requires s.pump.Idle?
    ensures LeavesIdsAlone(s, StepDispatch(s, frame))
  {
    assert DispatchLocked(s.inner, frame).0.streams.Keys <= s.inner.streams.Keys;
  }

  lemma SendersLeaveIdsAlone(s: Sys, e: Event)
    requires Enabled(s, e) && (e.Send? || e.TryGate? || e.Park? || e.Shut? || e.Transmit? || e.Cancel?)
    ensures LeavesIdsAlone(s, Step(s, e))
  {
    if e.TryGate? {
      assert Gate(s.inner, s.tasks[e.t].id).0.streams.Keys == s.inner.streams.Keys;
    }
  }

  lemma OthersLeaveIdsAlone(s: Sys, e: Event)
    requires Sound(s) && Enabled(s, e) && !e.Open? && !e.Insert?
    ensures LeavesIdsAlone(s, Step(s, e))
  {
    match e
    case Dispatch(frame) => DispatchLeavesIdsAlone(s, frame);
    case HandshakeFirst(_) =>
    case HandshakeIntroduce(_) =>
    case HandshakeFinish(_) =>
    case Deliver =>
    case Ring =>
    case Receive(_) =>
    case _ => SendersLeaveIdsAlone(s, e);
  }

  lemma OpenKeepsSound(s: Sys, t: TaskId, kind: StreamType, dest: Dest)
    requires Sound(s) && t !in s.tasks
    ensures Sound(StepOpen(s, t, kind, dest))
  {
  }

  lemma InsertKeepsSound(s: Sys, t: TaskId)
    requires Sound(s) && t in s.tasks && s.tasks[t].Inserting?
    ensures Sound(StepInsert(s, t))
  {
  }

  lemma AloneKeepsSound(s: Sys, s': Sys)
    requires Sound(s) && LeavesIdsAlone(s, s')
    ensures Sound(s')
  {
  }

  lemma StepKeepsSound(s: Sys, e: Event)
    requires Sound(s) && Enabled(s, e)
    ensures Sound(Step(s, e))
  {
    match e
    case Open(t, kind, dest) => OpenKeepsSound(s, t, kind, dest);
    case Insert(t) => InsertKeepsSound(s, t);
    case _ =>
      OthersLeaveIdsAlone(s, e);
      AloneKeepsSound(s, Step(s, e));
  }

  lemma {:induction false} RunKeepsSound(s: Sys, events: seq<Event>)
    requires Sound(s) && IsRun(s, events)
    ensures Sound(Run(s, events))
    decreases |events|
  {
    if events != [] {
      StepKeepsSound(s, events[0]);
      RunKeepsSound(Step(s, events[0]), events[1..]);
    }
  }

  lemma ReachableIsSound(s: Sys)
    requires Reachable(s)
    ensures Sound(s)
  {
    var extensions, events :| IsRun(Init(extensions), events) && Run(Init(extensions), events) == s;
    RunKeepsSound(Init(extensions), events);
  }

  /** In every reachable state, the stream about to be inserted has no entry and no channel yet. */
  lemma InsertNeverOverwrites(extensions: seq<Extension>, events: seq<Event>, t: TaskId)
    requires IsRun(Init(extensions), events)
    ensures var s := Run(Init(extensions), events);
            Enabled(s, Insert(t)) ==> s.tasks[t].id !in s.inner.streams && s.tasks[t].id !in s.queues
  {
    RunKeepsSound(Init(extensions), events);
  }

  // ---- Allocation order ----

  /** The ids `open` allocated, in allocation order. */
  function AllocatedIds(log: seq<Obs>): seq<u32> {
    if log == [] then []
    else
      var o := log[|log| - 1];
      AllocatedIds(log[..|log| - 1]) + if o.Allocated? then [o.id] else []
  }

  /** The ids 1, 2, 3 and so on. */
  ghost predicate CountsUp(ids: seq<u32>) {
    forall i | 0 <= i < |ids| :: ids[i] == i + 1
  }

  ghost predicate Ordered(s: Sys) {
    && s.inner.nextId == |AllocatedIds(s.log)| + 1
    && CountsUp(AllocatedIds(s.log))
    && (Exhausted in s.log ==> s.inner.handshake == Established && s.inner.nextId == U32_MAX)
  }

  /** A step writes at most one log entry; only `open` writes about allocation. */
  predicate WritesOnce(s: Sys, s': Sys, opening: bool) {
    && (|| s'.log == s.log
        || (|s'.log| == |s.log| + 1 && s'.log[..|s.log|] == s.log
            && (s'.log[|s.log|].Allocated? || s'.log[|s.log|].Exhausted? ==> opening)))
    && (!opening ==> s'.inner.nextId == s.inner.nextId)
    && (s.inner.handshake == Established ==> s'.inner.handshake == Established)
  }

  lemma OpeningWritesOnce(s: Sys, e: Event)
    requires Enabled(s, e) && (e.Open? || e.Insert? || InHandshake(e))
    ensures WritesOnce(s, Step(s, e), e.Open?)
  {
    hide DecodePacket, DecodeContinue, DecodedInfo, PacketBytes, InfoBytes;
  }

  lemma DispatchWritesOnce(s: Sys, e: Event)
    requires Enabled(s, e) && InDispatch(e)
    ensures WritesOnce(s, Step(s, e), false)
  {
    hide DecodePacket, DecodeContinue, Wake;
  }

  lemma SendingWritesOnce(s: Sys, e: Event)
    requires Enabled(s, e) && (InSending(e) || InClosing(e))
    ensures WritesOnce(s, Step(s, e), false)
  {
    hide FrameOf;
  }

  lemma StepWritesOnce(s: Sys, e: Event)
    requires Enabled(s, e)
    ensures WritesOnce(s, Step(s, e), e.Open?)
  {
    if e.Open? || e.Insert? || InHandshake(e) {
      OpeningWritesOnce(s, e);
    } else if InDispatch(e) {
      DispatchWritesOnce(s, e);
    } else {
      SendingWritesOnce(s, e);
    }
    hide Step;
  }

  lemma AllocatedSnoc(log: seq<Obs>, o: Obs)
    ensures AllocatedIds(log + [o]) == AllocatedIds(log) + if o.Allocated? then [o.id] else []
  {
    assert (log + [o])[..|log|] == log;
  }

  lemma OpenKeepsOrdered(s: Sys, t: TaskId, kind: StreamType, dest: Dest)
    requires Ordered(s) && t !in s.tasks
    ensures Ordered(StepOpen(s, t, kind, dest))
  {
    hide AllocatedIds;
    var (_, a) := Allocate(s.inner);
    if a.Id? {
      AllocatedSnoc(s.log, Allocated(a.id));
    } else {
      AllocatedSnoc(s.log, Exhausted);
    }
  }

  lemma OthersKeepOrdered(s: Sys, s': Sys)
    requires Ordered(s) && WritesOnce(s, s', false)
    ensures Ordered(s')
  {
    hide AllocatedIds, CountsUp;
    if s'.log != s.log {
      var o := s'.log[|s.log|];
      assert s'.log == s.log + [o];
      AllocatedSnoc(s.log, o);
      assert AllocatedIds(s.log) + [] == AllocatedIds(s.log);
    }
  }

  lemma StepKeepsOrdered(s: Sys, e: Event)
    requires Ordered(s) && Enabled(s, e)
    ensures Ordered(Step(s, e))
  {
    if e.Open? {
      OpenKeepsOrdered(s, e.t, e.kind, e.dest);
    } else {
      StepWritesOnce(s, e);
      hide Step, Ordered, WritesOnce;
      OthersKeepOrdered(s, Step(s, e));
    }
  }

  lemma {:induction false} RunKeepsOrdered(s: Sys, events: seq<Event>)
    requires Ordered(s) && IsRun(s, events)
    ensures Ordered(Run(s, events))
    decreases |events|
  {
    if events != [] {
      StepKeepsOrdered(s, events[0]);
      RunKeepsOrdered(Step(s, events[0]), events[1..]);
    }
  }

  /**
   Over every interleaving, the ids allocated are 1, 2, 3 and so on in allocation order, up to 2^32 - 2. An `open` fails
   for lack of ids exactly when all of them are used up, and from then on every `open` fails.
   */
  lemma IdsAreFresh(extensions: seq<Extension>, events: seq<Event>)
    requires IsRun(Init(extensions), events)
    ensures var s := Run(Init(extensions), events);
            && |AllocatedIds(s.log)| <= 0xFFFF_FFFE
            && (forall i | 0 <= i < |AllocatedIds(s.log)| :: AllocatedIds(s.log)[i] == i + 1)
            && (s.inner.handshake == Established ==>
                  (Allocate(s.inner).1.NoIds? <==> |AllocatedIds(s.log)| == 0xFFFF_FFFE))
            && (Exhausted in s.log ==> Allocate(s.inner) == (s.inner, NoIds))
  {
    RunKeepsOrdered(Init(extensions), events);
  }
}
