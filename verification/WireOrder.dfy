/** The order of frames on the wire, for callers that only use stream ids whose `open` has returned. */
module WireOrder {
  import opened Bytes
  import opened Frame
  import opened MuxModel
  import opened StreamIds
  import opened Demux
  import opened Credit

  predicate IsFrame(o: Obs, packetType: PacketType, id: u32) {
    o.Sent? && DecodePacket(o.frame).Ok?
    && DecodePacket(o.frame).value.packetType == packetType && DecodePacket(o.frame).value.streamId == id
  }

  /** CONNECT for `id` is on the wire, so its `open` has returned. */
  ghost predicate Connected(log: seq<Obs>, id: u32) {
    exists i | 0 <= i < |log| :: IsFrame(log[i], Connect, id)
  }

  ghost predicate HandshakeDone(log: seq<Obs>) {
    exists i | 0 <= i < |log| :: log[i].Greeted?
  }

  ghost predicate WireEmpty(log: seq<Obs>) {
    forall i | 0 <= i < |log| :: !log[i].Sent?
  }

  /** What may follow `log`. */
  ghost predicate MayFollow(log: seq<Obs>, o: Obs) {
    && (o.Sent? ==>
          DecodePacket(o.frame).Ok? &&
          var p := DecodePacket(o.frame).value;
          match p.packetType
          case Info => WireEmpty(log) && !HandshakeDone(log)
          case Connect => HandshakeDone(log)
          case Data => Connected(log, p.streamId) && o.since < |log| && log[o.since] == Passed(p.streamId)
          case Close => Connected(log, p.streamId) && o.since < |log| && log[o.since] == Removed(p.streamId)
          case Continue => false)
    && (o.Passed? ==> Removed(o.id) !in log)
  }

  ghost predicate InOrder(log: seq<Obs>) {
    forall j | 0 <= j < |log| :: MayFollow(log[..j], log[j])
  }

  /** The caller's side: `send_data` and `close_stream` only on ids that `open` has returned. */
  ghost predicate Disciplined(s: Sys, e: Event) {
    match e
    case Send(_, id, _) => Connected(s.log, id)
    case Shut(_, id, _) => Connected(s.log, id)
    case _ => true
  }

  ghost predicate DisciplinedRun(s: Sys, events: seq<Event>)
    requires IsRun(s, events)
    decreases |events|
  {
    events != [] ==> Disciplined(s, events[0]) && DisciplinedRun(Step(s, events[0]), events[1..])
  }

  // ---- What a disciplined run keeps ----

  ghost predicate Opening(s: Sys) {
    && (s.inner.handshake == Established <==> HandshakeDone(s.log))
    && (s.inner.handshake == Pending ==> s.tasks == map[])
    && (s.intro.AwaitFirst? || s.intro.Introducing? ==> WireEmpty(s.log))
    && (!s.intro.Finished? ==> s.inner.handshake == Pending)
  }

  predicate OnStream(task: Task) {
    !task.Inserting? && !task.Connecting?
  }

  ghost predicate TasksConnected(s: Sys) {
    forall t | t in s.tasks && OnStream(s.tasks[t]) :: Connected(s.log, s.tasks[t].id)
  }

  /** The log entry that lets a task send its frame. */
  predicate Entitled(log: seq<Obs>, task: Task) {
    && (task.Sending? ==> task.since < |log| && log[task.since] == Passed(task.id))
    && (task.Closing? ==> task.since < |log| && log[task.since] == Removed(task.id))
  }

  ghost predicate TasksEntitled(s: Sys) {
    forall t | t in s.tasks :: Entitled(s.log, s.tasks[t])
  }

  ghost predicate RemovedForGood(s: Sys) {
    forall id | Removed(id) in s.log :: id in s.queues && id !in s.inner.streams
  }

  ghost predicate ConnectedExist(s: Sys) {
    && (forall id | Connected(s.log, id) :: id in s.queues)
    && (forall t | t in s.tasks && s.tasks[t].Connecting? :: s.tasks[t].id in s.queues)
  }

  lemma ConnectedStays(log: seq<Obs>, more: seq<Obs>, id: u32)
    requires log <= more && Connected(log, id)
    ensures Connected(more, id)
  {
    var i :| 0 <= i < |log| && IsFrame(log[i], Connect, id);
    assert more[i] == log[i];
  }

  /** The log of a step is the old one, with the written entry after it. */
  lemma StepExtends(s: Sys, e: Event)
    requires Enabled(s, e)
    ensures Step(s, e).log == s.log + if Written(s, e).Some? then [Written(s, e).value] else []
  {
    StepWritesOnce(s, e);
    assert s.log + [] == s.log;
  }

  lemma WrittenMayFollow(s: Sys, e: Event)
    requires Opening(s) && TasksConnected(s) && TasksEntitled(s) && RemovedForGood(s)
    requires Enabled(s, e) && Written(s, e).Some?
    ensures MayFollow(s.log, Written(s, e).value)
  {
    WrittenSent(s, e);
    var o := Written(s, e).value;
    if o.Sent? && e.Transmit? {
      var task := s.tasks[e.t];
      assert o.since == task.since;
    }
  }

  lemma DoneSnoc(log: seq<Obs>, o: Obs)
    ensures HandshakeDone(log + [o]) <==> HandshakeDone(log) || o.Greeted?
    ensures WireEmpty(log + [o]) <==> WireEmpty(log) && !o.Sent?
  {
    var more := log + [o];
    assert more[|log|] == o;
    assert forall i | 0 <= i < |log| :: more[i] == log[i];
  }

  lemma ConnectedSnoc(log: seq<Obs>, o: Obs, id: u32)
    ensures Connected(log + [o], id) <==> Connected(log, id) || IsFrame(o, Connect, id)
  {
    var more := log + [o];
    assert more[|log|] == o;
    assert forall i | 0 <= i < |log| :: more[i] == log[i];
  }

  lemma NoConnectBeforeHandshake(log: seq<Obs>, id: u32)
    requires InOrder(log) && Connected(log, id)
    ensures HandshakeDone(log)
  {
    var i :| 0 <= i < |log| && IsFrame(log[i], Connect, id);
    assert MayFollow(log[..i], log[i]);
    var k :| 0 <= k < i && log[..i][k].Greeted?;
    assert log[k].Greeted?;
  }

  /** What a step with one log entry at most does to the two facts about the log. */
  lemma LogSteps(s: Sys, e: Event)
    requires Enabled(s, e)
    ensures var (log, o) := (Step(s, e).log, Written(s, e));
            && (HandshakeDone(log) <==> HandshakeDone(s.log) || (o.Some? && o.value.Greeted?))
            && (WireEmpty(log) <==> WireEmpty(s.log) && !(o.Some? && o.value.Sent?))
  {
    StepExtends(s, e);
    hide Step, Written, HandshakeDone, WireEmpty;
    if Written(s, e).Some? {
      DoneSnoc(s.log, Written(s, e).value);
    } else {
      assert s.log + [] == s.log;
    }
  }

  lemma HandshakeKeepsOpening(s: Sys, e: Event)
    requires Opening(s) && Enabled(s, e) && InHandshake(e)
    ensures Opening(Step(s, e))
  {
    LogSteps(s, e);
    hide DecodePacket, DecodeContinue, DecodedInfo, InfoBytes, PacketBytes, HandshakeDone, WireEmpty;
  }

  lemma DispatchKeepsOpening(s: Sys, e: Event)
    requires Opening(s) && Enabled(s, e) && InDispatch(e)
    ensures Opening(Step(s, e))
  {
    LogSteps(s, e);
    hide DecodePacket, DecodeContinue, HandshakeDone, WireEmpty;
  }

  lemma TasksKeepOpening(s: Sys, e: Event)
    requires Opening(s) && Enabled(s, e) && (e.Open? || e.Insert? || InSending(e) || InClosing(e))
    requires (e.Send? || e.Shut?) ==> HandshakeDone(s.log)
    ensures Opening(Step(s, e))
  {
    LogSteps(s, e);
    hide FrameOf, HandshakeDone, WireEmpty;
  }

  lemma StepKeepsOpening(s: Sys, e: Event)
    requires Opening(s) && Enabled(s, e)
    requires Disciplined(s, e) && InOrder(s.log)
    ensures Opening(Step(s, e))
  {
    if e.Send? || e.Shut? {
      NoConnectBeforeHandshake(s.log, e.id);
    }
    hide Step, Opening, HandshakeDone;
    if InHandshake(e) {
      HandshakeKeepsOpening(s, e);
    } else if InDispatch(e) {
      DispatchKeepsOpening(s, e);
    } else {
      TasksKeepOpening(s, e);
    }
  }

  /** Where a task on a stream comes from: an earlier one on the same stream, or a disciplined call. */
  lemma TaskOrigin(s: Sys, e: Event, t: TaskId)
    requires Enabled(s, e) && t in Step(s, e).tasks && OnStream(Step(s, e).tasks[t])
    ensures var id := Step(s, e).tasks[t].id;
            || (t in s.tasks && OnStream(s.tasks[t]) && s.tasks[t].id == id)
            || ((e.Send? || e.Shut?) && e.id == id)
  {
  }

  lemma StepKeepsConnected(s: Sys, e: Event)
    requires TasksConnected(s) && Enabled(s, e) && Disciplined(s, e)
    ensures TasksConnected(Step(s, e))
  {
    StepExtends(s, e);
    var s' := Step(s, e);
    forall t | t in s'.tasks && OnStream(s'.tasks[t])
      ensures Connected(s'.log, s'.tasks[t].id)
    {
      TaskOrigin(s, e, t);
      ConnectedStays(s.log, s'.log, s'.tasks[t].id);
    }
  }

  lemma EntitledStays(log: seq<Obs>, more: seq<Obs>, task: Task)
    requires Entitled(log, task) && log <= more
    ensures Entitled(more, task)
  {
  }

  /** A task is as it was, or has just been entitled. */
  lemma TaskIsOld(s: Sys, e: Event, t: TaskId)
    requires Enabled(s, e) && t in Step(s, e).tasks && (e.Open? || e.Insert? || InHandshake(e) || InDispatch(e))
    ensures var task := Step(s, e).tasks[t];
            task.Sending? || task.Closing? ==> t in s.tasks && s.tasks[t] == task
  {
    hide DecodePacket, DecodeContinue, DecodedInfo, PacketBytes, InfoBytes, Allocate;
  }

  lemma TaskIsEntitled(s: Sys, e: Event, t: TaskId)
    requires Enabled(s, e) && t in Step(s, e).tasks && (InSending(e) || InClosing(e))
    ensures var task := Step(s, e).tasks[t];
            task.Sending? || task.Closing? ==> (t in s.tasks && s.tasks[t] == task) || Entitled(Step(s, e).log, task)
  {
    hide FrameOf;
  }

  lemma EntitlementOrigin(s: Sys, e: Event, t: TaskId)
    requires TasksEntitled(s) && Enabled(s, e) && t in Step(s, e).tasks
    ensures Entitled(Step(s, e).log, Step(s, e).tasks[t])
  {
    StepExtends(s, e);
    if e.Open? || e.Insert? || InHandshake(e) || InDispatch(e) {
      TaskIsOld(s, e, t);
    } else {
      TaskIsEntitled(s, e, t);
    }
    hide Step, Written;
    if t in s.tasks && s.tasks[t] == Step(s, e).tasks[t] {
      EntitledStays(s.log, Step(s, e).log, s.tasks[t]);
    }
  }

  lemma StepKeepsEntitled(s: Sys, e: Event)
    requires TasksEntitled(s) && Enabled(s, e)
    ensures TasksEntitled(Step(s, e))
  {
    forall t | t in Step(s, e).tasks
      ensures Entitled(Step(s, e).log, Step(s, e).tasks[t])
    {
      EntitlementOrigin(s, e, t);
    }
  }

  /** Channels stay; a stream that is not live becomes live only by being inserted, which gives it a new channel. */
  lemma OnlyInsertRevives(s: Sys, e: Event)
    requires Sound(s) && Enabled(s, e)
    ensures s.queues.Keys <= Step(s, e).queues.Keys
    ensures forall id | id in Step(s, e).inner.streams && id !in s.inner.streams :: id !in s.queues
  {
    if e.Insert? {
    } else if e.Open? {
    } else {
      OthersLeaveIdsAlone(s, e);
    }
  }

  lemma StepKeepsRemoved(s: Sys, e: Event)
    requires Sound(s) && RemovedForGood(s) && ConnectedExist(s) && Enabled(s, e) && Disciplined(s, e)
    ensures RemovedForGood(Step(s, e))
  {
    StepExtends(s, e);
    OnlyInsertRevives(s, e);
    var s' := Step(s, e);
    forall id | Removed(id) in s'.log
      ensures id in s'.queues && id !in s'.inner.streams
    {
      if Removed(id) !in s.log {
        assert e.Shut? && e.id == id;
      }
    }
  }

  lemma OnlyInsertConnects(s: Sys, e: Event, t: TaskId)
    requires Enabled(s, e) && !e.Insert? && t in Step(s, e).tasks && Step(s, e).tasks[t].Connecting?
    ensures t in s.tasks && s.tasks[t] == Step(s, e).tasks[t]
  {
    hide DecodePacket, DecodeContinue, DecodedInfo, PacketBytes, InfoBytes, Allocate, FrameOf;
  }

  lemma ConnectingHasChannel(s: Sys, e: Event, t: TaskId)
    requires Sound(s) && ConnectedExist(s) && Enabled(s, e)
    requires t in Step(s, e).tasks && Step(s, e).tasks[t].Connecting?
    ensures Step(s, e).tasks[t].id in Step(s, e).queues
  {
    hide Sound;
    OnlyInsertRevives(s, e);
    if !e.Insert? {
      OnlyInsertConnects(s, e, t);
      hide Step;
    }
  }

  lemma StepKeepsExisting(s: Sys, e: Event)
    requires Sound(s) && ConnectedExist(s) && Enabled(s, e)
    ensures ConnectedExist(Step(s, e))
  {
    StepExtends(s, e);
    OnlyInsertRevives(s, e);
    var s', o := Step(s, e), Written(s, e);
    forall id | Connected(s'.log, id)
      ensures id in s'.queues
    {
      if o.Some? {
        ConnectedSnoc(s.log, o.value, id);
        WrittenSent(s, e);
      }
    }
    forall t | t in s'.tasks && s'.tasks[t].Connecting?
      ensures s'.tasks[t].id in s'.queues
    {
      ConnectingHasChannel(s, e, t);
    }
  }

  ghost predicate Orderly(s: Sys) {
    && Sound(s) && Opening(s) && TasksConnected(s) && TasksEntitled(s) && RemovedForGood(s) && ConnectedExist(s)
    && InOrder(s.log)
  }

  lemma InOrderSnoc(log: seq<Obs>, o: Obs)
    requires InOrder(log) && MayFollow(log, o)
    ensures InOrder(log + [o])
  {
    var more := log + [o];
    forall j | 0 <= j < |more|
      ensures MayFollow(more[..j], more[j])
    {
      assert more[..j] == if j < |log| then log[..j] else log;
    }
  }

  lemma StepKeepsOrder(s: Sys, e: Event)
    requires Orderly(s) && Enabled(s, e) && Disciplined(s, e)
    ensures Orderly(Step(s, e))
  {
    StepKeepsSound(s, e);
    StepKeepsOpening(s, e);
    StepKeepsConnected(s, e);
    StepKeepsEntitled(s, e);
    StepKeepsRemoved(s, e);
    StepKeepsExisting(s, e);
    StepExtends(s, e);
    if Written(s, e).Some? {
      WrittenMayFollow(s, e);
      InOrderSnoc(s.log, Written(s, e).value);
    } else {
      assert s.log + [] == s.log;
    }
  }

  lemma {:induction false} RunKeepsOrder(s: Sys, events: seq<Event>)
    requires Orderly(s) && IsRun(s, events) && DisciplinedRun(s, events)
    ensures InOrder(Run(s, events).log)
    decreases |events|
  {
    if events != [] {
      StepKeepsOrder(s, events[0]);
      RunKeepsOrder(Step(s, events[0]), events[1..]);
    }
  }

  /**
   In every disciplined run: INFO is the first frame if it is sent at all, and never after the handshake completed;
   no CONNECT precedes the handshake; DATA and CLOSE follow their stream's CONNECT; each DATA was entitled by a gate
   pass, and no gate is passed after the stream was removed from this side.
   */
  lemma FramesGoOutInOrder(extensions: seq<Extension>, events: seq<Event>)
    requires IsRun(Init(extensions), events) && DisciplinedRun(Init(extensions), events)
    ensures InOrder(Run(Init(extensions), events).log)
  {
    RunKeepsOrder(Init(extensions), events);
  }

  /** A DATA frame that follows its stream's CLOSE on the wire passed its gate before the stream was removed. */
  lemma LateDataPassedEarly(log: seq<Obs>, c: nat, d: nat, id: u32)
    requires InOrder(log) && c < d < |log| && IsFrame(log[c], Close, id) && IsFrame(log[d], Data, id)
    ensures log[c].since < c && log[c].since < |log| && log[log[c].since] == Removed(id)
    ensures log[d].since < log[c].since && log[log[d].since] == Passed(id)
  {
    assert MayFollow(log[..c], log[c]) && MayFollow(log[..d], log[d]);
    var r, p := log[c].since, log[d].since;
    assert log[..c][r] == log[r] && log[..d][p] == log[p];
    assert MayFollow(log[..p], log[p]);
    assert forall i | 0 <= i < p :: log[..p][i] == log[i];
  }
}
