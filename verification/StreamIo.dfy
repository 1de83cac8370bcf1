/** The `WispStreamIo` object of `drift-core/src/wisp/stream_io.rs`, over the `Mux` object it drives. */
module StreamIo {
  import opened Bytes
  import opened MuxModel
  import opened Multiplexer
  import M = StreamIoModel
  import Runs = StreamIoRuns
  import Progress = StreamIoProgress

  class WispStreamIo {
    const streamId: u32
    const mux: Mux
    var readLeftover: bytes
    var readFut: bool           // a receive is in flight
    var writeFut: Option<TaskId> // the send in flight
    var writeBuf: bytes
    var closed: bool

    // What the caller has done and seen, as `Runs.Net` counts it.
    ghost var appended: bytes
    ghost var handed: bytes
    ghost var flushes: nat
    ghost var failures: nat
    ghost var shut: bool

    function Adapter(): M.Io
      reads this
    {
      M.Io(streamId, readLeftover, readFut, writeFut, writeBuf, closed)
    }

    ghost function Net(): Runs.Net
      reads this, mux
    {
      Runs.Net(mux.State(), Adapter(), appended, handed, flushes, failures, shut)
    }

    /** The multiplexer is in a reachable state, and still drives the send in flight. */
    ghost predicate Linked()
      reads this, mux
    {
      mux.Valid() && M.HoldsFuture(Adapter(), mux.State())
    }

    /**
     The object's history is a run of `Runs`, so what is proved of all runs holds of it. A step of the rest of the
     program keeps it so, by `Runs.ActLives` for `Env`.
     */
    ghost predicate Valid()
      reads this, mux
    {
      Linked() && Runs.Lived(Net())
    }

    constructor (id: u32, mux: Mux)
      requires mux.Valid() && Runs.FreshStream(mux.State(), id)
      ensures this.mux == mux && Valid() && Net() == Runs.Adapted(mux.State(), id)
    {
      streamId, this.mux := id, mux;
      readLeftover, readFut, writeFut, writeBuf, closed := [], false, None, [], false;
      appended, handed, flushes, failures, shut := [], [], 0, 0, false;
      Runs.AdaptedLives(mux.State(), id);
    }

    /** `next` names the new send future; `w2` is what the transport answers when it is polled. */
    method StartSend(next: TaskId, w2: Wire) returns (p: SendPoll)
      requires Linked() && writeFut.None? && next !in mux.tasks
      modifies `writeBuf, `writeFut, mux
      ensures Linked()
      ensures (Adapter(), mux.State(), p) == M.StartSend(old(Adapter()), old(mux.State()), next, w2)
    {
      var data := writeBuf;
      writeBuf := [];
      mux.StartSendData(next, streamId, data);
      writeFut := Some(next);
      p := mux.PollSendData(next, w2);
      match p {
        case SendDone => writeFut := None;
        case SendFailed => writeFut := None;
        case SendPending =>
      }
    }

    method PollFlushBuf(w: Wire, next: TaskId, w2: Wire) returns (p: SendPoll)
      requires Linked() && next !in mux.tasks
      modifies `writeBuf, `writeFut, mux
      ensures Linked()
      ensures (Adapter(), mux.State(), p) == M.PollFlushBuf(old(Adapter()), old(mux.State()), w, next, w2)
    {
      hide Reachable, M.StartSend;
      if writeFut.Some? {
        p := mux.PollSendData(writeFut.value, w);
        match p {
          case SendDone =>
            writeFut := None;
            if writeBuf != [] {
              p := StartSend(next, w2);
            }
          case SendFailed =>
            writeFut := None;
          case SendPending =>
        }
        return;
      }
      if writeBuf == [] {
        return SendDone;
      }
      p := StartSend(next, w2);
    }

    /** `poll_read` on the object's own fields. */
    method ReadOnce(room: nat) returns (p: M.ReadPoll)
      requires Linked()
      modifies `readLeftover, `readFut, `closed, mux
      ensures Linked()
      ensures (Adapter(), mux.State(), p) == M.PollRead(old(Adapter()), old(mux.State()), room)
    {
      if readLeftover != [] {
        var take := Min(|readLeftover|, room);
        p := M.Served(readLeftover[..take]);
        readLeftover := readLeftover[take..];
        return;
      }
      if closed {
        return M.Served([]);
      }
      readFut := true;
      if streamId in mux.queues && mux.queues[streamId] != [] {
        var payload := mux.TakePayload(streamId);
        readFut := false;
        if payload == [] {
          return M.ReadPending;
        }
        var take := Min(|payload|, room);
        assert take == |payload| ==> payload[take..] == [];
        if take < |payload| {
          readLeftover := payload[take..];
        }
        return M.Served(payload[..take]);
      }
      if M.Disconnected(mux.State(), streamId) {
        readFut := false;
        closed := true;
        return M.Served([]);
      }
      return M.ReadPending;
    }

    method PollRead(room: nat) returns (p: M.ReadPoll)
      requires Valid()
      modifies this, mux
      ensures Valid()
      ensures (Adapter(), mux.State(), p) == M.PollRead(old(Adapter()), old(mux.State()), room)
      ensures Net() == Runs.Do(old(Net()), Runs.Read(room))
      ensures Progress.GetsOn(old(Adapter()), old(mux.State()), room, Adapter(), p)
    {
      hide M.PollRead, Runs.Lived, Progress.GetsOn;
      Progress.ReadsGetOn(Adapter(), mux.State(), room);
      Runs.ActLives(Net(), Runs.Read(room));
      p := ReadOnce(room);
      handed := handed + if p.Served? then p.chunk else [];
    }

    /** `poll_write` on the object's own fields. */
    method Accept(buf: bytes, w: Wire, next: TaskId, w2: Wire) returns (p: M.WritePoll)
      requires Linked() && next !in mux.tasks
      modifies `writeBuf, `writeFut, mux
      ensures Linked()
      ensures (Adapter(), mux.State(), p) == M.PollWrite(old(Adapter()), old(mux.State()), buf, w, next, w2)
    {
      hide Reachable, M.PollFlushBuf, M.StartSend;
      if closed {
        return M.BrokenPipe;
      }
      if writeFut.Some? {
        var flushed := PollFlushBuf(w, next, w2);
        match flushed {
          case SendDone =>
          case SendFailed => return M.WriteFailed;
          case SendPending => return M.WritePending;
        }
      }
      writeBuf := writeBuf + buf;
      if |writeBuf| >= M.WRITE_FLUSH_THRESHOLD {
        var sent := StartSend(next, w2);
        match sent {
          case SendDone => return M.Wrote(|buf|);
          case SendFailed => return M.WriteFailed;
          case SendPending => return M.WritePending;
        }
      }
      return M.Wrote(|buf|);
    }

    method PollWrite(buf: bytes, w: Wire, next: TaskId, w2: Wire) returns (p: M.WritePoll)
      requires Valid() && next !in mux.tasks
      modifies this, mux
      ensures Valid()
      ensures (Adapter(), mux.State(), p) == M.PollWrite(old(Adapter()), old(mux.State()), buf, w, next, w2)
      ensures Net() == Runs.Do(old(Net()), Runs.Write(buf, w, next, w2))
    {
      hide M.PollWrite, M.PollFlushBuf, Runs.Lived;
      Runs.ActLives(Net(), Runs.Write(buf, w, next, w2));
      ghost var appends := Runs.Appends(Net(), w, next, w2);
      p := Accept(buf, w, next, w2);
      appended := appended + if appends then buf else [];
      failures := failures + if p.WriteFailed? then 1 else 0;
    }

    /** Once it is Ready(Ok), and no send has failed, every byte ever appended is on the wire. */
    method PollFlush(w: Wire, next: TaskId, w2: Wire) returns (p: SendPoll)
      requires Valid() && next !in mux.tasks
      modifies this, mux
      ensures Valid()
      ensures (Adapter(), mux.State(), p) == M.PollFlushBuf(old(Adapter()), old(mux.State()), w, next, w2)
      ensures Net() == Runs.Do(old(Net()), Runs.Flush(w, next, w2))
      ensures p.SendDone? && failures == 0 ==> Runs.OnWire(mux.State(), streamId) == appended
    {
      hide M.PollFlushBuf, Runs.Lived, Runs.OnWire;
      Runs.ActLives(Net(), Runs.Flush(w, next, w2));
      Runs.LivedFlush(Net(), w, next, w2);
      p := PollFlushBuf(w, next, w2);
      flushes := flushes + 1;
      failures := failures + if p.SendFailed? then 1 else 0;
    }

    /**
     The send buffer is not flushed and no CLOSE goes out: what is in flight or buffered is not on the wire, and by
     `Runs.ClosedNeedsAFlush` only a flush can still bring it there.
     */
    method PollShutdown()
      requires Valid()
      modifies this
      ensures Valid()
      ensures Adapter() == old(Adapter()).(closed := true)
      ensures Net() == Runs.Do(old(Net()), Runs.Shutdown)
      ensures failures == 0 ==> (Runs.OnWire(mux.State(), streamId) == appended <==> writeFut.None? && writeBuf == [])
    {
      hide Runs.Lived, Runs.OnWire;
      Runs.ActLives(Net(), Runs.Shutdown);
      closed := true;
      shut := true;
      if failures == 0 {
        Runs.NothingLeftIff(Net());
      }
    }
  }
}
