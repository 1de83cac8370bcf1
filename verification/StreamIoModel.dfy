/**
 The byte-stream adapter of `drift-core/src/wisp/stream_io.rs`, one function per poll function. A poll reads and
 changes the adapter and the multiplexer it drives; `w`, `next` and `w2` are what polling the transport answers for
 the send in flight, the name of the future a new send gets, and what polling the transport answers for that one.
 */
module StreamIoModel {
  import opened Bytes
  import opened MuxModel

  const WRITE_FLUSH_THRESHOLD := 16 * 1024

  datatype Io = Io(
    id: u32,
    leftover: bytes,
    readFut: bool,
    writeFut: Option<TaskId>,
    writeBuf: bytes,
    closed: bool
  )

  datatype ReadPoll = ReadPending | Served(chunk: bytes)

  datatype WritePoll = WritePending | Wrote(n: nat) | WriteFailed | BrokenPipe

  function NewIo(id: u32): Io {
    Io(id, [], false, None, [], false)
  }

  /** The send future this adapter holds is one the executor still knows. */
  predicate HoldsFuture(io: Io, s: Sys) {
    io.writeFut.Some? ==> io.writeFut.value in s.tasks && InSend(s.tasks[io.writeFut.value])
  }

  /** `start_send`; it must not be entered with a send in flight. */
  function StartSend(io: Io, s: Sys, next: TaskId, w2: Wire): (r: (Io, Sys, SendPoll))
    requires io.writeFut.None? && next !in s.tasks
    ensures HoldsFuture(r.0, r.1)
    ensures !r.2.SendPending? ==> r.0.writeFut.None? && next !in r.1.tasks
  {
    var s1 := StepSend(s, next, io.id, io.writeBuf);
    var (s2, p) := PollSend(s1, next, w2);
    (io.(writeBuf := [], writeFut := if p.SendPending? then Some(next) else None), s2, p)
  }

  function PollFlushBuf(io: Io, s: Sys, w: Wire, next: TaskId, w2: Wire): (r: (Io, Sys, SendPoll))
    requires HoldsFuture(io, s) && next !in s.tasks
    ensures HoldsFuture(r.0, r.1)
    ensures r.2.SendDone? ==> r.0.writeFut.None? && next !in r.1.tasks
  {
    if io.writeFut.Some? then
      var (s1, p) := PollSend(s, io.writeFut.value, w);
      match p
      case SendPending => (io, s1, SendPending)
      case SendFailed => (io.(writeFut := None), s1, SendFailed)
      case SendDone =>
        var io1 := io.(writeFut := None);
        if io1.writeBuf == [] then (io1, s1, SendDone) else StartSend(io1, s1, next, w2)
    else if io.writeBuf == [] then (io, s, SendDone)
    else StartSend(io, s, next, w2)
  }

  /** The part of `poll_write` after any send in flight has finished. */
  function AppendAndMaybeSend(io: Io, s: Sys, buf: bytes, next: TaskId, w2: Wire): (r: (Io, Sys, WritePoll))
    requires io.writeFut.None? && next !in s.tasks
    ensures HoldsFuture(r.0, r.1)
  {
    var io1 := io.(writeBuf := io.writeBuf + buf);
    if |io1.writeBuf| >= WRITE_FLUSH_THRESHOLD then
      var (io2, s2, p) := StartSend(io1, s, next, w2);
      (io2, s2, match p case SendPending => WritePending case SendFailed => WriteFailed case SendDone => Wrote(|buf|))
    else (io1, s, Wrote(|buf|))
  }

  function PollWrite(io: Io, s: Sys, buf: bytes, w: Wire, next: TaskId, w2: Wire): (r: (Io, Sys, WritePoll))
    requires HoldsFuture(io, s) && next !in s.tasks
    ensures HoldsFuture(r.0, r.1)
  {
    if io.closed then (io, s, BrokenPipe)
    else if io.writeFut.Some? then
      var (io1, s1, p) := PollFlushBuf(io, s, w, next, w2);
      match p
      case SendPending => (io1, s1, WritePending)
      case SendFailed => (io1, s1, WriteFailed)
      case SendDone => AppendAndMaybeSend(io1, s1, buf, next, w2)
    else AppendAndMaybeSend(io, s, buf, next, w2)
  }

  /** No sender of the stream's channel is left. */
  predicate Disconnected(s: Sys, id: u32) {
    id !in s.inner.streams && !(s.pump.Holding? && s.pump.id == id)
  }

  /** `poll_read` with `room` free bytes in the caller's buffer. */
  function PollRead(io: Io, s: Sys, room: nat): (Io, Sys, ReadPoll) {
    if io.leftover != [] then
      var take := Min(|io.leftover|, room);
      (io.(leftover := io.leftover[take..]), s, Served(io.leftover[..take]))
    else if io.closed then (io, s, Served([]))
    else if QueueOf(s, io.id) != [] then
      var payload, s1 := QueueOf(s, io.id)[0], StepReceive(s, io.id);
      var take := Min(|payload|, room);
      if payload == [] then (io.(readFut := false), s1, ReadPending)
      else (io.(readFut := false, leftover := payload[take..]), s1, Served(payload[..take]))
    else if Disconnected(s, io.id) then (io.(readFut := false, closed := true), s, Served([]))
    else (io.(readFut := true), s, ReadPending)
  }
}
