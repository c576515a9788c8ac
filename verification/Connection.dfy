/** A pipelined connection: framing, one request in the pool at a time, buffered output (`network/connection.cpp`). */
module Connection {
  import opened Bytes
  import opened Coding

  const HEADER := 11      // magic(2) cmd(1) key_len(4) val_len(4), packed
  const MAGIC := 0x4D4B

  predicate GoodMagic(b: bytes)
    requires |b| >= HEADER
  {
    DecodeLE(b[..2]) == MAGIC
  }

  function FrameSize(b: bytes): (n: nat)
    requires |b| >= HEADER
    ensures n >= HEADER
  {
    HEADER + DecodeLE(b[3..7]) + DecodeLE(b[7..11])
  }

  /** A complete request is at the front of the buffer. */
  predicate Ready(b: bytes) {
    |b| >= HEADER && GoodMagic(b) && |b| >= FrameSize(b)
  }

  /** The front of the buffer is not a request header. */
  predicate Bad(b: bytes) {
    |b| >= HEADER && !GoodMagic(b)
  }

  function Frames(b: bytes): seq<bytes>
    decreases |b|
  {
    if Ready(b) then [b[..FrameSize(b)]] + Frames(b[FrameSize(b)..]) else []
  }

  function Rest(b: bytes): bytes
    decreases |b|
  {
    if Ready(b) then Rest(b[FrameSize(b)..]) else b
  }

  lemma HeaderKept(a: bytes, b: bytes)
    requires |a| >= HEADER
    ensures GoodMagic(a + b) == GoodMagic(a) && FrameSize(a + b) == FrameSize(a)
  {
    assert (a + b)[..2] == a[..2] && (a + b)[3..7] == a[3..7] && (a + b)[7..11] == a[7..11];
  }

  /** Parsing can resume on what was left: the frames of a stream do not depend on how it is chunked. */
  lemma {:induction false} FramesOfStream(a: bytes, b: bytes)
    ensures Frames(a + b) == Frames(a) + Frames(Rest(a) + b)
    ensures Rest(a + b) == Rest(Rest(a) + b)
    decreases |a|
  {
    hide GoodMagic, FrameSize;
    if Ready(a) {
      HeaderKept(a, b);
      var n := FrameSize(a);
      assert (a + b)[..n] == a[..n] && (a + b)[n..] == a[n..] + b;
      FramesOfStream(a[n..], b);
    }
  }

  // ---- Requests and responses ----

  /** A handler over some state of its own, such as the database. */
  type Handler<!S> = (S, bytes) -> (S, bytes)

  function Serve<S>(h: Handler<S>, s: S, frames: seq<bytes>): (S, bytes)
    decreases |frames|
  {
    if |frames| == 0 then (s, [])
    else
      var n := |frames| - 1;
      var (s', out) := Serve(h, s, frames[..n]);
      var (s'', response) := h(s', frames[n]);
      (s'', out + response)
  }

  lemma ServeSnoc<S>(h: Handler<S>, s: S, frames: seq<bytes>, f: bytes)
    ensures var (s', out) := Serve(h, s, frames);
            var (s'', response) := h(s', f);
            Serve(h, s, frames + [f]) == (s'', out + response)
  {
    assert (frames + [f])[..|frames|] == frames;
  }

  datatype Job = Idle | Queued(request: bytes) | Answered(response: bytes)

  class Connection<S(!new)> {
    const handler: Handler<S>
    var readBuf: bytes
    var writeBuf: bytes
    var closed: bool
    var inFlight: bool
    var pool: Job            // the request in the thread pool, then its response on the way to the loop
    var store: S             // the handler's state
    ghost const start: S
    ghost var received: bytes
    ghost var sent: bytes
    ghost var done: seq<bytes>   // requests whose responses have reached the write buffer
    ghost var current: bytes     // the request in flight

    /** Frames taken off the stream so far, in order. */
    ghost function Taken(): seq<bytes>
      reads this
    {
      if inFlight then done + [current] else done
    }

    /** The stream received so far splits into requests taken, in order, and what is still buffered. */
    ghost predicate Core()
      reads this
    {
      && Frames(received) == Taken() + Frames(readBuf)
      && Rest(received) == Rest(readBuf)
      && Answering()
    }

    /** At most one request is in the pool, and an open idle connection holds no complete frame. */
    ghost predicate Valid()
      reads this
    {
      && (inFlight <==> pool != Idle)
      && (!closed ==> Core() && (!inFlight ==> !Ready(readBuf) && !Bad(readBuf)))
    }

    /** What has been sent, plus what waits, are the responses to the finished requests in order. */
    ghost predicate Answering()
      reads this
    {
      && sent + writeBuf == Serve(handler, start, done).1
      && match pool
         case Idle => store == Serve(handler, start, done).0
         case Queued(r) => r == current && store == Serve(handler, start, done).0
         case Answered(r) => (store, r) == handler(Serve(handler, start, done).0, current)
    }

    constructor (handler: Handler<S>, start: S)
      ensures Valid() && received == [] && sent == [] && !closed && !inFlight
      ensures this.start == start && this.handler == handler
    {
      this.handler, this.start := handler, start;
      readBuf, writeBuf, closed, inFlight, pool, store := [], [], false, false, Idle, start;
      received, sent, done, current := [], [], [], [];
    }

    /** Bytes arrive; more frames can only appear at the end. */
    method Receive(data: bytes)
      requires !closed ==> Core()
      modifies `readBuf, `received
      ensures readBuf == old(readBuf) + data && received == old(received) + data
      ensures !closed ==> Core()
    {
      hide Frames, Rest, Serve;
      FramesOfStream(received, data);
      FramesOfStream(readBuf, data);
      received := received + data;
      readBuf := readBuf + data;
    }

    /** `onReadable` with a pool: append and try to dispatch. */
    method OnReadable(data: bytes)
      requires Valid()
      modifies this
      ensures Valid() && received == old(received) + data && sent + writeBuf == old(sent + writeBuf)
      ensures closed ==> old(closed) || Bad(Rest(received))
    {
      hide Frames, Rest, Serve, Ready, Bad;
      Receive(data);
      TryDispatch();
    }

    /** `tryDispatch`: hands one complete request to the pool unless one is in flight. */
    method TryDispatch()
      requires (inFlight <==> pool != Idle) && (!closed ==> Core())
      modifies this
      ensures Valid() && received == old(received) && sent == old(sent)
      ensures writeBuf == old(writeBuf) && done == old(done)
      ensures closed ==> old(closed) || Bad(Rest(received))
    {
      hide Serve, FrameSize, GoodMagic;
      if closed || inFlight { return; }
      if |readBuf| < HEADER { return; }
      if !GoodMagic(readBuf) {
        closed := true;
        return;
      }
      var totalSize := FrameSize(readBuf);
      if |readBuf| < totalSize { return; }
      assert done + Frames(readBuf) == (done + [readBuf[..totalSize]]) + Frames(readBuf[totalSize..]);
      var rawData := readBuf[..totalSize];
      readBuf := readBuf[totalSize..];
      inFlight := true;
      pool, current := Queued(rawData), rawData;
    }

    /** The pool thread runs the handler, unless the connection was closed meanwhile. */
    method RunInPool()
      requires Valid() && pool.Queued?
      modifies `pool, `store
      ensures Valid() && pool.Answered?
      ensures if closed then store == old(store) && pool.response == []
              else (store, pool.response) == handler(old(store), old(pool).request)
    {
      hide Frames, Rest, Serve, Ready, Bad;
      if closed {
        pool := Answered([]);
      } else {
        var (s, response) := handler(store, pool.request);
        store, pool := s, Answered(response);
      }
    }

    /** The completion callback on the loop thread; `writes` are the results of its `write` calls. */
    method Complete(writes: seq<int>)
      requires Valid() && pool.Answered?
      modifies this
      ensures Valid() && received == old(received)
      ensures !old(closed) ==> sent + writeBuf == old(sent + writeBuf) + old(pool.response)
      ensures !old(closed) ==> done == old(done + [current])
      ensures closed ==> old(closed) || Bad(Rest(received))
    {
      hide Frames, Rest, Serve, Ready, Bad;
      if !closed {
        ServeSnoc(handler, start, done, current);
        assert sent + (writeBuf + pool.response) == (sent + writeBuf) + pool.response;
        writeBuf := writeBuf + pool.response;
        done := done + [current];
        inFlight, pool := false, Idle;
        OnWritable(writes);
        TryDispatch();
      } else {
        inFlight, pool := false, Idle;
      }
    }

    /** `onWritable`: each write sends a prefix of the buffer until one fails. */
    method OnWritable(writes: seq<int>)
      modifies `writeBuf, `sent
      ensures sent + writeBuf == old(sent + writeBuf)
    {
      var i := 0;
      while writeBuf != [] && i < |writes|
        invariant sent + writeBuf == old(sent + writeBuf)
        decreases |writes| - i
      {
        var n := if writes[i] <= |writeBuf| then writes[i] else |writeBuf|;
        i := i + 1;
        if n <= 0 { break; }
        assert writeBuf == writeBuf[..n] + writeBuf[n..];
        assert (sent + writeBuf[..n]) + writeBuf[n..] == sent + writeBuf;
        sent := sent + writeBuf[..n];
        writeBuf := writeBuf[n..];
      }
    }

    method MarkClosed()
      requires Valid()
      modifies `closed
      ensures Valid() && closed
    {
      closed := true;
    }

    /** `onReadable` without a pool: answers every complete request at once. */
    method OnReadableSync(data: bytes, writes: seq<int>)
      requires Valid() && !inFlight && !closed
      modifies this
      ensures Valid() && !inFlight && received == old(received) + data
      ensures closed ==> Bad(Rest(received))
    {
      hide Frames, Rest, Serve, GoodMagic, FrameSize, Bad, Core;
      Receive(data);
      while |readBuf| >= HEADER
        invariant Core() && !inFlight && !closed && pool == Idle && received == old(received) + data
        decreases |readBuf|
      {
        if !GoodMagic(readBuf) {
          BadRest(readBuf);
          RestAgrees();
          closed := true;
          return;
        }
        if |readBuf| < FrameSize(readBuf) { break; }
        AnswerNow();
      }
      Incomplete(readBuf);
      if writeBuf != [] { FlushKeepsCore(writes); }
    }

    /** One round of the synchronous loop. */
    method AnswerNow()
      requires Core() && !inFlight && pool == Idle && Ready(readBuf)
      modifies `readBuf, `writeBuf, `store, `done
      ensures Core() && |readBuf| < |old(readBuf)|
    {
      hide Serve, FrameSize, GoodMagic;
      var totalSize := FrameSize(readBuf);
      assert done + Frames(readBuf) == (done + [readBuf[..totalSize]]) + Frames(readBuf[totalSize..]);
      var rawData := readBuf[..totalSize];
      ServeSnoc(handler, start, done, rawData);
      readBuf := readBuf[totalSize..];
      var (s, response) := handler(store, rawData);
      assert sent + (writeBuf + response) == (sent + writeBuf) + response;
      store, writeBuf := s, writeBuf + response;
      done := done + [rawData];
    }

    lemma RestAgrees()
      requires Core()
      ensures Rest(received) == Rest(readBuf)
    {
    }

    method FlushKeepsCore(writes: seq<int>)
      requires Core()
      modifies `writeBuf, `sent
      ensures Core()
    {
      hide Frames, Rest, Serve;
      OnWritable(writes);
    }
  }

  lemma BadRest(b: bytes)
    requires |b| >= HEADER && !GoodMagic(b)
    ensures Bad(b) && Rest(b) == b
  {
    hide GoodMagic;
  }

  lemma Incomplete(b: bytes)
    requires |b| < HEADER || (GoodMagic(b) && |b| < FrameSize(b))
    ensures !Ready(b) && !Bad(b)
  {
    hide GoodMagic, FrameSize;
  }

  /**
   Any two connections that are open, idle and have received the same stream, however it was chunked, whenever
   the pool finished and whether a pool was used at all, have produced the same output: the responses to the
   requests of the stream, in order.
   */
  lemma SameOutput<S(!new)>(a: Connection<S>, b: Connection<S>)
    requires a.Valid() && b.Valid() && !a.closed && !b.closed && !a.inFlight && !b.inFlight
    requires a.handler == b.handler && a.start == b.start && a.received == b.received
    ensures a.sent + a.writeBuf == Serve(a.handler, a.start, Frames(a.received)).1
    ensures a.sent + a.writeBuf == b.sent + b.writeBuf && a.store == b.store
  {
    hide Serve, Ready;
    NoFrames(a.readBuf);
    NoFrames(b.readBuf);
    assert a.done + [] == a.done && b.done + [] == b.done;
  }

  lemma NoFrames(b: bytes)
    requires !Ready(b)
    ensures Frames(b) == []
  {
  }
}
