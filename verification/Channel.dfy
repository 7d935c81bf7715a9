/** One TCP channel, with every handler running to completion: the receive
    accumulator and the send queue. */
module Channel {
  import opened Bytes
  import opened Wrappers
  import opened FrameCodec
  import opened FrameStream
  import opened SendQueue

  function Drops(events: seq<Event>): nat {
    if events == [] then 0 else (if events[0].Dropped? then 1 else 0) + Drops(events[1..])
  }

  lemma {:induction false} DropsSnoc(events: seq<Event>, e: Event)
    ensures Drops(events + [e]) == Drops(events) + if e.Dropped? then 1 else 0
  {
    if events != [] {
      DropsSnoc(events[1..], e);
      assert (events + [e])[1..] == events[1..] + [e];
    }
  }

  class AsioChannel {
    // receive side
    var frameAcc: bytes
    var frameAccOffset: nat
    var drops: nat
    ghost var log: seq<Event>      // frames handed to the frame callback, and drops
    ghost var chunks: seq<bytes>   // the reads so far
    ghost var shifted: nat         // bytes moved by compaction so far

    // send side
    var writeQueue: seq<bytes>
    var currentQueueBytes: nat
    var closed: bool
    var writing: bool
    var enqMsgs: nat
    var deqMsgs: nat
    var bytesSent: nat
    var peakQueued: nat
    var forceCloses: nat
    var flight: Option<Flight>
    ghost var accepted: seq<bytes> // messages taken from callers, in order
    ghost var wire: bytes          // bytes handed to the peer
    ghost var lost: Option<Flight> // the write that failed, if one did

    /** A channel that has been started: nothing read, nothing queued, nobody writing. */
    constructor ()
      ensures ReceiveValid() && SendInv(Sending()) && !closed
      ensures chunks == [] && accepted == [] && drops == 0 && forceCloses == 0
    {
      frameAcc, frameAccOffset, drops, log, chunks, shifted := [], 0, 0, [], [], 0;
      writeQueue, currentQueueBytes, closed, writing := [], 0, false, false;
      enqMsgs, deqMsgs, bytesSent, peakQueued, forceCloses := 0, 0, 0, 0, 0;
      flight, accepted, wire, lost := None, [], [], None;
    }

    // ---- receive ------------------------------------------------------------------

    ghost function Tail(): bytes
      requires frameAccOffset <= |frameAcc|
      reads this
    {
      frameAcc[frameAccOffset..]
    }

    ghost predicate ReceiveValid()
      reads this
    {
      && frameAccOffset <= |frameAcc| / 2
      && Received(log, Tail()) == Run(chunks)
      && |Tail()| <= MAX_FRAME_BYTES + 3
      && shifted + |frameAcc| <= |Flatten(chunks)|
    }

    /** The parse loop is one Drain of the unread bytes, followed by compaction. */
    method ParseFrames()
      requires frameAccOffset <= |frameAcc|
      modifies this`frameAcc, this`frameAccOffset, this`drops, this`log, this`shifted
      ensures frameAccOffset <= |frameAcc| / 2
      ensures Tail() == Drain(old(Tail())).tail
      ensures log == old(log) + Drain(old(Tail())).events
      ensures drops == old(drops) + Drops(Drain(old(Tail())).events)
      ensures shifted + |frameAcc| <= old(shifted) + |old(frameAcc)|
    {
      hide Head, Drain;
      ghost var start := Tail();
      ghost var seen: seq<Event> := [];
      while true
        invariant frameAccOffset <= |frameAcc| && frameAcc == old(frameAcc) && shifted == old(shifted)
        invariant log == old(log) + seen && drops == old(drops) + Drops(seen)
        invariant Drain(start) == Received(seen + Drain(Tail()).events, Drain(Tail()).tail)
        decreases |frameAcc| - frameAccOffset
      {
        DrainStep(Tail());
        ghost var before := Tail();
        var ok, next, hdr, payload, crcOk := TryParseOne(frameAcc, frameAccOffset);
        if !ok {
          frameAccOffset := next;
          assert Tail() == Drain(before).tail && seen + [] == seen;
          break;
        }
        ghost var e := EventOf(Head(before));
        assert before[next - frameAccOffset..] == frameAcc[next..];
        frameAccOffset := next;
        DropsSnoc(seen, e);
        SeqAssociates(seen, [e], Drain(Tail()).events);
        SeqAssociates(old(log), seen, [e]);
        seen := seen + [e];
        log := log + [e];
        if !crcOk {
          drops := drops + 1;
          continue;
        }
      }
      if frameAccOffset > |frameAcc| / 2 {
        shifted := shifted + (|frameAcc| - frameAccOffset);
        frameAcc := frameAcc[frameAccOffset..];
        frameAccOffset := 0;
      }
    }

    /** A read of any size keeps the accumulator equal to the stream parser over all reads. */
    method OnRead(chunk: bytes)
      requires ReceiveValid()
      modifies this`frameAcc, this`frameAccOffset, this`drops, this`log, this`shifted, this`chunks
      ensures ReceiveValid() && chunks == old(chunks) + [chunk]
      ensures |frameAcc| <= 2 * (0x10_0000 + 3)
      ensures old(log) <= log && drops == old(drops) + Drops(log[|old(log)|..])
    {
      hide Drain, RunFrom;
      RunSnoc([], chunks, chunk);
      FlattenSnoc(chunks, chunk);
      RestIsShort(Tail() + chunk);
      ghost var unread := Tail() + chunk;
      frameAcc := frameAcc + chunk;
      assert Tail() == unread;
      chunks := chunks + [chunk];
      ParseFrames();
      assert log[|old(log)|..] == Drain(unread).events;
    }

    // ---- send ---------------------------------------------------------------------

    ghost function Sending(): Sender
      reads this
    {
      Sender(writeQueue, currentQueueBytes, writing, enqMsgs, deqMsgs, flight, lost, accepted, wire)
    }

    method EnqueueSend(buffer: bytes) returns (ok: bool)
      modifies this`writeQueue, this`currentQueueBytes, this`enqMsgs, this`peakQueued, this`drops, this`accepted
      ensures ok <==> buffer == [] || old(currentQueueBytes) + |buffer| <= 262144
      ensures Sending() == if ok && buffer != [] then Push(old(Sending()), buffer) else old(Sending())
      ensures drops == old(drops) + (if ok then 0 else 1)
      ensures peakQueued == if ok && buffer != [] && currentQueueBytes > old(peakQueued)
                            then currentQueueBytes else old(peakQueued)
    {
      var sz := |buffer|;
      if sz == 0 {
        return true;
      }
      var cur := currentQueueBytes;
      if cur + sz > MAX_QUEUE_BYTES {
        drops := drops + 1;
        return false;
      }
      writeQueue := writeQueue + [buffer];
      currentQueueBytes := cur + sz;
      enqMsgs := enqMsgs + 1;
      accepted := accepted + [buffer];
      var newTotal := cur + sz;
      if newTotal > peakQueued {
        peakQueued := newTotal;
      }
      return true;
    }

    /** Moves the maximal batch from the queue into one buffer. */
    method MakeBatch() returns (ok: bool, out: bytes, msgs: nat)
      modifies this`writeQueue
      ensures MaximalBatch(old(writeQueue), msgs) && (ok <==> msgs > 0)
      ensures out == Flatten(old(writeQueue)[..msgs]) && writeQueue == old(writeQueue)[msgs..]
    {
      hide Size, Flatten, MaximalBatch;
      out, msgs := [], 0;
      ghost var queue := writeQueue;
      BatchIsMaximal(queue, BatchLen(queue));
      FlattenNothing<byte>();
      if writeQueue == [] {
        return false, out, msgs;
      }
      var acc := 0;
      while writeQueue != [] && msgs < MAX_BATCH_MSGS
        invariant msgs <= |queue| && writeQueue == queue[msgs..]
        invariant out == Flatten(queue[..msgs]) && acc == |out|
        invariant BatchLen(queue) == msgs + Take(writeQueue, acc, msgs)
        decreases |writeQueue|
      {
        var front := writeQueue[0];
        if acc + |front| > MAX_BATCH_BYTES {
          break;
        }
        assert queue[..msgs + 1] == queue[..msgs] + [front];
        FlattenSnoc(queue[..msgs], front);
        out := out + front;
        acc := acc + |front|;
        writeQueue := writeQueue[1..];
        msgs := msgs + 1;
      }
      ok := msgs > 0;
    }

    /** With the writer flag held: start the next write, or give the flag back. */
    method DoWrite()
      requires writing
      modifies this`writeQueue, this`flight, this`writing
      ensures Sending() == Start(old(Sending()))
    {
      var ok, buffer, msgs := MakeBatch();
      BatchIsMaximal(old(writeQueue), msgs);
      if !ok {
        writing := false;
        assert writeQueue == old(writeQueue);
        return;
      }
      flight := Some(Flight(buffer, msgs));
    }

    method Close(force: bool) returns (first: bool)
      modifies this`closed, this`forceCloses
      ensures closed && first == !old(closed)
      ensures forceCloses == old(forceCloses) + if first && force then 1 else 0
    {
      first := !closed;
      closed := true;
      if first && force {
        forceCloses := forceCloses + 1;
      }
    }

    /** A message is taken exactly when the channel is open, the message is not empty
        and the queue stays within its limit; over the limit the channel is closed, and
        the forced close is counted twice, here and in Close. */
    method Send(data: bytes)
      requires SendInv(Sending())
      modifies this`writeQueue, this`currentQueueBytes, this`enqMsgs, this`peakQueued, this`drops,
               this`flight, this`writing, this`closed, this`forceCloses, this`accepted
      ensures SendInv(Sending())
      ensures var over := old(currentQueueBytes) + |data| > 262144;
              var tried := !old(closed) && data != [];
              && Sending() == (if tried && !over then Accept(old(Sending()), data) else old(Sending()))
              && closed == (old(closed) || (tried && over))
              && drops == old(drops) + (if tried && over then 1 else 0)
              && forceCloses == old(forceCloses) + (if tried && over then 2 else 0)
    {
      hide SendInv;
      if closed || |data| <= 0 {
        return;
      }
      var ok := EnqueueSend(data);
      if !ok {
        forceCloses := forceCloses + 1;
        var _ := Close(true);
        return;
      }
      if !writing {
        writing := true;
        DoWrite();
      }
      AcceptKeeps(old(Sending()), data);
    }

    /** The whole batch reached the peer; the next batch starts at once if there is one. */
    method OnWritten()
      requires SendInv(Sending()) && flight.Some?
      modifies this`writeQueue, this`flight, this`writing, this`currentQueueBytes,
               this`deqMsgs, this`bytesSent, this`wire
      ensures SendInv(Sending()) && Sending() == Written(old(Sending()))
      ensures bytesSent == old(bytesSent) + |old(FlightBytes(flight))|
    {
      hide Flatten, Size, BatchLen, Ordered, WithinLimit, Start;
      ghost var done := Finish(Sending());
      StartOfEmpty(done);
      var n := |flight.value.batch|;
      wire := wire + flight.value.batch;
      currentQueueBytes := currentQueueBytes - n;
      deqMsgs := deqMsgs + flight.value.msgs;
      bytesSent := bytesSent + n;
      flight := None;
      writing := false;
      assert Sending() == done;
      if writeQueue != [] {
        writing := true;
        DoWrite();
      }
      StartIgnoresFlag(done);
      WrittenKeeps(old(Sending()));
    }

    /** A failed write puts some prefix of the batch on the wire and closes the channel. */
    method OnWriteError(sent: nat)
      requires SendInv(Sending()) && flight.Some? && sent <= |FlightBytes(flight)|
      modifies this`flight, this`lost, this`closed, this`forceCloses, this`wire
      ensures SendInv(Sending()) && Sending() == Broken(old(Sending()), sent) && closed
      ensures forceCloses == old(forceCloses)
    {
      BrokenKeeps(Sending(), sent);
      hide SendInv;
      wire := wire + flight.value.batch[..sent];
      lost := flight;
      flight := None;
      var _ := Close(false);
    }

    /** Completions that all succeed empty the queue up to the first oversized message,
        and leave the writer flag free. */
    method WriteUntilIdle()
      requires SendInv(Sending()) && lost.None?
      modifies this`writeQueue, this`flight, this`writing, this`currentQueueBytes,
               this`deqMsgs, this`bytesSent, this`wire
      ensures SendInv(Sending()) && !writing && writeQueue == old(Drained(writeQueue))
      ensures (forall m | m in old(writeQueue) :: |m| <= 65536) ==> wire == Flatten(accepted)
    {
      hide Flatten, Size, BatchLen;
      while writing
        invariant SendInv(Sending()) && lost.None?
        invariant Drained(writeQueue) == old(Drained(writeQueue))
        decreases |writeQueue|, writing
      {
        WrittenKeeps(Sending());
        OnWritten();
      }
      DrainsCompletely(old(writeQueue));
      FlattenNothing<byte>();
      assert wire + [] + [] == wire;
    }
  }
}
