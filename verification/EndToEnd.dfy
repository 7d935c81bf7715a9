/** From the callers of send on one side to the frame callback on the other. */
module EndToEnd {
  import opened Bytes
  import opened FrameCodec
  import opened FrameStream
  import opened SendQueue
  import P = SendProtocol
  import SendProgress
  import SendSchedules

  /** The messages handed to send are packed frames. */
  ghost predicate Packed(accepted: seq<bytes>, ms: seq<Message>) {
    |accepted| == |ms| && forall i | 0 <= i < |ms| :: accepted[i] == Frame(ms[i])
  }

  lemma {:induction false} PackedStream(accepted: seq<bytes>, ms: seq<Message>)
    requires Packed(accepted, ms)
    ensures Flatten(accepted) == Stream(ms)
    decreases |ms|
  {
    hide Frame;
    if ms != [] {
      PackedStream(accepted[1..], ms[1..]);
    }
  }

  /** The queue limit of 256 KiB already keeps every frame within the 1 MiB frame limit. */
  lemma QueueLimitFits(m: Message)
    requires |Frame(m)| <= MAX_QUEUE_BYTES
    ensures Fits(m)
  {
  }

  lemma QueuedFit(accepted: seq<bytes>, ms: seq<Message>)
    requires Packed(accepted, ms) && forall b | b in accepted :: |b| <= MAX_QUEUE_BYTES
    ensures AllFit(ms)
  {
    hide Frame, Fits;
    forall m | m in ms
      ensures Fits(m)
    {
      var i :| 0 <= i < |ms| && ms[i] == m;
      assert accepted[i] in accepted;
      QueueLimitFits(m);
    }
  }

  /** Nothing accepted is still queued or on its way. */
  ghost predicate AllWritten(s: P.State) {
    !P.Broke(s) && s.sh.queue == [] && P.Unsent(P.Own(s), s.flights) == []
  }

  /** For every run of the senders, every batching and every way the receiver's reads cut
      what has left the socket, the frames delivered are the first k accepted, in order;
      all of them once everything was written and read. */
  lemma Delivery(events: seq<P.Event>, ms: seq<Message>, chunks: seq<bytes>) returns (k: nat)
    requires P.Runs(P.INITIAL, events)
    requires var s := P.After(P.INITIAL, events);
             Packed(s.h.accepted, ms) && Flatten(chunks) <= s.wire
    ensures k <= |ms| && Run(chunks).events == Deliveries(ms[..k])
    ensures |Run(chunks).events| == k
    ensures forall i | 0 <= i < k :: Run(chunks).events[i] == Delivered(ms[i].cmd, ms[i].payload)
    ensures var s := P.After(P.INITIAL, events);
            AllWritten(s) && Flatten(chunks) == s.wire ==> Run(chunks) == Received(Deliveries(ms), [])
  {
    P.EveryRun(events);
    var s := P.After(P.INITIAL, events);
    hide P.Runs, P.After, P.CountersAgree, P.SentWhenQuiet, ScanAll, Run, Frame, Deliveries, Flatten;
    assert P.Safe(s);
    k := DeliveryOf(s, ms, chunks);
    WhatIsDelivered(ms, k);
  }

  /** A delivery is a command and a payload. */
  lemma WhatIsDelivered(ms: seq<Message>, k: nat)
    requires k <= |ms|
    ensures |Deliveries(ms[..k])| == k
    ensures forall i | 0 <= i < k :: Deliveries(ms[..k])[i] == Delivered(ms[i].cmd, ms[i].payload)
  {
  }

  lemma DeliveryOf(s: P.State, ms: seq<Message>, chunks: seq<bytes>) returns (k: nat)
    requires P.Safe(s) && Packed(s.h.accepted, ms) && Flatten(chunks) <= s.wire
    ensures k <= |ms| && Run(chunks).events == Deliveries(ms[..k])
    ensures AllWritten(s) && Flatten(chunks) == s.wire ==> Run(chunks) == Received(Deliveries(ms), [])
  {
    hide ScanAll, Run, Frame, Deliveries, Stream;
    PackedStream(s.h.accepted, ms);
    QueuedFit(s.h.accepted, ms);
    var all := Flatten(chunks);
    assert all == Stream(ms)[..|all|];
    k := ScanPrefix(ms, |all|);
    NotDesynced(all);
    ChunkIndependence(all);
    assert Run(chunks) == Drain(all);
    if AllWritten(s) && all == s.wire {
      assert s.wire + [] + [] == s.wire;
      assert ms[..|ms|] == ms;
    }
  }

  // ---- once everything has come to rest ------------------------------------------------

  /** When all is quiet, what is on the wire is the messages that have left the queue. */
  lemma QuietWire(s: P.State)
    requires P.Inv(s) && P.Quiet(s) && !P.Broke(s)
    ensures |s.sh.queue| <= |s.h.accepted|
    ensures s.wire == Flatten(s.h.accepted[..|s.h.accepted| - |s.sh.queue|])
  {
    assert P.Own(s) == P.Idle;
    assert Remaining(s.h.accepted, s.sh.queue);
    var j := |s.h.accepted| - |s.sh.queue|;
    var (gone, queue) := (Flatten(s.h.accepted[..j]), Flatten(s.sh.queue));
    FlattenAppend(s.h.accepted[..j], s.sh.queue);
    assert s.h.accepted == s.h.accepted[..j] + s.sh.queue;
    hide Flatten, P.CountInv, P.MsgInv, P.LockInv, P.OwnerInv, P.KickInv, Remaining;
    assert s.wire + [] + queue == gone + queue;
    assert s.wire == (s.wire + queue)[..|s.wire|] && gone == (gone + queue)[..|gone|];
  }

  lemma PackedPrefix(accepted: seq<bytes>, ms: seq<Message>, j: nat)
    requires Packed(accepted, ms) && j <= |ms|
    ensures Packed(accepted[..j], ms[..j])
  {
    hide Frame;
  }

  /** All frames have been delivered and nothing else is buffered. */
  ghost predicate HasAll(ms: seq<Message>, chunks: seq<bytes>) {
    Run(chunks) == Received(Deliveries(ms), [])
  }

  /** A receiver that has read exactly some whole frames has delivered them. */
  lemma WholeFrames(accepted: seq<bytes>, ms: seq<Message>, chunks: seq<bytes>)
    requires forall b | b in accepted :: |b| <= MAX_QUEUE_BYTES
    ensures Packed(accepted, ms) && Flatten(chunks) == Flatten(accepted) ==> HasAll(ms, chunks)
  {
    hide ScanAll, Run, Frame, Deliveries, Stream, Flatten;
    if !Packed(accepted, ms) || Flatten(chunks) != Flatten(accepted) {
      return;
    }
    QueuedFit(accepted, ms);
    PackedStream(accepted, ms);
    ScanFramesOnly(ms);
    NotDesynced(Stream(ms));
    ChunkIndependence(Stream(ms));
  }

  lemma FewerFrames(ms: seq<Message>, j: nat, chunks: seq<bytes>)
    requires j <= |ms| && HasAll(ms[..j], chunks)
    ensures HasAll(ms, chunks) <==> j == |ms|
  {
    hide Run;
    assert |Deliveries(ms)| == |ms| && |Deliveries(ms[..j])| == j;
    assert j == |ms| ==> ms[..j] == ms;
  }

  lemma AcceptedIsBounded(s: P.State)
    requires P.Inv(s)
    ensures forall b | b in s.h.accepted :: |b| <= MAX_QUEUE_BYTES
  {
  }

  /** In every run that has come to rest without a failed write, a receiver that has read all
      there is has exactly the frames that left the queue. */
  lemma QuietDelivery(events: seq<P.Event>, ms: seq<Message>, chunks: seq<bytes>)
    requires P.Runs(P.INITIAL, events)
    ensures var s := P.After(P.INITIAL, events);
            P.Quiet(s) && !P.Broke(s) && Packed(s.h.accepted, ms) && Flatten(chunks) == s.wire ==>
              && |s.sh.queue| <= |ms| && HasAll(ms[..|ms| - |s.sh.queue|], chunks)
              && (HasAll(ms, chunks) <==> s.sh.queue == [])
  {
    hide P.Inv, P.Quiet, P.Runs, P.After, HasAll, Frame, Flatten;
    P.InitialInv();
    P.RunKeeps(P.INITIAL, events);
    var s := P.After(P.INITIAL, events);
    if P.Quiet(s) && !P.Broke(s) && Packed(s.h.accepted, ms) && Flatten(chunks) == s.wire {
      QuietWire(s);
      AcceptedIsBounded(s);
      var j := |ms| - |s.sh.queue|;
      PackedPrefix(s.h.accepted, ms, j);
      assert forall b | b in s.h.accepted[..j] :: b in s.h.accepted;
      hide Packed;
      WholeFrames(s.h.accepted[..j], ms[..j], chunks);
      FewerFrames(ms, j, chunks);
    }
  }

  /** Without a failed write the channel does not break. */
  lemma UnbrokenStep(s: P.State, e: P.Event)
    requires P.Enabled(s, e) && !e.Fail? && !P.Broke(s)
    ensures !P.Broke(P.Do(s, e))
  {
    hide BatchLen, Flatten;
  }

  lemma {:induction false} Unbroken(s: P.State, events: seq<P.Event>)
    requires P.Runs(s, events) && !P.Broke(s) && forall e | e in events :: !e.Fail?
    ensures !P.Broke(P.After(s, events))
    decreases |events|
  {
    if events != [] {
      UnbrokenStep(s, events[0]);
      hide P.Do, P.Enabled;
      Unbroken(P.Do(s, events[0]), events[1..]);
    }
  }

  /** Every run in which no write has failed can be carried on, without calls or failures, until
      all is quiet; and a receiver that reads everything, in whatever pieces, then has all
      accepted frames exactly when every one fits a batch and no thread was left waiting. */
  lemma EventualDelivery(before: seq<P.Event>) returns (more: seq<P.Event>)
    requires P.Runs(P.INITIAL, before) && !P.Broke(P.After(P.INITIAL, before))
    ensures P.Runs(P.INITIAL, before + more) && forall e | e in more :: !e.Call? && !e.Fail?
    ensures var s := P.After(P.INITIAL, before + more);
            && P.Quiet(s) && !P.Broke(s)
            && forall ms: seq<Message>, chunks: seq<bytes> | Packed(s.h.accepted, ms) && Flatten(chunks) == s.wire ::
                 HasAll(ms, chunks) <==> AllFitBatch(s.h.accepted) && !P.LeftWaiting(P.INITIAL, before + more)
  {
    more := RestOf(before);
    hide *;
    P.EveryRun(before + more);
    var s := P.After(P.INITIAL, before + more);
    forall ms: seq<Message>, chunks: seq<bytes> | Packed(s.h.accepted, ms) && Flatten(chunks) == s.wire
      ensures HasAll(ms, chunks) <==> AllFitBatch(s.h.accepted) && !P.LeftWaiting(P.INITIAL, before + more)
    {
      QuietDelivery(before + more, ms, chunks);
    }
  }

  lemma RestOf(before: seq<P.Event>) returns (more: seq<P.Event>)
    requires P.Runs(P.INITIAL, before) && !P.Broke(P.After(P.INITIAL, before))
    ensures P.Runs(P.INITIAL, before + more) && forall e | e in more :: !e.Call? && !e.Fail?
    ensures P.Quiet(P.After(P.INITIAL, before + more)) && !P.Broke(P.After(P.INITIAL, before + more))
  {
    hide P.Runs, P.After, P.Quiet, SendProgress.Work, SendProgress.Worked;
    more := SendProgress.EveryRunComesToRest(before);
    SendSchedules.RunsAppend(P.INITIAL, before, more);
    Unbroken(P.After(P.INITIAL, before), more);
  }
}
