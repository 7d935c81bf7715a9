/** How queued messages are grouped into writes. */
module SendQueue {
  import opened Bytes
  import opened Wrappers

  const MAX_QUEUE_BYTES := 262144
  const MAX_BATCH_BYTES := 65536
  const MAX_BATCH_MSGS := 64

  function Size(queue: seq<bytes>): (n: nat)
    ensures n == |Flatten(queue)|
  {
    if queue == [] then 0 else |queue[0]| + Size(queue[1..])
  }

  /** How many messages the batching loop takes after `taken` messages of `acc` bytes. */
  function Take(queue: seq<bytes>, acc: nat, taken: nat): (k: nat)
    ensures k <= |queue|
  {
    if queue == [] || taken >= MAX_BATCH_MSGS || acc + |queue[0]| > MAX_BATCH_BYTES then 0
    else 1 + Take(queue[1..], acc + |queue[0]|, taken + 1)
  }

  function BatchLen(queue: seq<bytes>): (k: nat)
    ensures k <= |queue|
  {
    Take(queue, 0, 0)
  }

  lemma {:induction false} SizeSplit(queue: seq<bytes>, k: nat)
    requires k <= |queue|
    ensures Size(queue) == Size(queue[..k]) + Size(queue[k..])
  {
    assert queue == queue[..k] + queue[k..];
    FlattenAppend(queue[..k], queue[k..]);
  }

  lemma SizeSnoc(queue: seq<bytes>, msg: bytes)
    ensures Size(queue + [msg]) == Size(queue) + |msg|
  {
    FlattenSnoc(queue, msg);
  }

  /** k messages are allowed in one batch and no more can be added. */
  ghost predicate MaximalBatch(queue: seq<bytes>, k: nat) {
    && k <= |queue| && k <= 64 && Size(queue[..k]) <= 65536
    && (k == |queue| || k == 64 || Size(queue[..k + 1]) > 65536)
  }

  lemma {:induction false} TakeIsMaximal(queue: seq<bytes>, acc: nat, taken: nat)
    requires acc <= MAX_BATCH_BYTES && taken <= MAX_BATCH_MSGS
    ensures var k := Take(queue, acc, taken);
            && taken + k <= MAX_BATCH_MSGS && acc + Size(queue[..k]) <= MAX_BATCH_BYTES
            && (k == |queue| || taken + k == MAX_BATCH_MSGS || acc + Size(queue[..k + 1]) > MAX_BATCH_BYTES)
    decreases |queue|
  {
    var k := Take(queue, acc, taken);
    if k > 0 {
      TakeIsMaximal(queue[1..], acc + |queue[0]|, taken + 1);
      assert queue[..k][1..] == queue[1..][..k - 1];
      if k < |queue| {
        assert queue[..k + 1][1..] == queue[1..][..k];
      }
    } else if queue != [] {
      assert queue[..1][1..] == [];
    }
  }

  /** The batch is the one maximal prefix within both limits. */
  lemma BatchIsMaximal(queue: seq<bytes>, k: nat)
    ensures MaximalBatch(queue, k) <==> k == BatchLen(queue)
  {
    TakeIsMaximal(queue, 0, 0);
    var b := BatchLen(queue);
    if MaximalBatch(queue, k) {
      if k < b {
        PrefixSize(queue, k + 1, b);
      } else if b < k {
        PrefixSize(queue, b + 1, k);
      }
    }
  }

  lemma PrefixSize(queue: seq<bytes>, i: nat, j: nat)
    requires i <= j <= |queue|
    ensures Size(queue[..i]) <= Size(queue[..j])
  {
    SizeSplit(queue[..j], i);
    assert queue[..j][..i] == queue[..i];
  }

  /** Nothing can be taken exactly when the queue is empty or its head is too big. */
  lemma BatchIsEmpty(queue: seq<bytes>)
    ensures BatchLen(queue) == 0 <==> queue == [] || |queue[0]| > 65536
  {
  }

  // ---- repeated batches ---------------------------------------------------------

  /** What stays queued after writing batches for as long as one can be made. */
  function Drained(queue: seq<bytes>): seq<bytes>
    decreases |queue|
  {
    var k := BatchLen(queue);
    if k == 0 then queue else Drained(queue[k..])
  }

  function FirstOversized(queue: seq<bytes>): (i: nat)
    ensures i <= |queue|
  {
    if queue == [] || |queue[0]| > MAX_BATCH_BYTES then 0 else 1 + FirstOversized(queue[1..])
  }

  lemma {:induction false} FirstOversizedFinds(queue: seq<bytes>)
    ensures var i := FirstOversized(queue);
            && (forall j | 0 <= j < i :: |queue[j]| <= MAX_BATCH_BYTES)
            && (i < |queue| ==> |queue[i]| > MAX_BATCH_BYTES)
  {
    if queue != [] && |queue[0]| <= MAX_BATCH_BYTES {
      FirstOversizedFinds(queue[1..]);
      var i := FirstOversized(queue);
      forall j | 0 <= j < i
        ensures |queue[j]| <= MAX_BATCH_BYTES
      {
        assert j > 0 ==> queue[j] == queue[1..][j - 1];
      }
    }
  }

  lemma {:induction false} TakeStopsAtOversized(queue: seq<bytes>, acc: nat, taken: nat)
    ensures Take(queue, acc, taken) <= FirstOversized(queue)
    decreases |queue|
  {
    if Take(queue, acc, taken) > 0 {
      TakeStopsAtOversized(queue[1..], acc + |queue[0]|, taken + 1);
    }
  }

  lemma {:induction false} FirstOversizedAfter(queue: seq<bytes>, k: nat)
    requires k <= FirstOversized(queue)
    ensures FirstOversized(queue[k..]) == FirstOversized(queue) - k
    decreases |queue|
  {
    if k > 0 {
      FirstOversizedAfter(queue[1..], k - 1);
      assert queue[1..][k - 1..] == queue[k..];
    } else {
      assert queue[k..] == queue;
    }
  }

  /** Draining gets rid of everything ahead of the first message that is too big
      for a batch; that message and all behind it stay for ever. */
  lemma {:induction false} DrainedStopsAtOversized(queue: seq<bytes>)
    ensures Drained(queue) == queue[FirstOversized(queue)..]
    decreases |queue|
  {
    var k := BatchLen(queue);
    BatchIsEmpty(queue);
    if k == 0 {
      assert queue[0..] == queue;
    } else {
      TakeStopsAtOversized(queue, 0, 0);
      FirstOversizedAfter(queue, k);
      DrainedStopsAtOversized(queue[k..]);
      assert queue[k..][FirstOversized(queue) - k..] == queue[FirstOversized(queue)..];
    }
  }

  /** The queue empties under repeated writes exactly when every message fits a batch. */
  lemma DrainsCompletely(queue: seq<bytes>)
    ensures Drained(queue) == [] <==> forall m | m in queue :: |m| <= 65536
  {
    DrainedStopsAtOversized(queue);
    FirstOversizedFinds(queue);
    var i := FirstOversized(queue);
    if i < |queue| {
      assert queue[i] in queue;
    }
  }

  // ---- what the queue holds of the messages accepted ----------------------------

  ghost predicate AllFitBatch(msgs: seq<bytes>) {
    forall m | m in msgs :: |m| <= 65536
  }

  /** The queue is the end of what was accepted, and what has left it fits a batch. */
  ghost predicate Remaining(accepted: seq<bytes>, queue: seq<bytes>) {
    && |queue| <= |accepted| && queue == accepted[|accepted| - |queue|..]
    && AllFitBatch(accepted[..|accepted| - |queue|])
  }

  lemma RemainingPush(accepted: seq<bytes>, queue: seq<bytes>, msg: bytes)
    requires Remaining(accepted, queue)
    ensures Remaining(accepted + [msg], queue + [msg])
  {
    var n := |accepted| - |queue|;
    assert (accepted + [msg])[..n] == accepted[..n];
  }

  lemma RemainingBatch(accepted: seq<bytes>, queue: seq<bytes>)
    requires Remaining(accepted, queue)
    ensures Remaining(accepted, queue[BatchLen(queue)..])
  {
    var (n, k) := (|accepted| - |queue|, BatchLen(queue));
    TakeStopsAtOversized(queue, 0, 0);
    FirstOversizedFinds(queue);
    hide BatchLen;
    assert accepted[..n + k] == accepted[..n] + queue[..k];
  }

  /** So an empty queue means that everything accepted fits a batch. */
  lemma RemainingIsAccepted(accepted: seq<bytes>, queue: seq<bytes>)
    requires Remaining(accepted, queue)
    ensures queue == [] ==> AllFitBatch(accepted)
    ensures queue != [] ==> queue[0] in accepted
  {
    if queue == [] {
      assert accepted[..|accepted|] == accepted;
    } else {
      assert queue[0] == accepted[|accepted| - |queue|];
    }
  }

  // ---- the send side when every handler runs to completion ---------------------

  /** An asynchronous write. */
  datatype Flight = Flight(batch: bytes, msgs: nat)

  function FlightBytes(f: Option<Flight>): bytes {
    if f.Some? then f.value.batch else []
  }

  function FlightMsgs(f: Option<Flight>): nat {
    if f.Some? then f.value.msgs else 0
  }

  /** The send side of a channel, with the messages it took and the bytes it delivered.
      `flight` is the outstanding write, `lost` the write that failed, if one did. */
  datatype Sender = Sender(
    queue: seq<bytes>, counter: int, writing: bool, enq: int, deq: int,
    flight: Option<Flight>, lost: Option<Flight>, accepted: seq<bytes>, wire: bytes)

  function Push(s: Sender, msg: bytes): Sender {
    s.(queue := s.queue + [msg], counter := s.counter + |msg|, enq := s.enq + 1,
       accepted := s.accepted + [msg])
  }

  /** Start the next write if a batch can be made, else give the writer flag back. */
  function Start(s: Sender): Sender {
    var k := BatchLen(s.queue);
    if k == 0 then s.(writing := false)
    else s.(writing := true, queue := s.queue[k..], flight := Some(Flight(Flatten(s.queue[..k]), k)))
  }

  function Accept(s: Sender, msg: bytes): Sender {
    var p := Push(s, msg);
    if p.writing then p else Start(p)
  }

  function Finish(s: Sender): Sender {
    s.(wire := s.wire + FlightBytes(s.flight), counter := s.counter - |FlightBytes(s.flight)|,
       deq := s.deq + FlightMsgs(s.flight), flight := None, writing := false)
  }

  function Written(s: Sender): Sender {
    Start(Finish(s))
  }

  function Broken(s: Sender, sent: nat): Sender
    requires sent <= |FlightBytes(s.flight)|
  {
    s.(wire := s.wire + FlightBytes(s.flight)[..sent], lost := s.flight, flight := None)
  }

  /** The bytes taken so far are on the wire, in flight or queued, in order. */
  ghost predicate Ordered(s: Sender) {
    if s.lost.Some? then s.wire <= Flatten(s.accepted)
    else s.wire + FlightBytes(s.flight) + Flatten(s.queue) == Flatten(s.accepted)
  }

  ghost predicate Balanced(s: Sender) {
    && s.counter == Size(s.queue) + |FlightBytes(s.flight)| + |FlightBytes(s.lost)|
    && s.enq == |s.accepted| == s.deq + |s.queue| + FlightMsgs(s.flight) + FlightMsgs(s.lost)
  }

  ghost predicate WithinLimit(s: Sender) {
    s.counter <= MAX_QUEUE_BYTES && forall m | m in s.accepted :: 0 < |m| <= MAX_QUEUE_BYTES
  }

  /** The writer flag is held exactly by an outstanding or failed write, and with
      the flag free no batch can be made. */
  ghost predicate FlagHeld(s: Sender) {
    && (s.writing <==> s.flight.Some? || s.lost.Some?) && !(s.flight.Some? && s.lost.Some?)
    && (!s.writing ==> BatchLen(s.queue) == 0)
  }

  ghost predicate SendInv(s: Sender) {
    Ordered(s) && Balanced(s) && WithinLimit(s) && Remaining(s.accepted, s.queue) && FlagHeld(s)
  }

  /** A channel that is not writing has sent everything it took exactly when every message it
      took fits a batch; else it waits for one that does not. */
  lemma IdleIsSent(s: Sender)
    requires SendInv(s) && !s.writing
    ensures s.queue == [] <==> s.wire == Flatten(s.accepted)
    ensures s.queue == [] <==> AllFitBatch(s.accepted)
    ensures s.queue != [] ==> |s.queue[0]| > 65536
  {
    BatchIsEmpty(s.queue);
    RemainingIsAccepted(s.accepted, s.queue);
    hide Remaining;
    if s.queue == [] {
      assert s.wire + [] + [] == s.wire;
    } else {
      assert s.wire + [] == s.wire;
      assert |Flatten(s.queue)| == Size(s.queue) > 0 by {
        assert Size(s.queue) == |s.queue[0]| + Size(s.queue[1..]);
      }
    }
  }

  lemma StartIgnoresFlag(s: Sender)
    ensures Start(s.(writing := true)) == Start(s)
  {
  }

  lemma StartOfEmpty(s: Sender)
    ensures s.queue == [] ==> Start(s) == s.(writing := false)
  {
  }

  lemma PushKeeps(s: Sender, msg: bytes)
    requires Ordered(s) && Balanced(s) && WithinLimit(s) && Remaining(s.accepted, s.queue)
    requires msg != [] && s.counter + |msg| <= MAX_QUEUE_BYTES
    ensures Ordered(Push(s, msg)) && Balanced(Push(s, msg)) && WithinLimit(Push(s, msg))
    ensures Remaining(Push(s, msg).accepted, Push(s, msg).queue)
  {
    hide Size, Flatten, Remaining;
    RemainingPush(s.accepted, s.queue, msg);
    SizeSnoc(s.queue, msg);
    FlattenSnoc(s.queue, msg);
    FlattenSnoc(s.accepted, msg);
    SeqAssociates(s.wire + FlightBytes(s.flight), Flatten(s.queue), msg);
  }

  lemma StartKeeps(s: Sender)
    requires Ordered(s) && Balanced(s) && WithinLimit(s) && Remaining(s.accepted, s.queue)
    requires s.flight.None? && s.lost.None?
    ensures SendInv(Start(s))
  {
    hide Size, Flatten, BatchLen, Remaining;
    RemainingBatch(s.accepted, s.queue);
    var k := BatchLen(s.queue);
    BatchIsMaximal(s.queue, k);
    if k > 0 {
      assert s.queue == s.queue[..k] + s.queue[k..];
      FlattenAppend(s.queue[..k], s.queue[k..]);
      SizeSplit(s.queue, k);
      assert s.wire + FlightBytes(s.flight) == s.wire;
      SeqAssociates(s.wire, Flatten(s.queue[..k]), Flatten(s.queue[k..]));
    }
  }

  /** A message within the limit is taken, and the invariant holds again. */
  lemma AcceptKeeps(s: Sender, msg: bytes)
    requires SendInv(s) && msg != [] && s.counter + |msg| <= MAX_QUEUE_BYTES
    ensures SendInv(Accept(s, msg))
  {
    hide Size, Flatten, BatchLen;
    PushKeeps(s, msg);
    if !s.writing {
      StartKeeps(Push(s, msg));
    }
  }

  /** A completed write puts exactly the outstanding batch on the wire. */
  lemma WrittenKeeps(s: Sender)
    requires SendInv(s) && s.flight.Some?
    ensures SendInv(Written(s)) && Written(s).wire == s.wire + FlightBytes(s.flight)
    ensures Drained(Written(s).queue) == Drained(s.queue)
    ensures Written(s).writing ==> |Written(s).queue| < |s.queue|
  {
    hide Size, Flatten;
    assert Finish(s).wire + [] == Finish(s).wire;
    StartKeeps(Finish(s));
    var k := BatchLen(s.queue);
    if k == 0 {
      assert s.queue[k..] == s.queue;
    }
  }

  lemma BrokenKeeps(s: Sender, sent: nat)
    requires SendInv(s) && s.flight.Some? && sent <= |FlightBytes(s.flight)|
    ensures SendInv(Broken(s, sent))
  {
    hide Size, Flatten, BatchLen;
    var batch := s.flight.value.batch;
    assert batch == batch[..sent] + batch[sent..];
    assert s.wire + batch + Flatten(s.queue) == (s.wire + batch[..sent]) + (batch[sent..] + Flatten(s.queue));
  }
}
