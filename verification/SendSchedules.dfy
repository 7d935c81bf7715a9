/** Particular schedules of the send protocol: those in which every handler runs to
    completion, and short ones that show what can go wrong. */
module SendSchedules {
  import opened Bytes
  import opened Wrappers
  import opened SendQueue
  import opened SendProtocol

  // ---- reachability ---------------------------------------------------------------

  ghost predicate Reaches(s: State, s': State) {
    exists events :: Runs(s, events) && After(s, events) == s'
  }

  lemma {:induction false} RunsAppend(s: State, x: seq<Event>, y: seq<Event>)
    requires Runs(s, x) && Runs(After(s, x), y)
    ensures Runs(s, x + y) && After(s, x + y) == After(After(s, x), y)
    decreases |x|
  {
    hide Enabled, Do;
    if x == [] {
      assert x + y == y;
    } else {
      RunsAppend(Do(s, x[0]), x[1..], y);
      assert (x + y)[1..] == x[1..] + y;
    }
  }

  lemma ReachTrans(a: State, b: State, c: State)
    requires Reaches(a, b) && Reaches(b, c)
    ensures Reaches(a, c)
  {
    hide Runs, After;
    var x :| Runs(a, x) && After(a, x) == b;
    var y :| Runs(b, y) && After(b, y) == c;
    RunsAppend(a, x, y);
  }

  /** One more event at the end of a run. */
  lemma ReachDo(a: State, b: State, e: Event)
    requires Reaches(a, b) && Enabled(b, e)
    ensures Reaches(a, Do(b, e))
  {
    hide Enabled, Do;
    assert Runs(b, [e]) && After(b, [e]) == Do(b, e) by {
      assert [e][1..] == [];
      assert Runs(Do(b, e), []);
    }
    assert Reaches(b, Do(b, e));
    ReachTrans(a, b, Do(b, e));
  }

  lemma ReachSelf(s: State)
    ensures Reaches(s, s)
  {
    assert Runs(s, []) && After(s, []) == s;
  }

  // ---- handlers that run to completion are runs of the protocol ------------------

  /** Thread t has queued msg and released the lock. */
  function Enqueued(s: State, t: nat, msg: bytes): State {
    Move(s, t, Ready,
         s.sh.(queue := s.sh.queue + [msg], counter := s.sh.counter + |msg|, enq := s.sh.enq + 1),
         s.h.(accepted := s.h.accepted + [msg], missed := 0))
  }

  /** Thread t is inside the lock and has read the counter. */
  function Loading(s: State, t: nat, msg: bytes): State {
    Move(s, t, Loaded(msg, s.sh.counter), s.sh.(lock := true), s.h.(holder := Some(t), missed := 0))
  }

  lemma LoadReach(s: State, t: nat, msg: bytes)
    requires At(s, t).Idle? && !s.sh.lock && !s.sh.closed && msg != []
    ensures Reaches(s, Loading(s, t, msg))
  {
    hide Reaches;
    ReachSelf(s);
    var s1 := Do(s, Call(t, msg));
    ReachDo(s, s, Call(t, msg));
    var s2 := Do(s1, Step(t));
    ReachDo(s, s1, Step(t));
    ReachDo(s, s2, Step(t));
    assert Do(s2, Step(t)) == Loading(s, t, msg);
  }

  lemma EnqueueReach(s: State, t: nat, msg: bytes)
    requires At(s, t).Idle? && !s.sh.lock && s.h.holder.None? && !s.sh.closed
    requires msg != [] && s.sh.counter + |msg| <= MAX_QUEUE_BYTES
    ensures Reaches(s, Enqueued(s, t, msg))
  {
    hide Reaches;
    LoadReach(s, t, msg);
    var s3 := Loading(s, t, msg);
    var s4 := Do(s3, Step(t));
    ReachDo(s, s3, Step(t));
    var s5 := Do(s4, Step(t));
    ReachDo(s, s4, Step(t));
    var s6 := Do(s5, Step(t));
    ReachDo(s, s5, Step(t));
    var s7 := Do(s6, Step(t));
    ReachDo(s, s6, Step(t));
    assert s7 == Enqueued(s, t, msg);
  }

  /** Thread t had the free writer flag and has handed a batch to the socket, if there was one. */
  function Begun(s: State, t: nat): State {
    var k := BatchLen(s.sh.queue);
    if k == 0 then Move(s, t, Idle, s.sh, s.h.(owner := Nobody, stranded := false))
    else
      Move(s, t, Idle, s.sh.(writing := true, queue := s.sh.queue[k..]), s.h.(owner := Socket, stranded := false))
        .(flights := s.flights + [Transfer(Flatten(s.sh.queue[..k]), k, 0)])
  }

  lemma ClaimReach(s: State, t: nat)
    requires (At(s, t).Ready? || At(s, t).Retrying?) && !s.sh.writing && !s.sh.lock && s.h.holder.None?
    ensures Reaches(s, Move(s, t, Batching, s.sh.(writing := true, lock := true),
                            s.h.(owner := Thread(t), holder := Some(t), stranded := false)))
  {
    hide Reaches;
    var sh := s.sh.(writing := true);
    var h := s.h.(owner := Thread(t), stranded := false);
    TwoSteps(s, t, Writing, sh, h, Batching, sh.(lock := true), h.(holder := Some(t)));
  }

  lemma BeginReach(s: State, t: nat)
    requires (At(s, t).Ready? || At(s, t).Retrying?) && !s.sh.writing && !s.sh.lock && s.h.holder.None?
    ensures Reaches(s, Begun(s, t))
  {
    hide Reaches, BatchLen, Flatten;
    ClaimReach(s, t);
    var s2 := Move(s, t, Batching, s.sh.(writing := true, lock := true),
                   s.h.(owner := Thread(t), holder := Some(t), stranded := false));
    BatchReach(s2, t);
    ReachTrans(s, s2, Batched(s2, t));
    assert s.sh.queue[0..] == s.sh.queue;
    assert s2.pcs[t := Idle] == s.pcs[t := Idle];
    assert Batched(s2, t) == Begun(s, t);
  }

  function Batched(s: State, t: nat): State {
    var k := BatchLen(s.sh.queue);
    if k == 0 then
      Move(s, t, Idle, s.sh.(lock := false, queue := s.sh.queue[k..], writing := false),
           s.h.(holder := None, owner := Nobody))
    else
      Move(s, t, Idle, s.sh.(lock := false, queue := s.sh.queue[k..]), s.h.(holder := None, owner := Socket))
        .(flights := s.flights + [Transfer(Flatten(s.sh.queue[..k]), k, 0)])
  }

  lemma BatchReach(s: State, t: nat)
    requires At(s, t).Batching?
    ensures Reaches(s, Batched(s, t))
  {
    hide Reaches, BatchLen, Flatten;
    var k := BatchLen(s.sh.queue);
    var pc := if k == 0 then Emptied else Starting(Flatten(s.sh.queue[..k]), k);
    var s1 := Move(s, t, pc, s.sh.(lock := false, queue := s.sh.queue[k..]), s.h.(holder := None));
    ReachSelf(s);
    ReachDo(s, s, Step(t));
    ReachDo(s, s1, Step(t));
    assert s.pcs[t := pc][t := Idle] == s.pcs[t := Idle];
  }

  /** The one write has ended well and its handler, on thread t, has looked at the queue. */
  function Ended(s: State, t: nat): State
    requires s.flights != []
  {
    var f := s.flights[0];
    Move(s, t, if s.sh.queue == [] then Idle else Retrying,
         s.sh.(counter := s.sh.counter - |f.batch|, deq := s.sh.deq + f.msgs, writing := false),
         s.h.(owner := Nobody, missed := s.h.missed + |f.batch|))
      .(wire := s.wire + f.batch, flights := [])
  }

  lemma DeliverReach(s: State, t: nat)
    requires At(s, t).Idle? && |s.flights| == 1 && s.flights[0].done == 0
    ensures var f := s.flights[0];
            Reaches(s, Move(s, t, Wrote(|f.batch|, f.msgs), s.sh, s.h.(owner := Thread(t)))
                         .(wire := s.wire + f.batch, flights := []))
  {
    hide Reaches;
    var f := s.flights[0];
    ReachSelf(s);
    var s1 := Do(s, Transmit(0, |f.batch|));
    ReachDo(s, s, Transmit(0, |f.batch|));
    assert f.batch[0..|f.batch|] == f.batch;
    assert s1 == s.(wire := s.wire + f.batch, flights := [f.(done := |f.batch|)]);
    var s2 := Do(s1, Complete(t, 0));
    ReachDo(s, s1, Complete(t, 0));
    assert s2.flights == [];
  }

  lemma TwoSteps(s: State, t: nat, pc1: Pc, sh1: Shared, h1: History, pc2: Pc, sh2: Shared, h2: History)
    requires var s1 := Move(s, t, pc1, sh1, h1);
             && Enabled(s, Step(t)) && Advance(s, t) == s1
             && Enabled(s1, Step(t)) && Advance(s1, t) == Move(s1, t, pc2, sh2, h2)
    ensures Reaches(s, Move(s, t, pc2, sh2, h2))
  {
    hide Reaches, Enabled, Advance;
    var s1 := Move(s, t, pc1, sh1, h1);
    ReachSelf(s);
    ReachDo(s, s, Step(t));
    ReachDo(s, s1, Step(t));
    assert s.pcs[t := pc1][t := pc2] == s.pcs[t := pc2];
  }

  lemma AccountReach(s: State, t: nat)
    requires At(s, t).Wrote? && At(s, t).n <= s.sh.counter <= MAX_QUEUE_BYTES
    ensures Reaches(s, Move(s, t, Finished,
                            s.sh.(counter := s.sh.counter - At(s, t).n, deq := s.sh.deq + At(s, t).msgs),
                            s.h.(missed := s.h.missed + At(s, t).n)))
  {
    hide Reaches;
    var sh := s.sh.(counter := s.sh.counter - At(s, t).n);
    var h := s.h.(missed := s.h.missed + At(s, t).n);
    TwoSteps(s, t, Subtracted(At(s, t).msgs), sh, h, Finished, sh.(deq := sh.deq + At(s, t).msgs), h);
  }

  lemma ReleaseReach(s: State, t: nat)
    requires At(s, t).Finished?
    ensures Reaches(s, Move(s, t, if s.sh.queue == [] then Idle else Retrying,
                            s.sh.(writing := false), s.h.(owner := Nobody)))
  {
    hide Reaches;
    var sh := s.sh.(writing := false);
    var h := s.h.(owner := Nobody);
    TwoSteps(s, t, Released, sh, h, if s.sh.queue == [] then Idle else Retrying, sh, h);
  }

  lemma EndReach(s: State, t: nat)
    requires At(s, t).Idle? && |s.flights| == 1 && s.flights[0].done == 0
    requires |s.flights[0].batch| <= s.sh.counter <= MAX_QUEUE_BYTES
    ensures Reaches(s, Ended(s, t))
  {
    hide Reaches;
    var f := s.flights[0];
    var s1 := Move(s, t, Wrote(|f.batch|, f.msgs), s.sh, s.h.(owner := Thread(t)))
                .(wire := s.wire + f.batch, flights := []);
    DeliverReach(s, t);
    AccountReach(s1, t);
    var s2 := Move(s1, t, Finished, s.sh.(counter := s.sh.counter - |f.batch|, deq := s.sh.deq + f.msgs),
                   s1.h.(missed := s.h.missed + |f.batch|));
    ReachTrans(s, s1, s2);
    ReleaseReach(s2, t);
    assert Ended(s, t).pcs == s2.pcs[t := if s.sh.queue == [] then Idle else Retrying];
    ReachTrans(s, s2, Ended(s, t));
  }

  /** Between handlers the protocol state is a Sender. */
  ghost predicate Serial(s: State, c: Sender) {
    && (forall t: nat :: At(s, t).Idle?) && !s.sh.lock && s.h.holder.None? && (c.lost.Some? <==> s.h.owner.Gone?)
    && s.sh.queue == c.queue && s.sh.counter == c.counter && s.sh.writing == c.writing
    && s.sh.enq == c.enq && s.sh.deq == c.deq && s.h.accepted == c.accepted && s.wire == c.wire
    && s.flights == (if c.flight.Some? then [Transfer(c.flight.value.batch, c.flight.value.msgs, 0)] else [])
  }

  /** A whole send, run without interruption, is what Accept says. */
  lemma SendIsSerial(s: State, c: Sender, t: nat, msg: bytes) returns (s': State)
    requires Serial(s, c) && SendInv(c) && !s.sh.closed
    requires msg != [] && c.counter + |msg| <= 262144
    ensures Reaches(s, s') && Serial(s', Accept(c, msg))
  {
    hide Reaches, BatchLen, Flatten, Ordered, Balanced, WithinLimit;
    var q := Enqueued(s, t, msg);
    EnqueueReach(s, t, msg);
    if c.writing {
      s' := Do(q, Step(t));
      ReachDo(s, q, Step(t));
    } else {
      s' := Begun(q, t);
      BeginReach(q, t);
      ReachTrans(s, q, s');
      assert q.flights == [];
    }
    assert forall x: nat :: At(s', x) == if x == t then Idle else At(s, x);
  }

  /** A whole successful completion, run without interruption, is what Written says. */
  lemma CompletionIsSerial(s: State, c: Sender, t: nat) returns (s': State)
    requires Serial(s, c) && SendInv(c) && c.flight.Some?
    ensures Reaches(s, s') && Serial(s', Written(c))
  {
    hide Reaches, BatchLen, Flatten, Size, Ordered;
    var q := Ended(s, t);
    EndReach(s, t);
    if c.queue == [] {
      s' := q;
      StartOfEmpty(Finish(c));
    } else {
      s' := Begun(q, t);
      BeginReach(q, t);
      ReachTrans(s, q, s');
      assert q.flights == [];
    }
    assert forall x: nat :: At(s', x) == if x == t then Idle else At(s, x);
  }

  /** A whole send that would exceed the limit leaves the send side alone and closes the channel. */
  lemma RefusalIsSerial(s: State, c: Sender, t: nat, msg: bytes) returns (s': State)
    requires Serial(s, c) && !s.sh.closed && msg != [] && c.counter + |msg| > 262144
    ensures Reaches(s, s') && Serial(s', c) && s'.sh.closed && s'.sh.drops == s.sh.drops + 1
  {
    hide Reaches;
    s' := Move(s, t, Idle, s.sh.(closed := true, drops := s.sh.drops + 1), s.h.(missed := 0));
    LoadReach(s, t, msg);
    var s3 := Loading(s, t, msg);
    var s4 := Do(s3, Step(t));
    ReachDo(s, s3, Step(t));
    var s5 := Do(s4, Step(t));
    ReachDo(s, s4, Step(t));
    ReachDo(s, s5, Step(t));
    assert Do(s5, Step(t)) == s';
    assert forall x: nat :: At(s', x) == if x == t then Idle else At(s, x);
  }

  /** A whole failed write, of which `sent` bytes got through, is what Broken says. */
  lemma FailureIsSerial(s: State, c: Sender, t: nat, sent: nat) returns (s': State)
    requires Serial(s, c) && SendInv(c) && c.flight.Some? && sent <= |FlightBytes(c.flight)|
    ensures Reaches(s, s') && Serial(s', Broken(c, sent)) && s'.sh.closed
  {
    hide Reaches, BatchLen, Flatten, Size, Ordered, Balanced, WithinLimit, Remaining;
    var f := s.flights[0];
    ReachSelf(s);
    var s1 := Do(s, Transmit(0, sent));
    ReachDo(s, s, Transmit(0, sent));
    assert s1 == s.(wire := s.wire + f.batch[..sent], flights := [f.(done := sent)]);
    assert At(s, t).Idle? && At(s1, t) == At(s, t);
    var s2 := Do(s1, Fail(t, 0));
    ReachDo(s, s1, Fail(t, 0));
    assert s2.flights == [];
    s' := Do(s2, Step(t));
    ReachDo(s, s2, Step(t));
    assert forall x: nat :: At(s', x) == if x == t then Idle else At(s, x);
  }

  // ---- what can go wrong --------------------------------------------------------

  /** A run to a reachable state, which is stranded exactly when the run left a thread waiting. */
  lemma RunTo(s: State) returns (events: seq<Event>)
    requires Reaches(INITIAL, s)
    ensures Runs(INITIAL, events) && After(INITIAL, events) == s
    ensures s.h.stranded <==> LeftWaiting(INITIAL, events)
  {
    hide Runs, After, LeftWaiting, NeverTaken, Inv;
    events :| Runs(INITIAL, events) && After(INITIAL, events) == s;
    InitialInv();
    StrandedIff(INITIAL, events);
  }

  /** One sender and one message that fits the queue but no batch: it is accepted, no batch is
      made, and the flag is freed. Nobody is left waiting, and the message stays. */
  lemma OversizedMessage(msg: bytes) returns (events: seq<Event>)
    requires 65536 < |msg| <= 262144
    ensures Runs(INITIAL, events) && !LeftWaiting(INITIAL, events)
    ensures var s := After(INITIAL, events);
            Quiet(s) && !Broke(s) && !s.sh.closed && !s.sh.writing && s.sh.queue == [msg]
  {
    hide Reaches, Runs, After, LeftWaiting, BatchLen;
    var a := Enqueued(INITIAL, 0, msg);
    EnqueueReach(INITIAL, 0, msg);
    BatchIsEmpty(a.sh.queue);
    var s := Begun(a, 0);
    BeginReach(a, 0);
    ReachTrans(INITIAL, a, s);
    assert a.sh.queue == [msg] && s.pcs == map[0 := Idle];
    events := RunTo(s);
  }

  /** Two senders queue; the second writes both messages while the first has not yet
      tried for the flag. The first then gets the flag, finds nothing, and a third
      message is queued before it lets go. That message is never sent on its own. */
  lemma StrandedMessage() returns (events: seq<Event>)
    ensures Runs(INITIAL, events) && LeftWaiting(INITIAL, events)
    ensures var s := After(INITIAL, events);
            && Quiet(s) && !Broke(s) && !s.sh.closed && AllFitBatch(s.h.accepted)
            && s.sh.queue == [[3]] && !s.sh.writing
  {
    hide Reaches, Runs, After, LeftWaiting;
    var d := BothSent();
    var s := StrandFrom(d);
    ReachTrans(INITIAL, d, s);
    assert forall t: nat | t > 1 :: At(s, t) == At(d, t);
    events := RunTo(s);
  }

  lemma BothSent() returns (d: State)
    ensures Reaches(INITIAL, d) && At(d, 0) == Ready && At(d, 1) == Idle && d.pcs.Keys == {0, 1}
    ensures d.sh.queue == [] && d.sh.counter == 0 && !d.sh.writing && !d.sh.lock && !d.sh.closed
    ensures d.h.holder.None? && d.flights == [] && d.h.accepted == [[1], [2]]
  {
    hide Reaches;
    var a := Enqueued(INITIAL, 0, [1]);
    EnqueueReach(INITIAL, 0, [1]);
    var b := Enqueued(a, 1, [2]);
    EnqueueReach(a, 1, [2]);
    ReachTrans(INITIAL, a, b);
    assert b.sh.queue == [[1], [2]] && b.sh.counter == 2 && b.pcs == map[0 := Ready, 1 := Ready];
    BothTaken();
    hide BatchLen, Flatten;
    var c := Begun(b, 1);
    BeginReach(b, 1);
    ReachTrans(INITIAL, b, c);
    assert c.sh.queue == [] && c.flights == [Transfer([1, 2], 2, 0)];
    d := Ended(c, 1);
    EndReach(c, 1);
    ReachTrans(INITIAL, c, d);
  }

  lemma BothTaken()
    ensures var q: seq<bytes> := [[1], [2]]; BatchLen(q) == 2 && Flatten(q[..2]) == [1, 2] && q[2..] == []
  {
    var q: seq<bytes> := [[1], [2]];
    assert q[1..] == [[2]] && q[..2] == q;
    assert Take([], 2, 2) == 0 && Take([[2]], 1, 1) == 1 + Take([[2]][1..], 2, 2);
    assert Flatten([[2]]) == [2] + Flatten([[2]][1..]);
  }

  lemma StrandFrom(d: State) returns (s: State)
    requires At(d, 0) == Ready && At(d, 1) == Idle && d.sh.queue == [] && d.sh.counter == 0
    requires !d.sh.writing && !d.sh.lock && !d.sh.closed && d.h.holder.None?
    ensures Reaches(d, s) && s.pcs == d.pcs[0 := Idle][1 := Idle] && s.flights == d.flights
    ensures s.sh.queue == [[3]] && !s.sh.writing && !s.sh.closed
    ensures s.h.stranded && s.h.owner.Nobody? && s.h.accepted == d.h.accepted + [[3]]
  {
    hide Reaches, Flatten;
    ClaimReach(d, 0);
    var e := Move(d, 0, Batching, d.sh.(writing := true, lock := true),
                  d.h.(owner := Thread(0), holder := Some(0), stranded := false));
    ReachDo(d, e, Step(0));
    var f := Move(d, 0, Emptied, d.sh.(writing := true), d.h.(owner := Thread(0), stranded := false));
    assert Do(e, Step(0)) == f;
    s := GiveUpFrom(f);
    ReachTrans(d, f, s);
    assert s.pcs == d.pcs[0 := Idle][1 := Idle];
  }

  lemma GiveUpFrom(f: State) returns (s: State)
    requires At(f, 0) == Emptied && At(f, 1) == Idle && f.sh.queue == [] && f.sh.counter == 0
    requires f.sh.writing && f.h.owner == Thread(0) && !f.sh.lock && !f.sh.closed && f.h.holder.None?
    ensures Reaches(f, s) && s.pcs == f.pcs[0 := Idle][1 := Idle] && s.flights == f.flights
    ensures s.sh.queue == [[3]] && !s.sh.writing && !s.sh.closed
    ensures s.h.stranded && s.h.owner.Nobody? && s.h.accepted == f.h.accepted + [[3]]
  {
    hide Reaches;
    var g := Enqueued(f, 1, [3]);
    EnqueueReach(f, 1, [3]);
    ReachDo(f, g, Step(1));
    var h := Move(g, 1, Idle, g.sh, g.h.(stranded := true));
    assert Do(g, Step(1)) == h;
    s := Do(h, Step(0));
    ReachDo(f, h, Step(0));
    assert s.pcs == f.pcs[0 := Idle][1 := Idle];
  }

  /** A completion that subtracts between another thread's reading and storing of the
      counter is forgotten: one byte is queued, none is in flight, and the counter says two. */
  lemma DriftedCounter() returns (s: State)
    ensures Reaches(INITIAL, s)
    ensures !s.sh.lock && s.flights == [] && s.sh.queue == [[2]] && s.sh.counter == 2 && s.h.lost == 1
  {
    hide Reaches;
    var a := Enqueued(INITIAL, 0, [1]);
    EnqueueReach(INITIAL, 0, [1]);
    assert a.sh.queue == [[1]] && a.pcs == map[0 := Ready];
    assert BatchLen([[1]]) == 1 && Flatten([[1]][..1]) == [1] by {
      assert [[1]][1..] == [] && [[1]][..1] == [[1]];
    }
    hide BatchLen, Flatten;
    var b := Begun(a, 0);
    BeginReach(a, 0);
    ReachTrans(INITIAL, a, b);
    assert b.flights == [Transfer([1], 1, 0)];
    DeliverReach(b, 0);
    var c := Move(b, 0, Wrote(1, 1), b.sh, b.h.(owner := Thread(0))).(wire := b.wire + [1], flights := []);
    ReachTrans(INITIAL, b, c);
    s := DriftFrom(c);
    ReachTrans(INITIAL, c, s);
  }

  lemma DriftFrom(c: State) returns (s: State)
    requires At(c, 0) == Wrote(1, 1) && At(c, 1) == Idle && c.sh.queue == [] && c.sh.counter == 1
    requires !c.sh.lock && !c.sh.closed && c.h.lost == 0
    ensures Reaches(c, s) && !s.sh.lock && s.flights == c.flights
    ensures s.sh.queue == [[2]] && s.sh.counter == 2 && s.h.lost == 1
  {
    hide Reaches;
    ReachSelf(c);
    var c1 := Do(c, Call(1, [2]));
    ReachDo(c, c, Call(1, [2]));
    var c2 := Do(c1, Step(1));
    ReachDo(c, c1, Step(1));
    var c3 := Do(c2, Step(1));
    ReachDo(c, c2, Step(1));
    assert At(c3, 1) == Loaded([2], 1) && At(c3, 0) == Wrote(1, 1);
    var c4 := Do(c3, Step(0));
    ReachDo(c, c3, Step(0));
    assert At(c4, 1) == Loaded([2], 1) && c4.sh.counter == 0 && c4.h.missed == 1;
    s := StoreFrom(c4);
    ReachTrans(c, c4, s);
  }

  lemma StoreFrom(c: State) returns (s: State)
    requires At(c, 1) == Loaded([2], 1) && c.h.missed == 1 && c.sh.queue == []
    ensures Reaches(c, s) && !s.sh.lock && s.flights == c.flights
    ensures s.sh.queue == [[2]] && s.sh.counter == 2 && s.h.lost == c.h.lost + 1
  {
    hide Reaches;
    ReachSelf(c);
    var c1 := Do(c, Step(1));
    ReachDo(c, c, Step(1));
    var c2 := Do(c1, Step(1));
    ReachDo(c, c1, Step(1));
    assert c2.sh.counter == 2 && At(c2, 1) == Stored;
    var c3 := Do(c2, Step(1));
    ReachDo(c, c2, Step(1));
    s := Do(c3, Step(1));
    ReachDo(c, c3, Step(1));
  }
}
