/** The send path comes to rest: without new calls, threads and socket always have something to
    do until everything is quiet, and only finitely much of it. */
module SendProgress {
  import opened Bytes
  import opened Collections
  import opened SendQueue
  import opened SendProtocol

  /** Something a thread or the socket does on its own; a transfer moves at least one byte. */
  predicate Works(e: Event) {
    e.Step? || e.Complete? || e.Fail? || (e.Transmit? && e.n > 0)
  }

  // ---- how much is left to do ---------------------------------------------------------

  /** Accesses a thread still has to make, counting a message it will queue with its bytes
      and with the write it will need. */
  function Weight(pc: Pc): nat {
    match pc
    case Idle => 0
    case Checked(msg) => |msg| + 20
    case Locked(msg) => |msg| + 19
    case Loaded(msg, _) => |msg| + 18
    case Pushed(_, _) => 7
    case Stored => 6
    case Counted => 5
    case Ready => 4
    case Refused => 2
    case Rejected => 1
    case Writing => 3
    case Batching => 2
    case Starting(batch, _) => |batch| + 10
    case Emptied => 1
    case Wrote(_, _) => 8
    case Subtracted(_) => 7
    case Finished => 6
    case Released => 5
    case Retrying => 4
    case Failing => 1
  }

  function QueueWeight(queue: seq<bytes>): nat {
    Size(queue) + 10 * |queue|
  }

  function FlightWeight(flights: seq<Transfer>): int {
    if flights == [] then 0 else 9 + |flights[0].batch| - flights[0].done
  }

  ghost function Total(pcs: map<nat, Pc>, ts: set<nat>): nat
    requires ts <= pcs.Keys
  {
    if ts == {} then 0 else Weight(pcs[Pick(ts)]) + Total(pcs, ts - {Pick(ts)})
  }

  ghost function Work(s: State): int {
    Total(s.pcs, s.pcs.Keys) + QueueWeight(s.sh.queue) + FlightWeight(s.flights)
  }

  lemma {:induction false} TotalSplits(pcs: map<nat, Pc>, ts: set<nat>, t: nat)
    requires ts <= pcs.Keys && t in ts
    ensures Total(pcs, ts) == Weight(pcs[t]) + Total(pcs, ts - {t})
    decreases |ts|
  {
    hide Weight;
    var u := Pick(ts);
    if u != t {
      TotalSplits(pcs, ts - {u}, t);
      TotalSplits(pcs, ts - {t}, u);
      assert ts - {u} - {t} == ts - {t} - {u};
    }
  }

  lemma {:induction false} TotalAgrees(pcs: map<nat, Pc>, qcs: map<nat, Pc>, ts: set<nat>)
    requires ts <= pcs.Keys && ts <= qcs.Keys && forall t | t in ts :: pcs[t] == qcs[t]
    ensures Total(pcs, ts) == Total(qcs, ts)
    decreases |ts|
  {
    hide Weight;
    if ts != {} {
      TotalAgrees(pcs, qcs, ts - {Pick(ts)});
    }
  }

  /** Moving one thread changes the total by what that thread's weight changes. */
  lemma TotalMoves(s: State, t: nat, pc: Pc)
    ensures var moved := s.pcs[t := pc];
            Total(moved, moved.Keys) + Weight(At(s, t)) == Total(s.pcs, s.pcs.Keys) + Weight(pc)
  {
    var moved := s.pcs[t := pc];
    var others := s.pcs.Keys - {t};
    TotalSplits(moved, moved.Keys, t);
    assert moved.Keys - {t} == others;
    TotalAgrees(s.pcs, moved, others);
    if t in s.pcs {
      TotalSplits(s.pcs, s.pcs.Keys, t);
    } else {
      assert others == s.pcs.Keys;
    }
  }

  // ---- every event of work lowers it --------------------------------------------------

  /** What a step of a thread leaves of its own work, the queue and the flights. */
  ghost predicate Lowers(s: State, s': State, t: nat) {
    && OnlyMoved(s, s', t)
    && Weight(At(s', t)) + QueueWeight(s'.sh.queue) + FlightWeight(s'.flights)
       < Weight(At(s, t)) + QueueWeight(s.sh.queue) + FlightWeight(s.flights)
  }

  lemma LowersWork(s: State, s': State, t: nat)
    requires Lowers(s, s', t)
    ensures Work(s') < Work(s)
  {
    hide Weight, QueueWeight, FlightWeight, Total;
    TotalMoves(s, t, At(s', t));
  }

  lemma EnqueueLowers(s: State, t: nat)
    requires Enqueuing(At(s, t))
    ensures Lowers(s, EnqueueStep(s, t), t)
  {
    hide Size;
    if At(s, t).Loaded? {
      SizeSnoc(s.sh.queue, At(s, t).msg);
    }
  }

  lemma BatchLowers(s: State, t: nat)
    requires At(s, t).Batching?
    ensures Lowers(s, WriteStep(s, t), t)
  {
    hide Size, Flatten, BatchLen;
    SplitBatch(s.sh.queue);
    var k := BatchLen(s.sh.queue);
    if k == 0 {
      assert s.sh.queue[k..] == s.sh.queue;
    }
  }

  lemma WriteLowers(s: State, t: nat)
    requires InDoWrite(At(s, t)) && OwnerInv(s)
    ensures Lowers(s, WriteStep(s, t), t)
  {
    hide Size, Flatten, BatchLen;
    if At(s, t).Batching? {
      BatchLowers(s, t);
    } else if At(s, t).Starting? {
      assert OwnsFlag(At(s, t)) <==> s.h.owner == Thread(t);
      assert s.flights == [];
    }
  }

  lemma CompletionLowers(s: State, t: nat)
    requires !Enqueuing(At(s, t)) && !InDoWrite(At(s, t)) && !At(s, t).Idle?
    ensures Lowers(s, CompletionStep(s, t), t)
  {
    hide QueueWeight, FlightWeight;
  }

  lemma SocketLowers(s: State, e: Event)
    requires OwnerInv(s) && Enabled(s, e) && (e.Complete? || e.Fail?)
    ensures Lowers(s, SocketStep(s, e), e.t)
  {
    hide Size;
    SocketMoves(s, e);
  }

  /** Each access of a thread, each byte the socket sends and each end of a write lowers
      what is left to do. */
  lemma WorkLowers(s: State, e: Event)
    requires OwnerInv(s) && Enabled(s, e) && Works(e)
    ensures Work(Do(s, e)) < Work(s)
  {
    var s' := Do(s, e);
    if e.Step? {
      var t := e.t;
      if Enqueuing(At(s, t)) {
        EnqueueLowers(s, t);
      } else if InDoWrite(At(s, t)) {
        WriteLowers(s, t);
      } else {
        CompletionLowers(s, t);
      }
      hide EnqueueStep, WriteStep, CompletionStep, Lowers, Work;
      LowersWork(s, s', t);
    } else if !e.Transmit? {
      SocketLowers(s, e);
      hide SocketStep, Lowers, Work;
      LowersWork(s, s', e.t);
    } else {
      hide Total, QueueWeight;
      assert e.i == 0;
    }
  }

  lemma WorkIsNat(s: State)
    requires OwnerInv(s)
    ensures Work(s) >= 0
  {
    hide Total, QueueWeight;
  }

  /** Events other than calls: work, the channel being closed, and transfers of nothing. */
  lemma IdleEventsKeepWork(s: State, e: Event)
    requires OwnerInv(s) && Enabled(s, e) && !e.Call? && !Works(e)
    ensures Work(Do(s, e)) == Work(s)
  {
    hide Total, QueueWeight;
    if e.Transmit? {
      assert e.i == 0;
    }
  }

  // ---- runs without new calls ---------------------------------------------------------

  /** How many events of a run are work. */
  function Worked(events: seq<Event>): nat {
    if events == [] then 0 else (if Works(events[0]) then 1 else 0) + Worked(events[1..])
  }

  ghost predicate NoCalls(events: seq<Event>) {
    forall e | e in events :: !e.Call?
  }

  /** From every reachable state there is only so much work in any run without new calls. */
  lemma {:induction false} WorkIsBounded(s: State, events: seq<Event>)
    requires Inv(s) && Runs(s, events) && NoCalls(events)
    ensures Worked(events) + Work(After(s, events)) <= Work(s) && Work(After(s, events)) >= 0
    decreases |events|
  {
    assert OwnerInv(s);
    WorkIsNat(s);
    if events != [] {
      var (e, s') := (events[0], Do(s, events[0]));
      assert e in events && forall x | x in events[1..] :: x in events;
      DoKeeps(s, e);
      if Works(e) {
        WorkLowers(s, e);
      } else {
        IdleEventsKeepWork(s, e);
      }
      hide Inv, Enabled, Do, Work, Works;
      WorkIsBounded(s', events[1..]);
    }
  }

  /** A thread that is not in the middle of anything. */
  lemma SomeIdle(s: State) returns (t: nat)
    ensures At(s, t).Idle?
  {
    t := Unused(s.pcs.Keys);
  }

  lemma {:induction false} Unused(ts: set<nat>) returns (t: nat)
    ensures t !in ts && forall u | u in ts :: u < t
    decreases |ts|
  {
    if ts == {} {
      t := 0;
    } else {
      var u := Pick(ts);
      var v := Unused(ts - {u});
      assert forall x | x in ts :: x == u || x in ts - {u};
      t := if u < v then v else u + 1;
    }
  }

  /** Until all is quiet somebody can go on, and without a write failing. */
  lemma SomeoneCanWork(s: State) returns (e: Event)
    requires Inv(s) && !Quiet(s)
    ensures Enabled(s, e) && Works(e) && !e.Fail?
  {
    hide DataInv, AcceptInv, KickInv;
    if s.sh.lock {
      var t := s.h.holder.value;
      assert InLock(At(s, t));
      e := Step(t);
    } else if s.flights != [] {
      var f := s.flights[0];
      if f.done < |f.batch| {
        e := Transmit(0, |f.batch| - f.done);
      } else {
        var t := SomeIdle(s);
        e := Complete(t, 0);
      }
    } else {
      var t: nat :| !At(s, t).Idle?;
      e := Step(t);
    }
  }

  /** From every reachable state the work that is left can be done, and doing it ends quiet. */
  lemma {:induction false} ComesToRest(s: State) returns (events: seq<Event>)
    requires Inv(s)
    ensures Runs(s, events) && (forall e | e in events :: Works(e) && !e.Fail?)
    ensures Inv(After(s, events)) && Quiet(After(s, events))
    decreases Work(s)
  {
    assert OwnerInv(s);
    WorkIsNat(s);
    if Quiet(s) {
      events := [];
    } else {
      var e := SomeoneCanWork(s);
      WorkLowers(s, e);
      DoKeeps(s, e);
      hide Inv, Enabled, Do, Quiet, Works;
      var rest := ComesToRest(Do(s, e));
      events := [e] + rest;
      assert events[1..] == rest;
    }
  }

  /** A run without calls that can go no further has come to rest. */
  lemma StuckIsQuiet(s: State, events: seq<Event>)
    requires Inv(s) && Runs(s, events)
    requires forall e | Works(e) && !e.Fail? :: !Enabled(After(s, events), e)
    ensures Quiet(After(s, events))
  {
    RunKeeps(s, events);
    hide Inv, Runs, After, Enabled, Works, Quiet;
    if !Quiet(After(s, events)) {
      var e := SomeoneCanWork(After(s, events));
    }
  }

  /** Every run can be carried on, without calls or failures, until all is quiet; and however
      it is carried on without calls, it does no more work than was left. */
  lemma EveryRunComesToRest(before: seq<Event>) returns (more: seq<Event>)
    requires Runs(INITIAL, before)
    ensures var s := After(INITIAL, before);
            && Runs(s, more) && (forall e | e in more :: Works(e) && !e.Fail?) && Quiet(After(s, more))
            && forall events | Runs(s, events) && NoCalls(events) :: Worked(events) <= Work(s)
  {
    InitialInv();
    RunKeeps(INITIAL, before);
    hide Inv, Work, Worked, Works, Quiet, NoCalls;
    var s := After(INITIAL, before);
    more := ComesToRest(s);
    forall events | Runs(s, events) && NoCalls(events) ensures Worked(events) <= Work(s) {
      WorkIsBounded(s, events);
    }
  }
}
