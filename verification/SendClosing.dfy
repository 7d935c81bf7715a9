/** What a closed channel still takes: nothing but the messages of sends that were under way
    when it closed. */
module SendClosing {
  import opened Bytes
  import opened Collections
  import opened Wrappers
  import opened SendQueue
  import opened SendProtocol

  /** The message a send has in hand and has not yet queued or given up. */
  function Hand(pc: Pc): Option<bytes> {
    if pc.Checked? || pc.Locked? || pc.Loaded? then Some(pc.msg) else None
  }

  function InHand(pc: Pc): multiset<bytes> {
    if Hand(pc).Some? then multiset{Hand(pc).value} else multiset{}
  }

  ghost function Hands(pcs: map<nat, Pc>, ts: set<nat>): multiset<bytes>
    requires ts <= pcs.Keys
  {
    if ts == {} then multiset{} else InHand(pcs[Pick(ts)]) + Hands(pcs, ts - {Pick(ts)})
  }

  /** All messages in hand. */
  ghost function Underway(s: State): multiset<bytes> {
    Hands(s.pcs, s.pcs.Keys)
  }

  lemma SumSwap(a: multiset<bytes>, b: multiset<bytes>, c: multiset<bytes>)
    ensures a + (b + c) == b + (a + c)
  {
  }

  lemma {:induction false} HandsSplit(pcs: map<nat, Pc>, ts: set<nat>, t: nat)
    requires ts <= pcs.Keys && t in ts
    ensures Hands(pcs, ts) == InHand(pcs[t]) + Hands(pcs, ts - {t})
    decreases |ts|
  {
    hide InHand;
    var u := Pick(ts);
    if u != t {
      HandsSplit(pcs, ts - {u}, t);
      HandsSplit(pcs, ts - {t}, u);
      assert ts - {u} - {t} == ts - {t} - {u};
      SumSwap(InHand(pcs[u]), InHand(pcs[t]), Hands(pcs, ts - {t} - {u}));
    }
  }

  lemma {:induction false} HandsAgree(pcs: map<nat, Pc>, qcs: map<nat, Pc>, ts: set<nat>)
    requires ts <= pcs.Keys && ts <= qcs.Keys && forall t | t in ts :: pcs[t] == qcs[t]
    ensures Hands(pcs, ts) == Hands(qcs, ts)
    decreases |ts|
  {
    hide InHand;
    if ts != {} {
      HandsAgree(pcs, qcs, ts - {Pick(ts)});
    }
  }

  /** Every other thread keeps what it has in hand. */
  lemma OneMoves(s: State, s': State, t: nat) returns (others: multiset<bytes>)
    requires OnlyMoved(s, s', t)
    ensures Underway(s) == InHand(At(s, t)) + others && Underway(s') == InHand(At(s', t)) + others
  {
    hide InHand;
    var rest := s.pcs.Keys - {t};
    others := Hands(s.pcs, rest);
    HandsSplit(s'.pcs, s'.pcs.Keys, t);
    assert s'.pcs.Keys - {t} == rest;
    HandsAgree(s.pcs, s'.pcs, rest);
    if t in s.pcs {
      HandsSplit(s.pcs, s.pcs.Keys, t);
    } else {
      assert rest == s.pcs.Keys;
      assert InHand(Idle) + others == others by { NothingInHand(others); }
    }
  }

  lemma NothingInHand(others: multiset<bytes>)
    ensures InHand(Idle) + others == others
  {
  }

  /** What was accepted, and what still may be. */
  ghost function Account(s: State): multiset<bytes> {
    multiset(s.h.accepted) + Underway(s)
  }

  /** What a step of a thread does to the message it has in hand. */
  ghost predicate HandMove(s: State, s': State, t: nat) {
    || (s'.h.accepted == s.h.accepted && (Hand(At(s', t)).None? || Hand(At(s', t)) == Hand(At(s, t))))
    || (At(s, t).Loaded? && s'.h.accepted == s.h.accepted + [At(s, t).msg] && Hand(At(s', t)).None?)
  }

  ghost predicate HandStep(s: State, s': State, t: nat) {
    HandMove(s, s', t) && (s.sh.closed ==> s'.sh.closed)
  }

  lemma EnqueueHand(s: State, t: nat)
    requires Enqueuing(At(s, t))
    ensures HandStep(s, EnqueueStep(s, t), t)
  {
  }

  lemma WriteHand(s: State, t: nat)
    requires InDoWrite(At(s, t))
    ensures HandStep(s, WriteStep(s, t), t)
  {
    hide BatchLen, Flatten;
  }

  lemma CompletionHand(s: State, t: nat)
    requires !Enqueuing(At(s, t)) && !InDoWrite(At(s, t)) && !At(s, t).Idle?
    ensures HandStep(s, CompletionStep(s, t), t)
  {
  }

  lemma StepHand(s: State, t: nat)
    requires Enabled(s, Step(t)) && LockInv(s) && OwnerInv(s)
    ensures OnlyMoved(s, Advance(s, t), t) && HandStep(s, Advance(s, t), t)
  {
    hide EnqueueStep, WriteStep, CompletionStep, HandStep, LockInv, OwnerInv, LockMove, OwnerMove, OnlyMoved;
    StepMovesOne(s, t);
    if Enqueuing(At(s, t)) {
      EnqueueHand(s, t);
    } else if InDoWrite(At(s, t)) {
      WriteHand(s, t);
    } else {
      CompletionHand(s, t);
    }
  }

  lemma AccountMove(s: State, s': State, t: nat)
    requires OnlyMoved(s, s', t) && HandMove(s, s', t)
    ensures Account(s') <= Account(s) && s.h.accepted <= s'.h.accepted
  {
    var others := OneMoves(s, s', t);
    hide Underway;
    if s'.h.accepted != s.h.accepted {
      var msg := At(s, t).msg;
      assert multiset(s.h.accepted + [msg]) == multiset(s.h.accepted) + multiset{msg};
    }
  }

  /** Once closed, a channel stays closed, and no event adds to what it may yet accept. */
  lemma ClosedStep(s: State, e: Event)
    requires Inv(s) && Enabled(s, e) && s.sh.closed
    ensures Do(s, e).sh.closed && Account(Do(s, e)) <= Account(s) && s.h.accepted <= Do(s, e).h.accepted
  {
    hide DataInv, AcceptInv, KickInv, Account;
    match e
    case Step(t) =>
      StepHand(s, t);
      AccountMove(s, Advance(s, t), t);
    case Complete(t, i) => SocketHand(s, e);
    case Fail(t, i) => SocketHand(s, e);
    case _ =>
      assert Account(Do(s, e)) == Account(s) by { SameAccount(s, Do(s, e)); }
  }

  /** What closes a channel: a close from outside, a send over the limit, and a failed write. */
  lemma ClosesIff(s: State, e: Event)
    requires Inv(s) && Enabled(s, e)
    ensures Do(s, e).sh.closed <==>
              s.sh.closed || e.CloseChannel? || (e.Step? && (At(s, e.t).Rejected? || At(s, e.t).Failing?))
  {
    hide Inv, BatchLen, Flatten;
  }

  lemma SameAccount(s: State, s': State)
    requires s'.pcs == s.pcs && s'.h.accepted == s.h.accepted
    ensures Account(s') == Account(s)
  {
  }

  lemma SocketHand(s: State, e: Event)
    requires OwnerInv(s) && Enabled(s, e) && (e.Complete? || e.Fail?)
    ensures var s' := SocketStep(s, e);
            s'.sh == s.sh && s'.h.accepted == s.h.accepted && Account(s') <= Account(s)
  {
    SocketMoves(s, e);
    AccountMove(s, SocketStep(s, e), e.t);
  }

  /** After a close: the channel never opens again, what it had accepted stays accepted in order,
      and what it accepts yet are messages of sends that were under way, each at most once. */
  lemma {:induction false} ClosedForGood(s: State, events: seq<Event>)
    requires Inv(s) && s.sh.closed && Runs(s, events)
    ensures var s' := After(s, events);
            && s'.sh.closed && s.h.accepted <= s'.h.accepted
            && multiset(s'.h.accepted) <= multiset(s.h.accepted) + Underway(s)
    ensures Account(After(s, events)) <= Account(s)
    decreases |events|
  {
    if events != [] {
      ClosedStep(s, events[0]);
      DoKeeps(s, events[0]);
      hide Inv, Do, Enabled;
      ClosedForGood(Do(s, events[0]), events[1..]);
    }
  }

  lemma {:induction false} EmptyHands(pcs: map<nat, Pc>, ts: set<nat>)
    requires ts <= pcs.Keys && forall t | t in ts :: Hand(pcs[t]).None?
    ensures Hands(pcs, ts) == multiset{}
    decreases |ts|
  {
    if ts != {} {
      EmptyHands(pcs, ts - {Pick(ts)});
    }
  }

  /** With no send under way, a closed channel accepts nothing ever again. */
  lemma ClosedTakesNothing(before: seq<Event>, events: seq<Event>)
    requires Runs(INITIAL, before) && Runs(After(INITIAL, before), events)
    requires var s := After(INITIAL, before);
             s.sh.closed && forall t: nat :: Hand(At(s, t)).None?
    ensures After(After(INITIAL, before), events).h.accepted == After(INITIAL, before).h.accepted
  {
    hide Inv, Runs, After;
    InitialInv();
    RunKeeps(INITIAL, before);
    var s := After(INITIAL, before);
    var s' := After(s, events);
    assert Underway(s) == multiset{} by {
      assert forall t | t in s.pcs :: s.pcs[t] == At(s, t);
      EmptyHands(s.pcs, s.pcs.Keys);
    }
    ClosedForGood(s, events);
    hide Underway, Account;
    assert |multiset(s'.h.accepted)| == |s'.h.accepted| && |multiset(s.h.accepted)| == |s.h.accepted|;
    SameSize(multiset(s.h.accepted), multiset(s'.h.accepted));
  }

  lemma SameSize(a: multiset<bytes>, b: multiset<bytes>)
    requires b <= a
    ensures |b| <= |a|
  {
    assert a == b + (a - b);
  }
}
