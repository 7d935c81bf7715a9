/** The send path under true concurrency: any number of threads interleaving at
    every shared access, with the spin lock, the writer flag and the byte counter
    as separate atomic variables. Accesses are taken to be sequentially consistent. */
module SendProtocol {
  import opened Bytes
  import opened Wrappers
  import opened SendQueue

  /** Where a thread stands in send, enqueue_send_, do_write, make_batch_ or in the
      completion handler of a write. */
  datatype Pc =
    | Idle
    | Checked(msg: bytes)             // channel was open, message copied
    | Locked(msg: bytes)              // holds the lock
    | Loaded(msg: bytes, cur: int)    // has read the counter
    | Pushed(msg: bytes, cur: int)    // has queued the message
    | Stored                          // has written the counter
    | Counted                         // has counted the message
    | Ready                           // lock released, about to try for the writer flag
    | Refused                         // over the limit, holds the lock
    | Rejected                        // over the limit, about to close
    | Writing                         // holds the writer flag
    | Batching                        // holds the writer flag and the lock
    | Starting(batch: bytes, msgs: nat) // batch made, about to hand it to the socket
    | Emptied                         // no batch, about to free the writer flag
    | Wrote(n: nat, msgs: nat)        // completion: about to reduce the counter
    | Subtracted(msgs: nat)           // completion: about to count the messages
    | Finished                        // completion: about to free the writer flag
    | Released                        // completion: about to look at the queue
    | Retrying                        // completion: about to try for the writer flag
    | Failing                         // completion with an error: about to close

  /** A write the socket is working on; `done` bytes have left. */
  datatype Transfer = Transfer(batch: bytes, msgs: nat, done: nat)

  datatype Owner = Nobody | Thread(t: nat) | Socket | Gone

  /** The channel's shared variables. */
  datatype Shared = Shared(
    queue: seq<bytes>, counter: int, closed: bool, writing: bool, lock: bool, enq: int, deq: int, drops: int)

  /** What the properties speak about; no transition depends on it. */
  datatype History = History(
    accepted: seq<bytes>,   // messages in the order they were queued
    deadBytes: nat,         // size of the write that failed
    deadMsgs: nat,
    missed: nat,            // subtracted since the lock holder read the counter
    lost: nat,              // subtracted but overwritten by a later store
    stranded: bool,         // a sender gave up on a writer that was past looking, and none came since
    holder: Option<nat>,    // thread inside the lock
    owner: Owner)           // who has the writer flag

  datatype State = State(sh: Shared, pcs: map<nat, Pc>, flights: seq<Transfer>, wire: bytes, h: History)

  function At(s: State, t: nat): Pc {
    if t in s.pcs then s.pcs[t] else Idle
  }

  /** Thread t moves on, changing the shared variables and the history. */
  function Move(s: State, t: nat, pc: Pc, sh: Shared, h: History): State {
    s.(pcs := s.pcs[t := pc], sh := sh, h := h)
  }

  const WORD := 0x1_0000_0000_0000_0000

  /** fetch_sub on a 64-bit counter. */
  function Sub64(a: int, n: nat): int {
    (a - n) % WORD
  }

  // ---- transitions ---------------------------------------------------------------

  datatype Event =
    | Call(t: nat, msg: bytes)     // a thread calls send
    | Step(t: nat)                 // a thread performs its next access
    | Transmit(i: nat, n: nat)     // the socket sends n more bytes of a write
    | Complete(t: nat, i: nat)     // a write ends; its handler starts on thread t
    | Fail(t: nat, i: nat)         // a write fails; its handler starts on thread t
    | CloseChannel                 // closed for any other reason

  predicate Enabled(s: State, e: Event) {
    match e
    case Call(t, msg) => At(s, t).Idle?
    case Step(t) => !At(s, t).Idle? && ((At(s, t).Checked? || At(s, t).Writing?) ==> !s.sh.lock)
    case Transmit(i, n) => i < |s.flights| && s.flights[i].done + n <= |s.flights[i].batch|
    case Complete(t, i) => At(s, t).Idle? && i < |s.flights| && s.flights[i].done == |s.flights[i].batch|
    case Fail(t, i) => At(s, t).Idle? && i < |s.flights|
    case CloseChannel => true
  }

  /** send and enqueue_send_ up to the release of the lock. */
  function EnqueueStep(s: State, t: nat): State {
    match At(s, t)
    case Checked(msg) => Move(s, t, Locked(msg), s.sh.(lock := true), s.h.(holder := Some(t)))
    case Locked(msg) => Move(s, t, Loaded(msg, s.sh.counter), s.sh, s.h.(missed := 0))
    case Loaded(msg, cur) =>
      if cur + |msg| > MAX_QUEUE_BYTES then Move(s, t, Refused, s.sh.(drops := s.sh.drops + 1), s.h)
      else Move(s, t, Pushed(msg, cur), s.sh.(queue := s.sh.queue + [msg]),
                s.h.(accepted := s.h.accepted + [msg]))
    case Pushed(msg, cur) =>
      Move(s, t, Stored, s.sh.(counter := cur + |msg|), s.h.(lost := s.h.lost + s.h.missed, missed := 0))
    case Stored => Move(s, t, Counted, s.sh.(enq := s.sh.enq + 1), s.h)
    case Counted => Move(s, t, Ready, s.sh.(lock := false), s.h.(holder := None))
    case Refused => Move(s, t, Rejected, s.sh.(lock := false), s.h.(holder := None))
    case Rejected => Move(s, t, Idle, s.sh.(closed := true), s.h)
    case _ => s
  }

  /** compare_exchange_strong on the writer flag. */
  function CompareExchange(s: State, t: nat): State {
    if s.sh.writing then
      var late := s.sh.queue != [] && s.h.owner.Thread? && At(s, s.h.owner.t).Emptied?;
      Move(s, t, Idle, s.sh, s.h.(stranded := s.h.stranded || late))
    else Move(s, t, Writing, s.sh.(writing := true), s.h.(owner := Thread(t), stranded := false))
  }

  /** The attempt on the writer flag, do_write and make_batch_. */
  function WriteStep(s: State, t: nat): State {
    match At(s, t)
    case Ready => CompareExchange(s, t)
    case Retrying => CompareExchange(s, t)
    case Writing => Move(s, t, Batching, s.sh.(lock := true), s.h.(holder := Some(t)))
    case Batching =>
      var k := BatchLen(s.sh.queue);
      var pc := if k == 0 then Emptied else Starting(Flatten(s.sh.queue[..k]), k);
      Move(s, t, pc, s.sh.(lock := false, queue := s.sh.queue[k..]), s.h.(holder := None))
    case Starting(batch, msgs) =>
      Move(s, t, Idle, s.sh, s.h.(owner := Socket)).(flights := s.flights + [Transfer(batch, msgs, 0)])
    case Emptied => Move(s, t, Idle, s.sh.(writing := false), s.h.(owner := Nobody))
    case _ => s
  }

  /** The completion handler of a write. */
  function CompletionStep(s: State, t: nat): State {
    match At(s, t)
    case Wrote(n, msgs) =>
      Move(s, t, Subtracted(msgs), s.sh.(counter := Sub64(s.sh.counter, n)), s.h.(missed := s.h.missed + n))
    case Subtracted(msgs) => Move(s, t, Finished, s.sh.(deq := s.sh.deq + msgs), s.h)
    case Finished => Move(s, t, Released, s.sh.(writing := false), s.h.(owner := Nobody))
    case Released => Move(s, t, if s.sh.queue == [] then Idle else Retrying, s.sh, s.h)
    case Failing => Move(s, t, Idle, s.sh.(closed := true), s.h)
    case _ => s
  }

  predicate Enqueuing(pc: Pc) {
    || pc.Checked? || pc.Locked? || pc.Loaded? || pc.Pushed? || pc.Stored? || pc.Counted?
    || pc.Refused? || pc.Rejected?
  }

  predicate InDoWrite(pc: Pc) {
    pc.Ready? || pc.Retrying? || pc.Writing? || pc.Batching? || pc.Starting? || pc.Emptied?
  }

  function Advance(s: State, t: nat): State {
    if Enqueuing(At(s, t)) then EnqueueStep(s, t)
    else if InDoWrite(At(s, t)) then WriteStep(s, t)
    else CompletionStep(s, t)
  }

  function Remove<T>(xs: seq<T>, i: nat): seq<T>
    requires i < |xs|
  {
    xs[..i] + xs[i + 1..]
  }

  /** The socket makes progress on, finishes or fails a write. */
  function SocketStep(s: State, e: Event): State
    requires Enabled(s, e) && (e.Transmit? || e.Complete? || e.Fail?)
  {
    var f := s.flights[e.i];
    match e
    case Transmit(i, n) =>
      s.(wire := s.wire + f.batch[f.done..f.done + n], flights := s.flights[i := f.(done := f.done + n)])
    case Complete(t, i) =>
      Move(s, t, Wrote(|f.batch|, f.msgs), s.sh, s.h.(owner := Thread(t))).(flights := Remove(s.flights, i))
    case Fail(t, i) =>
      var h := s.h.(owner := Gone, deadBytes := s.h.deadBytes + |f.batch|, deadMsgs := s.h.deadMsgs + f.msgs);
      Move(s, t, Failing, s.sh, h).(flights := Remove(s.flights, i))
  }

  function Do(s: State, e: Event): State
    requires Enabled(s, e)
  {
    match e
    case Call(t, msg) => if s.sh.closed || msg == [] then s else Move(s, t, Checked(msg), s.sh, s.h)
    case Step(t) => Advance(s, t)
    case CloseChannel => s.(sh := s.sh.(closed := true))
    case _ => SocketStep(s, e)
  }

  const INITIAL := State(Shared([], 0, false, false, false, 0, 0, 0), map[], [], [],
                         History([], 0, 0, 0, 0, false, None, Nobody))

  /** A run: events applied in turn, each enabled where it happens. */
  ghost predicate Runs(s: State, events: seq<Event>)
    decreases |events|
  {
    events == [] || (Enabled(s, events[0]) && Runs(Do(s, events[0]), events[1..]))
  }

  ghost function After(s: State, events: seq<Event>): State
    requires Runs(s, events)
    decreases |events|
  {
    if events == [] then s else After(Do(s, events[0]), events[1..])
  }

  // ---- who holds what ------------------------------------------------------------

  predicate InLock(pc: Pc) {
    pc.Locked? || pc.Loaded? || pc.Pushed? || pc.Stored? || pc.Counted? || pc.Refused? || pc.Batching?
  }

  predicate OwnsFlag(pc: Pc) {
    || pc.Writing? || pc.Batching? || pc.Starting? || pc.Emptied?
    || pc.Wrote? || pc.Subtracted? || pc.Finished?
  }

  ghost predicate LockInv(s: State) {
    && (s.sh.lock <==> s.h.holder.Some?)
    && forall t: nat :: InLock(At(s, t)) <==> s.h.holder == Some(t)
  }

  ghost predicate OwnerInv(s: State) {
    && (s.sh.writing <==> !s.h.owner.Nobody?)
    && (forall t: nat :: OwnsFlag(At(s, t)) <==> s.h.owner == Thread(t))
    && (if s.h.owner.Socket? then |s.flights| == 1 && s.flights[0].done <= |s.flights[0].batch|
        else s.flights == [])
  }

  /** At most thread t moved, and it changed the lock only by entering or leaving it. */
  ghost predicate LockMove(s: State, s': State, t: nat) {
    && s'.pcs == s.pcs[t := At(s', t)]
    && (if InLock(At(s, t)) == InLock(At(s', t)) then s'.sh.lock == s.sh.lock && s'.h.holder == s.h.holder
        else if InLock(At(s', t)) then !s.sh.lock && s'.sh.lock && s'.h.holder == Some(t)
        else !s'.sh.lock && s'.h.holder == None)
  }

  /** At most thread t moved, and the writer flag went from t or to t, if anywhere. */
  ghost predicate OwnerMove(s: State, s': State, t: nat) {
    && s'.pcs == s.pcs[t := At(s', t)]
    && (s'.sh.writing <==> !s'.h.owner.Nobody?)
    && (if s'.h.owner == s.h.owner then OwnsFlag(At(s, t)) == OwnsFlag(At(s', t))
        else
          && (s.h.owner.Thread? ==> s.h.owner.t == t)
          && (OwnsFlag(At(s', t)) <==> s'.h.owner.Thread?)
          && (s'.h.owner.Thread? ==> s'.h.owner.t == t))
  }

  lemma LockMoveKeeps(s: State, s': State, t: nat)
    requires LockInv(s) && LockMove(s, s', t)
    ensures LockInv(s')
  {
    forall x: nat
      ensures InLock(At(s', x)) <==> s'.h.holder == Some(x)
    {
      assert InLock(At(s, x)) <==> s.h.holder == Some(x);
      assert x != t ==> At(s', x) == At(s, x);
    }
  }

  lemma OwnerMoveKeeps(s: State, s': State, t: nat)
    requires OwnerInv(s) && OwnerMove(s, s', t)
    ensures forall x: nat :: OwnsFlag(At(s', x)) <==> s'.h.owner == Thread(x)
  {
    forall x: nat
      ensures OwnsFlag(At(s', x)) <==> s'.h.owner == Thread(x)
    {
      assert OwnsFlag(At(s, x)) <==> s.h.owner == Thread(x);
      assert OwnsFlag(At(s, t)) <==> s.h.owner == Thread(t);
      assert x != t ==> At(s', x) == At(s, x);
    }
  }

  lemma EnqueueMoves(s: State, t: nat)
    requires Enqueuing(At(s, t)) && Enabled(s, Step(t)) && OwnerInv(s)
    ensures LockMove(s, EnqueueStep(s, t), t) && OwnerMove(s, EnqueueStep(s, t), t)
    ensures EnqueueStep(s, t).h.owner == s.h.owner && EnqueueStep(s, t).flights == s.flights
  {
  }

  lemma WriteMoves(s: State, t: nat)
    requires InDoWrite(At(s, t)) && Enabled(s, Step(t)) && OwnerInv(s)
    ensures LockMove(s, WriteStep(s, t), t) && OwnerMove(s, WriteStep(s, t), t)
    ensures OwnerInv(WriteStep(s, t))
  {
    hide BatchLen;
    var s' := WriteStep(s, t);
    assert OwnsFlag(At(s, t)) <==> s.h.owner == Thread(t);
    OwnerMoveKeeps(s, s', t);
  }

  lemma CompletionMoves(s: State, t: nat)
    requires !Enqueuing(At(s, t)) && !InDoWrite(At(s, t)) && Enabled(s, Step(t)) && OwnerInv(s)
    ensures LockMove(s, CompletionStep(s, t), t) && OwnerMove(s, CompletionStep(s, t), t)
    ensures OwnerInv(CompletionStep(s, t))
  {
    var s' := CompletionStep(s, t);
    assert OwnsFlag(At(s, t)) <==> s.h.owner == Thread(t);
    OwnerMoveKeeps(s, s', t);
  }

  lemma SocketMoves(s: State, e: Event)
    requires Enabled(s, e) && (e.Complete? || e.Fail?) && OwnerInv(s)
    ensures LockMove(s, SocketStep(s, e), e.t) && OwnerMove(s, SocketStep(s, e), e.t)
    ensures OwnerInv(SocketStep(s, e)) && e.i == 0 && s.h.owner.Socket?
  {
    var s' := SocketStep(s, e);
    OwnerMoveKeeps(s, s', e.t);
  }

  /** What the thread inside the lock is doing. */
  function Held(s: State): Pc {
    if s.h.holder.Some? then At(s, s.h.holder.value) else Idle
  }

  /** What the thread with the writer flag is doing. */
  function Own(s: State): Pc {
    if s.h.owner.Thread? then At(s, s.h.owner.t) else Idle
  }

  lemma HeldAfter(s: State, s': State, t: nat)
    requires LockInv(s) && LockMove(s, s', t)
    ensures Held(s') == if InLock(At(s', t)) then At(s', t) else if InLock(At(s, t)) then Idle else Held(s)
  {
    assert InLock(At(s, t)) <==> s.h.holder == Some(t);
  }

  lemma OwnAfter(s: State, s': State, t: nat)
    requires OwnerInv(s) && OwnerMove(s, s', t)
    ensures Own(s') == if OwnsFlag(At(s', t)) then At(s', t)
                       else if OwnsFlag(At(s, t)) || s'.h.owner != s.h.owner then Idle else Own(s)
  {
    OwnerMoveKeeps(s, s', t);
    assert OwnsFlag(At(s, t)) <==> s.h.owner == Thread(t);
    assert OwnsFlag(At(s', t)) <==> s'.h.owner == Thread(t);
  }

  // ---- the data invariants -------------------------------------------------------

  /** Bytes taken from the queue that have not reached the wire. */
  function Unsent(own: Pc, flights: seq<Transfer>): bytes {
    if own.Starting? then own.batch
    else if flights != [] && flights[0].done <= |flights[0].batch| then flights[0].batch[flights[0].done..]
    else []
  }

  /** Bytes taken from the queue that the counter still includes. */
  function InFlightBytes(own: Pc, flights: seq<Transfer>): nat {
    if own.Starting? then |own.batch| else if own.Wrote? then own.n
    else if flights != [] then |flights[0].batch| else 0
  }

  function InFlightMsgs(own: Pc, flights: seq<Transfer>): nat {
    if own.Starting? || own.Wrote? || own.Subtracted? then own.msgs
    else if flights != [] then flights[0].msgs else 0
  }

  /** The accepted bytes are on the wire, on their way or queued, in lock order. */
  ghost predicate BytesInv(s: State) {
    if s.h.owner.Gone? then s.wire <= Flatten(s.h.accepted)
    else s.wire + Unsent(Own(s), s.flights) + Flatten(s.sh.queue) == Flatten(s.h.accepted)
  }

  /** What an exact counter would read, plus the subtractions that were overwritten. */
  function Tally(s: State): nat {
    Size(s.sh.queue) + InFlightBytes(Own(s), s.flights) + s.h.deadBytes + s.h.lost
  }

  ghost predicate CountInv(s: State) {
    && s.sh.counter <= MAX_QUEUE_BYTES
    && match Held(s)
       case Loaded(_, cur) => s.sh.counter == Tally(s) && cur == s.sh.counter + s.h.missed <= MAX_QUEUE_BYTES
       case Pushed(msg, cur) =>
         && s.sh.counter + |msg| == Tally(s) && |msg| <= Size(s.sh.queue)
         && cur == s.sh.counter + s.h.missed && cur + |msg| <= MAX_QUEUE_BYTES
       case _ => s.sh.counter == Tally(s)
  }

  ghost predicate MsgInv(s: State) {
    && s.sh.enq + (if Held(s).Pushed? || Held(s).Stored? then 1 else 0) == |s.h.accepted|
    && |s.h.accepted| == s.sh.deq + |s.sh.queue| + InFlightMsgs(Own(s), s.flights) + s.h.deadMsgs
  }

  ghost predicate DataInv(s: State) {
    BytesInv(s) && CountInv(s) && MsgInv(s)
  }

  lemma EnqueueKeeps(s: State, t: nat)
    requires Enqueuing(At(s, t)) && Enabled(s, Step(t))
    requires LockInv(s) && OwnerInv(s) && DataInv(s)
    ensures DataInv(EnqueueStep(s, t))
  {
    hide Flatten, Size, Unsent, InFlightBytes, InFlightMsgs;
    var s' := EnqueueStep(s, t);
    EnqueueMoves(s, t);
    HeldAfter(s, s', t);
    OwnAfter(s, s', t);
    assert InLock(At(s, t)) <==> s.h.holder == Some(t);
    assert OwnsFlag(At(s, t)) <==> s.h.owner == Thread(t);
    hide LockInv, OwnerInv, LockMove, OwnerMove;
    if At(s, t).Loaded? {
      var msg := At(s, t).msg;
      SizeSnoc(s.sh.queue, msg);
      FlattenSnoc(s.sh.queue, msg);
      FlattenSnoc(s.h.accepted, msg);
      SeqAssociates(s.wire + Unsent(Own(s), s.flights), Flatten(s.sh.queue), msg);
    }
  }

  lemma BatchKeeps(s: State, t: nat)
    requires At(s, t).Batching? && LockInv(s) && OwnerInv(s) && DataInv(s)
    ensures DataInv(WriteStep(s, t))
  {
    hide Flatten, Size, BatchLen, MaximalBatch;
    var s' := WriteStep(s, t);
    WriteMoves(s, t);
    HeldAfter(s, s', t);
    OwnAfter(s, s', t);
    assert InLock(At(s, t)) <==> s.h.holder == Some(t);
    assert OwnsFlag(At(s, t)) <==> s.h.owner == Thread(t);
    assert s.flights == [];
    hide LockInv, OwnerInv, LockMove, OwnerMove;
    SplitBatch(s.sh.queue);
    var k := BatchLen(s.sh.queue);
    assert s.wire + [] == s.wire;
    if k == 0 {
      assert s.sh.queue[k..] == s.sh.queue;
    } else {
      SeqAssociates(s.wire, Flatten(s.sh.queue[..k]), Flatten(s.sh.queue[k..]));
    }
  }

  lemma SplitBatch(queue: seq<bytes>)
    ensures var k := BatchLen(queue);
            && k <= |queue| && Flatten(queue) == Flatten(queue[..k]) + Flatten(queue[k..])
            && Size(queue) == |Flatten(queue[..k])| + Size(queue[k..])
  {
    var k := BatchLen(queue);
    assert queue == queue[..k] + queue[k..];
    FlattenAppend(queue[..k], queue[k..]);
  }

  lemma WriteKeeps(s: State, t: nat)
    requires InDoWrite(At(s, t)) && Enabled(s, Step(t))
    requires LockInv(s) && OwnerInv(s) && DataInv(s)
    ensures DataInv(WriteStep(s, t))
  {
    hide Flatten, Size, BatchLen;
    if At(s, t).Batching? {
      BatchKeeps(s, t);
      return;
    }
    var s' := WriteStep(s, t);
    WriteMoves(s, t);
    HeldAfter(s, s', t);
    OwnAfter(s, s', t);
    assert InLock(At(s, t)) <==> s.h.holder == Some(t);
    assert OwnsFlag(At(s, t)) <==> s.h.owner == Thread(t);
    assert s'.h.owner.Socket? && !s.h.owner.Socket? ==> s.flights == [];
    hide LockInv, OwnerInv, LockMove, OwnerMove;
  }

  /** The unlocked subtraction never wraps, even while a sender holds a stale reading. */
  lemma SubtractKeeps(s: State, t: nat)
    requires At(s, t).Wrote? && LockInv(s) && OwnerInv(s) && DataInv(s)
    ensures At(s, t).n <= s.sh.counter && DataInv(CompletionStep(s, t))
  {
    hide Flatten, Size;
    var s' := CompletionStep(s, t);
    CompletionMoves(s, t);
    HeldAfter(s, s', t);
    OwnAfter(s, s', t);
    assert InLock(At(s, t)) <==> s.h.holder == Some(t);
    assert OwnsFlag(At(s, t)) <==> s.h.owner == Thread(t);
    assert s.flights == [];
    hide LockInv, OwnerInv, LockMove, OwnerMove;
    assert At(s, t).n <= s.sh.counter;
    assert s'.sh.counter == s.sh.counter - At(s, t).n;
  }

  lemma CompletionKeeps(s: State, t: nat)
    requires !Enqueuing(At(s, t)) && !InDoWrite(At(s, t)) && Enabled(s, Step(t))
    requires LockInv(s) && OwnerInv(s) && DataInv(s)
    ensures DataInv(CompletionStep(s, t))
  {
    hide Flatten, Size;
    if At(s, t).Wrote? {
      SubtractKeeps(s, t);
      return;
    }
    var s' := CompletionStep(s, t);
    CompletionMoves(s, t);
    HeldAfter(s, s', t);
    OwnAfter(s, s', t);
    assert InLock(At(s, t)) <==> s.h.holder == Some(t);
    assert OwnsFlag(At(s, t)) <==> s.h.owner == Thread(t);
    assert s.h.owner.Thread? ==> s.flights == [];
    hide LockInv, OwnerInv, LockMove, OwnerMove;
  }

  lemma SocketKeeps(s: State, e: Event)
    requires Enabled(s, e) && (e.Complete? || e.Fail?)
    requires LockInv(s) && OwnerInv(s) && DataInv(s)
    ensures DataInv(SocketStep(s, e))
  {
    hide Flatten, Size;
    var s' := SocketStep(s, e);
    SocketMoves(s, e);
    HeldAfter(s, s', e.t);
    OwnAfter(s, s', e.t);
    assert s'.flights == [];
    hide LockInv, OwnerInv, LockMove, OwnerMove;
    var rest := Unsent(Own(s), s.flights);
    SeqAssociates(s.wire, rest, Flatten(s.sh.queue));
  }

  lemma TransmitKeeps(s: State, e: Event)
    requires Enabled(s, e) && e.Transmit?
    requires LockInv(s) && OwnerInv(s) && DataInv(s)
    ensures LockInv(SocketStep(s, e)) && OwnerInv(SocketStep(s, e)) && DataInv(SocketStep(s, e))
  {
    var s' := SocketStep(s, e);
    assert forall t: nat :: At(s', t) == At(s, t);
    assert Held(s') == Held(s) && Own(s') == Own(s);
    hide Flatten, Size;
    var f := s.flights[0];
    assert f.batch[f.done..] == f.batch[f.done..f.done + e.n] + f.batch[f.done + e.n..];
    SeqAssociates(s.wire, f.batch[f.done..f.done + e.n], f.batch[f.done + e.n..]);
  }

  // ---- accepted messages, and who will look at the queue next --------------------

  predicate MsgOk(pc: Pc) {
    pc.Checked? || pc.Locked? || pc.Loaded? || pc.Pushed? ==> pc.msg != []
  }

  ghost predicate AcceptInv(s: State) {
    && (forall m | m in s.h.accepted :: 0 < |m| <= MAX_QUEUE_BYTES)
    && Remaining(s.h.accepted, s.sh.queue)
    && forall t: nat :: MsgOk(At(s, t))
  }

  ghost predicate OnlyMoved(s: State, s': State, t: nat) {
    s'.pcs == s.pcs[t := At(s', t)]
  }

  lemma StepMovesOne(s: State, t: nat)
    requires Enabled(s, Step(t)) && LockInv(s) && OwnerInv(s)
    ensures OnlyMoved(s, Advance(s, t), t) && LockInv(Advance(s, t)) && OwnerInv(Advance(s, t))
    ensures LockMove(s, Advance(s, t), t) && OwnerMove(s, Advance(s, t), t)
  {
    hide EnqueueStep, WriteStep, CompletionStep;
    var s' := Advance(s, t);
    if Enqueuing(At(s, t)) {
      EnqueueMoves(s, t);
      OwnerMoveKeeps(s, s', t);
    } else if InDoWrite(At(s, t)) {
      WriteMoves(s, t);
    } else {
      CompletionMoves(s, t);
    }
    LockMoveKeeps(s, s', t);
  }

  lemma AcceptOthers(s: State, s': State, t: nat)
    requires AcceptInv(s) && OnlyMoved(s, s', t) && MsgOk(At(s', t))
    ensures forall x: nat :: MsgOk(At(s', x))
  {
    forall x: nat
      ensures MsgOk(At(s', x))
    {
      assert MsgOk(At(s, x));
      assert x != t ==> At(s', x) == At(s, x);
    }
  }

  /** What a step does to the queue. */
  ghost predicate QueueMove(s: State, s': State, t: nat) {
    || (s'.sh.queue == s.sh.queue && s'.h.accepted == s.h.accepted)
    || (At(s, t).Loaded? && At(s, t).cur + |At(s, t).msg| <= MAX_QUEUE_BYTES
        && s'.sh.queue == s.sh.queue + [At(s, t).msg] && s'.h.accepted == s.h.accepted + [At(s, t).msg])
    || (At(s, t).Batching? && s'.h.accepted == s.h.accepted
        && s'.sh.queue == s.sh.queue[BatchLen(s.sh.queue)..])
  }

  lemma QueueMoves(s: State, t: nat)
    ensures QueueMove(s, Advance(s, t), t)
    ensures MsgOk(At(s, t)) ==> MsgOk(At(Advance(s, t), t))
  {
    hide BatchLen, Flatten;
    if Enqueuing(At(s, t)) {
    } else if InDoWrite(At(s, t)) {
    } else {
    }
  }

  lemma AcceptStep(s: State, t: nat)
    requires Enabled(s, Step(t)) && LockInv(s) && OwnerInv(s) && DataInv(s) && AcceptInv(s)
    ensures AcceptInv(Advance(s, t))
  {
    RemainingBatch(s.h.accepted, s.sh.queue);
    hide Advance, BatchLen, Size, Flatten, BytesInv, MsgInv, Remaining;
    var s' := Advance(s, t);
    StepMovesOne(s, t);
    QueueMoves(s, t);
    if At(s, t).Loaded? {
      RemainingPush(s.h.accepted, s.sh.queue, At(s, t).msg);
    }
    assert MsgOk(At(s, t));
    AcceptOthers(s, s', t);
    assert InLock(At(s, t)) <==> s.h.holder == Some(t);
    hide LockInv, OwnerInv;
    if At(s, t).Loaded? {
      assert Held(s) == At(s, t) && At(s, t).cur >= 0;
    }
  }

  /** Threads that will still try for the writer flag. */
  predicate Kicks(pc: Pc) {
    pc.Pushed? || pc.Stored? || pc.Counted? || pc.Ready? || pc.Released? || pc.Retrying?
  }

  /** Messages are queued and the present writer, if any, will not see them. */
  ghost predicate NeedsKick(s: State) {
    s.sh.queue != [] && (s.h.owner.Nobody? || Own(s).Emptied?)
  }

  /** A batch can be made. */
  predicate Batchable(queue: seq<bytes>) {
    queue != [] && |queue[0]| <= MAX_BATCH_BYTES
  }

  ghost predicate SomeKicks(s: State) {
    exists t: nat :: Kicks(At(s, t))
  }

  ghost predicate KickInv(s: State) {
    && (s.h.stranded ==> NeedsKick(s))
    && (!s.h.stranded && Batchable(s.sh.queue) && NeedsKick(s) ==> SomeKicks(s))
  }

  lemma KickCarries(s: State, s': State, t: nat)
    requires SomeKicks(s) && OnlyMoved(s, s', t) && !Kicks(At(s, t))
    ensures SomeKicks(s')
  {
    var u: nat :| Kicks(At(s, u));
    assert At(s', u) == At(s, u);
  }

  lemma KickerStays(s: State, t: nat)
    ensures Enqueuing(At(s, t)) && Kicks(At(s, t)) ==> Kicks(At(Advance(s, t), t))
    ensures At(s, t).Finished? ==> Kicks(At(Advance(s, t), t))
    ensures At(s, t).Released? ==> s.sh.queue == [] || Kicks(At(Advance(s, t), t))
    ensures At(s, t).Loaded? ==> Kicks(At(Advance(s, t), t)) || Advance(s, t).sh.queue == s.sh.queue
    ensures !InDoWrite(At(s, t)) && !At(s, t).Finished? ==> Advance(s, t).h.owner == s.h.owner
    ensures !InDoWrite(At(s, t)) ==> !At(Advance(s, t), t).Emptied?
    ensures !InDoWrite(At(s, t)) ==> Advance(s, t).h.stranded == s.h.stranded
  {
    hide BatchLen, Flatten;
  }

  lemma EnqueueKicks(s: State, t: nat)
    requires Enqueuing(At(s, t)) && Enabled(s, Step(t)) && LockInv(s) && OwnerInv(s) && KickInv(s)
    ensures KickInv(Advance(s, t))
  {
    hide Advance;
    var s' := Advance(s, t);
    StepMovesOne(s, t);
    QueueMoves(s, t);
    KickerStays(s, t);
    OwnAfter(s, s', t);
    if !s'.h.stranded && Batchable(s'.sh.queue) && NeedsKick(s') && !Kicks(At(s', t)) {
      assert s'.sh.queue == s.sh.queue && s'.h.accepted == s.h.accepted;
      assert OwnsFlag(At(s, t)) <==> s.h.owner == Thread(t);
      KickCarries(s, s', t);
    }
  }

  lemma CompareExchangeKicks(s: State, t: nat)
    requires (At(s, t).Ready? || At(s, t).Retrying?) && LockInv(s) && OwnerInv(s) && KickInv(s)
    ensures KickInv(Advance(s, t))
  {
    var s' := Advance(s, t);
    assert OwnsFlag(At(s, t)) <==> s.h.owner == Thread(t);
    WriteMoves(s, t);
    OwnAfter(s, s', t);
  }

  lemma WriteKicks(s: State, t: nat)
    requires InDoWrite(At(s, t)) && Enabled(s, Step(t))
    requires LockInv(s) && OwnerInv(s) && AcceptInv(s) && KickInv(s)
    ensures KickInv(Advance(s, t))
  {
    hide BatchLen, Flatten;
    if At(s, t).Ready? || At(s, t).Retrying? {
      CompareExchangeKicks(s, t);
      return;
    }
    var s' := Advance(s, t);
    assert OwnsFlag(At(s, t)) <==> s.h.owner == Thread(t);
    WriteMoves(s, t);
    OwnAfter(s, s', t);
    if At(s, t).Batching? {
      BatchIsEmpty(s.sh.queue);
    } else if At(s, t).Emptied? {
      assert Own(s).Emptied?;
      if !s'.h.stranded && Batchable(s'.sh.queue) && NeedsKick(s') {
        KickCarries(s, s', t);
      }
    }
  }

  lemma CompletionKicks(s: State, t: nat)
    requires !Enqueuing(At(s, t)) && !InDoWrite(At(s, t)) && Enabled(s, Step(t))
    requires LockInv(s) && OwnerInv(s) && KickInv(s)
    ensures KickInv(Advance(s, t))
  {
    hide Advance;
    var s' := Advance(s, t);
    StepMovesOne(s, t);
    QueueMoves(s, t);
    KickerStays(s, t);
    OwnAfter(s, s', t);
    if !s'.h.stranded && Batchable(s'.sh.queue) && NeedsKick(s') && !Kicks(At(s', t)) {
      assert s'.sh.queue == s.sh.queue && s'.h.accepted == s.h.accepted;
      assert OwnsFlag(At(s, t)) <==> s.h.owner == Thread(t);
      KickCarries(s, s', t);
    }
  }

  // ---- every run ------------------------------------------------------------------

  ghost predicate Inv(s: State) {
    LockInv(s) && OwnerInv(s) && DataInv(s) && AcceptInv(s) && KickInv(s)
  }

  lemma AdvanceKeeps(s: State, t: nat)
    requires Inv(s) && Enabled(s, Step(t))
    ensures Inv(Advance(s, t))
  {
    StepMovesOne(s, t);
    AcceptStep(s, t);
    hide EnqueueStep, WriteStep, CompletionStep, DataInv, AcceptInv, KickInv, LockInv, OwnerInv;
    if Enqueuing(At(s, t)) {
      EnqueueKeeps(s, t);
      EnqueueKicks(s, t);
    } else if InDoWrite(At(s, t)) {
      WriteKeeps(s, t);
      WriteKicks(s, t);
    } else {
      CompletionKeeps(s, t);
      CompletionKicks(s, t);
    }
  }

  lemma CallKeeps(s: State, t: nat, msg: bytes)
    requires Inv(s) && At(s, t).Idle? && msg != []
    ensures Inv(Move(s, t, Checked(msg), s.sh, s.h))
  {
    hide Flatten, Size;
    var s' := Move(s, t, Checked(msg), s.sh, s.h);
    assert LockMove(s, s', t) && OwnerMove(s, s', t);
    LockMoveKeeps(s, s', t);
    OwnerMoveKeeps(s, s', t);
    HeldAfter(s, s', t);
    OwnAfter(s, s', t);
    AcceptOthers(s, s', t);
    if SomeKicks(s) {
      KickCarries(s, s', t);
    }
  }

  lemma SocketStepKeeps(s: State, e: Event)
    requires Inv(s) && Enabled(s, e) && (e.Transmit? || e.Complete? || e.Fail?)
    ensures Inv(SocketStep(s, e))
  {
    hide Flatten, Size;
    var s' := SocketStep(s, e);
    if e.Transmit? {
      TransmitKeeps(s, e);
      assert forall t: nat :: At(s', t) == At(s, t);
    } else {
      SocketMoves(s, e);
      SocketKeeps(s, e);
      LockMoveKeeps(s, s', e.t);
      OwnAfter(s, s', e.t);
      AcceptOthers(s, s', e.t);
    }
  }

  lemma CloseKeeps(s: State)
    requires Inv(s)
    ensures Inv(s.(sh := s.sh.(closed := true)))
  {
    hide Flatten, Size;
    var s' := s.(sh := s.sh.(closed := true));
    assert forall t: nat :: At(s', t) == At(s, t);
    assert Held(s') == Held(s) && Own(s') == Own(s);
  }

  lemma DoKeeps(s: State, e: Event)
    requires Inv(s) && Enabled(s, e)
    ensures Inv(Do(s, e))
  {
    hide Inv, Advance, SocketStep;
    match e
    case Call(t, msg) =>
      if !s.sh.closed && msg != [] {
        CallKeeps(s, t, msg);
      }
    case Step(t) => AdvanceKeeps(s, t);
    case CloseChannel => CloseKeeps(s);
    case _ => SocketStepKeeps(s, e);
  }

  ghost predicate Fresh(s: State) {
    && s.pcs == map[] && s.flights == [] && s.wire == [] && s.h.accepted == []
    && s.sh.queue == [] && s.sh.counter == s.sh.enq == s.sh.deq == 0 && !s.sh.lock && !s.sh.writing
    && s.h.deadBytes == s.h.deadMsgs == s.h.lost == 0 && s.h.holder == None && s.h.owner == Nobody
    && !s.h.stranded
  }

  lemma FreshLocks(s: State)
    requires Fresh(s)
    ensures LockInv(s) && OwnerInv(s)
  {
  }

  lemma FreshData(s: State)
    requires Fresh(s)
    ensures DataInv(s)
  {
  }

  lemma FreshRest(s: State)
    requires Fresh(s)
    ensures AcceptInv(s) && KickInv(s)
  {
  }

  lemma InitialInv()
    ensures Inv(INITIAL)
  {
    hide LockInv, OwnerInv, DataInv, AcceptInv, KickInv;
    FreshLocks(INITIAL);
    FreshData(INITIAL);
    FreshRest(INITIAL);
  }

  lemma {:induction false} RunKeeps(s: State, events: seq<Event>)
    requires Inv(s) && Runs(s, events)
    ensures Inv(After(s, events))
    decreases |events|
  {
    hide Inv, Enabled, Do;
    if events != [] {
      DoKeeps(s, events[0]);
      RunKeeps(Do(s, events[0]), events[1..]);
    }
  }

  /** A write has failed. */
  predicate Broke(s: State) {
    s.h.owner.Gone?
  }

  /** Mutual exclusion, one write at a time, and the wire in lock order. */
  ghost predicate Safe(s: State) {
    && (forall t: nat, u: nat :: InLock(At(s, t)) && InLock(At(s, u)) ==> t == u)
    && (forall t: nat, u: nat :: OwnsFlag(At(s, t)) && OwnsFlag(At(s, u)) ==> t == u)
    && |s.flights| <= 1 && (s.flights != [] ==> forall t: nat :: !OwnsFlag(At(s, t)))
    && s.wire <= Flatten(s.h.accepted)
    && (!Broke(s) ==> s.wire + Unsent(Own(s), s.flights) + Flatten(s.sh.queue) == Flatten(s.h.accepted))
    && (forall m | m in s.h.accepted :: 0 < |m| <= 262144)
  }

  /** The counters outside the lock, exactly; and no subtraction about to happen wraps. */
  ghost predicate CountersAgree(s: State) {
    && 0 <= s.sh.counter <= 262144
    && (forall t: nat :: At(s, t).Wrote? ==> At(s, t).n <= s.sh.counter)
    && (!s.sh.lock ==>
          && s.sh.counter == Size(s.sh.queue) + InFlightBytes(Own(s), s.flights) + s.h.deadBytes + s.h.lost
          && s.sh.enq == s.sh.deq + |s.sh.queue| + InFlightMsgs(Own(s), s.flights) + s.h.deadMsgs)
  }

  ghost predicate Quiet(s: State) {
    s.flights == [] && forall t: nat :: At(s, t).Idle?
  }

  /** When every thread is done and no write failed, all that was accepted has been sent
      exactly when every message fits a batch and no sender's message was stranded. */
  ghost predicate SentWhenQuiet(s: State) {
    Quiet(s) && !Broke(s) ==>
      && (s.sh.queue == [] <==> AllFitBatch(s.h.accepted) && !s.h.stranded)
      && (s.wire == Flatten(s.h.accepted) <==> s.sh.queue == [])
  }

  lemma InvIsSafe(s: State)
    requires Inv(s)
    ensures Safe(s)
  {
    hide Flatten, Size, CountInv, MsgInv, KickInv;
    SeqAssociates(s.wire, Unsent(Own(s), s.flights), Flatten(s.sh.queue));
  }

  lemma InvCounts(s: State)
    requires Inv(s)
    ensures CountersAgree(s)
  {
    hide Flatten, Size, BytesInv, KickInv, AcceptInv;
    forall t: nat | At(s, t).Wrote?
      ensures At(s, t).n <= s.sh.counter
    {
      SubtractKeeps(s, t);
    }
    hide OwnerInv, Tally;
    assert s.sh.counter >= 0 by { assert Tally(s) >= 0; }
  }

  lemma InvSends(s: State)
    requires Inv(s)
    ensures SentWhenQuiet(s)
  {
    if Quiet(s) && !Broke(s) {
      assert forall t: nat :: OwnsFlag(At(s, t)) <==> s.h.owner == Thread(t);
      assert Own(s) == Idle && s.h.owner.Nobody?;
      assert !SomeKicks(s);
      RemainingIsAccepted(s.h.accepted, s.sh.queue);
      if s.sh.queue != [] {
        assert Flatten(s.sh.queue) == s.sh.queue[0] + Flatten(s.sh.queue[1..]);
      }
      hide LockInv, OwnerInv, CountInv, MsgInv, Quiet, SomeKicks, Remaining, Flatten;
      FlattenNothing<byte>();
      assert s.wire + [] == s.wire;
    }
  }

  /** A thread is about to try for the writer flag. */
  predicate Tries(s: State, e: Event) {
    e.Step? && (At(s, e.t).Ready? || At(s, e.t).Retrying?)
  }

  /** It fails with messages queued, against a writer that has already found the queue empty
      and is about to free the flag. */
  ghost predicate ComesLate(s: State, e: Event) {
    Tries(s, e) && s.sh.writing && s.sh.queue != [] && exists u: nat :: At(s, u).Emptied?
  }

  /** No event of the run takes the writer flag. */
  ghost predicate NeverTaken(s: State, events: seq<Event>)
    requires Runs(s, events)
    decreases |events|
  {
    events == [] || (!(Tries(s, events[0]) && !s.sh.writing) && NeverTaken(Do(s, events[0]), events[1..]))
  }

  /** Some thread came late, and nobody has taken the writer flag since. */
  ghost predicate LeftWaiting(s: State, events: seq<Event>)
    requires Runs(s, events)
    decreases |events|
  {
    events != [] &&
      (var s' := Do(s, events[0]);
       (ComesLate(s, events[0]) && NeverTaken(s', events[1..])) || LeftWaiting(s', events[1..]))
  }

  lemma StrandedStep(s: State, e: Event)
    requires Inv(s) && Enabled(s, e)
    ensures Do(s, e).h.stranded <==>
              !(Tries(s, e) && !s.sh.writing) && (s.h.stranded || ComesLate(s, e))
  {
    hide Flatten, Size, BatchLen, DataInv, AcceptInv, KickInv, LockInv;
    assert forall u: nat | At(s, u).Emptied? :: s.h.owner == Thread(u);
  }

  lemma {:induction false} StrandedIff(s: State, events: seq<Event>)
    requires Inv(s) && Runs(s, events)
    ensures After(s, events).h.stranded <==>
              LeftWaiting(s, events) || (s.h.stranded && NeverTaken(s, events))
    decreases |events|
  {
    hide Inv, Enabled, Do, Tries;
    if events != [] {
      StrandedStep(s, events[0]);
      DoKeeps(s, events[0]);
      StrandedIff(Do(s, events[0]), events[1..]);
    }
  }

  /** Every run of every number of threads; and when all is done with no write failed, everything
      was sent exactly when every message accepted fits a batch and nobody was left waiting. */
  lemma EveryRun(events: seq<Event>)
    requires Runs(INITIAL, events)
    ensures var s := After(INITIAL, events); Safe(s) && CountersAgree(s)
    ensures var s := After(INITIAL, events);
            Quiet(s) && !Broke(s) ==>
              && (s.sh.queue == [] <==> AllFitBatch(s.h.accepted) && !LeftWaiting(INITIAL, events))
              && (s.wire == Flatten(s.h.accepted) <==> AllFitBatch(s.h.accepted) && !LeftWaiting(INITIAL, events))
  {
    hide Inv, Runs, After, Safe, CountersAgree, LeftWaiting, NeverTaken, Quiet, AllFitBatch;
    InitialInv();
    RunKeeps(INITIAL, events);
    StrandedIff(INITIAL, events);
    var s := After(INITIAL, events);
    InvIsSafe(s);
    InvCounts(s);
    InvSends(s);
  }

  /** No sender stores a counter value computed from a reading that has since changed. */
  ghost predicate NoStaleStore(s: State, events: seq<Event>)
    requires Runs(s, events)
    decreases |events|
  {
    events == [] ||
      (var e := events[0];
       && (e.Step? && At(s, e.t).Pushed? ==> At(s, e.t).cur == s.sh.counter)
       && NoStaleStore(Do(s, e), events[1..]))
  }

  lemma LostGrows(s: State, e: Event)
    requires Inv(s) && Enabled(s, e)
    ensures Do(s, e).h.lost >= s.h.lost
    ensures Do(s, e).h.lost == s.h.lost <==> (e.Step? && At(s, e.t).Pushed? ==> At(s, e.t).cur == s.sh.counter)
  {
    hide Flatten, Size, BatchLen, BytesInv, MsgInv, AcceptInv, KickInv, OwnerInv;
    if e.Step? {
      assert InLock(At(s, e.t)) <==> s.h.holder == Some(e.t);
    }
  }

  /** The byte counter drifts above the true size exactly when some store is stale. */
  lemma {:induction false} CounterExact(s: State, events: seq<Event>)
    requires Inv(s) && Runs(s, events)
    ensures After(s, events).h.lost >= s.h.lost
    ensures After(s, events).h.lost == s.h.lost <==> NoStaleStore(s, events)
    decreases |events|
  {
    hide Inv, Enabled, Do;
    if events != [] {
      LostGrows(s, events[0]);
      DoKeeps(s, events[0]);
      CounterExact(Do(s, events[0]), events[1..]);
    }
  }
}
