/**
 * Map threads: the packet and task queues that each thread drains while producers keep adding,
 * and the manager that records on which map each player is.
 */
module MapThreads {
  import opened Bytes
  import opened Collections

  datatype Packet = Packet(channel: int, cmd: u16, data: bytes)

  /** A task is named by what it does; only the priority decides when. */
  datatype Task = Task(work: string, priority: int)

  /** The order given to the priority queue: a task is below those with a smaller number. */
  predicate Below(a: Task, b: Task) {
    a.priority > b.priority
  }

  // ---- draining a priority queue that others fill ---------------------------------------------

  function Arriving<T>(arrivals: seq<seq<T>>): seq<T> {
    if arrivals == [] then [] else arrivals[0]
  }

  function Later<T>(arrivals: seq<seq<T>>): seq<seq<T>> {
    if arrivals == [] then [] else arrivals[1..]
  }

  /**
   * ran is a possible run of tasks from the queue q, when arrivals[i] is added while the i-th
   * runs: each is a top of what is then queued, and left is what is queued after the last.
   */
  predicate DrainsTo(q: multiset<Task>, arrivals: seq<seq<Task>>, ran: seq<Task>, left: multiset<Task>)
    decreases ran
  {
    if ran == [] then q == left
    else
      && ran[0] in q
      && (forall t | t in q :: !Below(ran[0], t))
      && DrainsTo(q - multiset{ran[0]} + multiset(Arriving(arrivals)), Later(arrivals), ran[1..], left)
  }

  /** The run goes on until nothing is queued. */
  predicate Drains(q: multiset<Task>, arrivals: seq<seq<Task>>, ran: seq<Task>) {
    DrainsTo(q, arrivals, ran, multiset{})
  }

  /** A task taken and the tasks that arrive meanwhile, in the account of what is still to run. */
  lemma TakeAccount(run: multiset<Task>, queued: multiset<Task>, added: multiset<Task>, t: Task, more: multiset<Task>)
    requires run + queued == added && t in queued
    ensures (run + multiset{t}) + (queued - multiset{t} + more) == added + more
  {
  }

  /** The arrivals up to the end of a run of n tasks. */
  function Arrived(arrivals: seq<seq<Task>>, n: nat): seq<Task> {
    Flatten(arrivals[..if n < |arrivals| then n else |arrivals|])
  }

  lemma ArrivedUnfolds(arrivals: seq<seq<Task>>, n: nat)
    requires n > 0
    ensures Arrived(arrivals, n) == Arriving(arrivals) + Arrived(Later(arrivals), n - 1)
  {
    FlattenNothing<Task>();
    if arrivals != [] {
      var k := if n < |arrivals| then n else |arrivals|;
      assert arrivals[..k][1..] == Later(arrivals)[..k - 1];
    }
  }

  /** Everything queued or added while a task ran is run, each once. */
  lemma {:induction false} DrainConserves(q: multiset<Task>, arrivals: seq<seq<Task>>, ran: seq<Task>)
    requires Drains(q, arrivals, ran)
    ensures multiset(ran) == q + multiset(Arrived(arrivals, |ran|))
    decreases ran
  {
    if ran == [] {
      FlattenNothing<Task>();
      assert arrivals[..0] == [];
    } else {
      var (t, more, later) := (ran[0], Arriving(arrivals), Arrived(Later(arrivals), |ran| - 1));
      DrainConserves(q - multiset{t} + multiset(more), Later(arrivals), ran[1..]);
      hide DrainsTo, Drains, Below;
      ArrivedUnfolds(arrivals, |ran|);
      hide Arrived, Arriving, Later;
      assert ran == [t] + ran[1..];
      ConserveStep(q, t, multiset(more), multiset(later));
      assert multiset(ran) == multiset{t} + multiset(ran[1..]);
      assert multiset(more + later) == multiset(more) + multiset(later);
    }
  }

  lemma ConserveStep(q: multiset<Task>, t: Task, more: multiset<Task>, later: multiset<Task>)
    requires t in q
    ensures multiset{t} + ((q - multiset{t} + more) + later) == q + (more + later)
  {
  }

  /** t is added while one of those from lo to hi runs. */
  predicate ArrivesBetween(arrivals: seq<seq<Task>>, lo: nat, hi: nat, t: Task) {
    exists k :: lo <= k < hi && k < |arrivals| && t in arrivals[k]
  }

  /** A task that runs was queued at the start or was added before. */
  lemma {:induction false} RanWasAdded(q: multiset<Task>, arrivals: seq<seq<Task>>, ran: seq<Task>, j: nat)
    requires Drains(q, arrivals, ran) && j < |ran|
    ensures ran[j] in q || ArrivesBetween(arrivals, 0, j, ran[j])
    decreases ran
  {
    if j > 0 {
      var next := q - multiset{ran[0]} + multiset(Arriving(arrivals));
      RanWasAdded(next, Later(arrivals), ran[1..], j - 1);
      assert ran[1..][j - 1] == ran[j];
      if ArrivesBetween(Later(arrivals), 0, j - 1, ran[j]) {
        var k :| 0 <= k < j - 1 && k < |Later(arrivals)| && ran[j] in Later(arrivals)[k];
        assert ran[j] in arrivals[k + 1];
      } else if ran[j] in Arriving(arrivals) {
        assert ran[j] in arrivals[0];
      }
    }
  }

  /** A task runs before one with a smaller number only if that one was added after it was taken. */
  lemma {:induction false} PriorityRespected(
    q: multiset<Task>, arrivals: seq<seq<Task>>, ran: seq<Task>, i: nat, j: nat)
    requires Drains(q, arrivals, ran) && i < j < |ran|
    ensures ran[i].priority <= ran[j].priority || ArrivesBetween(arrivals, i, j, ran[j])
    decreases ran
  {
    if i == 0 {
      RanWasAdded(q, arrivals, ran, j);
    } else {
      var next := q - multiset{ran[0]} + multiset(Arriving(arrivals));
      PriorityRespected(next, Later(arrivals), ran[1..], i - 1, j - 1);
      assert ran[1..][i - 1] == ran[i] && ran[1..][j - 1] == ran[j];
      if ArrivesBetween(Later(arrivals), i - 1, j - 1, ran[j]) {
        var k :| i - 1 <= k < j - 1 && k < |Later(arrivals)| && ran[j] in Later(arrivals)[k];
        assert ran[j] in arrivals[k + 1];
      }
    }
  }

  /** With nothing added meanwhile, all run sorted by their number. */
  lemma QuietDrainSorts(q: multiset<Task>, ran: seq<Task>)
    requires Drains(q, [], ran)
    ensures multiset(ran) == q
    ensures forall i, j | 0 <= i < j < |ran| :: ran[i].priority <= ran[j].priority
  {
    DrainConserves(q, [], ran);
    FlattenNothing<Task>();
    forall i, j | 0 <= i < j < |ran| ensures ran[i].priority <= ran[j].priority {
      PriorityRespected(q, [], ran, i, j);
    }
  }

  function ArrivingAt(arrivals: seq<seq<Task>>, i: nat): seq<Task> {
    if i < |arrivals| then arrivals[i] else []
  }

  lemma NoneArrive(arrivals: seq<seq<Task>>, i: nat)
    ensures i >= |arrivals| ==> ArrivingAt(arrivals, i) == []
  {
  }

  lemma DrainsNothing(q: multiset<Task>, arrivals: seq<seq<Task>>)
    ensures DrainsTo(q, arrivals, [], q)
  {
  }

  lemma {:induction false} DrainsToSnoc(
    q: multiset<Task>, arrivals: seq<seq<Task>>, ran: seq<Task>, left: multiset<Task>, t: Task)
    requires DrainsTo(q, arrivals, ran, left)
    requires t in left && forall u | u in left :: !Below(t, u)
    ensures DrainsTo(q, arrivals, ran + [t], left - multiset{t} + multiset(ArrivingAt(arrivals, |ran|)))
    decreases ran
  {
    assert (ran + [t])[0] == if ran == [] then t else ran[0];
    if ran == [] {
      assert (ran + [t])[1..] == [];
    } else {
      assert (ran + [t])[1..] == ran[1..] + [t];
      var next := q - multiset{ran[0]} + multiset(Arriving(arrivals));
      DrainsToSnoc(next, Later(arrivals), ran[1..], left, t);
      assert ArrivingAt(Later(arrivals), |ran| - 1) == ArrivingAt(arrivals, |ran|);
    }
  }

  /** Takes a top of the queue: the first of those that are below no other. */
  method PopTop(q: seq<Task>) returns (top: Task, rest: seq<Task>)
    requires q != []
    ensures multiset(rest) == multiset(q) - multiset{top} && top in q && |rest| == |q| - 1
    ensures forall t | t in multiset(q) :: !Below(top, t)
  {
    var best := 0;
    for i := 1 to |q|
      invariant 0 <= best < i
      invariant forall k | 0 <= k < i :: !Below(q[best], q[k])
    {
      if Below(q[best], q[i]) {
        best := i;
      }
    }
    top, rest := q[best], q[..best] + q[best + 1..];
    assert q == q[..best] + ([q[best]] + q[best + 1..]);
  }

  // ---- one map thread -------------------------------------------------------------------------

  class MapThread {
    var packetQueue: seq<Packet>
    var taskQueue: seq<Task>
    var localPlayers: set<int>
    var playerCount: int
    var objectPlayers: set<u32>          // the map entity's list of player entities
    ghost var packetsAdded: seq<Packet>  // since the thread was made
    ghost var packetsHandled: seq<Packet>
    ghost var tasksAdded: multiset<Task>
    ghost var tasksRun: multiset<Task>

    /** No packet is lost, repeated or overtaken. */
    ghost predicate PacketsKept()
      reads this`packetQueue, this`packetsAdded, this`packetsHandled
    {
      packetsHandled + packetQueue == packetsAdded
    }

    /** No task is lost or run twice. */
    ghost predicate TasksKept()
      reads this`taskQueue, this`tasksAdded, this`tasksRun
    {
      tasksRun + multiset(taskQueue) == tasksAdded
    }

    ghost predicate Valid()
      reads this
    {
      PacketsKept() && TasksKept() && playerCount == |localPlayers|
    }

    constructor ()
      ensures Valid() && packetsAdded == [] && tasksAdded == multiset{} && localPlayers == {} && objectPlayers == {}
    {
      packetQueue, taskQueue, localPlayers, playerCount, objectPlayers := [], [], {}, 0, {};
      packetsAdded, packetsHandled, tasksAdded, tasksRun := [], [], multiset{}, multiset{};
    }

    method AddPacket(p: Packet)
      requires Valid()
      modifies this`packetQueue, this`packetsAdded
      ensures Valid() && packetsAdded == old(packetsAdded) + [p]
    {
      hide TasksKept;
      packetQueue, packetsAdded := packetQueue + [p], packetsAdded + [p];
      SeqAssociates(packetsHandled, old(packetQueue), [p]);
    }

    /**
     * Handles packets until none is queued. The lock is free while a packet is handled:
     * arrivals[i] is what producers add during the i-th. In the end everything ever added
     * has been handled, in the order it was added.
     */
    method ProcessPackets(arrivals: seq<seq<Packet>>) returns (handled: seq<Packet>)
      requires Valid()
      modifies this`packetQueue, this`packetsAdded, this`packetsHandled
      ensures Valid() && packetQueue == [] && packetsHandled == packetsAdded == old(packetsHandled) + handled
      ensures packetsAdded == old(packetsAdded)
                + Flatten(arrivals[..if |handled| < |arrivals| then |handled| else |arrivals|])
    {
      hide TasksKept;
      handled := [];
      ghost var n := 0;
      FlattenNothing<Packet>();
      assert arrivals[..0] == [];
      while packetQueue != []
        invariant n == if |handled| < |arrivals| then |handled| else |arrivals|
        invariant packetsHandled == old(packetsHandled) + handled
        invariant packetsHandled + packetQueue == packetsAdded == old(packetsAdded) + Flatten(arrivals[..n])
        decreases |arrivals| - n, |packetQueue|
      {
        var packet := packetQueue[0];
        packetQueue := packetQueue[1..];
        // the lock is free: handled before, the one at hand, and those queued are all there is
        assert packetsHandled + [packet] + packetQueue == packetsAdded;
        var i := |handled|;
        SeqAssociates(old(packetsHandled), handled, [packet]);
        packetsHandled := packetsHandled + [packet];
        handled := handled + [packet];
        if i < |arrivals| {
          FlattenSnoc(arrivals[..i], arrivals[i]);
          assert arrivals[..i + 1] == arrivals[..i] + [arrivals[i]];
          SeqAssociates(packetsHandled, packetQueue, arrivals[i]);
          SeqAssociates(old(packetsAdded), Flatten(arrivals[..i]), arrivals[i]);
          packetQueue, packetsAdded := packetQueue + arrivals[i], packetsAdded + arrivals[i];
          n := n + 1;
        }
      }
    }

    method AddTask(t: Task)
      requires Valid()
      modifies this`taskQueue, this`tasksAdded
      ensures Valid() && tasksAdded == old(tasksAdded) + multiset{t}
    {
      hide PacketsKept;
      taskQueue, tasksAdded := taskQueue + [t], tasksAdded + multiset{t};
    }

    /** Runs tasks until none is queued; arrivals[i] is added while the i-th runs. */
    method ProcessTasks(arrivals: seq<seq<Task>>) returns (ran: seq<Task>)
      requires Valid()
      modifies this`taskQueue, this`tasksAdded, this`tasksRun
      ensures Valid() && taskQueue == [] && tasksRun == tasksAdded == old(tasksRun) + multiset(ran)
      ensures Drains(multiset(old(taskQueue)), arrivals, ran)
    {
      hide PacketsKept;
      ran := [];
      ghost var start := multiset(taskQueue);
      DrainsNothing(start, arrivals);
      hide DrainsTo, Below, ArrivingAt;
      while taskQueue != []
        invariant DrainsTo(start, arrivals, ran, multiset(taskQueue))
        invariant tasksRun == old(tasksRun) + multiset(ran) && tasksRun + multiset(taskQueue) == tasksAdded
        decreases if |ran| < |arrivals| then |arrivals| - |ran| else 0, |taskQueue|
      {
        ghost var left := multiset(taskQueue);
        var top, rest := PopTop(taskQueue);
        var more := ArrivingAt(arrivals, |ran|);
        assert |ran| >= |arrivals| ==> more == [] by { NoneArrive(arrivals, |ran|); }
        DrainsToSnoc(start, arrivals, ran, left, top);
        TakeAccount(tasksRun, left, tasksAdded, top, multiset(more));
        tasksRun, tasksAdded := tasksRun + multiset{top}, tasksAdded + multiset(more);
        taskQueue := rest + more;
        ran := ran + [top];
      }
    }

    method AddPlayer(c: int, entity: u32)
      requires Valid()
      modifies this`localPlayers, this`playerCount, this`objectPlayers
      ensures Valid() && localPlayers == old(localPlayers) + {c} && objectPlayers == old(objectPlayers) + {entity}
    {
      hide PacketsKept, TasksKept;
      localPlayers := localPlayers + {c};
      playerCount := |localPlayers|;
      objectPlayers := objectPlayers + {entity};
    }

    /** The entity stays listed on the map. */
    method RemovePlayer(c: int)
      requires Valid()
      modifies this`localPlayers, this`playerCount
      ensures Valid() && localPlayers == old(localPlayers) - {c}
    {
      hide PacketsKept, TasksKept;
      localPlayers := localPlayers - {c};
      playerCount := |localPlayers|;
    }
  }

  // ---- where the players are ------------------------------------------------------------------

  /** The players of each map, the entities listed on it, and the map recorded for each player. */
  datatype World = World(players: map<int, set<int>>, objects: map<int, set<u32>>, mapOf: map<int, int>)

  const EMPTY := World(map[], map[], map[])

  function Objects(w: World, m: int): set<u32> {
    if m in w.objects then w.objects[m] else {}
  }

  function CreateMap(w: World, m: int): World {
    if m in w.players then w else w.(players := w.players[m := {}], objects := w.objects[m := {}])
  }

  function DestroyMap(w: World, m: int): World {
    w.(players := w.players - {m}, objects := w.objects - {m})
  }

  function AddToMap(w: World, m: int, c: int, e: u32): World {
    if m !in w.players then w
    else World(w.players[m := w.players[m] + {c}], w.objects[m := Objects(w, m) + {e}], w.mapOf[c := m])
  }

  function RemoveFromMap(w: World, m: int, c: int): World {
    if m !in w.players then w
    else w.(players := w.players[m := w.players[m] - {c}], mapOf := w.mapOf - {c})
  }

  /** Off the map but not off the record: the first half of a move. */
  function Detached(w: World, m: int, c: int): World {
    if m in w.players then w.(players := w.players[m := w.players[m] - {c}]) else w
  }

  /** The target map lists a new entity for the player. */
  function MoveToMap(w: World, c: int, from: int, to: int, e: u32): World {
    AddToMap(Detached(w, from, c), to, c, e)
  }

  predicate Placed(w: World, c: int, m: int) {
    (c in w.mapOf && w.mapOf[c] == m) <==> (m in w.players && c in w.players[m])
  }

  /** The record and the per-map sets say the same. */
  ghost predicate Agree(w: World) {
    forall c: int, m: int :: Placed(w, c, m)
  }

  // ---- when each operation keeps them in agreement --------------------------------------------

  lemma CreateKeeps(w: World, m: int)
    requires Agree(w)
    ensures Agree(CreateMap(w, m))
  {
    forall c: int, n: int ensures Placed(CreateMap(w, m), c, n) {
      assert Placed(w, c, n);
    }
  }

  /** A map may go exactly when nobody is on it. */
  lemma DestroyKeeps(w: World, m: int)
    requires Agree(w)
    ensures Agree(DestroyMap(w, m)) <==> (m in w.players ==> w.players[m] == {})
  {
    var v := DestroyMap(w, m);
    if m in w.players && w.players[m] != {} {
      var c := Pick(w.players[m]);
      assert Placed(w, c, m) && !Placed(v, c, m);
    } else {
      forall c: int, n: int ensures Placed(v, c, n) {
        assert Placed(w, c, n);
      }
    }
  }

  predicate Elsewhere(w: World, c: int, ms: set<int>) {
    c in w.mapOf && w.mapOf[c] !in ms
  }

  /** A player may be added to a map exactly when not recorded on another. */
  lemma AddKeeps(w: World, m: int, c: int, e: u32)
    requires Agree(w)
    ensures Agree(AddToMap(w, m, c, e)) <==> (m in w.players ==> !Elsewhere(w, c, {m}))
  {
    var v := AddToMap(w, m, c, e);
    if m in w.players && Elsewhere(w, c, {m}) {
      var n := w.mapOf[c];
      assert Placed(w, c, n) && !Placed(v, c, n);
    } else {
      forall d: int, n: int ensures Placed(v, d, n) {
        assert Placed(w, d, n) && Placed(w, c, n);
      }
    }
  }

  /** A player may be removed from a map exactly when not recorded on another. */
  lemma RemoveKeeps(w: World, m: int, c: int)
    requires Agree(w)
    ensures Agree(RemoveFromMap(w, m, c)) <==> (m in w.players ==> !Elsewhere(w, c, {m}))
  {
    var v := RemoveFromMap(w, m, c);
    if m in w.players && Elsewhere(w, c, {m}) {
      var n := w.mapOf[c];
      assert Placed(w, c, n) && !Placed(v, c, n);
    } else {
      forall d: int, n: int ensures Placed(v, d, n) {
        assert Placed(w, d, n) && Placed(w, c, n);
      }
    }
  }

  predicate MoveSound(w: World, c: int, from: int, to: int) {
    if to in w.players then !Elsewhere(w, c, {from, to})
    else !(c in w.mapOf && w.mapOf[c] == from)
  }

  /**
   * A move to an existing map is sound exactly when the player is not on a third map; a move to
   * a map that does not exist, exactly when the player is not on the map named as the origin.
   */
  lemma MoveKeeps(w: World, c: int, from: int, to: int, e: u32)
    requires Agree(w)
    ensures Agree(MoveToMap(w, c, from, to, e)) <==> MoveSound(w, c, from, to)
  {
    var v := MoveToMap(w, c, from, to, e);
    if MoveSound(w, c, from, to) {
      forall d: int, n: int ensures Placed(v, d, n) {
        assert Placed(w, d, n) && Placed(w, c, n) && Placed(w, c, from);
      }
    } else {
      var n := w.mapOf[c];
      assert Placed(w, c, n) && !Placed(v, c, n);
    }
  }

  /** Moving a player off its map and back leaves the players as they were; both maps list
      one entity more. */
  lemma MoveBack(w: World, c: int, from: int, to: int, e: u32, f: u32)
    requires Agree(w) && c in w.mapOf && w.mapOf[c] == from && to in w.players && to != from
    ensures var v := MoveToMap(MoveToMap(w, c, from, to, e), c, to, from, f);
            && v.players == w.players && v.mapOf == w.mapOf
            && Objects(v, from) == Objects(w, from) + {f} && Objects(v, to) == Objects(w, to) + {e}
  {
    assert Placed(w, c, from) && Placed(w, c, to);
    var v := MoveToMap(MoveToMap(w, c, from, to, e), c, to, from, f);
    assert forall m | m in w.players :: v.players[m] == w.players[m];
  }

  /** A move is a removal and an addition. */
  lemma MoveIsRemoveAdd(w: World, c: int, from: int, to: int, e: u32)
    requires from in w.players && to in w.players
    ensures MoveToMap(w, c, from, to, e) == AddToMap(RemoveFromMap(w, from, c), to, c, e)
  {
    assert w.mapOf[c := to] == (w.mapOf - {c})[c := to];
  }

  /** A map that did not exist is there and empty, and lists nobody; an existing one is untouched. */
  lemma CreateEffect(w: World, m: int)
    ensures var v := CreateMap(w, m);
            if m in w.players then v == w
            else m in v.players && v.players[m] == {} && Objects(v, m) == {} && DestroyMap(v, m) == DestroyMap(w, m)
  {
  }

  /** Added, a player is on the map and recorded there; removed again, on none, and the others
      have not been touched. */
  lemma AddThenRemove(w: World, m: int, c: int, e: u32)
    requires Agree(w) && m in w.players && c !in w.mapOf
    ensures var v := AddToMap(w, m, c, e);
            && c in v.mapOf && v.mapOf[c] == m && c in v.players[m] && e in Objects(v, m)
            && (forall n | n in w.players && n != m :: v.players[n] == w.players[n])
            && RemoveFromMap(v, m, c).players == w.players && RemoveFromMap(v, m, c).mapOf == w.mapOf
  {
    assert Placed(w, c, m);
    var u := RemoveFromMap(AddToMap(w, m, c, e), m, c);
    assert u.players[m] == w.players[m];
  }

  // ---- whole runs and the counts --------------------------------------------------------------

  datatype Op =
    | CreateOp(m: int)
    | DestroyOp(m: int)
    | AddOp(m: int, c: int, e: u32)
    | RemoveOp(m: int, c: int)
    | MoveOp(c: int, from: int, to: int, e: u32)

  function Do(w: World, op: Op): World {
    match op
    case CreateOp(m) => CreateMap(w, m)
    case DestroyOp(m) => DestroyMap(w, m)
    case AddOp(m, c, e) => AddToMap(w, m, c, e)
    case RemoveOp(m, c) => RemoveFromMap(w, m, c)
    case MoveOp(c, from, to, e) => MoveToMap(w, c, from, to, e)
  }

  /** What a caller has to see to before an operation. */
  predicate Sound(w: World, op: Op) {
    match op
    case CreateOp(m) => true
    case DestroyOp(m) => m in w.players ==> w.players[m] == {}
    case AddOp(m, c, _) => m in w.players ==> !Elsewhere(w, c, {m})
    case RemoveOp(m, c) => m in w.players ==> !Elsewhere(w, c, {m})
    case MoveOp(c, from, to, _) => MoveSound(w, c, from, to)
  }

  lemma DoKeeps(w: World, op: Op)
    requires Agree(w)
    ensures Agree(Do(w, op)) <==> Sound(w, op)
  {
    match op
    case CreateOp(m) => CreateKeeps(w, m);
    case DestroyOp(m) => DestroyKeeps(w, m);
    case AddOp(m, c, e) => AddKeeps(w, m, c, e);
    case RemoveOp(m, c) => RemoveKeeps(w, m, c);
    case MoveOp(c, from, to, e) => MoveKeeps(w, c, from, to, e);
  }

  function After(ops: seq<Op>): World {
    if ops == [] then EMPTY else Do(After(ops[..|ops| - 1]), ops[|ops| - 1])
  }

  predicate SoundRun(ops: seq<Op>) {
    ops == [] || (SoundRun(ops[..|ops| - 1]) && Sound(After(ops[..|ops| - 1]), ops[|ops| - 1]))
  }

  /** The two records agree throughout a run exactly when every operation was sound. */
  lemma {:induction false} EveryRun(ops: seq<Op>)
    ensures (forall k | 0 <= k <= |ops| :: Agree(After(ops[..k]))) <==> SoundRun(ops)
  {
    assert ops[..|ops|] == ops;
    if ops != [] {
      var before := ops[..|ops| - 1];
      EveryRun(before);
      assert forall k | 0 <= k < |ops| :: before[..k] == ops[..k];
      if Agree(After(before)) {
        DoKeeps(After(before), ops[|ops| - 1]);
      }
      hide Agree, Do, Sound;
      if SoundRun(ops) {
        assert Agree(After(before[..|before|])) && before[..|before|] == before;
      }
    } else {
      assert forall k | 0 <= k <= |ops| :: ops[..k] == [];
    }
  }

  /** The player counts of some maps, added up. */
  ghost function Count(players: map<int, set<int>>, ms: set<int>): nat
    requires ms <= players.Keys
  {
    if ms == {} then 0 else |players[Pick(ms)]| + Count(players, ms - {Pick(ms)})
  }

  function On(w: World, ms: set<int>): set<int> {
    set c | c in w.mapOf && w.mapOf[c] in ms
  }

  lemma OnSplits(w: World, ms: set<int>, m: int)
    requires Agree(w) && m in ms && m in w.players
    ensures |On(w, ms)| == |On(w, ms - {m})| + |w.players[m]|
  {
    forall c: int ensures c in w.players[m] <==> c in w.mapOf && w.mapOf[c] == m {
      assert Placed(w, c, m);
    }
    assert On(w, ms) == On(w, ms - {m}) + w.players[m];
    assert On(w, ms - {m}) !! w.players[m];
  }

  lemma {:induction false} CountPlaced(w: World, ms: set<int>)
    requires Agree(w) && ms <= w.players.Keys
    ensures Count(w.players, ms) == |On(w, ms)|
  {
    if ms == {} {
      assert On(w, ms) == {};
    } else {
      OnSplits(w, ms, Pick(ms));
      CountPlaced(w, ms - {Pick(ms)});
    }
  }

  /** The counts of all maps add up to the number of players placed. */
  lemma CountsAddUp(w: World)
    requires Agree(w)
    ensures Count(w.players, w.players.Keys) == |w.mapOf|
  {
    CountPlaced(w, w.players.Keys);
    forall c | c in w.mapOf ensures w.mapOf[c] in w.players {
      assert Placed(w, c, w.mapOf[c]);
    }
    assert On(w, w.players.Keys) == w.mapOf.Keys;
  }

  lemma {:induction false} SameMaps(ops: seq<Op>)
    ensures After(ops).objects.Keys == After(ops).players.Keys
  {
    if ops != [] {
      SameMaps(ops[..|ops| - 1]);
    }
  }

  /** Entities are only ever listed: removing or moving a player away does not unlist its
      entity, and only the end of the map does. */
  lemma {:induction false} ListedForGood(before: seq<Op>, after: seq<Op>, m: int)
    requires DestroyOp(m) !in after
    ensures Objects(After(before), m) <= Objects(After(before + after), m)
    ensures m in After(before).players ==> m in After(before + after).players
    decreases |after|
  {
    if after == [] {
      assert before + after == before;
    } else {
      var (init, last) := (after[..|after| - 1], after[|after| - 1]);
      assert forall op | op in init :: op in after;
      ListedForGood(before, init, m);
      assert (before + after)[..|before + after| - 1] == before + init;
      assert (before + after)[|before + after| - 1] == last;
      SameMaps(before + init);
      ListedStep(After(before + init), last, m);
      hide Do;
    }
  }

  lemma ListedStep(w: World, op: Op, m: int)
    requires op != DestroyOp(m) && (m in w.objects ==> m in w.players)
    ensures Objects(w, m) <= Objects(Do(w, op), m)
    ensures m in w.players ==> m in Do(w, op).players
  {
  }

  // ---- the manager ----------------------------------------------------------------------------

  class MapThreadManager {
    var mapThreads: map<int, MapThread>
    var playerMapMapping: map<int, int>
    ghost var history: seq<Op>   // the operations so far

    ghost predicate ThreadsValid()
      reads this`mapThreads, mapThreads.Values
    {
      && (forall m | m in mapThreads :: mapThreads[m].Valid())
      && (forall m, n | m in mapThreads && n in mapThreads && m != n :: mapThreads[m] != mapThreads[n])
    }

    ghost function View(): World
      reads this`mapThreads, this`playerMapMapping, mapThreads.Values
    {
      World(map m | m in mapThreads :: mapThreads[m].localPlayers,
            map m | m in mapThreads :: mapThreads[m].objectPlayers, playerMapMapping)
    }

    /** Each map has a thread object of its own, and the manager is where its operations lead. */
    ghost predicate Valid()
      reads this, mapThreads.Values
    {
      ThreadsValid() && View() == After(history)
    }

    constructor ()
      ensures Valid() && history == []
    {
      mapThreads, playerMapMapping, history := map[], map[], [];
    }

    ghost method Handled(op: Op)
      requires ThreadsValid() && View() == Do(After(history), op)
      modifies this`history
      ensures Valid() && history == old(history) + [op]
    {
      AfterSnoc(history, op);
      hide Do, After;
      history := history + [op];
    }

    method Start(m: int)
      requires ThreadsValid()
      modifies this`mapThreads
      ensures ThreadsValid() && View() == CreateMap(old(View()), m)
    {
      hide MapThread.Valid;
      if m in mapThreads {
        return;
      }
      var thread := new MapThread();
      assert forall n | n in mapThreads :: mapThreads[n] != thread;
      ghost var (players, objects) := (View().players, View().objects);
      mapThreads := mapThreads[m := thread];
      assert forall n | n in mapThreads && n != m :: mapThreads[n] == old(mapThreads[n]);
      assert View().players == players[m := {}];
      assert View().objects == objects[m := {}];
    }

    method CreateMapThread(m: int)
      requires Valid()
      modifies this`mapThreads, this`history
      ensures Valid() && history == old(history) + [CreateOp(m)]
    {
      hide After, CreateMap, ThreadsValid;
      Start(m);
      Handled(CreateOp(m));
    }

    method DestroyMapThread(m: int)
      requires Valid()
      modifies this`mapThreads, this`history
      ensures Valid() && history == old(history) + [DestroyOp(m)]
    {
      hide MapThread.Valid;
      hide After;
      mapThreads := mapThreads - {m};
      assert View().players == DestroyMap(old(View()), m).players;
      assert View().objects == DestroyMap(old(View()), m).objects;
      Handled(DestroyOp(m));
    }

    /** Only one map's thread has changed, so the view has changed there only. */
    twostate lemma OneChanged(m: int)
      requires old(ThreadsValid()) && mapThreads == old(mapThreads) && m in mapThreads && mapThreads[m].Valid()
      requires forall n | n in mapThreads && n != m :: unchanged(mapThreads[n])
      ensures ThreadsValid()
      ensures View().players == old(View()).players[m := mapThreads[m].localPlayers]
      ensures View().objects == old(View()).objects[m := mapThreads[m].objectPlayers]
    {
      hide MapThread.Valid;
      assert forall n | n in mapThreads && n != m ::
          && mapThreads[n].Valid() && mapThreads[n].localPlayers == old(mapThreads[n].localPlayers)
          && mapThreads[n].objectPlayers == old(mapThreads[n].objectPlayers);
    }

    method Attach(m: int, c: int, entity: u32)
      requires ThreadsValid()
      modifies this`playerMapMapping, mapThreads.Values
      ensures ThreadsValid() && View() == AddToMap(old(View()), m, c, entity)
    {
      hide MapThread.Valid;
      if m in mapThreads {
        mapThreads[m].AddPlayer(c, entity);
        playerMapMapping := playerMapMapping[c := m];
        OneChanged(m);
      }
    }

    method Detach(m: int, c: int)
      requires ThreadsValid()
      modifies mapThreads.Values
      ensures ThreadsValid() && View() == Detached(old(View()), m, c)
    {
      hide MapThread.Valid;
      if m in mapThreads {
        mapThreads[m].RemovePlayer(c);
        OneChanged(m);
        assert View().objects == old(View()).objects;
      }
    }

    method Unplace(m: int, c: int)
      requires ThreadsValid()
      modifies this`playerMapMapping, mapThreads.Values
      ensures ThreadsValid() && View() == RemoveFromMap(old(View()), m, c)
    {
      hide MapThread.Valid;
      hide ThreadsValid, Detached;
      if m in mapThreads {
        Detach(m, c);
        playerMapMapping := playerMapMapping - {c};
        DetachedIsRemoved(old(View()), m, c);
      }
    }

    method AddPlayerToMap(m: int, c: int, entity: u32)
      requires Valid()
      modifies this`playerMapMapping, this`history, mapThreads.Values
      ensures Valid() && history == old(history) + [AddOp(m, c, entity)]
    {
      hide After, AddToMap, ThreadsValid;
      Attach(m, c, entity);
      Handled(AddOp(m, c, entity));
    }

    method RemovePlayerFromMap(m: int, c: int)
      requires Valid()
      modifies this`playerMapMapping, this`history, mapThreads.Values
      ensures Valid() && history == old(history) + [RemoveOp(m, c)]
    {
      hide After, RemoveFromMap, ThreadsValid;
      Unplace(m, c);
      Handled(RemoveOp(m, c));
    }

    /** The target map lists the entity made for it; without a target none is. */
    method MovePlayerToMap(c: int, from: int, to: int, entity: u32)
      requires Valid()
      modifies this`playerMapMapping, this`history, mapThreads.Values
      ensures Valid() && history == old(history) + [MoveOp(c, from, to, entity)]
    {
      hide After, AddToMap, Detached, ThreadsValid;
      Detach(from, c);
      Attach(to, c, entity);
      Handled(MoveOp(c, from, to, entity));
    }

    /** The count of a map is the number of players recorded on it, if every operation was sound. */
    method GetMapPlayerCount(m: int) returns (n: int)
      requires Valid()
      ensures n == if m in View().players then |View().players[m]| else 0
      ensures SoundRun(history) ==> n == |On(View(), {m})|
    {
      if SoundRun(history) {
        CountIsRecorded(m);
      }
      if m in mapThreads {
        return mapThreads[m].playerCount;
      }
      return 0;
    }

    lemma CountIsRecorded(m: int)
      requires Valid() && SoundRun(history)
      ensures |On(View(), {m})| == if m in View().players then |View().players[m]| else 0
    {
      ManagerAgrees();
      var w := View();
      hide After, SoundRun;
      forall c: int ensures c in On(w, {m}) <==> m in w.players && c in w.players[m] {
        assert Placed(w, c, m);
      }
      if m in w.players {
        assert On(w, {m}) == w.players[m];
      } else {
        assert On(w, {m}) == {};
      }
    }

    /** A manager all of whose operations were sound has its players where it says they are. */
    lemma ManagerAgrees()
      requires Valid() && SoundRun(history)
      ensures Agree(View()) && Count(View().players, View().players.Keys) == |playerMapMapping|
    {
      EveryRun(history);
      assert history[..|history|] == history;
      hide After, SoundRun, Agree, Count;
      CountsAddUp(View());
    }
  }

  lemma DetachedIsRemoved(w: World, m: int, c: int)
    requires m in w.players
    ensures RemoveFromMap(w, m, c) == Detached(w, m, c).(mapOf := w.mapOf - {c}) && Detached(w, m, c).mapOf == w.mapOf
  {
  }

  lemma AfterSnoc(ops: seq<Op>, op: Op)
    ensures After(ops + [op]) == Do(After(ops), op)
  {
    hide Do;
    assert (ops + [op])[..|ops|] == ops;
  }
}
