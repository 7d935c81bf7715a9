/** The database connection pool: a queue of free indexes, and move-only handles that
    give their index back when they die. */
module DbPool {
  import opened Collections

  /** The free queue and the held indexes partition 0..n. */
  ghost predicate Partition(free: seq<int>, held: set<int>, n: nat) {
    && Distinct(free) && (forall i | i in held :: i !in free)
    && forall i: int :: i in free || i in held <==> 0 <= i < n
  }

  lemma TakeFront(free: seq<int>, held: set<int>, n: nat)
    requires Partition(free, held, n) && free != []
    ensures Partition(free[1..], held + {free[0]}, n)
  {
    assert free == [free[0]] + free[1..];
    assert forall i: int :: i in free[1..] <==> i in free && i != free[0];
  }

  lemma GiveBack(free: seq<int>, held: set<int>, n: nat, i: int)
    requires Partition(free, held, n) && i in held
    ensures Partition(free + [i], held - {i}, n)
  {
  }

  lemma AllFree(n: nat)
    ensures Partition(seq(n, i => i), {}, n)
  {
    var free := seq(n, i => i);
    forall i: int | 0 <= i < n
      ensures i in free
    {
      assert free[i] == i;
    }
  }

  class DbConnection {
    var pool: DbConnectionPool?
    var index: int

    constructor (pool: DbConnectionPool?, index: int)
      ensures this.pool == pool && this.index == index
    {
      this.pool, this.index := pool, index;
    }

    predicate IsValid()
      reads this
    {
      pool != null && index >= 0
    }
  }

  class DbConnectionPool {
    const poolSize: nat
    var freeIndices: seq<int>
    var isOpen: bool
    ghost var handles: set<DbConnection>     // every handle that has not been destroyed
    ghost var holder: map<int, DbConnection> // who holds an index

    constructor (poolSize: nat)
      ensures this.poolSize == poolSize && !isOpen && freeIndices == [] && handles == {} && holder == map[]
    {
      this.poolSize, freeIndices, isOpen, handles, holder := poolSize, [], false, {}, map[];
    }

    /** A live handle is either invalid or the one holder of its index. */
    ghost predicate HandleOk(h: DbConnection)
      reads this, h
    {
      if h.pool == null then h.index == -1
      else h.pool == this && h.index >= 0 && h.index in holder && holder[h.index] == h
    }

    /** The free queue and the live handles partition the indexes of an open pool. */
    ghost predicate Valid()
      reads this, handles
    {
      && isOpen && Partition(freeIndices, holder.Keys, poolSize)
      && (forall h | h in handles :: HandleOk(h))
      && (forall i | i in holder :: holder[i] in handles && holder[i].pool == this && holder[i].index == i)
    }

    /** Opens one connection per index; the first that cannot be opened closes the pool.
        An open pool stays as it is. */
    method Open(connects: seq<bool>) returns (ok: bool)
      requires |connects| == poolSize
      requires if isOpen then Valid() else freeIndices == [] && handles == {} && holder == map[]
      modifies this`freeIndices, this`isOpen
      ensures ok <==> old(isOpen) || forall i | 0 <= i < poolSize :: connects[i]
      ensures ok ==> Valid()
      ensures ok ==> freeIndices == if old(isOpen) then old(freeIndices) else seq(poolSize, i => i)
      ensures !ok ==> !isOpen && freeIndices == []
    {
      if isOpen {
        return true;
      }
      for i := 0 to poolSize
        invariant freeIndices == seq(i, k => k)
        invariant forall j | 0 <= j < i :: connects[j]
      {
        if !connects[i] {
          Close();
          return false;
        }
        freeIndices := freeIndices + [i];
      }
      isOpen := true;
      AllFree(poolSize);
      return true;
    }

    method Close()
      modifies this`freeIndices, this`isOpen
      ensures freeIndices == [] && !isOpen
    {
      freeIndices, isOpen := [], false;
    }

    /** Takes the index at the front; an empty queue, after the wait, gives an invalid handle. */
    method Acquire() returns (h: DbConnection)
      requires Valid()
      modifies this`freeIndices, this`handles, this`holder
      ensures Valid() && fresh(h) && handles == old(handles) + {h}
      ensures if old(freeIndices) == [] then freeIndices == [] && h.pool == null && h.index == -1
              else h.pool == this && h.index == old(freeIndices)[0] && freeIndices == old(freeIndices)[1..]
    {
      if freeIndices == [] {
        h := new DbConnection(null, -1);
        handles := handles + {h};
        return;
      }
      TakeFront(freeIndices, holder.Keys, poolSize);
      assert freeIndices == [freeIndices[0]] + freeIndices[1..];
      hide Partition;
      var idx := freeIndices[0];
      freeIndices := freeIndices[1..];
      h := new DbConnection(this, idx);
      handles := handles + {h};
      holder := holder[idx := h];
      assert holder.Keys == old(holder.Keys) + {idx};
    }

    method Release(index: int)
      modifies this`freeIndices
      ensures freeIndices == old(freeIndices) + [index]
    {
      freeIndices := freeIndices + [index];
    }

    /** A handle dies: its index, if it still has one, goes to the back of the queue. */
    method Destroy(h: DbConnection)
      requires Valid() && h in handles
      modifies this`freeIndices, this`handles, this`holder
      ensures Valid() && handles == old(handles) - {h}
      ensures freeIndices == old(freeIndices) + if h.IsValid() then [h.index] else []
    {
      assert HandleOk(h);
      if h.pool != null && h.index >= 0 {
        GiveBack(freeIndices, holder.Keys, poolSize, h.index);
        Release(h.index);
        holder := holder - {h.index};
        assert holder.Keys == old(holder.Keys) - {h.index};
      }
      hide Partition;
      handles := handles - {h};
    }

    /** The index moves to a new handle, and the old one is left invalid. */
    method MoveConstruct(o: DbConnection) returns (h: DbConnection)
      requires Valid() && o in handles
      modifies this`handles, this`holder, o
      ensures Valid() && fresh(h) && handles == old(handles) + {h} && !o.IsValid()
      ensures h.pool == old(o.pool) && h.index == old(o.index)
    {
      hide Partition;
      assert HandleOk(o);
      h := new DbConnection(o.pool, o.index);
      handles := handles + {h};
      if o.pool != null {
        holder := holder[o.index := h];
        assert holder.Keys == old(holder.Keys);
      }
      o.pool, o.index := null, -1;
    }

    /** The target first gives back what it held; assigning a handle to itself does nothing. */
    method MoveAssign(h: DbConnection, o: DbConnection)
      requires Valid() && h in handles && o in handles
      modifies this`freeIndices, this`holder, h, o
      ensures Valid()
      ensures h.pool == old(o.pool) && h.index == old(o.index) && (h != o ==> !o.IsValid())
      ensures freeIndices == old(freeIndices) + if h != o && old(h.IsValid()) then [old(h.index)] else []
    {
      assert HandleOk(h) && HandleOk(o);
      if h != o {
        if h.pool != null && h.index >= 0 {
          GiveBack(freeIndices, holder.Keys, poolSize, h.index);
          Release(h.index);
          holder := holder - {h.index};
          assert holder.Keys == old(holder.Keys) - {h.index};
        }
        hide Partition;
        if o.pool != null {
          ghost var keys := holder.Keys;
          holder := holder[o.index := h];
          assert holder.Keys == keys;
        }
        h.pool, h.index := o.pool, o.index;
        o.pool, o.index := null, -1;
      }
    }
  }

  // ---- workers sharing the pool -------------------------------------------------------

  /**
   * The pool while database workers use it: tasks waiting for a worker, the workers busy with
   * one, the free queue, the index each worker holds, and how far the shutdown has come.
   */
  datatype Shared = Shared(pending: nat, busy: set<nat>, free: seq<int>, held: map<nat, int>,
                           joined: bool, closed: bool)

  datatype WorkerEvent =
    | Posts              // a task is posted to the workers
    | Starts(w: nat)     // a worker begins a task
    | Takes(w: nat)      // it acquires a connection
    | Returns(w: nat)    // the handle dies
    | Ends(w: nat)       // its task is over
    | Joins              // the server has waited for all workers
    | Closes             // and closes the pool

  /**
   * Workers are numbered below `workers`. One that holds a connection takes no other and gives
   * it back before its task ends, as the loops over PlayerDao.Attempt do: each attempt is one
   * Takes and, if it got a connection, one Returns. Joining waits for every posted task; the
   * workers are then gone.
   */
  predicate Enabled(p: Shared, e: WorkerEvent, workers: nat) {
    match e
    case Posts => true
    case Starts(w) => !p.joined && p.pending > 0 && w < workers && w !in p.busy
    case Takes(w) => w in p.busy && w !in p.held
    case Returns(w) => w in p.held
    case Ends(w) => w in p.busy && w !in p.held
    case Joins => !p.joined && p.pending == 0 && p.busy == {}
    case Closes => p.joined && !p.closed
  }

  function Do(p: Shared, e: WorkerEvent, workers: nat): Shared
    requires Enabled(p, e, workers)
  {
    match e
    case Posts => p.(pending := p.pending + 1)
    case Starts(w) => p.(pending := p.pending - 1, busy := p.busy + {w})
    case Takes(w) => if p.free == [] then p else p.(free := p.free[1..], held := p.held[w := p.free[0]])
    case Returns(w) => p.(free := p.free + [p.held[w]], held := p.held - {w})
    case Ends(w) => p.(busy := p.busy - {w})
    case Joins => p.(joined := true)
    case Closes => p.(closed := true, free := [])
  }

  ghost predicate Runs(p: Shared, events: seq<WorkerEvent>, workers: nat)
    decreases |events|
  {
    events == [] || (Enabled(p, events[0], workers) && Runs(Do(p, events[0], workers), events[1..], workers))
  }

  ghost function After(p: Shared, events: seq<WorkerEvent>, workers: nat): Shared
    requires Runs(p, events, workers)
    decreases |events|
  {
    if events == [] then p else After(Do(p, events[0], workers), events[1..], workers)
  }

  function Fresh(n: nat): Shared {
    Shared(0, {}, seq(n, i => i), map[], false, false)
  }

  /** No two workers hold one index. */
  ghost predicate Injective(held: map<nat, int>) {
    forall v, w | v in held && w in held && held[v] == held[w] :: v == w
  }

  /** Connections are only out to busy workers, and none is busy once joined. */
  ghost predicate WorkersInv(p: Shared, workers: nat) {
    && (forall w | w in p.busy :: w < workers) && p.held.Keys <= p.busy
    && (p.joined ==> p.busy == {}) && (p.closed ==> p.joined)
  }

  /** Until the pool is closed the free and the held indexes partition it. */
  ghost predicate IndexesInv(p: Shared, n: nat) {
    && (!p.closed ==> Partition(p.free, p.held.Values, n) && |p.free| + |p.held| == n)
    && Injective(p.held)
  }

  ghost predicate PoolInv(p: Shared, n: nat, workers: nat) {
    WorkersInv(p, workers) && IndexesInv(p, n)
  }

  lemma NotFree(free: seq<int>, held: set<int>, n: nat, i: int)
    requires Partition(free, held, n) && i in held
    ensures i !in free
  {
  }

  lemma HeldIsNotFree(p: Shared, n: nat)
    requires Partition(p.free, p.held.Values, n)
    ensures forall w | w in p.held :: p.held[w] !in p.free
  {
    forall w | w in p.held ensures p.held[w] !in p.free {
      NotFree(p.free, p.held.Values, n, p.held[w]);
    }
  }

  lemma TakeStep(p: Shared, w: nat, n: nat)
    requires Partition(p.free, p.held.Values, n) && Injective(p.held) && w !in p.held && p.free != []
    ensures var held := p.held[w := p.free[0]];
            Partition(p.free[1..], held.Values, n) && |held| == |p.held| + 1 && Injective(held)
  {
    hide Partition;
    var held := p.held[w := p.free[0]];
    TakeFront(p.free, p.held.Values, n);
    HeldIsNotFree(p, n);
    assert held[w] == p.free[0] && held.Keys == p.held.Keys + {w};
    assert forall v | v in p.held :: v in held && held[v] == p.held[v];
    assert held.Values == p.held.Values + {p.free[0]};
  }

  lemma ReturnStep(p: Shared, w: nat, n: nat)
    requires Partition(p.free, p.held.Values, n) && Injective(p.held) && w in p.held
    ensures var held := p.held - {w};
            Partition(p.free + [p.held[w]], held.Values, n) && |held| == |p.held| - 1 && Injective(held)
  {
    var held := p.held - {w};
    GiveBack(p.free, p.held.Values, n, p.held[w]);
    assert held.Keys == p.held.Keys - {w};
    assert forall v | v in held :: v in p.held && held[v] == p.held[v];
    assert forall v | v in p.held && v != w :: v in held;
    assert held.Values == p.held.Values - {p.held[w]};
  }

  lemma WorkersStep(p: Shared, e: WorkerEvent, workers: nat)
    requires WorkersInv(p, workers) && Enabled(p, e, workers)
    ensures WorkersInv(Do(p, e, workers), workers)
  {
  }

  lemma IndexesStep(p: Shared, e: WorkerEvent, n: nat, workers: nat)
    requires WorkersInv(p, workers) && IndexesInv(p, n) && Enabled(p, e, workers)
    ensures IndexesInv(Do(p, e, workers), n)
  {
    hide Partition, Injective;
    match e
    case Takes(w) =>
      if p.free != [] {
        TakeStep(p, w, n);
      }
    case Returns(w) => ReturnStep(p, w, n);
    case _ =>
  }

  lemma PoolStep(p: Shared, e: WorkerEvent, n: nat, workers: nat)
    requires PoolInv(p, n, workers) && Enabled(p, e, workers)
    ensures PoolInv(Do(p, e, workers), n, workers)
  {
    hide WorkersInv, IndexesInv, Do, Enabled;
    WorkersStep(p, e, workers);
    IndexesStep(p, e, n, workers);
  }

  lemma {:induction false} RunKeepsPool(p: Shared, events: seq<WorkerEvent>, n: nat, workers: nat)
    requires PoolInv(p, n, workers) && Runs(p, events, workers)
    ensures PoolInv(After(p, events, workers), n, workers)
    decreases |events|
  {
    hide PoolInv, Enabled, Do;
    if events != [] {
      PoolStep(p, events[0], n, workers);
      RunKeepsPool(Do(p, events[0], workers), events[1..], n, workers);
    }
  }

  lemma FreshPool(n: nat, workers: nat)
    ensures PoolInv(Fresh(n), n, workers)
  {
    AllFree(n);
    var none: map<nat, int> := map[];
    assert none.Values == {};
  }

  /** In every run: when the server closes the pool no connection is out and every index is
      back in the queue; and once it has been closed, no handle is left that could return one. */
  lemma StopClosesWholePool(events: seq<WorkerEvent>, n: nat, workers: nat)
    requires Runs(Fresh(n), events, workers)
    ensures var p := After(Fresh(n), events, workers);
            && (Enabled(p, Closes, workers) ==>
                  p.held == map[] && |p.free| == n && forall i: int :: i in p.free <==> 0 <= i < n)
            && (p.closed ==> forall w: nat :: !Enabled(p, Takes(w), workers) && !Enabled(p, Returns(w), workers))
  {
    FreshPool(n, workers);
    RunKeepsPool(Fresh(n), events, n, workers);
    var p := After(Fresh(n), events, workers);
    if p.joined {
      assert p.held.Keys == {};
      assert p.held == map[];
      assert p.held.Values == {};
    }
  }

  /** While the pool is open the free and the held indexes partition it, in every run. */
  lemma PoolIsPartitioned(events: seq<WorkerEvent>, n: nat, workers: nat)
    requires Runs(Fresh(n), events, workers)
    ensures var p := After(Fresh(n), events, workers);
            !p.closed ==> Partition(p.free, p.held.Values, n) && |p.free| + |p.held| == n
  {
    FreshPool(n, workers);
    RunKeepsPool(Fresh(n), events, n, workers);
  }

  // ---- when a worker waits in vain ----------------------------------------------------

  /** Some take of the run finds the queue empty. */
  ghost predicate Starves(p: Shared, events: seq<WorkerEvent>, workers: nat)
    requires Runs(p, events, workers)
    decreases |events|
  {
    events != [] && ((events[0].Takes? && p.free == []) || Starves(Do(p, events[0], workers), events[1..], workers))
  }

  lemma {:induction false} SmallSet(s: set<nat>, n: nat)
    requires forall x | x in s :: x < n
    ensures |s| <= n
  {
    if n > 0 {
      SmallSet(s - {n - 1}, n - 1);
      assert s <= (s - {n - 1}) + {n - 1};
      assert |s - {n - 1}| >= |s| - 1;
    } else {
      assert s == {};
    }
  }

  /** A worker that holds nothing always finds a connection when there are no more workers
      than connections. */
  lemma BusyWorkerIsServed(p: Shared, w: nat, n: nat, workers: nat)
    requires PoolInv(p, n, workers) && workers <= n && w in p.busy && w !in p.held
    ensures p.free != []
  {
    SmallSet(p.held.Keys + {w}, workers);
    assert |p.held.Keys + {w}| == |p.held.Keys| + 1;
    hide Partition;
    assert !p.closed;
  }

  lemma {:induction false} ServedInRun(p: Shared, events: seq<WorkerEvent>, n: nat, workers: nat)
    requires PoolInv(p, n, workers) && workers <= n && Runs(p, events, workers)
    ensures !Starves(p, events, workers)
    decreases |events|
  {
    hide PoolInv;
    if events != [] {
      if events[0].Takes? {
        BusyWorkerIsServed(p, events[0].w, n, workers);
      }
      PoolStep(p, events[0], n, workers);
      ServedInRun(Do(p, events[0], workers), events[1..], n, workers);
    }
  }

  /** The sizing rule: as many workers as connections, but at least one. */
  function WorkersFor(poolSize: int): nat {
    if poolSize < 1 then 1 else poolSize
  }

  /** No worker ever finds the queue empty, in any run. */
  ghost predicate NeverStarves(connections: nat, workers: nat) {
    forall events | Runs(Fresh(connections), events, workers) :: !Starves(Fresh(connections), events, workers)
  }

  lemma OneMoreTakes(p: Shared, w: nat, rest: seq<WorkerEvent>, workers: nat)
    requires !p.joined && w < workers && w !in p.busy && w !in p.held
    requires var busy := p.(busy := p.busy + {w});
             if p.free == [] then rest == []
             else var next := busy.(free := p.free[1..], held := p.held[w := p.free[0]]);
                  Runs(next, rest, workers) && Starves(next, rest, workers)
    ensures var events := [Posts, Starts(w), Takes(w)] + rest;
            Runs(p, events, workers) && Starves(p, events, workers)
  {
    var events := [Posts, Starts(w), Takes(w)] + rest;
    var p1 := Do(p, Posts, workers);
    var p2 := Do(p1, Starts(w), workers);
    assert events[1..][1..] == [Takes(w)] + rest && ([Takes(w)] + rest)[1..] == rest;
    assert p2 == p.(busy := p.busy + {w});
    assert Runs(p2, [Takes(w)] + rest, workers) && Starves(p2, [Takes(w)] + rest, workers);
    assert Runs(p1, events[1..], workers) && Starves(p1, events[1..], workers);
  }

  /** Workers that start a task and take, in turn, from worker w on. */
  lemma {:induction false} TakingStarves(p: Shared, w: nat, workers: nat) returns (events: seq<WorkerEvent>)
    requires |p.free| + w < workers && !p.joined && forall v | v in p.held || v in p.busy :: v < w
    ensures Runs(p, events, workers) && Starves(p, events, workers)
    decreases |p.free|
  {
    var rest := [];
    if p.free != [] {
      var next := p.(busy := p.busy + {w}, free := p.free[1..], held := p.held[w := p.free[0]]);
      rest := TakingStarves(next, w + 1, workers);
    }
    OneMoreTakes(p, w, rest, workers);
    events := [Posts, Starts(w), Takes(w)] + rest;
  }

  /** Acquiring never times out exactly when there are no more workers than connections. */
  lemma StarvationBound(connections: nat, workers: nat)
    ensures NeverStarves(connections, workers) <==> workers <= connections
  {
    if workers <= connections {
      forall events | Runs(Fresh(connections), events, workers)
        ensures !Starves(Fresh(connections), events, workers)
      {
        FreshPool(connections, workers);
        ServedInRun(Fresh(connections), events, connections, workers);
      }
    } else {
      var events := TakingStarves(Fresh(connections), 0, workers);
    }
  }

  /** With the server's sizing that means: exactly when the configured size is positive; and the
      server then starts as many workers as can be served, otherwise just one. */
  lemma SizingPreventsStarvation(poolSize: int)
    ensures NeverStarves(if poolSize < 0 then 0 else poolSize, WorkersFor(poolSize)) <==> poolSize >= 1
    ensures poolSize >= 1 ==> forall workers: nat :: NeverStarves(poolSize, workers) <==> workers <= WorkersFor(poolSize)
    ensures poolSize < 1 ==> WorkersFor(poolSize) == 1
  {
    hide NeverStarves;
    StarvationBound(if poolSize < 0 then 0 else poolSize, WorkersFor(poolSize));
    if poolSize >= 1 {
      forall workers: nat ensures NeverStarves(poolSize, workers) <==> workers <= WorkersFor(poolSize) {
        StarvationBound(poolSize, workers);
      }
    }
  }
}
