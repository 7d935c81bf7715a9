/** The retry loops of the player table and the save a logout performs, over every
    possible sequence of database outcomes. */
module PlayerDao {
  import opened Wrappers
  import opened DbPool
  import Sessions

  const MAX_ATTEMPTS := 3

  /** What one attempt meets: a query that succeeds, fails with an error code, or raises an
      exception that either is or is not a std::exception; or no connection in time, the other
      workers holding them all. */
  datatype Query = Fine | Error(code: nat) | Raises(known: bool, what: string) | NoConnection

  datatype Outcome = Saved | NotSaved | Raised(known: bool, what: string)

  predicate Retryable(code: nat) {
    code == 2006 || code == 2013 || code == 1213 || code == 1205
  }

  /** The attempt that decides: the first that is not a retryable error. */
  function Deciding(qs: seq<Query>): (k: nat)
    ensures k <= |qs|
  {
    if qs == [] || !(qs[0].Error? && Retryable(qs[0].code)) then 0 else 1 + Deciding(qs[1..])
  }

  function Result(qs: seq<Query>): Outcome {
    var k := Deciding(qs);
    if k == |qs| then NotSaved
    else match qs[k]
      case Fine => Saved
      case Error(_) => NotSaved
      case NoConnection => NotSaved
      case Raises(known, what) => Raised(known, what)
  }

  lemma {:induction false} DecidingIsFirst(qs: seq<Query>)
    ensures var k := Deciding(qs);
            && (forall j | 0 <= j < k :: qs[j].Error? && Retryable(qs[j].code))
            && (k < |qs| ==> !(qs[k].Error? && Retryable(qs[k].code)))
  {
    if qs != [] && qs[0].Error? && Retryable(qs[0].code) {
      DecidingIsFirst(qs[1..]);
      var k := Deciding(qs);
      forall j | 0 <= j < k
        ensures qs[j].Error? && Retryable(qs[j].code)
      {
        assert j > 0 ==> qs[j] == qs[1..][j - 1];
      }
    }
  }

  /** The row is written exactly when some attempt succeeds after retryable errors only. */
  lemma SavedIff(qs: seq<Query>)
    ensures Result(qs) == Saved <==>
              exists k :: 0 <= k < |qs| && qs[k].Fine?
                          && forall j | 0 <= j < k :: qs[j].Error? && Retryable(qs[j].code)
  {
    DecidingIsFirst(qs);
    var d := Deciding(qs);
    if k :| 0 <= k < |qs| && qs[k].Fine? && forall j | 0 <= j < k :: qs[j].Error? && Retryable(qs[j].code) {
      assert d == k;
    }
  }

  /** Lost connections, deadlocks and lock timeouts are tried again, by their MySQL error numbers;
      any other error, an exception or no connection ends the save at once. */
  lemma ResultOf(q: Query, qs: seq<Query>)
    ensures Result([q] + qs) ==
              match q
              case Fine => Saved
              case Error(code) => if code in {2006, 2013, 1213, 1205} then Result(qs) else NotSaved
              case NoConnection => NotSaved
              case Raises(known, what) => Raised(known, what)
    ensures Result([]) == NotSaved
  {
    assert ([q] + qs)[1..] == qs;
  }

  /** A queue whose front has been taken and put back. */
  function Rotated(q: seq<int>): (r: seq<int>)
    ensures |r| == |q| && multiset(r) == multiset(q)
  {
    if q == [] then []
    else
      assert q == [q[0]] + q[1..];
      q[1..] + [q[0]]
  }

  /** What an attempt does to the pool that the workers share: the worker takes and, if it got a
      connection, returns it. It holds nothing before and nothing after. */
  function Attempted(p: Shared, w: nat, workers: nat): (q: Shared)
    requires w in p.busy && w !in p.held
    ensures q == p.(free := Rotated(p.free))
  {
    var taken := Do(p, Takes(w), workers);
    if w !in taken.held then taken
    else
      assert p.held[w := p.free[0]] - {w} == p.held;
      Do(taken, Returns(w), workers)
  }

  /** One attempt: a connection is borrowed for one query and given back, also when the
      query raises; with no free connection there is no query. */
  method Attempt(pool: DbConnectionPool, q: Query) returns (ran: Option<Query>)
    requires pool.Valid()
    modifies pool`freeIndices, pool`handles, pool`holder
    ensures pool.Valid() && pool.handles == old(pool.handles)
    ensures ran == if old(pool.freeIndices) == [] || q.NoConnection? then None else Some(q)
    ensures pool.freeIndices == if ran.None? then old(pool.freeIndices) else Rotated(old(pool.freeIndices))
    ensures forall p: Shared, w: nat, workers: nat
              | p.free == old(pool.freeIndices) && w in p.busy && w !in p.held && !q.NoConnection? ::
              Attempted(p, w, workers).free == pool.freeIndices
  {
    hide Partition;
    if q.NoConnection? {
      return None;
    }
    var conn := pool.Acquire();
    ran := if conn.IsValid() then Some(q) else None;
    pool.Destroy(conn);
  }

  /** save_position and save_stats: the same loop around different statements. */
  method SaveWithRetry(pool: DbConnectionPool, qs: seq<Query>) returns (r: Outcome)
    requires pool.Valid() && |qs| == 3
    modifies pool`freeIndices, pool`handles, pool`holder
    ensures pool.Valid() && pool.handles == old(pool.handles)
    ensures r == if old(pool.freeIndices) == [] then NotSaved else Result(qs)
    ensures multiset(pool.freeIndices) == multiset(old(pool.freeIndices))
  {
    hide pool.Valid, Rotated, Retryable;
    ghost var free := pool.freeIndices;
    var attempt := 1;
    while attempt <= MAX_ATTEMPTS
      invariant 1 <= attempt <= MAX_ATTEMPTS + 1
      invariant pool.Valid() && pool.handles == old(pool.handles)
      invariant |pool.freeIndices| == |free| && multiset(pool.freeIndices) == multiset(free)
      invariant free == [] ==> attempt == 1
      invariant Deciding(qs) == attempt - 1 + Deciding(qs[attempt - 1..])
    {
      var ran := Attempt(pool, qs[attempt - 1]);
      if ran.None? {
        break;
      }
      match ran.value {
        case Fine => return Saved;
        case Raises(known, what) => return Raised(known, what);
        case Error(code) =>
          if !Retryable(code) {
            break;
          }
      }
      attempt := attempt + 1;
    }
    return NotSaved;
  }

  // ---- find_or_create -------------------------------------------------------------------

  datatype Insert = NotPrepared | Inserted | InsertError(code: nat)

  /** One attempt: no connection, an exception, or what the insert does and the row the
      select would then return. */
  datatype Try<T> = Unconnected | Throws | Try(insert: Insert, row: Option<T>)

  datatype Lookup<T> = Row(row: T) | NoRow | Threw

  predicate TriesAgain<T>(t: Try<T>) {
    t.Try? && if t.insert.InsertError? then Retryable(t.insert.code) else t.row.None?
  }

  function Found<T>(ts: seq<Try<T>>): Lookup<T> {
    if ts == [] then NoRow
    else if TriesAgain(ts[0]) then Found(ts[1..])
    else if ts[0].Throws? then Threw
    else if ts[0].Unconnected? || ts[0].insert.InsertError? then NoRow
    else Row(ts[0].row.value)
  }

  /** Attempt k selects the row, and every attempt before it is worth retrying. */
  ghost predicate SelectsAt<T>(ts: seq<Try<T>>, k: nat, row: T) {
    && k < |ts| && ts[k].Try? && !ts[k].insert.InsertError? && ts[k].row == Some(row)
    && forall j | 0 <= j < k :: TriesAgain(ts[j])
  }

  /** A row is returned exactly when some attempt selects it after attempts worth retrying. */
  lemma {:induction false} FoundIff<T>(ts: seq<Try<T>>, row: T)
    ensures Found(ts) == Row(row) <==> exists k: nat :: SelectsAt(ts, k, row)
  {
    if ts == [] {
    } else if TriesAgain(ts[0]) {
      FoundIff(ts[1..], row);
      if k: nat :| SelectsAt(ts[1..], k, row) {
        assert forall j | 1 <= j < k + 1 :: ts[j] == ts[1..][j - 1];
        assert SelectsAt(ts, k + 1, row);
      }
      if k: nat :| SelectsAt(ts, k, row) {
        assert forall j | 0 <= j < k - 1 :: ts[1..][j] == ts[j + 1];
        assert SelectsAt(ts[1..], k - 1, row);
      }
    } else if Found(ts) == Row(row) {
      assert SelectsAt(ts, 0, row);
    }
  }

  /** The same errors are tried again here, and so is a select that finds nothing. */
  lemma FoundOf<T>(t: Try<T>, ts: seq<Try<T>>)
    ensures Found([t] + ts) ==
              match t
              case Unconnected => NoRow
              case Throws => Threw
              case Try(InsertError(code), _) => if code in {2006, 2013, 1213, 1205} then Found(ts) else NoRow
              case Try(_, None) => Found(ts)
              case Try(_, Some(row)) => Row(row)
    ensures Found<T>([]) == NoRow
  {
    assert ([t] + ts)[1..] == ts;
  }

  method FindOrCreate<T>(pool: DbConnectionPool, ts: seq<Try<T>>) returns (r: Lookup<T>)
    requires pool.Valid() && |ts| == 3
    modifies pool`freeIndices, pool`handles, pool`holder
    ensures pool.Valid() && pool.handles == old(pool.handles)
    ensures r == if old(pool.freeIndices) == [] then NoRow else Found(ts)
    ensures multiset(pool.freeIndices) == multiset(old(pool.freeIndices))
  {
    hide pool.Valid, Rotated, Retryable;
    ghost var free := pool.freeIndices;
    var attempt := 1;
    while attempt <= MAX_ATTEMPTS
      invariant 1 <= attempt <= MAX_ATTEMPTS + 1
      invariant pool.Valid() && pool.handles == old(pool.handles)
      invariant |pool.freeIndices| == |free| && multiset(pool.freeIndices) == multiset(free)
      invariant free == [] ==> attempt == 1
      invariant Found(ts) == Found(ts[attempt - 1..])
    {
      var t := ts[attempt - 1];
      var ran := Attempt(pool, if t.Unconnected? then NoConnection else Fine);
      if ran.None? {
        break;
      }
      if t.Throws? {
        return Threw;
      }
      if t.insert.InsertError? {
        if !Retryable(t.insert.code) {
          return NoRow;
        }
      } else if t.row.Some? {
        return Row(t.row.value);
      }
      attempt := attempt + 1;
    }
    return NoRow;
  }

  /** The database half of a login: the record it hands back, none after an exception. */
  method LoginTask<T>(pool: DbConnectionPool, ts: seq<Try<T>>) returns (rec: Option<T>)
    requires pool.Valid() && |ts| == 3
    modifies pool`freeIndices, pool`handles, pool`holder
    ensures pool.Valid() && pool.handles == old(pool.handles)
    ensures multiset(pool.freeIndices) == multiset(old(pool.freeIndices))
    ensures forall row: T ::
              rec == Some(row) <==> old(pool.freeIndices) != [] && exists k: nat :: SelectsAt(ts, k, row)
  {
    hide pool.Valid;
    var r := FindOrCreate(pool, ts);
    rec := if r.Row? then Some(r.row) else None;
    forall row: T
      ensures rec == Some(row) <==> old(pool.freeIndices) != [] && exists k: nat :: SelectsAt(ts, k, row)
    {
      FoundIff(ts, row);
    }
  }

  // ---- what a logout posts ------------------------------------------------------------

  /** A record of a failed save, kept for a later replay. */
  datatype Snapshot = Snapshot(playerId: int, playerName: string, body: Sessions.Body, level: int, exp: int,
                               operation: string, attempts: nat, error: string)

  /** Level and experience are not read from the player: these are saved. */
  const LEVEL := 1
  const EXP := 0

  /** Saves position and stats; what could not be saved is recorded once, with the state the
      player had on closing. An exception that is not a std::exception is only logged. */
  method LogoutTask(pool: DbConnectionPool, posQs: seq<Query>, statsQs: seq<Query>, hasSink: bool,
                    playerId: int, playerName: string, body: Sessions.Body)
    returns (pos: Outcome, stats: Outcome, records: seq<Snapshot>)
    requires pool.Valid() && |posQs| == |statsQs| == 3
    modifies pool`freeIndices, pool`handles, pool`holder
    ensures pool.Valid() && pool.handles == old(pool.handles)
    ensures multiset(pool.freeIndices) == multiset(old(pool.freeIndices))
    ensures old(pool.freeIndices) == [] ==> pos == stats == NotSaved
    ensures old(pool.freeIndices) != [] ==> pos == Result(posQs)
    ensures old(pool.freeIndices) != [] && !pos.Raised? ==> stats == Result(statsQs)
    ensures pos.Raised? ==> stats == NotSaved
    ensures records == [] <==> pos == stats == Saved || !hasSink || (pos.Raised? && !pos.known) || (stats.Raised? && !stats.known)
    ensures records != [] && pos.Raised? ==>
              records == [Snapshot(playerId, playerName, body, 1, 0, "on_close", 1, pos.what)]
    ensures records != [] && stats.Raised? ==>
              records == [Snapshot(playerId, playerName, body, 1, 0, "on_close", 1, stats.what)]
    ensures records != [] && pos == NotSaved && !stats.Raised? ==>
              records == [Snapshot(playerId, playerName, body, 1, 0, "save_position", 3, "db_write_failed")]
    ensures records != [] && pos == Saved && stats == NotSaved ==>
              records == [Snapshot(playerId, playerName, body, 1, 0, "save_stats", 3, "db_write_failed")]
  {
    hide pool.Valid;
    pos, stats, records := NotSaved, NotSaved, [];
    pos := SaveWithRetry(pool, posQs);
    assert pool.freeIndices == [] <==> old(pool.freeIndices) == [] by {
      assert |multiset(pool.freeIndices)| == |multiset(old(pool.freeIndices))|;
    }
    if !pos.Raised? {
      stats := SaveWithRetry(pool, statsQs);
    }
    if pos.Raised? || stats.Raised? {
      var failure := if pos.Raised? then pos else stats;
      if failure.known && hasSink {
        records := [Snapshot(playerId, playerName, body, LEVEL, EXP, "on_close", 1, failure.what)];
      }
    } else if (pos != Saved || stats != Saved) && hasSink {
      var operation := if pos != Saved then "save_position" else "save_stats";
      records := [Snapshot(playerId, playerName, body, LEVEL, EXP, operation, MAX_ATTEMPTS, "db_write_failed")];
    }
  }
}
