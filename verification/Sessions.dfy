/** Player sessions with a database: the handlers of the io thread, each atomic, and the
    per-channel strands on which database tasks run first in, first out. */
module Sessions {
  import opened Bytes
  import opened Wrappers

  datatype Place = Place(x: real, y: real, z: real, mapId: int)

  /** The components of a player entity that are saved. */
  datatype Body = Body(place: Place, hp: int)

  const DEFAULT_BODY := Body(Place(0.0, 0.0, 0.0, 1), 100)

  datatype Record = Record(id: int, body: Body)

  datatype Task =
    | FindOrCreate(name: string)
    | SavePosition(dbId: int, place: Place)
    | Logout(dbId: int, body: Body)

  /** The io-thread half of a login. */
  datatype Callback = Callback(channel: nat, rec: Option<Record>)

  /** What a client is told: login_res. */
  datatype LoginReply = LoginReply(success: bool, message: string, playerId: u32, mapId: u32)

  datatype Server = Server(
    channels: set<nat>, entityOf: map<nat, u32>, dbIdOf: map<nat, int>, strands: set<nat>,
    posted: map<nat, seq<Task>>,   // every task posted on a channel's strand
    done: map<nat, nat>,           // how many of them have run
    callbacks: seq<Callback>,
    active: set<u32>, bodies: map<u32, Body>, created: nat, nextChannel: nat,
    players: set<u32>)             // history: live entities made by a login

  const START := Server({}, map[], map[], {}, map[], map[], [], {}, map[], 0, 1, {})

  /** The id the next entity gets: a 32-bit counter that starts at one. */
  function NextEntity(s: Server): u32 {
    TruncateU32(s.created + 1)
  }

  function BodyOf(s: Server, e: u32): Body {
    if e in s.bodies then s.bodies[e] else DEFAULT_BODY
  }

  function Post(s: Server, c: nat, t: Task): Server {
    if c in s.posted then s.(posted := s.posted[c := s.posted[c] + [t]]) else s
  }

  // ---- handlers -------------------------------------------------------------------

  function Accept(s: Server): Server {
    var c := s.nextChannel;
    s.(nextChannel := c + 1, channels := s.channels + {c}, strands := s.strands + {c},
       posted := s.posted[c := []], done := s.done[c := 0])
  }

  function Login(s: Server, c: nat, name: string): Server {
    if c in s.strands then Post(s, c, FindOrCreate(name)) else s
  }

  /** A database worker runs the next task of a strand. */
  function RunTask(s: Server, c: nat, rec: Option<Record>): Server
    requires c in s.posted && c in s.done && s.done[c] < |s.posted[c]|
  {
    var task := s.posted[c][s.done[c]];
    s.(done := s.done[c := s.done[c] + 1],
       callbacks := if task.FindOrCreate? then s.callbacks + [Callback(c, rec)] else s.callbacks)
  }

  function LoginDone(s: Server, i: nat): Server
    requires i < |s.callbacks|
  {
    var cb := s.callbacks[i];
    var s1 := s.(callbacks := s.callbacks[..i] + s.callbacks[i + 1..]);
    if cb.channel !in s.channels || cb.rec.None? then s1
    else
      var (c, r, e) := (cb.channel, cb.rec.value, NextEntity(s));
      s1.(created := s.created + 1, active := s.active + {e}, bodies := s.bodies[e := r.body],
          entityOf := s.entityOf[c := e],
          dbIdOf := if r.id > 0 then s.dbIdOf[c := r.id] else s.dbIdOf,
          players := s.players + {e})
  }

  function FlushTasks(s: Server, c: nat): seq<Task> {
    if c in s.dbIdOf && c in s.entityOf && c in s.strands
    then [SavePosition(s.dbIdOf[c], BodyOf(s, s.entityOf[c]).place)]
    else []
  }

  function Flush(s: Server): Server {
    s.(posted := map c | c in s.posted :: s.posted[c] + FlushTasks(s, c))
  }

  function Destroy(s: Server, e: u32): Server {
    s.(active := s.active - {e}, players := s.players - {e})
  }

  /** The killing blow of an attack. */
  function Kill(s: Server, attacker: nat, target: nat): Server {
    if attacker in s.entityOf && target in s.entityOf && s.entityOf[attacker] != 0 && s.entityOf[target] != 0
    then Destroy(s, s.entityOf[target]).(entityOf := s.entityOf - {target})
    else s
  }

  /** A save is owed at close exactly when the channel has a strand, a row and an entity. */
  predicate OwesLogout(s: Server, c: nat) {
    c in s.strands && c in s.dbIdOf && s.dbIdOf[c] > 0 && c in s.entityOf && s.entityOf[c] != 0
  }

  function Close(s: Server, c: nat): Server {
    var s1 := if OwesLogout(s, c) then Post(s, c, Logout(s.dbIdOf[c], BodyOf(s, s.entityOf[c]))) else s;
    var s2 := if c in s.entityOf && s.entityOf[c] != 0 then Destroy(s1, s.entityOf[c]) else s1;
    s2.(channels := s.channels - {c}, entityOf := s.entityOf - {c}, dbIdOf := s.dbIdOf - {c},
        strands := s.strands - {c})
  }

  function Spawn(s: Server): Server {
    s.(created := s.created + 1, active := s.active + {NextEntity(s)})
  }

  // ---- runs -------------------------------------------------------------------------

  datatype Event =
    | Accepting
    | LoggingIn(c: nat, name: string)
    | Running(c: nat, rec: Option<Record>)
    | CallingBack(i: nat)
    | Flushing
    | Killing(attacker: nat, target: nat)
    | Closing(c: nat)
    | Spawning                          // an entity that is no player's: of a monster, a map or a move
    | Moving(e: u32, body: Body)        // an entity moves or is hit

  predicate Enabled(s: Server, e: Event) {
    match e
    case Running(c, _) => c in s.posted && c in s.done && s.done[c] < |s.posted[c]|
    case CallingBack(i) => i < |s.callbacks|
    case _ => true
  }

  function Do(s: Server, e: Event): Server
    requires Enabled(s, e)
  {
    match e
    case Accepting => Accept(s)
    case LoggingIn(c, name) => Login(s, c, name)
    case Running(c, rec) => RunTask(s, c, rec)
    case CallingBack(i) => LoginDone(s, i)
    case Flushing => Flush(s)
    case Killing(a, t) => Kill(s, a, t)
    case Closing(c) => Close(s, c)
    case Spawning => Spawn(s)
    case Moving(e, body) => s.(bodies := s.bodies[e := body])
  }

  ghost predicate Runs(s: Server, events: seq<Event>)
    decreases |events|
  {
    events == [] || (Enabled(s, events[0]) && Runs(Do(s, events[0]), events[1..]))
  }

  ghost function After(s: Server, events: seq<Event>): Server
    requires Runs(s, events)
    decreases |events|
  {
    if events == [] then s else After(Do(s, events[0]), events[1..])
  }

  // ---- invariants ---------------------------------------------------------------------

  /** The indexes of channels agree. */
  ghost predicate IndexInv(s: Server) {
    && s.channels == s.strands && s.nextChannel > 0
    && s.entityOf.Keys <= s.channels && s.dbIdOf.Keys <= s.channels
    && (forall c | c in s.channels :: c < s.nextChannel)
    && (forall c: nat :: c in s.posted <==> 0 < c < s.nextChannel)
    && s.channels <= s.posted.Keys && s.done.Keys == s.posted.Keys
    && (forall c | c in s.done :: s.done[c] <= |s.posted[c]|)
    && (forall c | c in s.dbIdOf :: s.dbIdOf[c] > 0)
  }

  lemma FlushIndex(s: Server)
    requires IndexInv(s)
    ensures IndexInv(Flush(s))
  {
    assert Flush(s).posted.Keys == s.posted.Keys;
  }

  lemma CloseIndex(s: Server, c: nat)
    requires IndexInv(s)
    ensures IndexInv(Close(s, c))
  {
  }

  lemma LoginDoneIndex(s: Server, i: nat)
    requires IndexInv(s) && i < |s.callbacks|
    ensures IndexInv(LoginDone(s, i))
  {
  }

  lemma IndexStep(s: Server, e: Event)
    requires IndexInv(s) && Enabled(s, e)
    ensures IndexInv(Do(s, e))
  {
    hide Flush, Close, LoginDone;
    match e
    case CallingBack(i) => LoginDoneIndex(s, i);
    case Flushing => FlushIndex(s);
    case Closing(c) => CloseIndex(s, c);
    case _ =>
  }

  /** An open channel has no logout save waiting. */
  ghost predicate LogoutInv(s: Server) {
    forall c, i | c in s.strands && c in s.posted && 0 <= i < |s.posted[c]| :: !s.posted[c][i].Logout?
  }

  lemma LogoutStep(s: Server, e: Event)
    requires IndexInv(s) && LogoutInv(s) && Enabled(s, e)
    ensures LogoutInv(Do(s, e))
  {
  }

  lemma {:induction false} RunKeeps(s: Server, events: seq<Event>)
    requires IndexInv(s) && LogoutInv(s) && Runs(s, events)
    ensures IndexInv(After(s, events)) && LogoutInv(After(s, events))
    decreases |events|
  {
    hide Do, Enabled, IndexInv, LogoutInv;
    if events != [] {
      IndexStep(s, events[0]);
      LogoutStep(s, events[0]);
      RunKeeps(Do(s, events[0]), events[1..]);
    }
  }

  // ---- properties of every point of a run -------------------------------------------------

  /** P holds at the start of a run and after each of its events. */
  ghost predicate Always(P: Server -> bool, s: Server, events: seq<Event>) {
    forall k | 0 <= k <= |events| :: Runs(s, events[..k]) && P(After(s, events[..k]))
  }

  lemma AlwaysUnfolds(P: Server -> bool, s: Server, events: seq<Event>)
    requires Runs(s, events) && events != []
    ensures Always(P, s, events) <==> P(s) && Always(P, Do(s, events[0]), events[1..])
  {
    var (s', rest) := (Do(s, events[0]), events[1..]);
    hide Do, Enabled;
    assert events[..0] == [];
    forall k | 0 <= k <= |rest|
      ensures Runs(s, events[..k + 1]) <==> Runs(s', rest[..k])
      ensures Runs(s', rest[..k]) ==> After(s, events[..k + 1]) == After(s', rest[..k])
    {
      assert events[..k + 1][0] == events[0] && events[..k + 1][1..] == rest[..k];
    }
    if Always(P, s, events) {
      assert P(After(s, events[..0]));
      forall k | 0 <= k <= |rest| ensures Runs(s', rest[..k]) && P(After(s', rest[..k])) {
        assert Runs(s, events[..k + 1]) && P(After(s, events[..k + 1]));
      }
    }
    if P(s) && Always(P, s', rest) {
      forall k | 0 <= k <= |events| ensures Runs(s, events[..k]) && P(After(s, events[..k])) {
        if k > 0 {
          assert Runs(s', rest[..k - 1]) && P(After(s', rest[..k - 1]));
        }
      }
    }
  }

  lemma AlwaysOfNothing(P: Server -> bool, s: Server)
    ensures Always(P, s, []) <==> P(s)
  {
    var none: seq<Event> := [];
    assert none[..0] == none;
    if Always(P, s, none) {
      assert P(After(s, none[..0]));
    }
  }

  // ---- sessions and their entities --------------------------------------------------------

  /** Every session's entity is alive and no other session's. */
  ghost predicate Alone(s: Server) {
    && (forall c | c in s.entityOf :: s.entityOf[c] in s.active)
    && (forall c, d | c in s.entityOf && d in s.entityOf && s.entityOf[c] == s.entityOf[d] :: c == d)
  }

  ghost predicate Owned(s: Server) {
    && Alone(s) && s.players <= s.active
    && (forall c | c in s.entityOf :: s.entityOf[c] in s.players)
  }

  /** A login finds its channel still open and a record. */
  predicate Completes(s: Server, e: Event) {
    && e.CallingBack? && e.i < |s.callbacks|
    && var cb := s.callbacks[e.i]; cb.rec.Some? && cb.channel in s.channels
  }

  /** A login completes, and the id it is given already belongs to another session. */
  predicate GivesBoundId(s: Server, e: Event) {
    Completes(s, e) && exists d | d in s.entityOf :: d != s.callbacks[e.i].channel && s.entityOf[d] == NextEntity(s)
  }

  lemma LoginOwned(s: Server, i: nat)
    requires Owned(s) && i < |s.callbacks|
    ensures Owned(LoginDone(s, i)) <==> !GivesBoundId(s, CallingBack(i))
    ensures Alone(LoginDone(s, i)) <==> !GivesBoundId(s, CallingBack(i))
  {
    hide NextEntity;
    var s' := LoginDone(s, i);
    if GivesBoundId(s, CallingBack(i)) {
      var c := s.callbacks[i].channel;
      var d :| d in s.entityOf && d != c && s.entityOf[d] == NextEntity(s);
      assert s'.entityOf[c] == s'.entityOf[d];
    }
  }

  /** An event leaves sessions the sole owners of live entities exactly when it is not that. */
  lemma OwnedStep(s: Server, e: Event)
    requires Owned(s) && Enabled(s, e)
    ensures Owned(Do(s, e)) <==> !GivesBoundId(s, e)
    ensures Alone(Do(s, e)) <==> !GivesBoundId(s, e)
  {
    if e.CallingBack? {
      hide LoginDone, Owned, Alone;
      LoginOwned(s, e.i);
    }
  }

  ghost predicate NeverBound(s: Server, events: seq<Event>)
    requires Runs(s, events)
    decreases |events|
  {
    events == [] || (!GivesBoundId(s, events[0]) && NeverBound(Do(s, events[0]), events[1..]))
  }

  lemma {:induction false} AloneThroughout(s: Server, events: seq<Event>)
    requires Owned(s) && Runs(s, events)
    ensures Always(Alone, s, events) <==> NeverBound(s, events)
    decreases |events|
  {
    if events == [] {
      AlwaysOfNothing(Alone, s);
    } else {
      AlwaysUnfolds(Alone, s, events);
      OwnedStep(s, events[0]);
      hide Do, Enabled, GivesBoundId;
      var s' := Do(s, events[0]);
      if Owned(s') {
        AloneThroughout(s', events[1..]);
      } else {
        assert [] == events[1..][..0];
        assert !Always(Alone, s', events[1..]) by {
          assert !Alone(After(s', events[1..][..0]));
        }
      }
    }
  }

  /** In every run the channel indexes agree; and sessions are the sole owners of live
      entities at every point of it exactly when no login is given an id already bound. */
  lemma SessionsConsistent(events: seq<Event>)
    requires Runs(START, events)
    ensures var s := After(START, events);
            s.channels == s.strands && s.entityOf.Keys <= s.channels && s.dbIdOf.Keys <= s.channels
    ensures Always(Alone, START, events) <==> NeverBound(START, events)
  {
    RunKeeps(START, events);
    AloneThroughout(START, events);
  }

  // ---- entities left behind ---------------------------------------------------------------

  /** Live player entities no channel refers to. */
  ghost function Orphans(s: Server): set<u32> {
    s.players - s.entityOf.Values
  }

  ghost predicate Tidy(s: Server) {
    Alone(s) && Orphans(s) == {}
  }

  /** A login completes on a channel that has an entity. */
  predicate Relogs(s: Server, e: Event) {
    Completes(s, e) && s.callbacks[e.i].channel in s.entityOf
  }

  /** A login replaces an entity, or a channel closes whose entity has the id zero, which
      a close takes to mean none. */
  predicate LeavesBehind(s: Server, e: Event) {
    || (Relogs(s, e) && s.entityOf[s.callbacks[e.i].channel] != NextEntity(s))
    || (e.Closing? && e.c in s.entityOf && s.entityOf[e.c] == 0)
  }

  /** The entity that goes with a channel's entry in the map. */
  lemma OrphansOfUnbound(s: Server, c: nat, e: u32)
    requires Owned(s) && c in s.entityOf && s.entityOf[c] == e
    ensures (s.entityOf - {c}).Values == s.entityOf.Values - {e}
  {
    var rest := s.entityOf - {c};
    forall d | d in s.entityOf && d != c ensures s.entityOf[d] in rest.Values && s.entityOf[d] != e {
      assert d in rest && rest[d] == s.entityOf[d];
    }
  }

  lemma OrphansOfBound(s: Server, c: nat, e: u32)
    requires Owned(s)
    ensures s.entityOf[c := e].Values ==
              s.entityOf.Values - (if c in s.entityOf then {s.entityOf[c]} else {}) + {e}
  {
    var bound := s.entityOf[c := e];
    assert bound[c] == e;
    if c in s.entityOf {
      OrphansOfUnbound(s, c, s.entityOf[c]);
    }
    forall d | d in s.entityOf && d != c ensures s.entityOf[d] in bound.Values {
      assert d in bound && bound[d] == s.entityOf[d];
    }
  }

  /** What a completed login does to the orphans: the entity it replaces becomes one, and
      one whose id it is given is one no longer. */
  lemma LoginOrphans(s: Server, e: Event)
    requires Owned(s) && Enabled(s, e) && Completes(s, e)
    ensures var c := s.callbacks[e.i].channel;
            var replaced := if c in s.entityOf then {s.entityOf[c]} else {};
            Orphans(Do(s, e)) == Orphans(s) + replaced - {NextEntity(s)}
  {
    hide NextEntity;
    OrphansOfBound(s, s.callbacks[e.i].channel, NextEntity(s));
  }

  lemma CloseOrphans(s: Server, c: nat)
    requires Owned(s)
    ensures Orphans(Close(s, c)) == Orphans(s) + if c in s.entityOf && s.entityOf[c] == 0 then {0} else {}
  {
    if c in s.entityOf {
      OrphansOfUnbound(s, c, s.entityOf[c]);
      assert s.entityOf[c] in s.entityOf.Values;
    } else {
      assert s.entityOf - {c} == s.entityOf;
    }
  }

  lemma KillOrphans(s: Server, attacker: nat, target: nat)
    requires Owned(s)
    ensures Orphans(Kill(s, attacker, target)) == Orphans(s)
  {
    if target in s.entityOf {
      OrphansOfUnbound(s, target, s.entityOf[target]);
      assert s.entityOf[target] in s.entityOf.Values;
    }
  }

  /** How each event changes the set of entities left behind. */
  lemma OrphansStep(s: Server, e: Event)
    requires Owned(s) && Enabled(s, e)
    ensures !Completes(s, e) && !e.Closing? ==> Orphans(Do(s, e)) == Orphans(s)
    ensures e.Closing? ==> LeavesBehind(s, e) || Orphans(Do(s, e)) == Orphans(s)
    ensures Orphans(s) == {} ==> (Orphans(Do(s, e)) == {} <==> !LeavesBehind(s, e))
  {
    match e {
      case Closing(c) => CloseOrphans(s, c);
      case Killing(a, t) => KillOrphans(s, a, t);
      case _ =>
        if Completes(s, e) {
          LoginOrphans(s, e);
        }
    }
  }

  ghost predicate NothingLost(s: Server, events: seq<Event>)
    requires Runs(s, events)
    decreases |events|
  {
    events == [] || (!GivesBoundId(s, events[0]) && !LeavesBehind(s, events[0])
                     && NothingLost(Do(s, events[0]), events[1..]))
  }

  lemma {:induction false} TidyThroughout(s: Server, events: seq<Event>)
    requires Owned(s) && Orphans(s) == {} && Runs(s, events)
    ensures Always(Tidy, s, events) <==> NothingLost(s, events)
    decreases |events|
  {
    if events == [] {
      AlwaysOfNothing(Tidy, s);
    } else {
      AlwaysUnfolds(Tidy, s, events);
      OwnedStep(s, events[0]);
      OrphansStep(s, events[0]);
      hide Do, Enabled, GivesBoundId, LeavesBehind, Orphans;
      var s' := Do(s, events[0]);
      if Owned(s') && Orphans(s') == {} {
        TidyThroughout(s', events[1..]);
      } else {
        assert [] == events[1..][..0];
        assert !Always(Tidy, s', events[1..]) by {
          assert !Tidy(After(s', events[1..][..0]));
        }
      }
    }
  }

  /** At every point of a run sessions own their entities and every live player entity has
      its channel, exactly when no event of the run shares or leaves behind an entity. */
  lemma NoOrphansIff(events: seq<Event>)
    requires Runs(START, events)
    ensures Always(Tidy, START, events) <==> NothingLost(START, events)
  {
    TidyThroughout(START, events);
  }

  /** The id a login is given is neither zero nor that of a live player. */
  predicate FreshId(s: Server, e: Event) {
    Completes(s, e) ==> NextEntity(s) != 0 && NextEntity(s) !in s.players
  }

  ghost predicate FreshIds(s: Server, events: seq<Event>)
    requires Runs(s, events)
    decreases |events|
  {
    events == [] || (FreshId(s, events[0]) && FreshIds(Do(s, events[0]), events[1..]))
  }

  /** The entities a run's logins replace. */
  ghost function Replaced(s: Server, events: seq<Event>): set<u32>
    requires Runs(s, events)
    decreases |events|
  {
    if events == [] then {}
    else
      (if Relogs(s, events[0]) then {s.entityOf[s.callbacks[events[0].i].channel]} else {})
      + Replaced(Do(s, events[0]), events[1..])
  }

  ghost predicate NoRelogin(s: Server, events: seq<Event>)
    requires Runs(s, events)
    decreases |events|
  {
    events == [] || (!Relogs(s, events[0]) && NoRelogin(Do(s, events[0]), events[1..]))
  }

  lemma FreshStep(s: Server, e: Event)
    requires Owned(s) && 0 !in s.players && Enabled(s, e) && FreshId(s, e)
    ensures Owned(Do(s, e)) && 0 !in Do(s, e).players
    ensures Orphans(Do(s, e)) == Orphans(s) + if Relogs(s, e) then {s.entityOf[s.callbacks[e.i].channel]} else {}
  {
    OwnedStep(s, e);
    OrphansStep(s, e);
    if Completes(s, e) {
      LoginOrphans(s, e);
    }
  }

  lemma {:induction false} OrphansAreReplaced(s: Server, events: seq<Event>)
    requires Owned(s) && 0 !in s.players && Runs(s, events) && FreshIds(s, events)
    ensures Orphans(After(s, events)) == Orphans(s) + Replaced(s, events)
    ensures Replaced(s, events) == {} <==> NoRelogin(s, events)
    decreases |events|
  {
    hide Orphans, Owned, Do, Enabled, Relogs, FreshId;
    if events != [] {
      FreshStep(s, events[0]);
      OrphansAreReplaced(Do(s, events[0]), events[1..]);
    }
  }

  /** While logins get fresh ids, the live player entities without a channel are those that
      a later login on their channel replaced: there are none exactly when no login
      completes on a channel that still has an entity. */
  lemma OrphansOnlyByRelogin(events: seq<Event>)
    requires Runs(START, events) && FreshIds(START, events)
    ensures Orphans(After(START, events)) == Replaced(START, events)
    ensures Orphans(After(START, events)) == {} <==> NoRelogin(START, events)
  {
    OrphansAreReplaced(START, events);
  }

  // ---- how long ids stay fresh ------------------------------------------------------------

  /** Entity ids are 32 bits wide. */
  const ENTITY_LIMIT := 0x1_0000_0000

  /** Until the counter wraps, ids in use have been counted. */
  ghost predicate IdsCounted(s: Server) {
    && (forall e | e in s.active || e in s.players :: 0 < e <= s.created)
    && (forall c | c in s.entityOf :: 0 < s.entityOf[c] <= s.created)
  }

  lemma IdsStep(s: Server, e: Event)
    requires IdsCounted(s) && Enabled(s, e)
    ensures s.created <= Do(s, e).created
    ensures Do(s, e).created < ENTITY_LIMIT ==> IdsCounted(Do(s, e)) && FreshId(s, e)
    ensures Do(s, e).created <= ENTITY_LIMIT ==> !GivesBoundId(s, e)
  {
  }

  lemma CreatedGrows(s: Server, e: Event)
    requires Enabled(s, e)
    ensures s.created <= Do(s, e).created <= s.created + 1
    ensures Completes(s, e) ==> Do(s, e).created == s.created + 1
  {
  }

  lemma {:induction false} RunCreates(s: Server, events: seq<Event>)
    requires Runs(s, events)
    ensures s.created <= After(s, events).created
    decreases |events|
  {
    hide Do, Enabled;
    if events != [] {
      CreatedGrows(s, events[0]);
      RunCreates(Do(s, events[0]), events[1..]);
    }
  }

  /** Once the counter is at the limit no login of such a run completes any more. */
  lemma {:induction false} AtLimit(s: Server, events: seq<Event>)
    requires Runs(s, events) && s.created == After(s, events).created
    ensures NeverBound(s, events)
    decreases |events|
  {
    if events != [] {
      hide Do, Enabled;
      RunCreates(Do(s, events[0]), events[1..]);
      CreatedGrows(s, events[0]);
      AtLimit(Do(s, events[0]), events[1..]);
    }
  }

  lemma {:induction false} FewEntities(s: Server, events: seq<Event>)
    requires IdsCounted(s) && Runs(s, events)
    ensures After(s, events).created < ENTITY_LIMIT ==> FreshIds(s, events)
    ensures After(s, events).created <= ENTITY_LIMIT ==> NeverBound(s, events)
    decreases |events|
  {
    hide Do, Enabled, IdsCounted, GivesBoundId, FreshId;
    if events != [] {
      var s' := Do(s, events[0]);
      IdsStep(s, events[0]);
      RunCreates(s', events[1..]);
      if s'.created < ENTITY_LIMIT {
        FewEntities(s', events[1..]);
      } else if After(s, events).created <= ENTITY_LIMIT {
        AtLimit(s', events[1..]);
      }
    }
  }

  /** So sessions own their entities in every run that creates at most 2^32 entities, and
      only a login on a channel with an entity leaves one behind in runs that create fewer. */
  lemma FewEntitiesAreSafe(events: seq<Event>)
    requires Runs(START, events)
    ensures After(START, events).created <= ENTITY_LIMIT ==> Always(Alone, START, events)
    ensures After(START, events).created < ENTITY_LIMIT ==>
              (Orphans(After(START, events)) == {} <==> NoRelogin(START, events))
  {
    FewEntities(START, events);
    AloneThroughout(START, events);
    if After(START, events).created < ENTITY_LIMIT {
      OrphansOnlyByRelogin(events);
    }
  }

  // ---- one login per channel --------------------------------------------------------------

  /** How often a client asks to log in on a channel. */
  function Logins(events: seq<Event>, c: nat): nat {
    if events == [] then 0
    else (if events[0].LoggingIn? && events[0].c == c then 1 else 0) + Logins(events[1..], c)
  }

  /** Login queries among some tasks. */
  function Queries(tasks: seq<Task>): nat {
    if tasks == [] then 0 else (if tasks[0].FindOrCreate? then 1 else 0) + Queries(tasks[1..])
  }

  /** Login callbacks of a channel. */
  function Waiting(callbacks: seq<Callback>, c: nat): nat {
    if callbacks == [] then 0 else (if callbacks[0].channel == c then 1 else 0) + Waiting(callbacks[1..], c)
  }

  lemma {:induction false} QueriesSnoc(tasks: seq<Task>, t: Task)
    ensures Queries(tasks + [t]) == Queries(tasks) + if t.FindOrCreate? then 1 else 0
  {
    if tasks != [] {
      QueriesSnoc(tasks[1..], t);
      assert (tasks + [t])[1..] == tasks[1..] + [t];
    }
  }

  lemma {:induction false} WaitingAppend(x: seq<Callback>, y: seq<Callback>, c: nat)
    ensures Waiting(x + y, c) == Waiting(x, c) + Waiting(y, c)
  {
    if x == [] {
      assert x + y == y;
    } else {
      WaitingAppend(x[1..], y, c);
      assert (x + y)[1..] == x[1..] + y;
    }
  }

  /** Queries of a channel that its strand has still to run. */
  function Unrun(s: Server, c: nat): nat {
    if c in s.posted && c in s.done && s.done[c] <= |s.posted[c]| then Queries(s.posted[c][s.done[c]..]) else 0
  }

  /** What is left of the logins of a channel: its entity, and the logins under way. */
  function Underway(s: Server, c: nat): nat {
    (if c in s.entityOf then 1 else 0) + Waiting(s.callbacks, c) + Unrun(s, c)
  }

  lemma PostUnderway(s: Server, c: nat, t: Task, d: nat)
    requires IndexInv(s)
    ensures Unrun(Post(s, c, t), d) == Unrun(s, d) + if c == d && c in s.posted && t.FindOrCreate? then 1 else 0
  {
    if c in s.posted && c == d {
      QueriesSnoc(s.posted[c][s.done[c]..], t);
      assert (s.posted[c] + [t])[s.done[c]..] == s.posted[c][s.done[c]..] + [t];
    }
  }

  lemma FlushUnderway(s: Server, d: nat)
    requires IndexInv(s)
    ensures Unrun(Flush(s), d) == Unrun(s, d)
  {
    if d in s.posted {
      if FlushTasks(s, d) == [] {
        assert Flush(s).posted[d] == s.posted[d];
      } else {
        PostUnderway(s, d, FlushTasks(s, d)[0], d);
      }
    }
  }

  lemma RunUnderway(s: Server, c: nat, rec: Option<Record>, d: nat)
    requires IndexInv(s) && Enabled(s, Running(c, rec))
    ensures Underway(RunTask(s, c, rec), d) == Underway(s, d)
  {
    var left := s.posted[c][s.done[c]..];
    assert left[1..] == s.posted[c][s.done[c] + 1..];
    WaitingAppend(s.callbacks, [Callback(c, rec)], d);
    assert [Callback(c, rec)][1..] == [];
  }

  lemma WaitingRemove(callbacks: seq<Callback>, i: nat, d: nat)
    requires i < |callbacks|
    ensures Waiting(callbacks, d) ==
              Waiting(callbacks[..i] + callbacks[i + 1..], d) + if callbacks[i].channel == d then 1 else 0
  {
    var cb := callbacks[i];
    assert callbacks == callbacks[..i] + ([cb] + callbacks[i + 1..]);
    WaitingAppend(callbacks[..i], [cb] + callbacks[i + 1..], d);
    WaitingAppend([cb], callbacks[i + 1..], d);
    WaitingAppend(callbacks[..i], callbacks[i + 1..], d);
    assert [cb][1..] == [];
  }

  /** The callback that runs is gone, and its channel may have got an entity. */
  lemma LoginUnderway(s: Server, i: nat, d: nat)
    requires i < |s.callbacks|
    ensures var c := s.callbacks[i].channel;
            && Waiting(s.callbacks, d) >= (if c == d then 1 else 0)
            && Underway(LoginDone(s, i), d) <= Underway(s, d)
  {
    hide Waiting, Queries, NextEntity;
    WaitingRemove(s.callbacks, i, d);
  }

  /** Only a request to log in adds to it; and a login that replaces an entity needs two. */
  lemma UnderwayStep(s: Server, e: Event, d: nat)
    requires IndexInv(s) && Enabled(s, e)
    ensures Underway(Do(s, e), d) <= Underway(s, d) + if e.LoggingIn? && e.c == d then 1 else 0
    ensures Relogs(s, e) && s.callbacks[e.i].channel == d ==> Underway(s, d) >= 2
  {
    match e {
      case LoggingIn(c, name) => PostUnderway(s, c, FindOrCreate(name), d);
      case Running(c, rec) => RunUnderway(s, c, rec, d);
      case CallingBack(i) => LoginUnderway(s, i, d);
      case Flushing => FlushUnderway(s, d);
      case Closing(c) =>
        if OwesLogout(s, c) {
          PostUnderway(s, c, Logout(s.dbIdOf[c], BodyOf(s, s.entityOf[c])), d);
        }
      case _ =>
    }
  }

  lemma SingleDoesNotRelog(s: Server, e: Event)
    requires IndexInv(s) && Enabled(s, e) && forall c: nat :: Underway(s, c) <= 1
    ensures !Relogs(s, e)
  {
    hide Underway, Do, Enabled, IndexInv;
    if Relogs(s, e) {
      UnderwayStep(s, e, s.callbacks[e.i].channel);
    }
  }

  lemma {:induction false} OnceIsNoRelogin(s: Server, events: seq<Event>)
    requires IndexInv(s) && Runs(s, events)
    requires forall c: nat :: Underway(s, c) + Logins(events, c) <= 1
    ensures NoRelogin(s, events)
    decreases |events|
  {
    if events != [] {
      var (e, s') := (events[0], Do(s, events[0]));
      IndexStep(s, e);
      forall c: nat ensures Underway(s', c) + Logins(events[1..], c) <= 1 {
        UnderwayStep(s, e, c);
        assert Underway(s, c) + Logins(events, c) <= 1;
      }
      hide IndexInv, Do, Enabled, Underway;
      assert forall c: nat :: Underway(s, c) <= 1;
      SingleDoesNotRelog(s, e);
      OnceIsNoRelogin(s', events[1..]);
    }
  }

  /** If no channel asks to log in more than once, no live player entity is without its channel,
      as long as logins get fresh ids. */
  lemma OneLoginEach(events: seq<Event>)
    requires Runs(START, events) && forall c: nat :: Logins(events, c) <= 1
    ensures NoRelogin(START, events)
    ensures FreshIds(START, events) ==> Orphans(After(START, events)) == {}
    ensures After(START, events).created < ENTITY_LIMIT ==> Orphans(After(START, events)) == {}
  {
    OnceIsNoRelogin(START, events);
    if FreshIds(START, events) {
      OrphansOnlyByRelogin(events);
    }
    FewEntitiesAreSafe(events);
  }

  // ---- the two runs in which ids run out --------------------------------------------------

  lemma {:induction false} RunsAppend(s: Server, x: seq<Event>, y: seq<Event>)
    requires Runs(s, x) && Runs(After(s, x), y)
    ensures Runs(s, x + y) && After(s, x + y) == After(After(s, x), y)
    decreases |x|
  {
    hide Do, Enabled;
    if x == [] {
      assert x + y == y;
    } else {
      RunsAppend(Do(s, x[0]), x[1..], y);
      assert (x + y)[1..] == x[1..] + y;
    }
  }

  lemma RunsSnoc(s: Server, events: seq<Event>, e: Event)
    requires Runs(s, events) && Enabled(After(s, events), e)
    ensures Runs(s, events + [e]) && After(s, events + [e]) == Do(After(s, events), e)
  {
    hide Do, Enabled;
    assert Runs(After(s, events), [e]) && [e][1..] == [];
    RunsAppend(s, events, [e]);
  }

  /** A new channel logs in. */
  function Entering(c: nat): seq<Event> {
    [Accepting, LoggingIn(c, ""), Running(c, Some(Record(0, DEFAULT_BODY))), CallingBack(0)]
  }

  ghost predicate Entered(s: Server, s': Server) {
    var (c, e) := (s.nextChannel, NextEntity(s));
    && IndexInv(s') && s'.callbacks == [] && s'.created == s.created + 1 && s'.nextChannel == c + 1
    && s'.entityOf == s.entityOf[c := e] && s'.players == s.players + {e}
  }

  /** Accepted, and the query posted. */
  function Asking(s: Server): Server {
    var c := s.nextChannel;
    s.(nextChannel := c + 1, channels := s.channels + {c}, strands := s.strands + {c},
       posted := s.posted[c := [FindOrCreate("")]], done := s.done[c := 0])
  }

  lemma AskingReach(s: Server)
    ensures Login(Accept(s), s.nextChannel, "") == Asking(s)
  {
    assert [] + [FindOrCreate("")] == [FindOrCreate("")];
    assert Accept(s).posted[s.nextChannel := [FindOrCreate("")]] == s.posted[s.nextChannel := [FindOrCreate("")]];
  }

  lemma AnsweredReach(s: Server)
    requires s.callbacks == []
    ensures var (c, rec) := (s.nextChannel, Some(Record(0, DEFAULT_BODY)));
            var s3 := RunTask(Asking(s), c, rec);
            && s3.callbacks == [Callback(c, rec)]
            && var s' := LoginDone(s3, 0);
               && s'.callbacks == [] && s'.created == s.created + 1 && s'.nextChannel == c + 1
               && s'.entityOf == s.entityOf[c := NextEntity(s)] && s'.players == s.players + {NextEntity(s)}
  {
    hide NextEntity;
    var c := s.nextChannel;
    assert NextEntity(RunTask(Asking(s), c, Some(Record(0, DEFAULT_BODY)))) == NextEntity(s) by { SameCounter(s); }
  }

  lemma SameCounter(s: Server)
    ensures NextEntity(RunTask(Asking(s), s.nextChannel, Some(Record(0, DEFAULT_BODY)))) == NextEntity(s)
  {
  }

  lemma EnterEvents(s: Server, c: nat, rec: Option<Record>)
    requires c == s.nextChannel
    ensures Enabled(s, Accepting) && Do(s, Accepting) == Accept(s)
    ensures Enabled(Accept(s), LoggingIn(c, "")) && Do(Accept(s), LoggingIn(c, "")) == Login(Accept(s), c, "")
    ensures Enabled(Asking(s), Running(c, rec)) && Do(Asking(s), Running(c, rec)) == RunTask(Asking(s), c, rec)
    ensures var s3 := RunTask(Asking(s), c, rec);
            s3.callbacks != [] ==> Enabled(s3, CallingBack(0)) && Do(s3, CallingBack(0)) == LoginDone(s3, 0)
  {
    hide Accept, Login, RunTask, LoginDone;
  }

  lemma EnterReach(s: Server)
    requires IndexInv(s) && s.callbacks == []
    ensures Runs(s, Entering(s.nextChannel)) && Entered(s, After(s, Entering(s.nextChannel)))
  {
    hide IndexInv, Accept, Login, RunTask, LoginDone, NextEntity, Do, Runs, After;
    var (c, rec) := (s.nextChannel, Some(Record(0, DEFAULT_BODY)));
    EnterEvents(s, c, rec);
    AskingReach(s);
    AnsweredReach(s);
    var run := Entering(c);
    IndexStep(s, run[0]);
    IndexStep(Accept(s), run[1]);
    IndexStep(Asking(s), run[2]);
    IndexStep(RunTask(Asking(s), c, rec), run[3]);
    FourEvents(s, run);
  }

  lemma FourEvents(s: Server, run: seq<Event>)
    requires |run| == 4 && Enabled(s, run[0])
    requires var s1 := Do(s, run[0]);
             Enabled(s1, run[1]) &&
             var s2 := Do(s1, run[1]);
             Enabled(s2, run[2]) && Enabled(Do(s2, run[2]), run[3])
    ensures Runs(s, run) && After(s, run) == Do(Do(Do(Do(s, run[0]), run[1]), run[2]), run[3])
  {
    hide Do, Enabled;
    var s1 := Do(s, run[0]);
    var s2 := Do(s1, run[1]);
    assert run[1..][1..] == run[2..] && run[2..][1..] == run[3..] && run[3..][1..] == [];
    var s3 := Do(s2, run[2]);
    assert Runs(s3, run[3..]) && After(s3, run[3..]) == Do(s3, run[3]);
    assert Runs(s2, run[2..]) && After(s2, run[2..]) == Do(s3, run[3]);
    assert Runs(s1, run[1..]) && After(s1, run[1..]) == Do(s3, run[3]);
  }

  function Spawns(n: nat): seq<Event> {
    seq(n, _ => Spawning)
  }

  lemma {:induction false} SpawnReach(s: Server, n: nat)
    ensures Runs(s, Spawns(n))
    ensures var s' := After(s, Spawns(n)); s' == s.(created := s.created + n, active := s'.active)
    decreases n
  {
    if n > 0 {
      SpawnReach(Spawn(s), n - 1);
      assert Spawns(n)[1..] == Spawns(n - 1);
    }
  }

  /** Two sessions with one entity: a login, n other entities, and a second login. */
  lemma SharedEntity(n: nat)
    requires n + 1 == ENTITY_LIMIT
    ensures var run := Entering(1) + Spawns(n) + Entering(2);
            && Runs(START, run) && After(START, run).created == ENTITY_LIMIT + 1
            && After(START, run).entityOf == map[1 := 1, 2 := 1] && !Alone(After(START, run))
  {
    hide Do, Enabled, Runs, After, IndexInv;
    assert IndexInv(START) by { StartIsIndexed(); }
    EnterReach(START);
    var s1 := After(START, Entering(1));
    SpawnReach(s1, n);
    RunsAppend(START, Entering(1), Spawns(n));
    var s2 := After(s1, Spawns(n));
    assert IndexInv(s2) by { SameIndexes(s1, s2); }
    EnterReach(s2);
    RunsAppend(START, Entering(1) + Spawns(n), Entering(2));
    var s3 := After(s2, Entering(2));
    assert s3.entityOf == map[1 := 1, 2 := 1];
    assert 1 in s3.entityOf && 2 in s3.entityOf && s3.entityOf[1] == s3.entityOf[2];
  }

  /** An entity left behind without a second login: it has the id zero. */
  lemma ZeroEntity(n: nat)
    requires n + 1 == ENTITY_LIMIT
    ensures var run := Spawns(n) + Entering(1) + [Closing(1)];
            Runs(START, run) && Orphans(After(START, run)) == {0}
  {
    hide Do, Enabled, Runs, After, IndexInv;
    SpawnReach(START, n);
    var s1 := After(START, Spawns(n));
    assert IndexInv(s1) by { StartIsIndexed(); SameIndexes(START, s1); }
    EnterReach(s1);
    RunsAppend(START, Spawns(n), Entering(1));
    var s2 := After(s1, Entering(1));
    assert s2.entityOf == map[1 := 0] && s2.players == {0};
    assert Enabled(s2, Closing(1)) && Do(s2, Closing(1)) == Close(s2, 1) by { CloseIsEvent(s2, 1); }
    RunsSnoc(START, Spawns(n) + Entering(1), Closing(1));
    assert Close(s2, 1).entityOf == map[];
  }

  lemma StartIsIndexed()
    ensures IndexInv(START) && LogoutInv(START)
  {
  }

  lemma SameIndexes(s: Server, s': Server)
    requires IndexInv(s) && s' == s.(created := s'.created, active := s'.active)
    ensures IndexInv(s')
  {
  }

  lemma CloseIsEvent(s: Server, c: nat)
    ensures Enabled(s, Closing(c)) && Do(s, Closing(c)) == Close(s, c)
  {
  }

  // ---- logout is last ---------------------------------------------------------------------

  lemma ClosedStep(s: Server, e: Event, c: nat)
    requires IndexInv(s) && Enabled(s, e) && c in s.posted && c !in s.channels
    ensures var s' := Do(s, e); c in s'.posted && s'.posted[c] == s.posted[c] && c !in s'.channels
  {
    assert e.Flushing? ==> FlushTasks(s, c) == [] && s.posted[c] + [] == s.posted[c];
  }

  /** Nothing is posted on a channel's strand once it has closed, and it never reopens. */
  lemma {:induction false} ClosedStaysClosed(s: Server, events: seq<Event>, c: nat)
    requires IndexInv(s) && Runs(s, events) && c in s.posted && c !in s.channels
    ensures var s' := After(s, events); c in s'.posted && s'.posted[c] == s.posted[c] && c !in s'.channels
    decreases |events|
  {
    hide Do, Enabled, IndexInv;
    if events != [] {
      ClosedStep(s, events[0], c);
      IndexStep(s, events[0]);
      ClosedStaysClosed(Do(s, events[0]), events[1..], c);
    }
  }

  /** What a strand has run, in the order they ran. */
  function Executed(s: Server, c: nat): seq<Task>
    requires c in s.posted && c in s.done && s.done[c] <= |s.posted[c]|
  {
    s.posted[c][..s.done[c]]
  }

  /** In every run, a channel that closes owing a save has exactly one logout task; it
      carries the row and the state held at the close, and it is the last task of its strand. */
  lemma LogoutIsLast(before: seq<Event>, c: nat, after: seq<Event>)
    requires Runs(START, before) && c in After(START, before).channels
    requires Runs(Close(After(START, before), c), after)
    ensures var s := After(START, before);
            var end := After(Close(s, c), after);
            var save := if OwesLogout(s, c) then [Logout(s.dbIdOf[c], BodyOf(s, s.entityOf[c]))] else [];
            && c in s.posted && c in end.posted && end.posted[c] == s.posted[c] + save
            && (forall i | 0 <= i < |s.posted[c]| :: !s.posted[c][i].Logout?)
            && c in end.done && end.done[c] <= |end.posted[c]| && Executed(end, c) <= s.posted[c] + save
            && c !in end.channels && c !in end.entityOf && c !in end.dbIdOf
  {
    hide Runs, After, Do, Enabled, Close, IndexInv, LogoutInv;
    StartIsIndexed();
    RunKeeps(START, before);
    var s := After(START, before);
    CloseIsEvent(s, c);
    CloseSaves(s, c);
    IndexStep(s, Closing(c));
    LogoutStep(s, Closing(c));
    RunKeeps(Close(s, c), after);
    ClosedStaysClosed(Close(s, c), after, c);
    ClosedIsErased(After(Close(s, c), after), c);
  }

  /** A close adds the save it owes to its channel's strand, and nothing else. */
  lemma CloseSaves(s: Server, c: nat)
    requires IndexInv(s) && LogoutInv(s) && c in s.channels
    ensures c in s.posted && c in Close(s, c).posted && c !in Close(s, c).channels
    ensures Close(s, c).posted[c] ==
              s.posted[c] + if OwesLogout(s, c) then [Logout(s.dbIdOf[c], BodyOf(s, s.entityOf[c]))] else []
    ensures forall i | 0 <= i < |s.posted[c]| :: !s.posted[c][i].Logout?
  {
    assert s.posted[c] + [] == s.posted[c];
  }

  lemma ClosedIsErased(s: Server, c: nat)
    requires IndexInv(s) && c in s.posted && c !in s.channels
    ensures c !in s.entityOf && c !in s.dbIdOf && c in s.done && s.done[c] <= |s.posted[c]|
  {
  }

  // ---- the handlers as they update the server in place -----------------------------------

  class GameServer {
    var channels: set<nat>
    var channelToEntity: map<nat, u32>
    var channelToDbId: map<nat, int>
    var dbStrands: set<nat>
    var posted: map<nat, seq<Task>>
    var done: map<nat, nat>
    var callbacks: seq<Callback>
    var activeEntities: set<u32>
    var bodies: map<u32, Body>
    var created: nat
    var nextChannelId: nat
    ghost var players: set<u32>
    ghost var history: seq<Event>

    ghost function View(): Server
      reads this
    {
      Server(channels, channelToEntity, channelToDbId, dbStrands, posted, done, callbacks,
             activeEntities, bodies, created, nextChannelId, players)
    }

    /** The server is where the events it has handled lead. */
    ghost predicate Valid()
      reads this
    {
      Runs(START, history) && View() == After(START, history)
    }

    constructor ()
      ensures Valid() && history == []
    {
      channels, channelToEntity, channelToDbId, dbStrands := {}, map[], map[], {};
      posted, done, callbacks := map[], map[], [];
      activeEntities, bodies, created, nextChannelId := {}, map[], 0, 1;
      players, history := {}, [];
    }

    /** One more event has been handled. */
    ghost method Handled(e: Event)
      requires Runs(START, history) && Enabled(After(START, history), e)
      requires View() == Do(After(START, history), e)
      modifies this`history
      ensures Valid() && history == old(history) + [e]
    {
      RunsSnoc(START, history, e);
      history := history + [e];
    }

    method PostTask(c: nat, t: Task)
      requires c in posted
      modifies this`posted
      ensures posted == old(posted)[c := old(posted)[c] + [t]]
    {
      posted := posted[c := posted[c] + [t]];
    }

    /** A new channel gets the next id and a strand of its own. */
    method OnAccept()
      requires Valid()
      modifies this`channels, this`dbStrands, this`posted, this`done, this`nextChannelId, this`history
      ensures Valid() && history == old(history) + [Accepting]
    {
      hide Runs, After;
      var c := nextChannelId;
      nextChannelId := nextChannelId + 1;
      channels := channels + {c};
      dbStrands := dbStrands + {c};
      posted, done := posted[c := []], done[c := 0];
      Handled(Accepting);
    }

    method HandleLogin(c: nat, name: string)
      requires Valid()
      modifies this`posted, this`history
      ensures Valid() && history == old(history) + [LoggingIn(c, name)]
    {
      assert dbStrands <= posted.Keys by { RunKeeps(START, history); }
      hide Runs, After;
      if c in dbStrands {
        PostTask(c, FindOrCreate(name));
      }
      Handled(LoggingIn(c, name));
    }

    /** A database worker has run the next task of a strand. */
    method OnTaskRun(c: nat, rec: Option<Record>)
      requires Valid() && c in posted && c in done && done[c] < |posted[c]|
      modifies this`done, this`callbacks, this`history
      ensures Valid() && history == old(history) + [Running(c, rec)]
    {
      hide Runs, After;
      if posted[c][done[c]].FindOrCreate? {
        callbacks := callbacks + [Callback(c, rec)];
      }
      done := done[c := done[c] + 1];
      Handled(Running(c, rec));
    }

    /** The end of an attack that leaves its target without hit points. */
    method HandleKill(attacker: nat, target: nat)
      requires Valid()
      modifies this`channelToEntity, this`activeEntities, this`players, this`history
      ensures Valid() && history == old(history) + [Killing(attacker, target)]
    {
      hide Runs, After;
      var attackerEntity, targetEntity := 0, 0;
      if attacker in channelToEntity {
        attackerEntity := channelToEntity[attacker];
      }
      if target in channelToEntity {
        targetEntity := channelToEntity[target];
      }
      if attackerEntity != 0 && targetEntity != 0 {
        DestroyEntity(targetEntity);
        channelToEntity := channelToEntity - {target};
      }
      Handled(Killing(attacker, target));
    }

    method CreateEntity() returns (e: u32)
      modifies this`created, this`activeEntities
      ensures created == old(created) + 1 && e == TruncateU32(created)
      ensures activeEntities == old(activeEntities) + {e}
    {
      created := created + 1;
      e := TruncateU32(created);
      activeEntities := activeEntities + {e};
    }

    method DestroyEntity(e: u32)
      modifies this`activeEntities, this`players
      ensures activeEntities == old(activeEntities) - {e} && players == old(players) - {e}
    {
      if e in activeEntities {
        activeEntities := activeEntities - {e};
      }
      players := players - {e};
    }

    /** An entity for something else than a login. */
    method OnSpawn()
      requires Valid()
      modifies this`created, this`activeEntities, this`history
      ensures Valid() && history == old(history) + [Spawning]
    {
      hide Runs, After, TruncateU32;
      var _ := CreateEntity();
      Handled(Spawning);
    }

    /** An entity moves or is hit. */
    method OnMove(e: u32, body: Body)
      requires Valid()
      modifies this`bodies, this`history
      ensures Valid() && history == old(history) + [Moving(e, body)]
    {
      hide Runs, After;
      bodies := bodies[e := body];
      Handled(Moving(e, body));
    }

    method BindPlayer(c: nat, rec: Record, player: u32)
      modifies this`bodies, this`players, this`channelToEntity, this`channelToDbId
      ensures bodies == old(bodies)[player := rec.body] && players == old(players) + {player}
      ensures channelToEntity == old(channelToEntity)[c := player]
      ensures channelToDbId == if rec.id > 0 then old(channelToDbId)[c := rec.id] else old(channelToDbId)
    {
      bodies := bodies[player := rec.body];
      players := players + {player};
      channelToEntity := channelToEntity[c := player];
      if rec.id > 0 {
        channelToDbId := channelToDbId[c := rec.id];
      }
    }

    /** What the client is told: nothing on a closed channel, an error without a record, else the
        row's id or, without one, that of the entity it now has, and its map. */
    ghost predicate Answered(cb: Callback, reply: Option<LoginReply>)
      reads this
    {
      if cb.channel !in channels then reply == None
      else if cb.rec.None? then reply == Some(LoginReply(false, "db_error", 0, 0))
      else
        && reply.Some? && reply.value.success && reply.value.message == "ok" && cb.channel in channelToEntity
        && reply.value.playerId == (if cb.rec.value.id > 0 then cb.rec.value.id % 0x1_0000_0000 else channelToEntity[cb.channel])
        && reply.value.mapId == cb.rec.value.body.place.mapId % 0x1_0000_0000
    }

    /** The io-thread half of a login: a channel that closed in the meantime gets no entity. */
    method CompleteLogin(i: nat) returns (reply: Option<LoginReply>)
      requires i < |callbacks|
      modifies this`callbacks, this`created, this`activeEntities, this`bodies, this`players,
               this`channelToEntity, this`channelToDbId
      ensures View() == LoginDone(old(View()), i)
      ensures Answered(old(callbacks)[i], reply)
    {
      var cb := callbacks[i];
      callbacks := callbacks[..i] + callbacks[i + 1..];
      if cb.channel !in channels {
        return None;
      }
      if cb.rec.None? {
        return Some(LoginReply(false, "db_error", 0, 0));
      }
      var r := cb.rec.value;
      var player := CreateEntity();
      BindPlayer(cb.channel, r, player);
      var id := if r.id > 0 then TruncateU32(r.id) else player;
      return Some(LoginReply(true, "ok", id, r.body.place.mapId % 0x1_0000_0000));
    }

    /** The client of an open channel is told whether it is in. */
    method OnLoginDone(i: nat) returns (reply: Option<LoginReply>)
      requires Valid() && i < |callbacks|
      modifies this`callbacks, this`created, this`activeEntities, this`bodies, this`players,
               this`channelToEntity, this`channelToDbId, this`history
      ensures Valid() && history == old(history) + [CallingBack(i)]
      ensures Answered(old(callbacks)[i], reply)
    {
      LoginIsEvent(View(), i);
      hide Runs, After, LoginDone, Do, Enabled, NextEntity;
      reply := CompleteLogin(i);
      Handled(CallingBack(i));
    }

    /** The part of a close that runs under the lock. */
    method EraseChannel(c: nat) returns (entity: u32, dbId: int, hadStrand: bool)
      modifies this`channels, this`channelToEntity, this`channelToDbId, this`dbStrands
      ensures entity == if c in old(channelToEntity) then old(channelToEntity)[c] else 0
      ensures dbId == if c in old(channelToDbId) then old(channelToDbId)[c] else 0
      ensures hadStrand <==> c in old(dbStrands)
      ensures channels == old(channels) - {c} && channelToEntity == old(channelToEntity) - {c}
      ensures channelToDbId == old(channelToDbId) - {c} && dbStrands == old(dbStrands) - {c}
    {
      entity, dbId, hadStrand := 0, 0, false;
      if c in channelToEntity {
        entity := channelToEntity[c];
      }
      channels := channels - {c};
      channelToEntity := channelToEntity - {c};
      if c in channelToDbId {
        dbId := channelToDbId[c];
        channelToDbId := channelToDbId - {c};
      }
      if c in dbStrands {
        hadStrand := true;
        dbStrands := dbStrands - {c};
      }
    }

    /** Erases the channel from every index, posts the save it owes, destroys its entity. */
    method Disconnect(c: nat)
      requires dbStrands <= posted.Keys
      modifies this`channels, this`channelToEntity, this`channelToDbId, this`dbStrands, this`posted,
               this`activeEntities, this`players
      ensures View() == Close(old(View()), c)
    {
      var entity, dbId, hadStrand := EraseChannel(c);
      if hadStrand && dbId > 0 && entity != 0 {
        var body := if entity in bodies then bodies[entity] else DEFAULT_BODY;
        PostTask(c, Logout(dbId, body));
      }
      if entity != 0 {
        DestroyEntity(entity);
      }
    }

    method OnClose(c: nat)
      requires Valid()
      modifies this`channels, this`channelToEntity, this`channelToDbId, this`dbStrands, this`posted,
               this`activeEntities, this`players, this`history
      ensures Valid() && history == old(history) + [Closing(c)]
    {
      assert dbStrands <= posted.Keys by { RunKeeps(START, history); }
      CloseIsEvent(View(), c);
      hide Runs, After, Close, Do, Enabled;
      Disconnect(c);
      Handled(Closing(c));
    }

    /** One save for every channel that has a row, an entity and a strand. */
    method CollectSaves() returns (entries: map<nat, Task>)
      ensures entries.Keys <= channelToDbId.Keys * dbStrands
      ensures forall c: nat :: FlushTasks(View(), c) == if c in entries then [entries[c]] else []
    {
      entries := map[];
      var keys := channelToDbId.Keys;
      while keys != {}
        invariant keys <= channelToDbId.Keys && entries.Keys <= (channelToDbId.Keys - keys) * dbStrands
        invariant forall c | c in channelToDbId && c !in keys ::
                    FlushTasks(View(), c) == if c in entries then [entries[c]] else []
        decreases keys
      {
        var c :| c in keys;
        keys := keys - {c};
        if c in channelToEntity && c in dbStrands {
          var e := channelToEntity[c];
          var body := if e in bodies then bodies[e] else DEFAULT_BODY;
          entries := entries[c := SavePosition(channelToDbId[c], body.place)];
        }
      }
    }

    /** Collects the saves, then posts each on its channel's strand. */
    method PostSaves()
      requires dbStrands <= posted.Keys
      modifies this`posted
      ensures View() == Flush(old(View()))
    {
      ghost var s := View();
      var entries := CollectSaves();
      hide FlushTasks;
      var left := entries.Keys;
      while left != {}
        invariant left <= entries.Keys && posted.Keys == s.posted.Keys
        invariant forall c | c in posted ::
                    posted[c] == s.posted[c] + if c in left then [] else FlushTasks(s, c)
        decreases left
      {
        var c :| c in left;
        left := left - {c};
        PostTask(c, entries[c]);
      }
      assert posted == Flush(s).posted;
    }

    method FlushPlayers()
      requires Valid()
      modifies this`posted, this`history
      ensures Valid() && history == old(history) + [Flushing]
    {
      assert dbStrands <= posted.Keys by { RunKeeps(START, history); }
      FlushIsEvent(View());
      hide Runs, After, Flush, Do, Enabled;
      PostSaves();
      Handled(Flushing);
    }

    /** What holds in every run holds of the server object. */
    lemma ServerIsConsistent()
      requires Valid()
      ensures channels == dbStrands && channelToEntity.Keys <= channels && channelToDbId.Keys <= channels
      ensures NeverBound(START, history) ==> Alone(View())
      ensures NothingLost(START, history) ==> Tidy(View())
    {
      SessionsConsistent(history);
      NoOrphansIff(history);
      hide Runs, After, Alone, Orphans, NeverBound, NothingLost;
      assert history[..|history|] == history;
    }
  }

  lemma LoginIsEvent(s: Server, i: nat)
    requires i < |s.callbacks|
    ensures Enabled(s, CallingBack(i)) && Do(s, CallingBack(i)) == LoginDone(s, i)
  {
    hide LoginDone;
  }

  lemma FlushIsEvent(s: Server)
    ensures Enabled(s, Flushing) && Do(s, Flushing) == Flush(s)
  {
  }
}
