/** What the handlers of a session do to the state of its player: who dies, what a login loads,
    and what a flush or a logout saves. */
module SessionState {
  import opened Bytes
  import opened Wrappers
  import opened Sessions

  // ---- what each handler changes ----------------------------------------------------------

  /** Sessions other than c keep their entities, alive if they were. */
  ghost predicate OthersKeep(s: Server, s': Server, c: nat) {
    && s'.entityOf.Keys + {c} == s.entityOf.Keys + {c}
    && forall d | d in s.entityOf && d != c ::
         s'.entityOf[d] == s.entityOf[d] && (s.entityOf[d] in s.active ==> s.entityOf[d] in s'.active)
  }

  /** The target dies, and nobody else; nothing happens when either entity is missing. */
  lemma KillEffect(s: Server, attacker: nat, target: nat)
    requires Owned(s)
    ensures var s' := Kill(s, attacker, target);
            if attacker in s.entityOf && target in s.entityOf && s.entityOf[attacker] != 0 && s.entityOf[target] != 0
            then
              && target !in s'.entityOf && s'.active == s.active - {s.entityOf[target]} && OthersKeep(s, s', target)
              && (attacker != target ==> attacker in s'.entityOf && s'.entityOf[attacker] in s'.active)
              && s'.bodies == s.bodies && s'.channels == s.channels && s'.dbIdOf == s.dbIdOf && s'.posted == s.posted
            else s' == s
  {
  }

  /** A completed login gives the channel a live entity that carries the record, and its row;
      otherwise only the callback is used up. */
  lemma LoginEffect(s: Server, i: nat)
    requires Owned(s) && i < |s.callbacks|
    ensures var (s', cb) := (LoginDone(s, i), s.callbacks[i]);
            && s'.callbacks == s.callbacks[..i] + s.callbacks[i + 1..]
            && if cb.rec.Some? && cb.channel in s.channels then
                 && cb.channel in s'.entityOf && s'.entityOf[cb.channel] in s'.active
                 && BodyOf(s', s'.entityOf[cb.channel]) == cb.rec.value.body
                 && OthersKeep(s, s', cb.channel) && s'.created == s.created + 1
                 && (cb.rec.value.id > 0 ==> cb.channel in s'.dbIdOf && s'.dbIdOf[cb.channel] == cb.rec.value.id)
                 && (forall c | c in s.dbIdOf && c != cb.channel :: c in s'.dbIdOf && s'.dbIdOf[c] == s.dbIdOf[c])
                 && (forall e | e in s.bodies && e != s'.entityOf[cb.channel] :: e in s'.bodies && s'.bodies[e] == s.bodies[e])
               else s' == s.(callbacks := s'.callbacks)
  {
    hide NextEntity;
  }

  /** A close takes the channel out of every index and, unless its id is zero, its entity. */
  lemma CloseEffect(s: Server, c: nat)
    requires Owned(s)
    ensures var s' := Close(s, c);
            && c !in s'.channels && c !in s'.strands && c !in s'.entityOf && c !in s'.dbIdOf
            && (forall d | d != c :: (d in s'.channels <==> d in s.channels) && (d in s'.strands <==> d in s.strands))
            && OthersKeep(s, s', c) && s'.bodies == s.bodies
            && s'.active == s.active - if c in s.entityOf && s.entityOf[c] != 0 then {s.entityOf[c]} else {}
  {
  }

  /** Any other entity gets the next id, and that is all. */
  lemma SpawnEffect(s: Server)
    ensures var s' := Spawn(s);
            s' == s.(created := s'.created, active := s'.active)
            && s'.active == s.active + {(s.created + 1) % 0x1_0000_0000} && s'.created == s.created + 1
  {
  }

  /** A query's record is handed to the io thread for the channel that asked; other tasks hand on
      nothing, and each task runs once. */
  lemma RunEffect(s: Server, c: nat, rec: Option<Record>)
    requires c in s.posted && c in s.done && s.done[c] < |s.posted[c]|
    ensures var s' := RunTask(s, c, rec);
            && s'.done == s.done[c := s.done[c] + 1]
            && s' == s.(done := s'.done, callbacks := s'.callbacks)
            && s'.callbacks == s.callbacks + match s.posted[c][s.done[c]]
                                             case FindOrCreate(_) => [Callback(c, rec)]
                                             case SavePosition(_, _) => []
                                             case Logout(_, _) => []
  {
    assert s.callbacks + [] == s.callbacks;
  }

  // ---- what a session has shown of its player ---------------------------------------------

  /** The row its logins named, if any, and the state last loaded or reported. */
  datatype Seen = Seen(row: int, body: Option<Body>)

  const NOTHING := Seen(0, None)

  /** A completed login loads its record; a report of the channel's entity replaces the state. */
  function Track(s: Server, e: Event, c: nat, k: Seen): Seen {
    if Completes(s, e) && s.callbacks[e.i].channel == c then
      var r := s.callbacks[e.i].rec.value;
      Seen(if r.id > 0 then r.id else k.row, Some(r.body))
    else if e.Moving? && c in s.entityOf && s.entityOf[c] == e.e then k.(body := Some(e.body))
    else k
  }

  ghost function Shown(s: Server, events: seq<Event>, c: nat, k: Seen): Seen
    requires Runs(s, events)
    decreases |events|
  {
    if events == [] then k else Shown(Do(s, events[0]), events[1..], c, Track(s, events[0], c, k))
  }

  /** The server holds for the channel what it has shown. */
  ghost predicate Holds(s: Server, c: nat, k: Seen) {
    && (c in s.entityOf ==> s.entityOf[c] in s.bodies && k.body == Some(s.bodies[s.entityOf[c]]))
    && (c in s.channels ==> (c in s.dbIdOf <==> k.row > 0) && (c in s.dbIdOf ==> s.dbIdOf[c] == k.row))
    && (c >= s.nextChannel ==> k.row == 0)
  }

  lemma TrackLogin(s: Server, i: nat, c: nat, k: Seen)
    requires IndexInv(s) && Owned(s) && Holds(s, c, k) && i < |s.callbacks| && !GivesBoundId(s, CallingBack(i))
    ensures Holds(LoginDone(s, i), c, Track(s, CallingBack(i), c, k))
  {
    hide NextEntity;
    var cb := s.callbacks[i];
    if Completes(s, CallingBack(i)) && cb.channel != c && c in s.entityOf {
      assert s.entityOf[c] != NextEntity(s);
    }
  }

  lemma TrackStep(s: Server, e: Event, c: nat, k: Seen)
    requires IndexInv(s) && Owned(s) && Holds(s, c, k) && Enabled(s, e) && !GivesBoundId(s, e)
    ensures Holds(Do(s, e), c, Track(s, e, c, k))
  {
    if e.CallingBack? {
      hide IndexInv, Owned, Holds, LoginDone, GivesBoundId, Track;
      TrackLogin(s, e.i, c, k);
    }
  }

  lemma {:induction false} ShownIsHeld(s: Server, events: seq<Event>, c: nat, k: Seen)
    requires IndexInv(s) && Owned(s) && Holds(s, c, k) && Runs(s, events) && NeverBound(s, events)
    ensures Holds(After(s, events), c, Shown(s, events, c, k)) && IndexInv(After(s, events))
    decreases |events|
  {
    hide IndexInv, Owned, Holds, Do, Enabled, GivesBoundId, Track;
    if events != [] {
      IndexStep(s, events[0]);
      OwnedStep(s, events[0]);
      TrackStep(s, events[0], c, k);
      ShownIsHeld(Do(s, events[0]), events[1..], c, Track(s, events[0], c, k));
    }
  }

  /** In every run that shares no id: what a flush posts for a channel, and what its close posts,
      saves under the row its logins named the state last loaded or reported. */
  lemma SavesWhatWasShown(events: seq<Event>, c: nat)
    requires Runs(START, events) && NeverBound(START, events)
    ensures var (s, k) := (After(START, events), Shown(START, events, c, NOTHING));
            && (c in s.entityOf ==> k.body.Some?)
            && Flush(s) == s.(posted := Flush(s).posted) && Flush(s).posted.Keys == s.posted.Keys
            && (c in s.posted ==>
                  Flush(s).posted[c] == s.posted[c] +
                    if c in s.entityOf && k.row > 0 then [SavePosition(k.row, k.body.value.place)] else [])
            && (c in s.channels ==>
                  && c in s.posted && c in Close(s, c).posted
                  && Close(s, c).posted[c] == s.posted[c] +
                       if c in s.entityOf && s.entityOf[c] != 0 && k.row > 0 then [Logout(k.row, k.body.value)] else [])
  {
    ShownIsHeld(START, events, c, NOTHING);
    var s := After(START, events);
    hide Runs, After, Shown, NeverBound;
    assert Flush(s).posted.Keys == s.posted.Keys;
    if c in s.posted {
      assert s.posted[c] + [] == s.posted[c];
    }
  }

  // ---- what a client asked for is what is looked up ---------------------------------------

  /** The names looked up by some tasks. */
  function NamesOf(tasks: seq<Task>): seq<string> {
    if tasks == [] then [] else NameOf(tasks[0]) + NamesOf(tasks[1..])
  }

  function NameOf(t: Task): seq<string> {
    if t.FindOrCreate? then [t.name] else []
  }

  lemma {:induction false} NamesAppend(x: seq<Task>, y: seq<Task>)
    ensures NamesOf(x + y) == NamesOf(x) + NamesOf(y)
  {
    hide NameOf;
    if x == [] {
      assert x + y == y;
    } else {
      NamesAppend(x[1..], y);
      assert (x + y)[1..] == x[1..] + y;
      SeqAssociates(NameOf(x[0]), NamesOf(x[1..]), NamesOf(y));
    }
  }

  /** The names a client gave on an open channel, in order. */
  ghost function Asked(s: Server, events: seq<Event>, c: nat): seq<string>
    requires Runs(s, events)
    decreases |events|
  {
    if events == [] then []
    else
      var e := events[0];
      (if e.LoggingIn? && e.c == c && c in s.channels then [e.name] else []) + Asked(Do(s, e), events[1..], c)
  }

  function Named(s: Server, c: nat): seq<string> {
    if c in s.posted then NamesOf(s.posted[c]) else []
  }

  lemma PostNamed(s: Server, c: nat, t: Task, d: nat)
    ensures Named(Post(s, c, t), d) ==
              Named(s, d) + if c == d && c in s.posted && t.FindOrCreate? then [t.name] else []
  {
    assert Named(s, d) + [] == Named(s, d);
    if c == d && c in s.posted {
      NamesAppend(s.posted[c], [t]);
      assert [t][1..] == [];
    }
  }

  lemma FlushNamed(s: Server, d: nat)
    ensures Named(Flush(s), d) == Named(s, d)
  {
    if d in s.posted {
      var ts := FlushTasks(s, d);
      NamesAppend(s.posted[d], ts);
      assert ts != [] ==> ts[1..] == [];
    }
  }

  lemma NamedStep(s: Server, e: Event, c: nat)
    requires IndexInv(s) && Enabled(s, e)
    ensures Named(Do(s, e), c) ==
              Named(s, c) + if e.LoggingIn? && e.c == c && c in s.channels then [e.name] else []
  {
    assert Named(s, c) + [] == Named(s, c);
    match e {
      case LoggingIn(d, name) => PostNamed(s, d, FindOrCreate(name), c);
      case Flushing => FlushNamed(s, c);
      case Closing(d) =>
        if OwesLogout(s, d) {
          PostNamed(s, d, Logout(s.dbIdOf[d], BodyOf(s, s.entityOf[d])), c);
        }
      case _ =>
    }
  }

  lemma {:induction false} NamedInRun(s: Server, events: seq<Event>, c: nat)
    requires IndexInv(s) && Runs(s, events)
    ensures Named(After(s, events), c) == Named(s, c) + Asked(s, events, c)
    decreases |events|
  {
    hide IndexInv, Do, Enabled, Named;
    if events == [] {
      assert Named(s, c) + [] == Named(s, c);
    } else {
      var e := events[0];
      IndexStep(s, e);
      NamedStep(s, e, c);
      NamedInRun(Do(s, e), events[1..], c);
    }
  }

  /** In every run the names looked up on a channel's strand are those its client gave while the
      channel was open, in order. */
  lemma LooksUpWhatWasAsked(events: seq<Event>, c: nat)
    requires Runs(START, events)
    ensures Named(After(START, events), c) == Asked(START, events, c)
  {
    StartIsIndexed();
    NamedInRun(START, events, c);
    assert Named(START, c) == [];
  }
}
