/**
 * The guild index of the game server: guilds by id, each with its member list, and the guild
 * of each channel. Both are held in memory and changed together under one lock.
 */
module Guilds {
  import opened Bytes
  import opened Collections
  import opened Wrappers

  const ID_LIMIT: nat := 0x1_0000_0000

  datatype Guild = Guild(name: string, description: string, master: int, members: seq<int>)
  datatype Index = Index(guilds: map<u32, Guild>, guildOf: map<int, u32>, next: u32)
  datatype Reply = Reply(success: bool, message: string, guildId: u32)

  const INITIAL := Index(map[], map[], 1)

  // ---- the three requests as changes of the index ---------------------------------------------

  function Create(x: Index, c: int, name: string, description: string): Index {
    if c in x.guildOf then x
    else Index(x.guilds[x.next := Guild(name, description, c, [c])], x.guildOf[c := x.next],
               TruncateU32(x.next as int + 1))
  }

  function Join(x: Index, c: int, g: u32): Index {
    if g !in x.guilds || c in x.guildOf then x
    else
      var guild := x.guilds[g];
      x.(guilds := x.guilds[g := guild.(members := guild.members + [c])], guildOf := x.guildOf[c := g])
  }

  function Without(members: seq<int>, c: int): seq<int> {
    if members == [] then []
    else (if members[0] == c then [] else [members[0]]) + Without(members[1..], c)
  }

  function Leave(x: Index, c: int): Index {
    if c !in x.guildOf then x
    else
      var g := x.guildOf[c];
      var y := x.(guildOf := x.guildOf - {c});
      if g !in x.guilds then y
      else
        var members := Without(x.guilds[g].members, c);
        if members == [] then y.(guilds := x.guilds - {g})
        else y.(guilds := x.guilds[g := x.guilds[g].(members := members)])
  }

  // ---- what the two maps owe each other -------------------------------------------------------

  /** c is recorded as being in g, on both sides. */
  predicate Linked(x: Index, c: int, g: u32) {
    (c in x.guildOf && x.guildOf[c] == g) <==> (g in x.guilds && c in x.guilds[g].members)
  }

  ghost predicate Consistent(x: Index) {
    && (forall c: int, g: u32 :: Linked(x, c, g))
    && (forall g | g in x.guilds :: x.guilds[g].members != [] && Distinct(x.guilds[g].members))
  }

  // ---- removing a member ----------------------------------------------------------------------

  lemma {:induction false} WithoutKeeps(s: seq<int>, c: int)
    ensures forall d :: d in Without(s, c) <==> d in s && d != c
    ensures Distinct(s) ==> Distinct(Without(s, c))
  {
    if s != [] {
      WithoutKeeps(s[1..], c);
      assert s == [s[0]] + s[1..];
      if Distinct(s) {
        assert Distinct(s[1..]);
        assert s[0] !in s[1..];
      }
    }
  }

  lemma {:induction false} WithoutAbsent(s: seq<int>, c: int)
    requires c !in s
    ensures Without(s, c) == s && Without(s + [c], c) == s
  {
    if s == [] {
      assert s + [c] == [c] && [c][1..] == [];
    } else {
      WithoutAbsent(s[1..], c);
      assert (s + [c])[1..] == s[1..] + [c];
      assert s == [s[0]] + s[1..];
    }
  }

  // ---- each request keeps the index consistent ------------------------------------------------

  /** Creating a guild keeps the index consistent exactly when it does not overwrite a live guild. */
  lemma CreateKeeps(x: Index, c: int, name: string, description: string)
    requires Consistent(x)
    ensures Consistent(Create(x, c, name, description)) <==> c in x.guildOf || x.next !in x.guilds
  {
    var y := Create(x, c, name, description);
    if c !in x.guildOf {
      if x.next in x.guilds {
        var m := x.guilds[x.next].members[0];
        assert Linked(x, m, x.next);
        assert !Linked(y, m, x.next);
      } else {
        forall d: int, g: u32 ensures Linked(y, d, g) {
          assert Linked(x, d, g);
        }
      }
    }
  }

  lemma JoinKeeps(x: Index, c: int, g: u32)
    requires Consistent(x)
    ensures Consistent(Join(x, c, g))
  {
    var y := Join(x, c, g);
    forall d: int, h: u32 ensures Linked(y, d, h) {
      assert Linked(x, d, h) && Linked(x, c, h);
    }
    assert Linked(x, c, g);
  }

  lemma LeaveKeeps(x: Index, c: int)
    requires Consistent(x)
    ensures Consistent(Leave(x, c))
  {
    var y := Leave(x, c);
    if c in x.guildOf {
      var g := x.guildOf[c];
      assert Linked(x, c, g);
      WithoutKeeps(x.guilds[g].members, c);
      forall d: int, h: u32 ensures Linked(y, d, h) {
        assert Linked(x, d, h) && Linked(x, c, h);
        assert d in Without(x.guilds[g].members, c) <==> d in x.guilds[g].members && d != c;
      }
    }
  }

  // ---- leaving undoes joining and creating ----------------------------------------------------

  lemma LeaveUndoesJoin(x: Index, c: int, g: u32)
    requires Consistent(x) && c !in x.guildOf
    ensures Leave(Join(x, c, g), c) == x
  {
    if g in x.guilds {
      var guild := x.guilds[g];
      assert Linked(x, c, g) && guild.members != [];
      WithoutAbsent(guild.members, c);
      hide Without, Consistent, Linked;
      var joined := guild.(members := guild.members + [c]);
      assert joined.(members := guild.members) == guild;
      assert x.guildOf[c := g] - {c} == x.guildOf;
      assert x.guilds[g := joined][g := guild] == x.guilds;
    }
  }

  /** The founder alone can undo the creation, except for the id, which is spent. */
  lemma LeaveUndoesCreate(x: Index, c: int, name: string, description: string)
    requires Consistent(x) && c !in x.guildOf
    ensures Leave(Create(x, c, name, description), c) == x.(next := TruncateU32(x.next as int + 1))
      <==> x.next !in x.guilds
  {
    var y := Create(x, c, name, description);
    assert [c][1..] == [];
    assert Without([c], c) == [];
    assert y.guildOf - {c} == x.guildOf;
    if x.next !in x.guilds {
      assert y.guilds - {x.next} == x.guilds;
    } else {
      assert x.next !in Leave(y, c).guilds;
    }
  }

  // ---- the number of members ------------------------------------------------------------------

  /** Members of the guilds whose id is below n. */
  function MembersBelow(guilds: map<u32, Guild>, n: nat): nat
    requires n <= ID_LIMIT
  {
    if n == 0 then 0
    else MembersBelow(guilds, n - 1) + if n - 1 in guilds then |guilds[n - 1].members| else 0
  }

  lemma {:induction false} DistinctSize(s: seq<int>)
    requires Distinct(s)
    ensures |set c | c in s| == |s|
  {
    if s == [] {
      assert (set c | c in s) == {};
    } else {
      var last := s[|s| - 1];
      var front := s[..|s| - 1];
      assert s == front + [last];
      DistinctSize(front);
      assert (set c | c in s) == (set c | c in front) + {last};
    }
  }

  lemma {:induction false} CountBelow(x: Index, n: nat)
    requires Consistent(x) && n <= ID_LIMIT
    ensures MembersBelow(x.guilds, n) == |set c | c in x.guildOf && x.guildOf[c] < n|
  {
    if n == 0 {
      assert (set c | c in x.guildOf && x.guildOf[c] < n) == {};
    } else {
      CountBelow(x, n - 1);
      var g: u32 := n - 1;
      var here := set c | c in x.guildOf && x.guildOf[c] == g;
      assert (set c | c in x.guildOf && x.guildOf[c] < n) ==
             (set c | c in x.guildOf && x.guildOf[c] < n - 1) + here;
      forall c ensures c in here <==> g in x.guilds && c in x.guilds[g].members {
        assert Linked(x, c, g);
      }
      if g in x.guilds {
        DistinctSize(x.guilds[g].members);
        assert here == set c | c in x.guilds[g].members;
      } else {
        assert here == {};
      }
    }
  }

  /** The member lists together are as long as the channel map is large. */
  lemma MemberCount(x: Index)
    requires Consistent(x)
    ensures MembersBelow(x.guilds, ID_LIMIT) == |x.guildOf|
  {
    CountBelow(x, ID_LIMIT);
    assert (set c | c in x.guildOf && x.guildOf[c] < ID_LIMIT) == x.guildOf.Keys;
  }

  // ---- whole runs -----------------------------------------------------------------------------

  datatype Request =
    | CreateRequest(c: int, name: string, description: string)
    | JoinRequest(c: int, g: u32)
    | LeaveRequest(c: int)

  function Do(x: Index, r: Request): Index {
    match r
    case CreateRequest(c, name, description) => Create(x, c, name, description)
    case JoinRequest(c, g) => Join(x, c, g)
    case LeaveRequest(c) => Leave(x, c)
  }

  function After(rs: seq<Request>): Index {
    if rs == [] then INITIAL else Do(After(rs[..|rs| - 1]), rs[|rs| - 1])
  }

  /** The ids given out, in order. */
  function Issued(rs: seq<Request>): seq<u32> {
    if rs == [] then []
    else
      var x := After(rs[..|rs| - 1]);
      var r := rs[|rs| - 1];
      Issued(rs[..|rs| - 1]) + if r.CreateRequest? && r.c !in x.guildOf then [x.next] else []
  }

  lemma WrapNext(n: nat)
    ensures TruncateU32((1 + n) % ID_LIMIT + 1) == (2 + n) % ID_LIMIT
  {
  }

  lemma SmallId(i: nat)
    requires i < ID_LIMIT
    ensures (1 + i) % ID_LIMIT == if i == ID_LIMIT - 1 then 0 else 1 + i
  {
  }

  /** One request issues at most one id, and only an id it issues can come into use. */
  lemma DoIssues(x: Index, r: Request)
    ensures var issues := r.CreateRequest? && r.c !in x.guildOf;
      && Do(x, r).guilds.Keys <= x.guilds.Keys + (if issues then {x.next} else {})
      && Do(x, r).next == if issues then TruncateU32(x.next as int + 1) else x.next
  {
  }

  /** Ids are handed out in order from 1, wrapping, and only ids handed out are in use. */
  lemma {:induction false} IdsAreSequential(rs: seq<Request>)
    ensures After(rs).next == (1 + |Issued(rs)|) % ID_LIMIT
    ensures forall i | 0 <= i < |Issued(rs)| :: Issued(rs)[i] == (1 + i) % ID_LIMIT
    ensures forall g | g in After(rs).guilds :: g in Issued(rs)
  {
    if rs != [] {
      var before := rs[..|rs| - 1];
      IdsAreSequential(before);
      WrapNext(|Issued(before)|);
      DoIssues(After(before), rs[|rs| - 1]);
      hide Do, TruncateU32;
    }
  }

  /** No id is given out twice exactly when at most 2^32 guilds are created. */
  lemma IdsNeverReused(rs: seq<Request>)
    ensures (forall i, j | 0 <= i < j < |Issued(rs)| :: Issued(rs)[i] != Issued(rs)[j])
      <==> |Issued(rs)| <= ID_LIMIT
  {
    IdsAreSequential(rs);
    hide Issued, After;
    var ids := Issued(rs);
    if |ids| <= ID_LIMIT {
      forall i, j | 0 <= i < j < |ids| ensures ids[i] != ids[j] {
        SmallId(i);
        SmallId(j);
      }
    } else {
      SmallId(0);
      assert ids[0] == 1 && ids[ID_LIMIT] == (1 + ID_LIMIT) % ID_LIMIT == 1;
    }
  }

  /** Until the ids have wrapped, the next id is not in use. */
  lemma NextIsFresh(rs: seq<Request>)
    requires |Issued(rs)| < ID_LIMIT
    ensures After(rs).next !in After(rs).guilds
  {
    IdsAreSequential(rs);
    hide Issued, After;
    var (ids, next) := (Issued(rs), After(rs).next);
    SmallId(|ids|);
    forall i | 0 <= i < |ids| ensures ids[i] != next {
      SmallId(i);
    }
  }

  /** No creation in the run meets an id that is in use. */
  predicate NeverOverwrites(rs: seq<Request>) {
    rs == [] ||
    var x := After(rs[..|rs| - 1]);
    var r := rs[|rs| - 1];
    && NeverOverwrites(rs[..|rs| - 1])
    && (r.CreateRequest? && r.c !in x.guildOf ==> x.next !in x.guilds)
  }

  /** The index is consistent throughout a run exactly when no creation overwrites a guild. */
  lemma {:induction false} EveryRun(rs: seq<Request>)
    ensures (forall k | 0 <= k <= |rs| :: Consistent(After(rs[..k]))) <==> NeverOverwrites(rs)
  {
    assert rs[..|rs|] == rs;
    if rs != [] {
      var before := rs[..|rs| - 1];
      EveryRun(before);
      assert forall k | 0 <= k < |rs| :: before[..k] == rs[..k];
      if Consistent(After(before)) {
        DoKeeps(After(before), rs[|rs| - 1]);
      }
      hide Consistent, Do;
      if NeverOverwrites(rs) {
        assert Consistent(After(before[..|before|])) && before[..|before|] == before;
      }
    } else {
      assert forall k | 0 <= k <= |rs| :: rs[..k] == [];
    }
  }

  lemma DoKeeps(x: Index, r: Request)
    requires Consistent(x)
    ensures Consistent(Do(x, r)) <==> (r.CreateRequest? && r.c !in x.guildOf ==> x.next !in x.guilds)
  {
    match r
    case CreateRequest(c, name, description) => CreateKeeps(x, c, name, description);
    case JoinRequest(c, g) => JoinKeeps(x, c, g);
    case LeaveRequest(c) => LeaveKeeps(x, c);
  }

  /** At most 2^32 creations never overwrite. */
  lemma {:induction false} FewCreations(rs: seq<Request>)
    requires |Issued(rs)| <= ID_LIMIT
    ensures NeverOverwrites(rs)
  {
    if rs != [] {
      var before := rs[..|rs| - 1];
      FewCreations(before);
      if |Issued(before)| < ID_LIMIT {
        NextIsFresh(before);
      }
    }
  }

  /** So such a run ends with the index consistent and every member counted once. */
  lemma FewCreationsAreSafe(rs: seq<Request>)
    requires |Issued(rs)| <= ID_LIMIT
    ensures Consistent(After(rs))
    ensures MembersBelow(After(rs).guilds, ID_LIMIT) == |After(rs).guildOf|
  {
    FewCreations(rs);
    EveryRun(rs);
    hide NeverOverwrites, Issued, Consistent, MembersBelow;
    assert rs[..|rs|] == rs;
    MemberCount(After(rs));
  }

  /** Channel 1 keeps its guild while channel 2 makes and leaves k others. */
  function Churn(k: nat): seq<Request> {
    if k == 0 then [CreateRequest(1, "", "")]
    else Churn(k - 1) + [CreateRequest(2, "", "")] + [LeaveRequest(2)]
  }

  lemma AfterSnoc(rs: seq<Request>, r: Request)
    ensures After(rs + [r]) == Do(After(rs), r)
    ensures Issued(rs + [r]) ==
      Issued(rs) + if r.CreateRequest? && r.c !in After(rs).guildOf then [After(rs).next] else []
  {
    assert (rs + [r])[..|rs|] == rs;
  }

  lemma ChurnStart()
    ensures After(Churn(0)) == Index(map[1 := Guild("", "", 1, [1])], map[1 := 1], 2)
    ensures |Issued(Churn(0))| == 1
  {
    var r := CreateRequest(1, "", "");
    assert Churn(0) == [] + [r];
    AfterSnoc([], r);
  }

  lemma {:induction false} ChurnState(k: nat)
    requires k < ID_LIMIT
    ensures After(Churn(k)) == Index(map[1 := Guild("", "", 1, [1])], map[1 := 1], TruncateU32(2 + k))
    ensures |Issued(Churn(k))| == 1 + k
  {
    hide After, Issued, Create, Leave;
    if k == 0 {
      ChurnStart();
    } else {
      ChurnState(k - 1);
      hide TruncateU32;
      var rs := Churn(k - 1);
      AfterSnoc(rs, CreateRequest(2, "", ""));
      AfterSnoc(rs + [CreateRequest(2, "", "")], LeaveRequest(2));
      ChurnStep(After(rs), k);
    }
  }

  lemma ChurnStep(x: Index, k: nat)
    requires 0 < k < ID_LIMIT
    requires x == Index(map[1 := Guild("", "", 1, [1])], map[1 := 1], TruncateU32(1 + k))
    ensures Leave(Create(x, 2, "", ""), 2) == x.(next := TruncateU32(2 + k))
  {
    SmallId(k);
    WrapNext(k);
    assert [2][1..] == [];
    assert Without([2], 2) == [];
    var y := Create(x, 2, "", "");
    assert y.guildOf - {2} == x.guildOf;
    assert y.guilds - {x.next} == x.guilds;
  }

  /** The bound is tight: one creation more can overwrite a guild that has a member. */
  lemma OneCreationTooMany(k: nat)
    requires 1 + k == ID_LIMIT
    ensures var rs := Churn(k) + [CreateRequest(2, "", "")];
      |Issued(rs)| == ID_LIMIT + 1 && !Consistent(After(rs))
  {
    hide Churn, After, Issued, Consistent, Create, MembersBelow;
    var rs := Churn(k);
    ChurnState(k);
    AfterSnoc(rs, CreateRequest(2, "", ""));
    FewCreationsAreSafe(rs);
    CreateKeeps(After(rs), 2, "", "");
  }

  // ---- what each request changes --------------------------------------------------------------

  /** A channel in no guild founds one under the next id; one in a guild changes nothing. */
  lemma CreateEffect(x: Index, c: int, name: string, description: string)
    ensures var y := Create(x, c, name, description);
            if c in x.guildOf then y == x
            else
              && x.next in y.guilds && y.guilds[x.next] == Guild(name, description, c, [c])
              && c in y.guildOf && y.guildOf[c] == x.next && y.next == (x.next + 1) % ID_LIMIT
              && (forall d | d != c :: (d in y.guildOf <==> d in x.guildOf) && (d in x.guildOf ==> y.guildOf[d] == x.guildOf[d]))
              && (forall g | g in x.guilds && g != x.next :: g in y.guilds && y.guilds[g] == x.guilds[g])
  {
  }

  /** A channel in no guild becomes the last member of an existing one; nothing else changes. */
  lemma JoinEffect(x: Index, c: int, g: u32)
    ensures var y := Join(x, c, g);
            if g !in x.guilds || c in x.guildOf then y == x
            else
              && g in y.guilds && y.guilds[g].members == x.guilds[g].members + [c]
              && y.guilds[g].(members := x.guilds[g].members) == x.guilds[g]
              && c in y.guildOf && y.guildOf[c] == g && y.next == x.next && y.guilds.Keys == x.guilds.Keys
              && (forall d | d != c :: (d in y.guildOf <==> d in x.guildOf) && (d in x.guildOf ==> y.guildOf[d] == x.guildOf[d]))
              && (forall h | h in x.guilds && h != g :: y.guilds[h] == x.guilds[h])
  {
  }

  /** A member leaves its guild to the others, in their order; the last one ends it. */
  lemma LeaveEffect(x: Index, c: int)
    requires Consistent(x) && c in x.guildOf
    ensures var (y, g) := (Leave(x, c), x.guildOf[c]);
            && g in x.guilds && c !in y.guildOf && y.next == x.next
            && (g !in y.guilds <==> x.guilds[g].members == [c])
            && (g in y.guilds ==>
                  && y.guilds[g].(members := x.guilds[g].members) == x.guilds[g]
                  && exists i :: 0 <= i < |x.guilds[g].members| && x.guilds[g].members[i] == c
                       && y.guilds[g].members == x.guilds[g].members[..i] + x.guilds[g].members[i + 1..])
            && (forall d | d != c :: (d in y.guildOf <==> d in x.guildOf) && (d in x.guildOf ==> y.guildOf[d] == x.guildOf[d]))
            && (forall h | h in x.guilds && h != g :: h in y.guilds && y.guilds[h] == x.guilds[h])
  {
    var g := x.guildOf[c];
    assert Linked(x, c, g);
    var ms := x.guilds[g].members;
    var i := WithoutOne(ms, c);
    hide Consistent, Linked, Without;
    if ms[..i] + ms[i + 1..] == [] {
      assert ms == [c];
    }
  }

  /** Without its one occurrence. */
  lemma {:induction false} WithoutOne(s: seq<int>, c: int) returns (i: nat)
    requires c in s && Distinct(s)
    ensures i < |s| && s[i] == c && Without(s, c) == s[..i] + s[i + 1..]
  {
    var t := s[1..];
    assert s == [s[0]] + t;
    if s[0] == c {
      i := 0;
      assert forall p | 0 <= p < |t| :: t[p] == s[p + 1];
      WithoutAbsent(t, c);
    } else {
      DistinctTail(s);
      hide Distinct;
      var j := WithoutOne(t, c);
      i := j + 1;
      hide Without;
      assert s[..i] == [s[0]] + t[..j] && s[i + 1..] == t[j + 1..];
      SeqAssociates([s[0]], t[..j], t[j + 1..]);
    }
  }

  lemma DistinctTail(s: seq<int>)
    requires s != [] && Distinct(s)
    ensures Distinct(s[1..])
  {
    assert forall p | 0 <= p < |s[1..]| :: s[1..][p] == s[p + 1];
  }

  /** A request that founds a guild with these properties. */
  predicate Founds(x: Index, r: Request, g: u32, guild: Guild) {
    && r.CreateRequest? && r.c !in x.guildOf && x.next == g
    && guild.name == r.name && guild.description == r.description && guild.master == r.c
  }

  /** Every guild there is was founded by a request of the run, which gave it its name,
      description and master, and no request since changed them. */
  lemma {:induction false} GuildOrigin(rs: seq<Request>, g: u32) returns (k: nat)
    requires g in After(rs).guilds
    ensures k < |rs| && Founds(After(rs[..k]), rs[k], g, After(rs).guilds[g])
  {
    var (before, r) := (rs[..|rs| - 1], rs[|rs| - 1]);
    var x := After(before);
    if r.CreateRequest? && r.c !in x.guildOf && x.next == g {
      k := |rs| - 1;
    } else {
      SameOrigin(x, r, g);
      hide Do, Founds;
      k := GuildOrigin(before, g);
      assert before[..k] == rs[..k];
      SameFounder(After(before[..k]), rs[k], g, x.guilds[g], After(rs).guilds[g]);
    }
  }

  lemma SameOrigin(x: Index, r: Request, g: u32)
    requires g in Do(x, r).guilds && !(r.CreateRequest? && r.c !in x.guildOf && x.next == g)
    ensures g in x.guilds && Do(x, r).guilds[g].(members := x.guilds[g].members) == x.guilds[g]
  {
  }

  lemma SameFounder(x: Index, r: Request, g: u32, guild: Guild, later: Guild)
    requires Founds(x, r, g, guild) && later.(members := guild.members) == guild
    ensures Founds(x, r, g, later)
  {
  }

  // ---- the handlers ---------------------------------------------------------------------------

  class GuildRegistry {
    var guilds: map<u32, Guild>
    var channelToGuild: map<int, u32>
    var nextGuildId: u32
    ghost var history: seq<Request>   // the requests handled so far

    ghost function View(): Index
      reads this
    {
      Index(guilds, channelToGuild, nextGuildId)
    }

    /** The registry is where the requests it has handled lead. */
    ghost predicate Valid()
      reads this
    {
      View() == After(history)
    }

    constructor ()
      ensures Valid() && history == []
    {
      guilds, channelToGuild, nextGuildId, history := map[], map[], 1, [];
    }

    /** Replies with the id of the new guild, which is the next in order. */
    method HandleCreate(c: int, name: string, description: string) returns (reply: Reply)
      requires Valid()
      modifies this
      ensures Valid() && history == old(history) + [CreateRequest(c, name, description)]
      ensures reply == if c in old(channelToGuild) then Reply(false, "already in a guild", 0)
                       else Reply(true, "ok", (1 + |Issued(old(history))|) % ID_LIMIT)
    {
      IdsAreSequential(history);
      AfterSnoc(history, CreateRequest(c, name, description));
      hide After, Issued;
      history := history + [CreateRequest(c, name, description)];
      if c in channelToGuild {
        return Reply(false, "already in a guild", 0);
      }
      var id := nextGuildId;
      nextGuildId := TruncateU32(nextGuildId as int + 1);
      guilds := guilds[id := Guild(name, description, c, [c])];
      channelToGuild := channelToGuild[c := id];
      return Reply(true, "ok", id);
    }

    method HandleJoin(c: int, g: u32) returns (reply: Reply)
      requires Valid()
      modifies this
      ensures Valid() && history == old(history) + [JoinRequest(c, g)]
      ensures reply == if g !in old(guilds) then Reply(false, "guild not found", 0)
                       else if c in old(channelToGuild) then Reply(false, "already in a guild", 0)
                       else Reply(true, "ok", 0)
    {
      AfterSnoc(history, JoinRequest(c, g));
      hide After;
      history := history + [JoinRequest(c, g)];
      if g !in guilds {
        return Reply(false, "guild not found", 0);
      }
      if c in channelToGuild {
        return Reply(false, "already in a guild", 0);
      }
      var guild := guilds[g];
      guilds := guilds[g := guild.(members := guild.members + [c])];
      channelToGuild := channelToGuild[c := g];
      return Reply(true, "ok", 0);
    }

    method HandleLeave(c: int) returns (reply: Option<Reply>)
      requires Valid()
      modifies this
      ensures Valid() && history == old(history) + [LeaveRequest(c)]
      ensures reply == if c !in old(channelToGuild) then None else Some(Reply(true, "ok", 0))
    {
      AfterSnoc(history, LeaveRequest(c));
      hide After;
      history := history + [LeaveRequest(c)];
      if c !in channelToGuild {
        return None;
      }
      var g := channelToGuild[c];
      channelToGuild := channelToGuild - {c};
      if g in guilds {
        var members := Remove(guilds[g].members, c);
        if members == [] {
          guilds := guilds - {g};
        } else {
          guilds := guilds[g := guilds[g].(members := members)];
        }
      }
      return Some(Reply(true, "ok", 0));
    }

    /** A registry that has created at most 2^32 guilds is consistent and fully counted. */
    lemma RegistryIsConsistent()
      requires Valid() && |Issued(history)| <= ID_LIMIT
      ensures Consistent(View()) && MembersBelow(guilds, ID_LIMIT) == |channelToGuild|
    {
      hide Consistent, MembersBelow, After, Issued;
      FewCreationsAreSafe(history);
    }
  }

  lemma {:induction false} WithoutSnoc(s: seq<int>, d: int, c: int)
    ensures Without(s + [d], c) == Without(s, c) + if d == c then [] else [d]
  {
    if s == [] {
      assert s + [d] == [d] && [d][1..] == [];
    } else {
      WithoutSnoc(s[1..], d, c);
      assert (s + [d])[1..] == s[1..] + [d];
    }
  }

  /** Keeps the others in order. */
  method Remove(members: seq<int>, c: int) returns (kept: seq<int>)
    ensures kept == Without(members, c)
  {
    kept := [];
    for i := 0 to |members|
      invariant kept == Without(members[..i], c)
    {
      assert members[..i + 1] == members[..i] + [members[i]];
      WithoutSnoc(members[..i], members[i], c);
      if members[i] != c {
        kept := kept + [members[i]];
      }
    }
    assert members[..|members|] == members;
  }
}
