/**
 * Role resolution for API tokens and the platform-role gates (services/terrapod/api/dependencies.py): a Redis cache
 * with a time-to-live of 60 seconds, filled by any number of concurrent resolvers from two assignment tables.
 */
module RoleCache {
  import opened Text

  const TTL := 60

  /** The two tables for one principal, as they are at each instant: the role names its rows list, in row order. */
  datatype Tables = Tables(platform: nat -> seq<string>, custom: nat -> seq<string>)

  function RoleList(platformRows: seq<string>, customRows: seq<string>): seq<string> {
    SortedDistinct(platformRows + customRows + ["everyone"])
  }

  /** One resolver between its awaits. */
  datatype Resolver =
    | Idle
    | Missed
    | ReadPlatform(at: nat, platform: seq<string>)
    | ReadBoth(at: nat, customAt: nat, platform: seq<string>, custom: seq<string>)

  datatype Entry = Entry(roles: seq<string>, writtenAt: nat)

  /** A list handed back to a caller, and when. */
  datatype Answer = Answer(at: nat, roles: seq<string>)

  datatype State = State(now: nat, cache: Option<Entry>, resolvers: map<nat, Resolver>, answers: seq<Answer>)

  datatype Action = Tick | Evict | Get(id: nat) | QueryPlatform(id: nat) | QueryCustom(id: nat) | Write(id: nat)

  /**
   * Instants are whole seconds: an entry written late in its second may still be read in the sixtieth second after it,
   * and one written early is evicted during that second.
   */
  predicate Readable(cache: Option<Entry>, now: nat) {
    cache.Some? && now <= cache.value.writtenAt + TTL
  }

  function ResolverOf(s: State, id: nat): Resolver {
    if id in s.resolvers then s.resolvers[id] else Idle
  }

  /**
   * One step. A resolver writes within `slack` seconds of its first table read; anything else may take any time. Redis
   * may drop the entry at any moment.
   */
  function Next(t: Tables, slack: nat, s: State, a: Action): Option<State> {
    match a
    case Tick => Some(s.(now := s.now + 1))
    case Evict => Some(s.(cache := None))
    case Get(id) =>
      if ResolverOf(s, id) != Idle then None
      else if Readable(s.cache, s.now) then Some(s.(answers := s.answers + [Answer(s.now, s.cache.value.roles)]))
      else Some(s.(resolvers := s.resolvers[id := Missed]))
    case QueryPlatform(id) =>
      if ResolverOf(s, id) != Missed then None
      else Some(s.(resolvers := s.resolvers[id := ReadPlatform(s.now, t.platform(s.now))]))
    case QueryCustom(id) =>
      var r := ResolverOf(s, id);
      if !r.ReadPlatform? then None
      else Some(s.(resolvers := s.resolvers[id := ReadBoth(r.at, s.now, r.platform, t.custom(s.now))]))
    case Write(id) =>
      var r := ResolverOf(s, id);
      if !r.ReadBoth? || s.now > r.at + slack then None
      else
        var roles := RoleList(r.platform, r.custom);
        Some(s.(cache := Some(Entry(roles, s.now)),
                resolvers := s.resolvers[id := Idle],
                answers := s.answers + [Answer(s.now, roles)]))
  }

  function Run(t: Tables, slack: nat, s: State, trace: seq<Action>): Option<State> {
    if trace == [] then Some(s) else
    var before := Run(t, slack, s, trace[..|trace| - 1]);
    if before.None? then None else Next(t, slack, before.value, trace[|trace| - 1])
  }

  function Initial(now: nat): State {
    State(now, None, map[], [])
  }

  // ── One resolver, run alone ─────────────────────────────────────────────────

  method AddAll(roles: set<string>, rows: seq<string>) returns (more: set<string>)
    ensures more == roles + AsSet(rows)
  {
    more := roles;
    for i := 0 to |rows|
      invariant more == roles + AsSet(rows[..i])
    {
      assert rows[..i + 1] == rows[..i] + [rows[i]];
      more := more + {rows[i]};
    }
    assert rows[..|rows|] == rows;
  }

  /** Python's `sorted` of a set of strings. */
  method Sorted(roles: set<string>) returns (list: seq<string>)
    ensures Ascending(list) && AsSet(list) == roles
  {
    list := [];
    var rest := roles;
    while rest != {}
      invariant rest <= roles && Ascending(list) && AsSet(list) == roles - rest
      decreases |rest|
    {
      var x :| x in rest;
      InsertKeepsAscending(x, list);
      assert AsSet(Insert(x, list)) == AsSet(list) + {x};
      assert roles - (rest - {x}) == (roles - rest) + {x};
      list, rest := Insert(x, list), rest - {x};
    }
  }

  class Redis {
    var cache: Option<Entry>

    /** `_resolve_user_roles`, with the instants at which it reads each table and writes the cache. */
    method ResolveUserRoles(t: Tables, now: nat, platformAt: nat, customAt: nat, writeAt: nat)
      returns (list: seq<string>)
      requires now <= platformAt <= customAt <= writeAt
      modifies this
      ensures Readable(old(cache), now) ==> list == old(cache).value.roles && cache == old(cache)
      ensures !Readable(old(cache), now) ==>
                list == RoleList(t.platform(platformAt), t.custom(customAt)) && cache == Some(Entry(list, writeAt))
    {
      if cache.Some? && now <= cache.value.writtenAt + TTL { return cache.value.roles; }
      var roles := AddAll({}, t.platform(platformAt));
      roles := AddAll(roles, t.custom(customAt));
      roles := roles + {"everyone"};
      list := Sorted(roles);
      ListOfSet(t.platform(platformAt), t.custom(customAt), list);
      cache := Some(Entry(list, writeAt));
    }
  }

  lemma ListOfSet(platform: seq<string>, custom: seq<string>, list: seq<string>)
    requires Ascending(list) && AsSet(list) == AsSet(platform) + AsSet(custom) + {"everyone"}
    ensures list == RoleList(platform, custom)
  {
    SortedDistinctIsSorted(platform + custom + ["everyone"]);
    forall z ensures z in list <==> z in RoleList(platform, custom) {
      assert z in list <==> z in AsSet(list);
    }
    AscendingIsUnique(list, RoleList(platform, custom));
  }

  /** A state reached from s by letting time pass until `now`. */
  function At(s: State, now: nat): State {
    s.(now := now)
  }

  /** A resolver that nobody interrupts takes the machine's four steps, with the list and the cache of the method. */
  lemma AloneIsFourSteps(t: Tables, slack: nat, s: State, id: nat, platformAt: nat, customAt: nat, writeAt: nat)
    requires ResolverOf(s, id) == Idle && !Readable(s.cache, s.now)
    requires s.now <= platformAt <= customAt <= writeAt <= platformAt + slack
    ensures var s1 := Next(t, slack, s, Get(id));
            && s1.Some? && var s2 := Next(t, slack, At(s1.value, platformAt), QueryPlatform(id));
            && s2.Some? && var s3 := Next(t, slack, At(s2.value, customAt), QueryCustom(id));
            && s3.Some? && var s4 := Next(t, slack, At(s3.value, writeAt), Write(id));
            && var list := RoleList(t.platform(platformAt), t.custom(customAt));
            && s4.Some? && s4.value.cache == Some(Entry(list, writeAt))
            && s4.value.answers == s.answers + [Answer(writeAt, list)]
  {
  }

  // ── What every returned list is ─────────────────────────────────────────────

  /** A list computed from one read of each table, both within [from, to]. */
  ghost predicate ReadWithin(t: Tables, roles: seq<string>, from: int, to: int) {
    exists p: nat, c: nat :: from <= p <= c <= to && ReadAt(t, roles, p, c)
  }

  predicate ReadAt(t: Tables, roles: seq<string>, p: nat, c: nat) {
    roles == RoleList(t.platform(p), t.custom(c))
  }

  ghost predicate ResolverSound(t: Tables, r: Resolver, now: nat) {
    match r
    case ReadPlatform(at, platform) => at <= now && platform == t.platform(at)
    case ReadBoth(at, customAt, platform, custom) =>
      at <= customAt <= now && platform == t.platform(at) && custom == t.custom(customAt)
    case _ => true
  }

  ghost predicate EntrySound(t: Tables, slack: nat, e: Entry, now: nat) {
    e.writtenAt <= now && ReadWithin(t, e.roles, e.writtenAt - slack, e.writtenAt)
  }

  ghost predicate AnswerSound(t: Tables, slack: nat, a: Answer) {
    ReadWithin(t, a.roles, a.at - TTL - slack, a.at)
  }

  ghost predicate Sound(t: Tables, slack: nat, s: State) {
    && (forall id :: id in s.resolvers ==> ResolverSound(t, s.resolvers[id], s.now))
    && (s.cache.Some? ==> EntrySound(t, slack, s.cache.value, s.now))
    && forall a :: a in s.answers ==> AnswerSound(t, slack, a)
  }

  lemma ReadTwice(t: Tables, p: nat, c: nat, from: int, to: int)
    requires from <= p <= c <= to
    ensures ReadWithin(t, RoleList(t.platform(p), t.custom(c)), from, to)
  {
    assert ReadAt(t, RoleList(t.platform(p), t.custom(c)), p, c);
  }

  lemma GetIsSound(t: Tables, slack: nat, s: State, id: nat)
    requires Sound(t, slack, s) && Next(t, slack, s, Get(id)).Some?
    ensures Sound(t, slack, Next(t, slack, s, Get(id)).value)
  {
  }

  lemma WriteIsSound(t: Tables, slack: nat, s: State, id: nat, s': State, roles: seq<string>)
    requires Sound(t, slack, s) && ReadWithin(t, roles, s.now - slack, s.now)
    requires s'.now == s.now && s'.cache == Some(Entry(roles, s.now))
    requires s'.resolvers == s.resolvers[id := Idle] && s'.answers == s.answers + [Answer(s.now, roles)]
    ensures Sound(t, slack, s')
  {
  }

  /** Every step of every resolver, of time and of Redis keeps the state sound. */
  lemma NextIsSound(t: Tables, slack: nat, s: State, a: Action)
    requires Sound(t, slack, s) && Next(t, slack, s, a).Some?
    ensures Sound(t, slack, Next(t, slack, s, a).value)
  {
    match a {
      case Get(id) => GetIsSound(t, slack, s, id);
      case Write(id) =>
        var r := ResolverOf(s, id);
        assert ResolverSound(t, r, s.now);
        ReadTwice(t, r.at, r.customAt, s.now - slack, s.now);
        WriteIsSound(t, slack, s, id, Next(t, slack, s, a).value, RoleList(r.platform, r.custom));
      case _ =>
    }
  }

  lemma {:induction false} RunIsSound(t: Tables, slack: nat, s: State, trace: seq<Action>)
    requires Sound(t, slack, s) && Run(t, slack, s, trace).Some?
    ensures Sound(t, slack, Run(t, slack, s, trace).value)
  {
    if trace != [] {
      var n := |trace| - 1;
      RunIsSound(t, slack, s, trace[..n]);
      NextIsSound(t, slack, Run(t, slack, s, trace[..n]).value, trace[n]);
    }
  }

  ghost predicate Assigned(t: Tables, role: string, at: nat) {
    role in t.platform(at) || role in t.custom(at)
  }

  ghost predicate AssignedThroughout(t: Tables, role: string, from: int, to: nat) {
    (forall at: nat {:trigger t.platform(at)} :: from <= at <= to ==> role in t.platform(at))
    || (forall at: nat {:trigger t.custom(at)} :: from <= at <= to ==> role in t.custom(at))
  }

  /** What a list says about one role, given the window in which its tables were read. */
  ghost predicate Faithful(t: Tables, role: string, roles: seq<string>, from: int, to: nat) {
    && (role in roles && role != "everyone" ==> AssignedWithin(t, role, from, to))
    && (AssignedThroughout(t, role, from, to) ==> role in roles)
  }

  ghost predicate AssignedWithin(t: Tables, role: string, from: int, to: nat) {
    exists at: nat :: from <= at <= to && Assigned(t, role, at)
  }

  lemma RoleListMembers(platform: seq<string>, custom: seq<string>, role: string)
    ensures Ascending(RoleList(platform, custom))
    ensures role in RoleList(platform, custom) <==> role in platform || role in custom || role == "everyone"
  {
    SortedDistinctIsSorted(platform + custom + ["everyone"]);
  }

  lemma ReadIsFaithful(t: Tables, role: string, roles: seq<string>, from: int, to: nat)
    requires ReadWithin(t, roles, from, to)
    ensures Ascending(roles) && "everyone" in roles && Faithful(t, role, roles, from, to)
  {
    var p: nat, c: nat :| from <= p <= c <= to && ReadAt(t, roles, p, c);
    RoleListMembers(t.platform(p), t.custom(c), role);
    RoleListMembers(t.platform(p), t.custom(c), "everyone");
    if role in t.platform(p) { assert Assigned(t, role, p); }
    if role in t.custom(c) { assert Assigned(t, role, c); }
  }

  /**
   * Staleness bound: over every interleaving of any number of resolvers, each list returned at time u is ascending and
   * duplicate-free, contains "everyone", contains only roles that one of the tables listed at some instant in
   * [u - 60 - slack, u], and contains every role that one table listed throughout that window.
   */
  lemma StalenessBound(t: Tables, slack: nat, start: nat, trace: seq<Action>, a: Answer, role: string)
    requires Run(t, slack, Initial(start), trace).Some?
    requires a in Run(t, slack, Initial(start), trace).value.answers
    ensures Ascending(a.roles) && "everyone" in a.roles
    ensures Faithful(t, role, a.roles, a.at - 60 - slack, a.at)
  {
    RunIsSound(t, slack, Initial(start), trace);
    assert AnswerSound(t, slack, a);
    ReadIsFaithful(t, role, a.roles, a.at - TTL - slack, a.at);
  }

  /** The platform table lists "admin" at one instant only; the other table never lists anything. */
  function AdminOnlyAt(at: nat): Tables {
    Tables((now: nat) => if now == at then ["admin"] else [], (now: nat) => [])
  }

  function Ticks(n: nat): seq<Action> {
    seq(n, i => Tick)
  }

  lemma {:induction false} TicksPass(t: Tables, slack: nat, s: State, before: seq<Action>, n: nat)
    requires Run(t, slack, s, before).Some?
    ensures Run(t, slack, s, before + Ticks(n)).Some?
    ensures var b := Run(t, slack, s, before).value;
            Run(t, slack, s, before + Ticks(n)).value == b.(now := b.now + n)
  {
    if n == 0 {
      assert before + Ticks(0) == before;
    } else {
      TicksPass(t, slack, s, before, n - 1);
      StepAfter(t, slack, s, before + Ticks(n - 1), Tick);
      assert before + Ticks(n - 1) + [Tick] == before + Ticks(n);
    }
  }

  lemma StepAfter(t: Tables, slack: nat, s: State, before: seq<Action>, a: Action)
    requires Run(t, slack, s, before).Some?
    ensures Run(t, slack, s, before + [a]) == Next(t, slack, Run(t, slack, s, before).value, a)
  {
    assert (before + [a])[..|before|] == before;
  }

  /** Slow resolver, then a hit at the last moment: a miss and two reads, `slack` seconds, the write, 60 more, a hit. */
  function SlowThenHit(slack: nat): seq<Action> {
    [Get(0), QueryPlatform(0)] + Ticks(slack) + [QueryCustom(0), Write(0)] + Ticks(TTL) + [Get(1)]
  }

  /**
   * The bound is reached: for every slack there is a run that answers with a role which the tables listed at no instant
   * but the very first one of the window, 60 + slack seconds before.
   */
  lemma StalenessIsReached(slack: nat, start: nat)
    ensures var t := AdminOnlyAt(start);
            var end := Run(t, slack, Initial(start), SlowThenHit(slack));
            && end.Some?
            && exists a :: a in end.value.answers && a.at == start + slack + 60 && "admin" in a.roles
    ensures forall at: nat :: Assigned(AdminOnlyAt(start), "admin", at) <==> at == start
  {
    var t, s0 := AdminOnlyAt(start), Initial(start);
    SlowMiss(t, slack, start);
    var first := [Get(0)] + [QueryPlatform(0)];
    TicksPass(t, slack, s0, first, slack);
    SlowWrite(t, slack, s0, first + Ticks(slack), start);
    var second := first + Ticks(slack) + [QueryCustom(0)] + [Write(0)];
    TicksPass(t, slack, s0, second, TTL);
    StepAfter(t, slack, s0, second + Ticks(TTL), Get(1));
    assert second + Ticks(TTL) + [Get(1)] == SlowThenHit(slack);
    LateHit(t, slack, Run(t, slack, s0, second + Ticks(TTL)).value, start + slack);
  }

  lemma SlowMiss(t: Tables, slack: nat, start: nat)
    requires t == AdminOnlyAt(start)
    ensures Run(t, slack, Initial(start), [Get(0)] + [QueryPlatform(0)])
         == Some(State(start, None, map[0 := ReadPlatform(start, ["admin"])], []))
  {
    var s0 := Initial(start);
    StepAfter(t, slack, s0, [], Get(0));
    assert Run(t, slack, s0, []) == Some(s0) && [] + [Get(0)] == [Get(0)];
    StepAfter(t, slack, s0, [Get(0)], QueryPlatform(0));
    assert s0.resolvers[0 := Missed][0 := ReadPlatform(start, ["admin"])] == map[0 := ReadPlatform(start, ["admin"])];
  }

  lemma LateHit(t: Tables, slack: nat, s: State, writtenAt: nat)
    requires s.cache.Some? && s.cache.value.writtenAt == writtenAt && s.now == writtenAt + TTL && 1 !in s.resolvers
    requires "admin" in s.cache.value.roles
    ensures var end := Next(t, slack, s, Get(1));
            end.Some? && exists a :: a in end.value.answers && a.at == writtenAt + TTL && "admin" in a.roles
  {
    assert Answer(s.now, s.cache.value.roles) in Next(t, slack, s, Get(1)).value.answers;
  }

  lemma SlowWrite(t: Tables, slack: nat, s0: State, before: seq<Action>, start: nat)
    requires t == AdminOnlyAt(start)
    requires Run(t, slack, s0, before)
          == Some(State(start + slack, None, map[0 := ReadPlatform(start, ["admin"])], []))
    ensures var end := Run(t, slack, s0, before + [QueryCustom(0)] + [Write(0)]);
            && end.Some? && end.value.now == start + slack && 1 !in end.value.resolvers
            && end.value.cache.Some? && end.value.cache.value.writtenAt == start + slack
            && "admin" in end.value.cache.value.roles
  {
    StepAfter(t, slack, s0, before, QueryCustom(0));
    StepAfter(t, slack, s0, before + [QueryCustom(0)], Write(0));
    RoleListMembers(["admin"], t.custom(start + slack), "admin");
  }

  // ── Principals and gates ────────────────────────────────────────────────────

  datatype Kind = Interactive | ServiceBound | ServiceDetached

  datatype User = User(roles: seq<string>, kind: Kind, pinned: Option<seq<string>>)

  function AsSet(xs: seq<string>): set<string> {
    set x | x in xs
  }

  function EffectivePlatformRoles(u: User): set<string> {
    var pinned := AsSet(if u.pinned.Some? then u.pinned.value else []);
    match u.kind
    case ServiceDetached => pinned
    case ServiceBound => AsSet(u.roles) * pinned
    case Interactive => AsSet(u.roles)
  }

  datatype ApiToken = ApiToken(boundTo: string, kind: Kind, pinned: Option<seq<string>>)

  /** What the credential lookups say of one bearer token, and what role resolution returns if it is asked. */
  datatype Lookups = Lookups(runnerPrefix: bool, runner: bool, apiToken: Option<ApiToken>, session: Option<seq<string>>,
                             resolved: seq<string>)

  /** The order of `get_current_user` and `authenticate_request`: runner token, API token, session, else 401. */
  function Authenticate(l: Lookups): Option<User> {
    if l.runnerPrefix && l.runner then Some(User(["everyone"], Interactive, None))
    else if l.apiToken.Some? then
      var token := l.apiToken.value;
      Some(User(if token.boundTo != "" then l.resolved else [], token.kind, token.pinned))
    else if l.session.Some? then Some(User(l.session.value, Interactive, None))
    else None
  }

  /** `require_admin`: false is the 401 or the 403. */
  predicate PassesRequireAdmin(l: Lookups) {
    Authenticate(l).Some? && "admin" in EffectivePlatformRoles(Authenticate(l).value)
  }

  /** What a token's own list pins. */
  predicate Pinned(token: ApiToken, role: string) {
    token.pinned.Some? && role in token.pinned.value
  }

  /**
   * End to end, for every role and over every interleaving: an interactive token has no roles but those its principal
   * was assigned within the staleness window, and all those assigned throughout it; a service_bound token has those of
   * them that are pinned on it; a detached one exactly those that are pinned. Without a principal nothing is assigned.
   */
  lemma EffectiveRoles(t: Tables, slack: nat, start: nat, trace: seq<Action>, a: Answer, l: Lookups, role: string)
    requires Run(t, slack, Initial(start), trace).Some?
    requires a in Run(t, slack, Initial(start), trace).value.answers && l.resolved == a.roles
    requires l.apiToken.Some? && !(l.runnerPrefix && l.runner)
    ensures Authenticate(l).Some?
    ensures var token := l.apiToken.value;
            var has := role in EffectivePlatformRoles(Authenticate(l).value);
            var recent := AssignedWithin(t, role, a.at - 60 - slack, a.at);
            var throughout := AssignedThroughout(t, role, a.at - 60 - slack, a.at);
            match token.kind
            case Interactive =>
              && (has ==> token.boundTo != "" && (role == "everyone" || recent))
              && (token.boundTo != "" && (role == "everyone" || throughout) ==> has)
            case ServiceBound =>
              && (has ==> token.boundTo != "" && Pinned(token, role) && (role == "everyone" || recent))
              && (token.boundTo != "" && Pinned(token, role) && (role == "everyone" || throughout) ==> has)
            case ServiceDetached => has <==> Pinned(token, role)
  {
    StalenessBound(t, slack, start, trace, a, role);
  }

  /** The other credentials: a runner token is no more than everyone, a session is what it lists. */
  lemma OtherCredentials(l: Lookups, role: string)
    requires (l.runnerPrefix && l.runner) || l.apiToken.None?
    ensures l.runnerPrefix && l.runner ==>
              Authenticate(l).Some?
              && (role in EffectivePlatformRoles(Authenticate(l).value) <==> role == "everyone")
    ensures !(l.runnerPrefix && l.runner) ==>
              && (Authenticate(l).Some? <==> l.session.Some?)
              && (l.session.Some? ==>
                    (role in EffectivePlatformRoles(Authenticate(l).value) <==> role in l.session.value))
  {
  }

  /** `require_admin_or_audit`. */
  predicate PassesRequireAdminOrAudit(l: Lookups) {
    Authenticate(l).Some? && {"admin", "audit"} * EffectivePlatformRoles(Authenticate(l).value) != {}
  }

  lemma TwoRolesPass(l: Lookups)
    ensures PassesRequireAdmin(l) <==>
              Authenticate(l).Some? && "admin" in EffectivePlatformRoles(Authenticate(l).value)
    ensures PassesRequireAdminOrAudit(l) <==>
              Authenticate(l).Some? && ("admin" in EffectivePlatformRoles(Authenticate(l).value)
                                        || "audit" in EffectivePlatformRoles(Authenticate(l).value))
  {
    if Authenticate(l).Some? {
      var roles := EffectivePlatformRoles(Authenticate(l).value);
      if "admin" in roles { assert "admin" in {"admin", "audit"} * roles; }
      if "audit" in roles { assert "audit" in {"admin", "audit"} * roles; }
    }
  }

  /**
   * End to end: a service_bound token passes `require_admin` only if "admin" is pinned on it and was assigned to its
   * principal at some instant of the staleness window before the moment its roles were returned.
   */
  lemma BoundTokenNeedsRecentAdmin(t: Tables, slack: nat, start: nat, trace: seq<Action>, a: Answer, l: Lookups)
    requires Run(t, slack, Initial(start), trace).Some?
    requires a in Run(t, slack, Initial(start), trace).value.answers && l.resolved == a.roles
    requires l.apiToken.Some? && l.apiToken.value.kind == ServiceBound && !(l.runnerPrefix && l.runner)
    ensures PassesRequireAdmin(l) ==>
              Pinned(l.apiToken.value, "admin") && AssignedWithin(t, "admin", a.at - 60 - slack, a.at)
    ensures PassesRequireAdminOrAudit(l) ==>
              exists role :: role in {"admin", "audit"} && Pinned(l.apiToken.value, role)
                             && AssignedWithin(t, role, a.at - 60 - slack, a.at)
  {
    TwoRolesPass(l);
    NotEveryone();
    EffectiveRoles(t, slack, start, trace, a, l, "admin");
    EffectiveRoles(t, slack, start, trace, a, l, "audit");
  }

  /** The role is assigned at no instant from then on. */
  ghost predicate Revoked(t: Tables, role: string, since: nat) {
    forall at: nat :: since <= at ==> !Assigned(t, role, at)
  }

  lemma RevokedIsGone(t: Tables, role: string, since: nat, from: int, to: nat)
    requires Revoked(t, role, since) && from >= since
    ensures !AssignedWithin(t, role, from, to)
  {
  }

  /**
   * Revocation takes effect: once a role is taken away, every list that is returned 60 + slack seconds later or more
   * closes its gates to the principal's interactive and service_bound tokens, whatever is pinned on them; only a
   * detached token, which carries its own roles, still passes, and exactly if the role is pinned on it.
   */
  lemma RevocationTakesEffect(t: Tables, slack: nat, start: nat, trace: seq<Action>, a: Answer, l: Lookups, since: nat)
    requires Run(t, slack, Initial(start), trace).Some?
    requires a in Run(t, slack, Initial(start), trace).value.answers && l.resolved == a.roles
    requires Revoked(t, "admin", since) && a.at >= since + 60 + slack
    requires l.apiToken.Some? && !(l.runnerPrefix && l.runner)
    ensures PassesRequireAdmin(l)
            <==> l.apiToken.value.kind == ServiceDetached && Pinned(l.apiToken.value, "admin")
    ensures Revoked(t, "audit", since) ==>
              (PassesRequireAdminOrAudit(l)
               <==> l.apiToken.value.kind == ServiceDetached
                    && (Pinned(l.apiToken.value, "admin") || Pinned(l.apiToken.value, "audit")))
  {
    TwoRolesPass(l);
    NotEveryone();
    EffectiveRoles(t, slack, start, trace, a, l, "admin");
    EffectiveRoles(t, slack, start, trace, a, l, "audit");
    RevokedIsGone(t, "admin", since, a.at - 60 - slack, a.at);
    if Revoked(t, "audit", since) { RevokedIsGone(t, "audit", since, a.at - 60 - slack, a.at); }
  }

  lemma NotEveryone()
    ensures "admin" != "everyone" && "audit" != "everyone"
  {
    assert "admin"[0] != "everyone"[0];
  }
}
