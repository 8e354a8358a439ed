/** The role cache: durable mappings, expiring IAM lookups, and what time does to each. */
module RoleCache {
  import opened Domain
  import opened Sequences

  const TTL_SECONDS: int := 15 * 60

  /** A row with a `ttl` (in epoch seconds) is a lookup and ages out; a row without one is a durable mapping. */
  datatype Row = Row(team: Team, cachedAt: int, ttl: Option<int>)

  /** A read of a role's tag from IAM, at an instant in epoch milliseconds. */
  datatype IamRead = IamRead(role: Role, team: Team, at: int)

  /** The table, and the history of successful IAM reads. */
  datatype Cache = Cache(rows: map<Role, Row>, lookups: set<IamRead>)

  predicate IsFresh(row: Row, now: int) {
    match row.ttl
    case None => true
    case Some(ttl) => ttl > now / 1000
  }

  /** The role is resolved from the table, without asking IAM. */
  predicate Served(c: Cache, role: Role, now: int) {
    role in c.rows && IsFresh(c.rows[role], now)
  }

  function LookupRow(team: Team, now: int): Row {
    Row(team, now, Some(now / 1000 + TTL_SECONDS))
  }

  datatype Step =
    /** `answer` is what IAM says, or None when it fails for good. */
    | Resolve(role: Role, answer: Option<Team>, force: bool, now: int)
    | CacheRole(role: Role, team: Team, now: int)
    | DeleteRole(role: Role, now: int)
    /** The table store removes some rows whose time is over. */
    | Reap(doomed: set<Role>, now: int)

  function Apply(c: Cache, step: Step): Cache {
    match step
    case Resolve(role, answer, force, now) =>
      if (!force && Served(c, role, now)) || answer.None? then c
      else Cache(c.rows[role := LookupRow(answer.value, now)], c.lookups + {IamRead(role, answer.value, now)})
    case CacheRole(role, team, now) => c.(rows := c.rows[role := Row(team, now, None)])
    case DeleteRole(role, now) => c.(rows := c.rows - {role})
    case Reap(doomed, now) =>
      c.(rows := map r | r in c.rows && !(r in doomed && c.rows[r].ttl.Some? && c.rows[r].ttl.value <= now / 1000) ::
          c.rows[r])
  }

  /** The team a resolution returns: the fresh row's, else IAM's, else the last known one, else none. */
  function Answer(c: Cache, role: Role, answer: Option<Team>, force: bool, now: int): Team {
    if !force && Served(c, role, now) then c.rows[role].team
    else match answer
         case Some(team) => team
         case None => if role in c.rows then c.rows[role].team else Unmapped
  }

  /** Without force, a row that is durable or whose time is not over answers, and nothing is looked up. */
  lemma FreshRowAnswers(c: Cache, role: Role, answer: Option<Team>, now: int)
    requires role in c.rows && (c.rows[role].ttl.None? || c.rows[role].ttl.value > now / 1000)
    ensures Answer(c, role, answer, false, now) == c.rows[role].team && Apply(c, Resolve(role, answer, false, now)) == c
  {
  }

  /** With force, or without such a row, IAM's team is answered and kept for 900 seconds. */
  lemma IamAnswers(c: Cache, role: Role, team: Team, force: bool, now: int)
    requires force || role !in c.rows || (c.rows[role].ttl.Some? && c.rows[role].ttl.value <= now / 1000)
    ensures Answer(c, role, Some(team), force, now) == team
    ensures Apply(c, Resolve(role, Some(team), force, now)).rows
              == c.rows[role := Row(team, now, Some(now / 1000 + 900))]
  {
  }

  /** When IAM does not answer, nothing is written, and the last known team stands in. */
  lemma NobodyAnswers(c: Cache, role: Role, force: bool, now: int)
    ensures Answer(c, role, None, force, now) == if role in c.rows then c.rows[role].team else Unmapped
    ensures Apply(c, Resolve(role, None, force, now)) == c
  {
  }

  /** A mapping written by hand or by tagging is durable and listed at once, and no other role's changes. */
  lemma CachedIsDurable(c: Cache, role: Role, team: Team, now: int)
    ensures var c' := Apply(c, CacheRole(role, team, now));
      && role in c'.rows && c'.rows[role].team == team && c'.rows[role].ttl.None? && role in MappedTo(c'.rows, team)
      && forall r :: r != role ==> (r in c'.rows <==> r in c.rows) && (r in c'.rows ==> c'.rows[r] == c.rows[r])
  {
  }

  /** A deleted role is listed for no team, and no other role's row changes. */
  lemma DeletedIsUnlisted(c: Cache, role: Role, now: int)
    ensures var c' := Apply(c, DeleteRole(role, now));
      && role !in c'.rows && (forall team :: role !in MappedTo(c'.rows, team))
      && forall r :: r != role ==> (r in c'.rows <==> r in c.rows) && (r in c'.rows ==> c'.rows[r] == c.rows[r])
  {
  }

  function Run(c: Cache, steps: seq<Step>): Cache
    decreases |steps|
  {
    if steps == [] then c else Run(Apply(c, steps[0]), steps[1..])
  }

  function MappedTo(rows: map<Role, Row>, team: Team): set<Role> {
    set r | r in rows && rows[r].team == team
  }

  // ---------- durability ----------

  predicate IsDurable(c: Cache, role: Role, team: Team) {
    role in c.rows && c.rows[role].team == team && c.rows[role].ttl.None?
  }

  /** The steps that can end a durable mapping: rewriting it, deleting it, or a forced lookup that IAM answers. */
  predicate Rewrites(step: Step, role: Role) {
    match step
    case Resolve(r, answer, force, _) => r == role && force && answer.Some?
    case CacheRole(r, _, _) => r == role
    case DeleteRole(r, _) => r == role
    case Reap(_, _) => false
  }

  /**
   A durable mapping outlives every run of lookups, clock ticks and reaping that does not rewrite it: the role
   stays listed for its team, and resolving it keeps giving that team without asking IAM.
   */
  lemma {:induction false} MappingIsDurable(c: Cache, steps: seq<Step>, role: Role, team: Team)
    requires IsDurable(c, role, team)
    requires forall i :: 0 <= i < |steps| ==> !Rewrites(steps[i], role)
    ensures IsDurable(Run(c, steps), role, team) && role in MappedTo(Run(c, steps).rows, team)
    ensures forall now, answer :: Answer(Run(c, steps), role, answer, false, now) == team
    decreases |steps|
  {
    if steps == [] {
    } else {
      MappingIsDurable(Apply(c, steps[0]), steps[1..], role, team);
    }
  }

  // ---------- staleness ----------

  /** The clock never goes back. */
  ghost predicate Ordered(steps: seq<Step>, from: int)
    decreases |steps|
  {
    steps != [] ==> from <= steps[0].now && Ordered(steps[1..], steps[0].now)
  }

  function EndOf(steps: seq<Step>, from: int): int
    decreases |steps|
  {
    if steps == [] then from else EndOf(steps[1..], steps[0].now)
  }

  /** Every lookup row is an IAM read of the past, and expires the full time after it, to the second. */
  ghost predicate Traced(c: Cache, now: int) {
    forall r :: r in c.rows && c.rows[r].ttl.Some? ==>
      && IamRead(r, c.rows[r].team, c.rows[r].cachedAt) in c.lookups
      && c.rows[r].cachedAt <= now
      && c.rows[r] == LookupRow(c.rows[r].team, c.rows[r].cachedAt)
  }

  lemma StepIsTraced(c: Cache, step: Step, from: int)
    requires Traced(c, from) && from <= step.now
    ensures Traced(Apply(c, step), step.now)
  {
    var c' := Apply(c, step);
    forall r | r in c'.rows && c'.rows[r].ttl.Some?
      ensures IamRead(r, c'.rows[r].team, c'.rows[r].cachedAt) in c'.lookups
      ensures c'.rows[r].cachedAt <= step.now && c'.rows[r] == LookupRow(c'.rows[r].team, c'.rows[r].cachedAt)
    {
      assert step.Resolve? || c'.rows[r] == c.rows[r];
    }
  }

  lemma {:induction false} RunIsTraced(c: Cache, steps: seq<Step>, from: int)
    requires Traced(c, from) && Ordered(steps, from)
    ensures Traced(Run(c, steps), EndOf(steps, from))
    decreases |steps|
  {
    if steps == [] {
    } else {
      StepIsTraced(c, steps[0], from);
      RunIsTraced(Apply(c, steps[0]), steps[1..], steps[0].now);
    }
  }

  /** Though expiry is counted in whole seconds, a row serves for at least 899 and less than 900 seconds. */
  lemma FreshnessWindow(team: Team, at: int, now: int)
    ensures IsFresh(LookupRow(team, at), now) ==> now - at < 900_000
    ensures now - at <= 899_000 ==> IsFresh(LookupRow(team, at), now)
  {
  }

  /** Where the team of an answer comes from. */
  datatype Origin = FromRow | FromIam | Nowhere

  function OriginOf(c: Cache, role: Role, answer: Option<Team>, force: bool, now: int): Origin {
    if !force && Served(c, role, now) then FromRow
    else if answer.Some? then FromIam
    else if role in c.rows then FromRow
    else Nowhere
  }

  lemma AnswerHasOrigin(c: Cache, role: Role, answer: Option<Team>, force: bool, now: int)
    ensures match OriginOf(c, role, answer, force, now)
            case FromRow => role in c.rows && Answer(c, role, answer, force, now) == c.rows[role].team
            case FromIam => answer == Some(Answer(c, role, answer, force, now))
            case Nowhere => Answer(c, role, answer, force, now) == Unmapped
  {
  }

  /** A lookup row from an IAM read at `at`, whose time is over. */
  predicate Expired(c: Cache, role: Role, now: int) {
    role in c.rows && c.rows[role].ttl.Some? && !IsFresh(c.rows[role], now)
  }

  /** The answer is that of a lookup row whose time is over. */
  predicate AnswersStale(c: Cache, role: Role, answer: Option<Team>, force: bool, now: int) {
    OriginOf(c, role, answer, force, now).FromRow? && Expired(c, role, now)
  }

  /**
   In every state that a run from an empty cache reaches, with the clock never going back, every resolution, forced
   or not: an answer from a lookup row is an IAM read less than 900,000 milliseconds old, unless the row's time is
   over and IAM does not answer; and in that case it is at least 899,001 milliseconds old.
   */
  lemma ServedLookupsAreRecent(steps: seq<Step>, start: int, role: Role, answer: Option<Team>, force: bool, now: int)
    requires Ordered(steps, start) && EndOf(steps, start) <= now
    requires var c := Run(Cache(map[], {}), steps);
      OriginOf(c, role, answer, force, now).FromRow? && c.rows[role].ttl.Some?
    ensures var c := Run(Cache(map[], {}), steps);
      && (AnswersStale(c, role, answer, force, now) <==> answer.None? && Expired(c, role, now))
      && exists at ::
           && IamRead(role, Answer(c, role, answer, force, now), at) in c.lookups && at <= now
           && if AnswersStale(c, role, answer, force, now) then now - at > 899_000 else now - at < 900_000
  {
    var c := Run(Cache(map[], {}), steps);
    RunIsTraced(Cache(map[], {}), steps, start);
    var at := c.rows[role].cachedAt;
    FreshnessWindow(c.rows[role].team, at, now);
    assert IamRead(role, Answer(c, role, answer, force, now), at) in c.lookups;
  }

  /**
   In any table: a stale team is answered if and only if IAM does not answer and the row is a lookup whose time
   is over.
   */
  lemma StaleIffIamFails(c: Cache, role: Role, answer: Option<Team>, force: bool, now: int)
    ensures AnswersStale(c, role, answer, force, now) <==> answer.None? && Expired(c, role, now)
  {
  }

  /** One lookup, and IAM failing ever after: the team is answered however old it gets. */
  lemma StaleForever(role: Role, team: Team, now: int)
    requires now >= 900_000
    ensures var c := Run(Cache(map[], {}), [Resolve(role, Some(team), false, 0)]);
      AnswersStale(c, role, None, false, now) && Answer(c, role, None, false, now) == team
  {
    var c, step := Cache(map[], {}), Resolve(role, Some(team), false, 0);
    assert [step][1..] == [] && Run(Apply(c, step), []) == Apply(c, step);
  }

  // ---------- the cache as it runs ----------

  class TeamRoleCache {
    var rows: map<Role, Row>
    ghost var lookups: set<IamRead>

    ghost function State(): Cache
      reads this
    {
      Cache(rows, lookups)
    }

    constructor ()
      ensures State() == Cache(map[], {})
    {
      rows, lookups := map[], {};
    }

    method ResolveTeam(role: Role, answer: Option<Team>, force: bool, now: int) returns (team: Team)
      modifies this
      ensures State() == Apply(old(State()), Resolve(role, answer, force, now))
      ensures team == Answer(old(State()), role, answer, force, now)
    {
      if !force && role in rows && IsFresh(rows[role], now) {
        return rows[role].team;
      }
      if answer.None? {
        return if role in rows then rows[role].team else Unmapped;
      }
      team := answer.value;
      rows := rows[role := Row(team, now, Some(now / 1000 + TTL_SECONDS))];
      lookups := lookups + {IamRead(role, team, now)};
    }

    method CacheRoleTeam(role: Role, team: Team, now: int)
      modifies this
      ensures State() == Apply(old(State()), CacheRole(role, team, now))
    {
      rows := rows[role := Row(team, now, None)];
    }

    method DeleteRoleTeam(role: Role, now: int)
      modifies this
      ensures State() == Apply(old(State()), DeleteRole(role, now))
    {
      rows := rows - {role};
    }

    /** The index answers in pages; all of them are followed. */
    method ListRolesForTeam(team: Team, pages: seq<seq<Role>>) returns (roles: seq<Role>)
      requires forall r :: r in Flatten(pages) <==> r in MappedTo(rows, team)
      ensures forall r :: r in roles <==> r in rows && rows[r].team == team
    {
      roles := [];
      var next := 0;
      while next < |pages|
        invariant 0 <= next <= |pages|
        invariant roles == Flatten(pages[..next])
      {
        assert pages[..next + 1][..next] == pages[..next];
        roles := roles + pages[next];
        next := next + 1;
      }
      assert pages[..next] == pages;
    }
  }
}
