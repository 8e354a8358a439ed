/**
 Reachable states in which rows, policies and announcements disagree: one short run from empty tables for each
 cause.
 */
module Counterexamples {
  import opened Domain
  import opened Enforcement
  import opened DailyReset
  import opened Runs
  import opened Evidence
  import opened CrashRetry
  import opened Overlaps

  function Listing(role: Role): Visit {
    Visit([role], {})
  }

  function Exceeding(k: Key, e: Endpoint, day: Day): Usage {
    Usage(k, day, 20, e)
  }

  /** A role of the team and a quota of 10. */
  function Limiting(role: Role, k: Key): seq<Step> {
    [RoleTagged(role, k.team, [], {})] + [QuotaEdit(k, Some(10))]
  }

  lemma Limited(role: Role, k: Key)
    ensures AnsweredRun(EMPTY, Limiting(role, k))
    ensures var t := Run(EMPTY, Limiting(role, k));
      t.quotas == map[k := 10] && t.roles == map[role := k.team] && t.rows == map[] && t.denies == {} && t.events == []
  {
    OneMore(EMPTY, [], RoleTagged(role, k.team, [], {}));
    OneMore(EMPTY, [RoleTagged(role, k.team, [], {})], QuotaEdit(k, Some(10)));
  }

  /** And a total of 20: the team is blocked. */
  function Blocking(role: Role, k: Key, e: Endpoint, now: int): seq<Step> {
    Limiting(role, k) + [UsageChange(Exceeding(k, e, UsageDay(now)), Listing(role), now)]
  }

  lemma Blocked(role: Role, k: Key, e: Endpoint, now: int)
    ensures AnsweredRun(EMPTY, Blocking(role, k, e, now))
    ensures var t := Run(EMPTY, Blocking(role, k, e, now));
      && t.quotas == map[k := 10] && t.roles == map[role := k.team]
      && t.rows == map[k := BlockedRow(UsageDay(now), e)] && t.denies == {Deny(role, e, k.model)}
  {
    Limited(role, k);
    OneMore(EMPTY, Limiting(role, k), UsageChange(Exceeding(k, e, UsageDay(now)), Listing(role), now));
    assert RolesOf(Run(EMPTY, Limiting(role, k)).roles, k.team) == {role};
    assert Reached(Listing(role), e, k.model) == {Deny(role, e, k.model)};
  }

  /** "Restored" is published and the row is gone, but the role is still denied. */
  lemma FalseRestoreIsReachable(role: Role, k: Key, now: int)
    ensures var drop := UsageChange(Usage(k, UsageDay(now), 5, BedrockMantle), Listing(role), now);
            var steps := Blocking(role, k, BedrockRuntime, now) + [drop];
            var t := Run(EMPTY, steps);
      && AnsweredRun(EMPTY, steps)
      && k !in t.rows && RestoredEvent(k) in t.events && Deny(role, BedrockRuntime, k.model) in t.denies
  {
    var steps := Blocking(role, k, BedrockRuntime, now);
    var drop := UsageChange(Usage(k, UsageDay(now), 5, BedrockMantle), Listing(role), now);
    Blocked(role, k, BedrockRuntime, now);
    OneMore(EMPTY, steps, drop);
    var t := Run(EMPTY, steps);
    assert RolesOf(t.roles, k.team) == {role};
    assert Reached(drop.v, BedrockMantle, k.model) == {Deny(role, BedrockMantle, k.model)};
  }

  /** A role that is tagged into another team keeps the policy of the old team's block. */
  lemma RetaggedRoleStaysDenied(role: Role, k: Key, e: Endpoint, other: Team, now: int)
    requires other != k.team
    ensures var steps := Blocking(role, k, e, now) + [RoleTagged(role, other, [], {})];
            var t := Run(EMPTY, steps);
      && AnsweredRun(EMPTY, steps)
      && role in t.roles && t.roles[role] == other && Key(other, k.model) !in t.rows &&
          Deny(role, e, k.model) in t.denies
  {
    Blocked(role, k, e, now);
    OneMore(EMPTY, Blocking(role, k, e, now), RoleTagged(role, other, [], {}));
  }

  /** A role that is cached for a blocked team without tagging is not denied. */
  lemma CachedRoleIsNotDenied(role: Role, late: Role, k: Key, e: Endpoint, now: int)
    requires late != role
    ensures var steps := Blocking(role, k, e, now) + [MappingChange(late, Some(k.team))];
            var t := Run(EMPTY, steps);
      && AnsweredRun(EMPTY, steps)
      && late in t.roles && t.roles[late] == k.team && k in t.rows && t.rows[k].status == BLOCKED
      && forall d :: d in t.denies ==> d.role != late
  {
    Blocked(role, k, e, now);
    OneMore(EMPTY, Blocking(role, k, e, now), MappingChange(late, Some(k.team)));
  }

  /** A role that leaves the mapping while blocked stays denied when its team's row is cleared. */
  lemma UnmappedRoleStaysDenied(role: Role, k: Key, e: Endpoint, now: int, later: int)
    ensures var steps := Blocking(role, k, e, now) + [MappingChange(role, None)] +
              [ManualRemoval(k, Visit([], {}), later)];
            var t := Run(EMPTY, steps);
      && AnsweredRun(EMPTY, steps)
      && k !in t.rows && RestoredEvent(k) in t.events && role !in t.roles && Deny(role, e, k.model) in t.denies
  {
    var steps := Blocking(role, k, e, now);
    var lost, override := MappingChange(role, None), ManualRemoval(k, Visit([], {}), later);
    Blocked(role, k, e, now);
    OneMore(EMPTY, steps, lost);
    OneMore(EMPTY, steps + [lost], override);
    var t := Run(EMPTY, steps + [lost]);
    assert RolesOf(t.roles, k.team) == {};
    assert Reached(override.v, e, k.model) == {};
  }

  /** A reset that finds the one row of the tables, if it is due. */
  function ResetOf(k: Key, row: Row, role: Role, failing: set<Role>, now: int): Reset {
    var due := [Pair(k, row.day, row.endpoint)];
    Reset(now,
          if row.statusDay == StatusDay(BLOCKED, PreviousUsageDay(now)) then due else [],
          if row.statusDay == StatusDay(PENDING_RESET, PreviousUsageDay(now)) then due else [],
          (key: Key) => Visit(if key.team == k.team then [role] else [], failing))
  }

  lemma ResetIsAnswered(t: Tables, k: Key, role: Role, failing: set<Role>, now: int)
    requires k in t.rows && t.rows == map[k := t.rows[k]] && t.roles == map[role := k.team]
    ensures Answers(t, ResetOf(k, t.rows[k], role, failing, now))
  {
    var r := ResetOf(k, t.rows[k], role, failing, now);
    assert PairOf(t.rows, k) == Pair(k, t.rows[k].day, t.rows[k].endpoint);
    forall key ensures Lists(r.visits(key), t.roles, key.team) {
      forall x ensures x in r.visits(key).roles <==> x in RolesOf(t.roles, key.team) { }
    }
  }

  /**
   The reset after the day of the block fails for the role. Every later reset, however many days pass and however
   well its calls go, leaves the row PENDING_RESET and the role denied.
   */
  lemma {:induction false} PendingRowIsStuck(role: Role, k: Key, e: Endpoint, now: int, days: seq<Reset>)
    requires var day := UsageDay(now);
             var first := ResetOf(k, BlockedRow(day, e), role, {role}, now + DAY_MS);
             var t := Run(EMPTY, Blocking(role, k, e, now) + [MidnightReset(first)]);
      AnswersAll(t, days) && forall i :: 0 <= i < |days| ==> PreviousUsageDay(days[i].now) > day
    ensures var first := ResetOf(k, BlockedRow(UsageDay(now), e), role, {role}, now + DAY_MS);
            var steps := Blocking(role, k, e, now) + [MidnightReset(first)];
            var t := AfterAll(Run(EMPTY, steps), days);
      && AnsweredRun(EMPTY, steps)
      && k in t.rows && t.rows[k] == PendingRow(UsageDay(now), e) && Deny(role, e, k.model) in t.denies
  {
    var steps := Blocking(role, k, e, now);
    var first := ResetOf(k, BlockedRow(UsageDay(now), e), role, {role}, now + DAY_MS);
    Blocked(role, k, e, now);
    var t := Run(EMPTY, steps);
    OneMore(EMPTY, steps, MidnightReset(first));
    ResetIsAnswered(t, k, role, {role}, now + DAY_MS);
    TouchesExactlyTheDueRows(t, first);
    var pending, d := After(t, first), Deny(role, e, k.model);
    assert Due(t.rows, k, first.now) && RowAfter(t, first, k);
    assert role in first.visits(k).roles && Fails(first, k);
    assert !Lifted(t, first, d) && Enforces(pending, d, k);
    NeverRetriedOnOtherDays(pending, days, k);
  }

  /** A role that has been blocked under the metrics endpoint and is then tagged into another team. */
  function Moved(role: Role, k: Key, other: Team, now: int): seq<Step> {
    Blocking(role, k, BedrockMantle, now) + [RoleTagged(role, other, [], {})]
  }

  lemma MovedTables(role: Role, k: Key, other: Team, now: int)
    requires other != k.team
    ensures AnsweredRun(EMPTY, Moved(role, k, other, now))
    ensures var t := Run(EMPTY, Moved(role, k, other, now));
      && t.quotas == map[k := 10] && t.roles == map[role := other]
      && t.rows == map[k := BlockedRow(UsageDay(now), BedrockMantle)] &&
          t.denies == {Deny(role, BedrockMantle, k.model)}
  {
    Blocked(role, k, BedrockMantle, now);
    OneMore(EMPTY, Blocking(role, k, BedrockMantle, now), RoleTagged(role, other, [], {}));
  }

  /**
   Each pair has one endpoint, the removal goes by the row's own, and no call fails: "restored" is published for the
   new team, whose role still carries the old team's policy for the same model.
   */
  lemma FalseRestoreAfterRetagging(role: Role, k: Key, other: Team, now: int)
    requires other != k.team
    ensures var pair := Key(other, k.model);
            var steps := Moved(role, k, other, now) + [QuotaEdit(pair, Some(10))]
                         + [UsageChange(Usage(pair, UsageDay(now), 20, BedrockRuntime), Listing(role), now)]
                         + [UsageChange(Usage(pair, UsageDay(now), 5, BedrockRuntime), Listing(role), now)];
            var t := Run(EMPTY, steps);
      && AnsweredRun(EMPTY, steps)
      && pair !in t.rows && RestoredEvent(pair) in t.events
      && role in t.roles && t.roles[role] == other && Deny(role, BedrockMantle, k.model) in t.denies
  {
    var pair, steps := Key(other, k.model), Moved(role, k, other, now);
    var edit := QuotaEdit(pair, Some(10));
    var over := UsageChange(Usage(pair, UsageDay(now), 20, BedrockRuntime), Listing(role), now);
    var under := UsageChange(Usage(pair, UsageDay(now), 5, BedrockRuntime), Listing(role), now);
    MovedTables(role, k, other, now);
    OneMore(EMPTY, steps, edit);
    var t1 := Run(EMPTY, steps + [edit]);
    assert RolesOf(t1.roles, other) == {role};
    assert Reached(Listing(role), BedrockRuntime, k.model) == {Deny(role, BedrockRuntime, k.model)};
    OneMore(EMPTY, steps + [edit], over);
    var t2 := Run(EMPTY, steps + [edit] + [over]);
    assert pair in t2.rows && t2.roles == t1.roles;
    OneMore(EMPTY, steps + [edit] + [over], under);
  }

  /** An override of a pair without a row announces "restored", while the team's role carries a policy for the model. */
  lemma OverrideAnnouncesFalsely(role: Role, k: Key, other: Team, now: int)
    requires other != k.team
    ensures var pair := Key(other, k.model);
            var steps := Moved(role, k, other, now) + [ManualRemoval(pair, Listing(role), now)];
            var t := Run(EMPTY, steps);
      && AnsweredRun(EMPTY, steps)
      && pair !in t.rows && RestoredEvent(pair) in t.events
      && role in t.roles && t.roles[role] == other && Deny(role, BedrockMantle, k.model) in t.denies
  {
    var pair, steps := Key(other, k.model), Moved(role, k, other, now);
    MovedTables(role, k, other, now);
    OneMore(EMPTY, steps, ManualRemoval(pair, Listing(role), now));
    var t := Run(EMPTY, steps);
    assert RolesOf(t.roles, other) == {role};
    assert Reached(Listing(role), BedrockRuntime, k.model) == {Deny(role, BedrockRuntime, k.model)};
  }

  /** A batch with one breach. */
  function OneBreach(k: Key, e: Endpoint, now: int): seq<StreamRecord> {
    [StreamRecord(INSERT, Image(Exceeding(k, e, UsageDay(now))))]
  }

  /** Its pass dies after the one IAM call, before the row is written. */
  function DiesAfterCall(role: Role, now: int): CutPass {
    CutPass(0, Cut(1, 1, false), i => Listing(role), now)
  }

  /** Whatever is in the tables, a pass on another day finds no relevant record in the batch. */
  lemma OtherDayPassIsIdle(t: Tables, k: Key, e: Endpoint, now: int, visits: nat -> Visit, later: int)
    requires UsageDay(later) != UsageDay(now)
    ensures HandleBatch(t, OneBreach(k, e, now), visits, later) == t
  {
    var records := OneBreach(k, e, now);
    assert records[..0] == [] && HandleBatch(t, records[..0], visits, later) == t;
  }

  /**
   The pass dies, and the complete pass falls on a later day: the role is denied without a row, although a complete
   pass alone does nothing; and no later reset lifts the policy.
   */
  lemma CutAcrossMidnightStrands(t: Tables, role: Role, k: Key, e: Endpoint, now: int, visits: nat -> Visit,
      later: int, days: seq<Reset>)
    requires t == Run(EMPTY, Limiting(role, k))
    requires UsageDay(later) != UsageDay(now)
    requires AnswersAll(HandleBatch(AfterCut(t, OneBreach(k, e, now), DiesAfterCall(role, now)), OneBreach(k, e, now),
               visits, later), days)
    ensures var records := OneBreach(k, e, now);
            var left := HandleBatch(AfterCut(t, records, DiesAfterCall(role, now)), records, visits, later);
      && HandleBatch(t, records, visits, later) == t && t.denies == {}
      && k !in left.rows && Deny(role, e, k.model) in left.denies
      && k !in AfterAll(left, days).rows && Deny(role, e, k.model) in AfterAll(left, days).denies
  {
    Limited(role, k);
    var records := OneBreach(k, e, now);
    var c := DiesAfterCall(role, now);
    var cut := AfterCut(t, records, c);
    assert records[..0] == [] && HandleBatch(t, records[..0], c.visits, now) == t;
    assert FirstRoles(Listing(role), 1) == Listing(role);
    assert Reached(Listing(role), e, k.model) == {Deny(role, e, k.model)};
    OtherDayPassIsIdle(t, k, e, now, visits, later);
    OtherDayPassIsIdle(cut, k, e, now, visits, later);
    StaysCleared(cut, days, k);
  }

  /**
   A role is tagged into the team between the listing and the row write of a block: the team is BLOCKED, the role is
   mapped to it, and no policy denies it.
   */
  lemma TaggedDuringBlock(role: Role, late: Role, k: Key, e: Endpoint, now: int)
    requires late != role
    ensures var t := Run(EMPTY, Limiting(role, k));
            var tagged := RoleTagged(late, k.team, [], {});
            var end := Late(t, Apply(t, tagged), Exceeding(k, e, UsageDay(now)), Listing(role), now);
      && Answered(t, tagged) && Breaches(t, Exceeding(k, e, UsageDay(now))) && Lists(Listing(role), t.roles, k.team)
      && IsBlocked(end.rows, k, e) && late in end.roles && end.roles[late] == k.team
      && forall d :: d in end.denies ==> d.role != late
  {
    Limited(role, k);
    assert RolesOf(Run(EMPTY, Limiting(role, k)).roles, k.team) == {role};
  }

  /** A role is tagged into the team while its block is lifted: "restored" is published, and the role is denied. */
  lemma TaggedDuringRemoval(role: Role, late: Role, k: Key, e: Endpoint, now: int)
    requires late != role
    ensures var t := Run(EMPTY, Blocking(role, k, e, now));
            var tagged := RoleTagged(late, k.team, [BlockedModel(k.model, e)], {});
            var below := Usage(k, UsageDay(now), 5, e);
            var end := Late(t, Apply(t, tagged), below, Listing(role), now);
      && Answered(t, tagged) && Removes(t, below) && Lists(Listing(role), t.roles, k.team)
      && k !in end.rows && RestoredEvent(k) in end.events && Deny(late, e, k.model) in end.denies
  {
    Blocked(role, k, e, now);
    var t := Run(EMPTY, Blocking(role, k, e, now));
    assert RolesOf(t.roles, k.team) == {role};
    assert [BlockedModel(k.model, e)][0] == BlockedModel(k.model, e);
    TaggedDenies(t, late, k.team, [BlockedModel(k.model, e)], {}, Deny(late, e, k.model));
    assert FirstFailure([BlockedModel(k.model, e)], {}) == 1;
  }
}
