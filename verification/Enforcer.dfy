/** The enforcement components as they run: tables updated in place, role by role and row by row. */
module Enforcer {
  import opened Domain
  import opened Enforcement
  import opened Sequences
  import opened DailyReset

  class Enforcer {
    var quotas: map<Key, int>
    var rows: map<Key, Row>
    var roles: map<Role, Team>
    var denies: set<Deny>
    var audit: seq<AuditEntry>
    var events: seq<Event>

    ghost function State(): Tables
      reads this
    {
      Tables(quotas, rows, roles, denies, audit, events)
    }

    constructor ()
      ensures State() == Tables(map[], map[], map[], {}, [], [])
    {
      quotas, rows, roles, denies, audit, events := map[], map[], map[], {}, [], [];
    }

    /** One retried IAM call that attaches a deny policy. */
    method AttachDenyPolicy(role: Role, model: Model, endpoint: Endpoint, fails: bool) returns (ok: bool)
      modifies this`denies
      ensures ok == !fails
      ensures denies == if ok then old(denies) + {Deny(role, endpoint, model)} else old(denies)
    {
      if fails {
        return false;
      }
      denies := denies + {Deny(role, endpoint, model)};
      ok := true;
    }

    /** One retried IAM call that removes a deny policy; an absent policy counts as removed. */
    method DeleteDenyPolicy(role: Role, model: Model, endpoint: Endpoint, fails: bool) returns (ok: bool)
      modifies this`denies
      ensures ok == !fails
      ensures denies == if ok then old(denies) - {Deny(role, endpoint, model)} else old(denies)
    {
      if fails {
        return false;
      }
      denies := denies - {Deny(role, endpoint, model)};
      ok := true;
    }

    method EvaluateUsageAggregationChange(u: Usage, v: Visit, now: int)
      modifies this
      ensures State() == Evaluate(old(State()), u, v, now)
      ensures u.key !in old(rows) ==>
                (u.key in rows <==> u.key in quotas && quotas[u.key] != 0 && quotas[u.key] <= u.total)
      ensures u.key in old(rows) && old(rows)[u.key].status == BLOCKED &&
                (forall r :: r in v.roles ==> r !in v.failing) ==>
                (u.key !in rows <==> u.key !in quotas || quotas[u.key] == 0 || u.total < quotas[u.key])
    {
      var quota := if u.key in quotas then Some(quotas[u.key]) else None;
      if quota.None? || quota.value == 0 || u.total < quota.value {
        RemoveDenyForConfigChange(u, quota, v, now);
        return;
      }
      if u.key in rows {
        return;
      }
      VisitForAttach(u, v, quota, now);
      rows := rows[u.key := BlockedRow(u.day, u.endpoint)];
      events := events + [BlockedEvent(u.key)];
    }

    /** The attach loop of a breach. */
    method VisitForAttach(u: Usage, v: Visit, quota: Option<int>, now: int)
      modifies this`denies, this`audit
      ensures denies == old(denies) + Reached(v, u.endpoint, u.key.model)
      ensures audit == old(audit) + CallLog(u.key, v, ATTACH_DENY, ATTACH_DENY_FAILED, u.total, quota, now)
    {
      for i := 0 to |v.roles|
        invariant denies == old(denies) + Reached(v.(roles := v.roles[..i]), u.endpoint, u.key.model)
        invariant audit == old(audit) + CallLog(u.key, v.(roles := v.roles[..i]), ATTACH_DENY, ATTACH_DENY_FAILED,
                    u.total, quota, now)
      {
        var role := v.roles[i];
        assert v.roles[..i + 1] == v.roles[..i] + [role];
        var ok := AttachDenyPolicy(role, u.key.model, u.endpoint, role in v.failing);
        audit := audit + [AuditEntry(u.key, role, if ok then ATTACH_DENY else ATTACH_DENY_FAILED, u.total, quota, now)];
      }
      assert v.roles[..|v.roles|] == v.roles;
    }

    method RemoveDenyForConfigChange(u: Usage, quota: Option<int>, v: Visit, now: int)
      requires quota == QuotaOf(State(), u.key)
      modifies this
      ensures State() == ConfigChangeRemoval(old(State()), u, v, now)
    {
      if u.key !in rows || rows[u.key].status != BLOCKED {
        return;
      }
      var anyFailure := VisitForRemoval(u.key, u.endpoint, v, u.total, quota, now);
      if anyFailure {
        return;
      }
      rows := rows - {u.key};
      events := events + [RestoredEvent(u.key)];
    }

    /** The removal loop that the config-change path and the reset have in common. */
    method VisitForRemoval(key: Key, endpoint: Endpoint, v: Visit, total: int, quota: Option<int>, now: int)
      returns (anyFailure: bool)
      modifies this`denies, this`audit
      ensures anyFailure == AnyFailed(v)
      ensures denies == old(denies) - Reached(v, endpoint, key.model)
      ensures audit == old(audit) + CallLog(key, v, REMOVE_DENY, REMOVE_DENY_FAILED, total, quota, now)
    {
      anyFailure := false;
      for i := 0 to |v.roles|
        invariant anyFailure == AnyFailed(v.(roles := v.roles[..i]))
        invariant denies == old(denies) - Reached(v.(roles := v.roles[..i]), endpoint, key.model)
        invariant audit == old(audit) + CallLog(key, v.(roles := v.roles[..i]), REMOVE_DENY, REMOVE_DENY_FAILED, total,
                    quota, now)
      {
        var role := v.roles[i];
        assert v.roles[..i + 1] == v.roles[..i] + [role];
        var ok := DeleteDenyPolicy(role, key.model, endpoint, role in v.failing);
        if !ok {
          anyFailure := true;
        }
        audit := audit + [AuditEntry(key, role, if ok then REMOVE_DENY else REMOVE_DENY_FAILED, total, quota, now)];
      }
      assert v.roles[..|v.roles|] == v.roles;
    }

    method HandleUsageAggregationStreamEvent(records: seq<StreamRecord>, visits: nat -> Visit, now: int)
      modifies this
      ensures State() == HandleBatch(old(State()), records, visits, now)
    {
      var today := UsageDay(now);
      for i := 0 to |records|
        invariant State() == HandleBatch(old(State()), records[..i], visits, now)
      {
        assert records[..i + 1][..i] == records[..i];
        var record := records[i];
        if record.name == REMOVE || !record.image.Image? || record.image.usage.day != today {
          continue;
        }
        EvaluateUsageAggregationChange(record.image.usage, visits(i), now);
      }
      assert records[..|records|] == records;
    }

    method ResetBlockedStatePair(pair: Pair, v: Visit, now: int)
      modifies this
      ensures State() == ResetPair(old(State()), pair, v, now)
    {
      var anyRoleFailed := VisitForRemoval(pair.key, pair.endpoint, v, 0, None, now);
      if anyRoleFailed {
        rows := rows[pair.key := PendingRow(pair.day, pair.endpoint)];
        return;
      }
      rows := rows - {pair.key};
      events := events + [RestoredEvent(pair.key)];
    }

    /** Follows the pages of the status-day index until there is no further key to start from. */
    method QueryPairsByStatusDay(statusDay: StatusDay, pages: seq<seq<Key>>) returns (pairs: seq<Pair>)
      requires AnswersStatusDay(Flatten(pages), rows, statusDay)
      ensures pairs == PairsAt(rows, Flatten(pages)) && Queried(pairs, rows, statusDay)
    {
      PairsAreQueried(rows, Flatten(pages), statusDay);
      pairs := [];
      for p := 0 to |pages|
        invariant forall k :: k in Flatten(pages[..p]) ==> k in rows
        invariant pairs == PairsAt(rows, Flatten(pages[..p]))
      {
        PageIsFlattened(pages, p);
        FlattenNext(pages, p);
        pairs := PushPairs(pairs, Flatten(pages[..p]), pages[p]);
      }
      FlattenAll(pages);
    }

    /** The items of one page. */
    method PushPairs(before: seq<Pair>, ghost done: seq<Key>, page: seq<Key>) returns (pairs: seq<Pair>)
      requires forall k :: k in done + page ==> k in rows
      requires before == PairsAt(rows, done)
      ensures pairs == PairsAt(rows, done + page)
    {
      pairs := before;
      for i := 0 to |page|
        invariant pairs == PairsAt(rows, done) + PairsAt(rows, page[..i])
      {
        assert page[..i + 1] == page[..i] + [page[i]];
        assert page[i] in done + page;
        pairs := pairs + [PairOf(rows, page[i])];
      }
      assert page[..|page|] == page;
    }

    /** The scheduled reset: both index queries first, then one pair after the other. */
    method RunDailyReset(blockedPages: seq<seq<Key>>, pendingPages: seq<seq<Key>>, visits: Key -> Visit, now: int)
      requires AnswersStatusDay(Flatten(blockedPages), rows, StatusDay(BLOCKED, PreviousUsageDay(now)))
      requires AnswersStatusDay(Flatten(pendingPages), rows, StatusDay(PENDING_RESET, PreviousUsageDay(now)))
      modifies this
      ensures var r := old(Reset(now, PairsAt(rows, Flatten(blockedPages)), PairsAt(rows, Flatten(pendingPages)),
                visits));
              State() == After(old(State()), r)
      ensures old(WellFormed(rows)) && (forall k :: Lists(visits(k), old(roles), k.team)) ==>
                forall today :: OnDay(now, today) ==> ResetsDay(old(State()), State(), visits, today - 1)
    {
      var blockedPairs := QueryPairsByStatusDay(StatusDay(BLOCKED, PreviousUsageDay(now)), blockedPages);
      var pendingPairs := QueryPairsByStatusDay(StatusDay(PENDING_RESET, PreviousUsageDay(now)), pendingPages);
      ghost var before, r := State(), Reset(now, blockedPairs, pendingPairs, visits);
      ResetPairs(blockedPairs + pendingPairs, visits, now);
      if WellFormed(before.rows) && forall k :: Lists(visits(k), before.roles, k.team) {
        forall today | OnDay(now, today) ensures ResetsDay(before, State(), visits, today - 1) {
          ResetsTheDayBefore(before, r, today);
        }
      }
    }

    method ResetPairs(pairs: seq<Pair>, visits: Key -> Visit, now: int)
      modifies this
      ensures State() == ResetAll(old(State()), pairs, visits, now)
    {
      for i := 0 to |pairs|
        invariant State() == ResetAll(old(State()), pairs[..i], visits, now)
      {
        assert pairs[..i + 1][..i] == pairs[..i];
        ResetBlockedStatePair(pairs[i], visits(pairs[i].key), now);
      }
      assert pairs[..|pairs|] == pairs;
    }

    /** The administrator's override. */
    method RemoveDenyPolicy(key: Key, v: Visit, now: int)
      modifies this
      ensures State() == ResetPair(old(State()), ManualPair(old(State()), key, now), v, now)
    {
      var day, endpoint := UsageDay(now), BedrockRuntime;
      if key in rows {
        day, endpoint := rows[key].day, rows[key].endpoint;
      }
      ResetBlockedStatePair(Pair(key, day, endpoint), v, now);
    }

    /** Follows the pages of the team's partition and keeps the BLOCKED rows. */
    method ListBlockedModelsForTeam(team: Team, pages: seq<seq<Key>>) returns (models: seq<BlockedModel>)
      requires AnswersPartition(Flatten(pages), rows, team)
      ensures models == BlockedAt(rows, Flatten(pages)) && ListsBlocked(models, rows, team)
    {
      PartitionListsBlocked(rows, Flatten(pages), team);
      models := [];
      for p := 0 to |pages|
        invariant forall k :: k in Flatten(pages[..p]) ==> k in rows
        invariant models == BlockedAt(rows, Flatten(pages[..p]))
      {
        PageIsFlattened(pages, p);
        FlattenNext(pages, p);
        models := PushBlocked(models, Flatten(pages[..p]), pages[p]);
      }
      FlattenAll(pages);
    }

    /** The items of one page. */
    method PushBlocked(before: seq<BlockedModel>, ghost done: seq<Key>, page: seq<Key>)
      returns (models: seq<BlockedModel>)
      requires forall k :: k in done + page ==> k in rows
      requires before == BlockedAt(rows, done)
      ensures models == BlockedAt(rows, done + page)
    {
      models := before;
      assert done + page[..0] == done;
      for i := 0 to |page|
        invariant forall k :: k in done + page[..i] ==> k in rows
        invariant models == BlockedAt(rows, done + page[..i])
      {
        var key, longer := page[i], done + page[..i + 1];
        assert longer[..|longer| - 1] == done + page[..i] && longer[|longer| - 1] == key;
        assert key in done + page;
        if rows[key].status == BLOCKED {
          models := models + [BlockedModel(key.model, rows[key].endpoint)];
        }
      }
      assert page[..|page|] == page;
    }

    /**
     Only a tagging event whose tags name a team has an effect. The partition is read after the mapping is
     written.
     */
    method HandleTagRoleEvent(isTagRole: bool, role: Role, tag: Option<Team>, pages: seq<seq<Key>>,
        failing: set<BlockedModel>)
      returns (ok: bool)
      requires isTagRole && tag.Some? ==> AnswersPartition(Flatten(pages), rows, tag.value)
      modifies this
      ensures State() ==
              if isTagRole && tag.Some?
              then TagRole(old(State()), role, tag.value, old(BlockedAt(rows, Flatten(pages))), failing)
              else old(State())
      ensures isTagRole && tag.Some? ==>
                (ok <==> forall b :: b in failing ==> !IsBlocked(old(rows), Key(tag.value, b.model), b.endpoint))
      ensures !isTagRole || tag.None? ==> ok
    {
      if !isTagRole || tag.None? {
        return true;
      }
      roles := roles[role := tag.value];
      var models := ListBlockedModelsForTeam(tag.value, pages);
      ok := AttachAll(role, models, failing);
    }

    /** The result is false when an attach call fails, which ends the handler with an error. */
    method AttachAll(role: Role, models: seq<BlockedModel>, failing: set<BlockedModel>) returns (ok: bool)
      modifies this`denies
      ensures denies == old(denies) + Attached(role, models, failing)
      ensures ok == (forall b :: b in models ==> b !in failing)
    {
      ok := true;
      var i := 0;
      while i < |models|
        invariant 0 <= i <= FirstFailure(models, failing)
        invariant denies == old(denies) + set b | b in models[..i] :: Deny(role, b.endpoint, b.model)
      {
        assert models[..i + 1] == models[..i] + [models[i]];
        ok := AttachDenyPolicy(role, models[i].model, models[i].endpoint, models[i] in failing);
        if !ok {
          return;
        }
        i := i + 1;
      }
    }
  }
}
