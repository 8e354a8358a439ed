/**
 Quota enforcement on values: the tables, and what one trigger does to them.

 A trigger asks the role index for the roles of a team and makes one (retried) IAM call for each. What the
 world answers is a `Visit`: the listing, and the roles whose call still fails when the retries are spent.
 A failed call leaves the role's policies as they were. Removing a policy that is absent succeeds.
 */
module Enforcement {
  import opened Domain
  import opened Sequences

  datatype Key = Key(team: Team, model: Model)

  datatype Status = BLOCKED | PENDING_RESET

  /** The value of the index attribute `statusDay`, which the daily reset queries. */
  datatype StatusDay = StatusDay(status: Status, day: Day)

  datatype Row = Row(status: Status, day: Day, statusDay: StatusDay, endpoint: Endpoint)

  /** An inline deny policy attached to a role; its name is determined by endpoint and model. */
  datatype Deny = Deny(role: Role, endpoint: Endpoint, model: Model)

  datatype AuditEntry = AuditEntry(key: Key, role: Role, action: Action, total: int, quota: Option<int>, at: int)

  /** A message on the notification channel. */
  datatype Event = BlockedEvent(key: Key) | RestoredEvent(key: Key)

  datatype Tables = Tables(
    quotas: map<Key, int>,
    rows: map<Key, Row>,
    roles: map<Role, Team>,
    denies: set<Deny>,
    audit: seq<AuditEntry>,
    events: seq<Event>)

  /** A running total of one team and model on one day, as a stream record carries it. */
  datatype Usage = Usage(key: Key, day: Day, total: int, endpoint: Endpoint)

  datatype Visit = Visit(roles: seq<Role>, failing: set<Role>)

  /** What the daily reset remembers of a row it found. */
  datatype Pair = Pair(key: Key, day: Day, endpoint: Endpoint)

  datatype BlockedModel = BlockedModel(model: Model, endpoint: Endpoint)

  // ---------- reading the tables ----------

  function RolesOf(roles: map<Role, Team>, team: Team): set<Role> {
    set r | r in roles && roles[r] == team
  }

  /** The visit follows an answer of the role index for `team`, in any order. */
  ghost predicate Lists(v: Visit, roles: map<Role, Team>, team: Team) {
    forall r :: r in v.roles <==> r in RolesOf(roles, team)
  }

  /** `pairs` is an answer of the status-day index: each matching row once, in any order. */
  ghost predicate Queried(pairs: seq<Pair>, rows: map<Key, Row>, statusDay: StatusDay) {
    && (forall i, j :: 0 <= i < j < |pairs| ==> pairs[i].key != pairs[j].key)
    && (forall i :: 0 <= i < |pairs| ==>
          && pairs[i].key in rows
          && rows[pairs[i].key].statusDay == statusDay
          && pairs[i] == PairOf(rows, pairs[i].key))
    && (forall k :: k in rows && rows[k].statusDay == statusDay ==> PairOf(rows, k) in pairs)
  }

  function PairOf(rows: map<Key, Row>, key: Key): Pair
    requires key in rows
  {
    Pair(key, rows[key].day, rows[key].endpoint)
  }

  /** The row of `key` says BLOCKED, under the deny policy of `endpoint`. */
  predicate IsBlocked(rows: map<Key, Row>, key: Key, endpoint: Endpoint) {
    key in rows && rows[key].status == BLOCKED && rows[key].endpoint == endpoint
  }

  /** `models` is an answer of the team's partition: its BLOCKED models, in any order. */
  ghost predicate ListsBlocked(models: seq<BlockedModel>, rows: map<Key, Row>, team: Team) {
    forall b :: b in models <==> IsBlocked(rows, Key(team, b.model), b.endpoint)
  }

  /** The keys of an answer of the status-day index. */
  ghost predicate AnswersStatusDay(keys: seq<Key>, rows: map<Key, Row>, statusDay: StatusDay) {
    Distinct(keys) && forall k :: k in keys <==> k in rows && rows[k].statusDay == statusDay
  }

  /** The keys of an answer of the team's partition. */
  ghost predicate AnswersPartition(keys: seq<Key>, rows: map<Key, Row>, team: Team) {
    Distinct(keys) && forall k :: k in keys <==> k in rows && k.team == team
  }

  function PairsAt(rows: map<Key, Row>, keys: seq<Key>): seq<Pair>
    requires forall k :: k in keys ==> k in rows
  {
    seq(|keys|, i requires 0 <= i < |keys| => PairOf(rows, keys[i]))
  }

  lemma PairsAreQueried(rows: map<Key, Row>, keys: seq<Key>, statusDay: StatusDay)
    requires AnswersStatusDay(keys, rows, statusDay)
    ensures Queried(PairsAt(rows, keys), rows, statusDay)
  {
    var pairs := PairsAt(rows, keys);
    forall i | 0 <= i < |pairs| ensures pairs[i].key == keys[i] && keys[i] in keys { }
    forall k | k in rows && rows[k].statusDay == statusDay ensures PairOf(rows, k) in pairs {
      var i :| 0 <= i < |keys| && keys[i] == k;
      assert pairs[i] == PairOf(rows, k);
    }
  }

  /** The BLOCKED ones of these rows, in order. */
  function BlockedAt(rows: map<Key, Row>, keys: seq<Key>): seq<BlockedModel>
    requires forall k :: k in keys ==> k in rows
  {
    if keys == [] then []
    else
      var before, last := BlockedAt(rows, keys[..|keys| - 1]), keys[|keys| - 1];
      if rows[last].status == BLOCKED then before + [BlockedModel(last.model, rows[last].endpoint)] else before
  }

  lemma {:induction false} BlockedAtHas(rows: map<Key, Row>, keys: seq<Key>, b: BlockedModel)
    requires forall k :: k in keys ==> k in rows
    ensures b in BlockedAt(rows, keys) <==>
              exists k :: k in keys && k.model == b.model && IsBlocked(rows, k, b.endpoint)
  {
    if keys == [] {
    } else {
      BlockedAtHas(rows, keys[..|keys| - 1], b);
      assert keys == keys[..|keys| - 1] + [keys[|keys| - 1]];
    }
  }

  lemma PartitionListsBlocked(rows: map<Key, Row>, keys: seq<Key>, team: Team)
    requires AnswersPartition(keys, rows, team)
    ensures ListsBlocked(BlockedAt(rows, keys), rows, team)
  {
    forall b ensures b in BlockedAt(rows, keys) <==> IsBlocked(rows, Key(team, b.model), b.endpoint) {
      BlockedAtHas(rows, keys, b);
      if IsBlocked(rows, Key(team, b.model), b.endpoint) {
        assert Key(team, b.model) in keys;
      }
    }
  }

  // ---------- the effect of a visit ----------

  predicate AnyFailed(v: Visit) {
    exists r :: r in v.roles && r in v.failing
  }

  /** The deny policies that the successful calls were about. */
  function Reached(v: Visit, endpoint: Endpoint, model: Model): set<Deny> {
    set r | r in v.roles && r !in v.failing :: Deny(r, endpoint, model)
  }

  /** One audit entry for each role visited. */
  function CallLog(key: Key, v: Visit, done: Action, failed: Action, total: int, quota: Option<int>,
      at: int): seq<AuditEntry> {
    seq(|v.roles|, i requires 0 <= i < |v.roles| =>
      AuditEntry(key, v.roles[i], if v.roles[i] in v.failing then failed else done, total, quota, at))
  }

  // ---------- the triggers ----------

  function QuotaOf(t: Tables, key: Key): Option<int> {
    if key in t.quotas then Some(t.quotas[key]) else None
  }

  /** No quota, a zero quota, or a total below the quota. */
  predicate Unrestricted(t: Tables, u: Usage) {
    match QuotaOf(t, u.key)
    case None => true
    case Some(quota) => quota == 0 || u.total < quota
  }

  function BlockedRow(day: Day, endpoint: Endpoint): Row {
    Row(BLOCKED, day, StatusDay(BLOCKED, day), endpoint)
  }

  function PendingRow(day: Day, endpoint: Endpoint): Row {
    Row(PENDING_RESET, day, StatusDay(PENDING_RESET, day), endpoint)
  }

  function Breach(t: Tables, u: Usage, v: Visit, now: int): Tables {
    t.(denies := t.denies + Reached(v, u.endpoint, u.key.model),
       audit := t.audit + CallLog(u.key, v, ATTACH_DENY, ATTACH_DENY_FAILED, u.total, QuotaOf(t, u.key), now),
       rows := t.rows[u.key := BlockedRow(u.day, u.endpoint)],
       events := t.events + [BlockedEvent(u.key)])
  }

  function ConfigChangeRemoval(t: Tables, u: Usage, v: Visit, now: int): Tables {
    if u.key !in t.rows || t.rows[u.key].status != BLOCKED then t
    else
      var visited := t.(
        denies := t.denies - Reached(v, u.endpoint, u.key.model),
        audit := t.audit + CallLog(u.key, v, REMOVE_DENY, REMOVE_DENY_FAILED, u.total, QuotaOf(t, u.key), now));
      if AnyFailed(v) then visited
      else visited.(rows := t.rows - {u.key}, events := t.events + [RestoredEvent(u.key)])
  }

  /** One change of a running total. */
  function Evaluate(t: Tables, u: Usage, v: Visit, now: int): Tables {
    if Unrestricted(t, u) then ConfigChangeRemoval(t, u, v, now)
    else if u.key in t.rows then t
    else Breach(t, u, v, now)
  }

  /** The config-change path is taken on a BLOCKED row. */
  predicate Removes(t: Tables, u: Usage) {
    Unrestricted(t, u) && u.key in t.rows && t.rows[u.key].status == BLOCKED
  }

  predicate Breaches(t: Tables, u: Usage) {
    !Unrestricted(t, u) && u.key !in t.rows
  }

  /**
   Where an invocation dies in the handling of a usage change: after some IAM calls, of which the last may not have
   been logged, or after the write of the row and before the notification.
   */
  datatype Cut = Cut(calls: nat, logged: nat, rowWritten: bool)

  predicate CutFits(v: Visit, cut: Cut) {
    && cut.logged <= cut.calls <= cut.logged + 1 && cut.calls <= |v.roles|
    && (cut.rowWritten ==> cut.logged == |v.roles|)
  }

  /** The visit as far as its first `n` roles. */
  function FirstRoles(v: Visit, n: nat): Visit {
    if n <= |v.roles| then v.(roles := v.roles[..n]) else v
  }

  /** What a usage change leaves that is cut off. */
  function Interrupted(t: Tables, u: Usage, v: Visit, now: int, cut: Cut): Tables {
    var called, logged := FirstRoles(v, cut.calls), FirstRoles(v, cut.logged);
    if cut.rowWritten then
      Evaluate(t, u, v, now).(events := t.events)
    else if Breaches(t, u) then
      t.(denies := t.denies + Reached(called, u.endpoint, u.key.model),
         audit := t.audit + CallLog(u.key, logged, ATTACH_DENY, ATTACH_DENY_FAILED, u.total, QuotaOf(t, u.key), now))
    else if Removes(t, u) then
      t.(denies := t.denies - Reached(called, u.endpoint, u.key.model),
         audit := t.audit + CallLog(u.key, logged, REMOVE_DENY, REMOVE_DENY_FAILED, u.total, QuotaOf(t, u.key), now))
    else t
  }

  /** Lifting the block of one pair, by the daily reset or by hand. */
  function ResetPair(t: Tables, pair: Pair, v: Visit, now: int): Tables {
    var visited := t.(
      denies := t.denies - Reached(v, pair.endpoint, pair.key.model),
      audit := t.audit + CallLog(pair.key, v, REMOVE_DENY, REMOVE_DENY_FAILED, 0, None, now));
    if AnyFailed(v)
    then visited.(rows := t.rows[pair.key := PendingRow(pair.day, pair.endpoint)])
    else visited.(rows := t.rows - {pair.key}, events := t.events + [RestoredEvent(pair.key)])
  }

  /** What the lifting of a block leaves that is cut off. */
  function InterruptedPair(t: Tables, pair: Pair, v: Visit, now: int, cut: Cut): Tables {
    if cut.rowWritten then
      ResetPair(t, pair, v, now).(events := t.events)
    else
      t.(denies := t.denies - Reached(FirstRoles(v, cut.calls), pair.endpoint, pair.key.model),
         audit := t.audit + CallLog(pair.key, FirstRoles(v, cut.logged), REMOVE_DENY, REMOVE_DENY_FAILED, 0, None, now))
  }

  function ResetAll(t: Tables, pairs: seq<Pair>, visits: Key -> Visit, now: int): Tables {
    if pairs == [] then t
    else
      var last := pairs[|pairs| - 1];
      ResetPair(ResetAll(t, pairs[..|pairs| - 1], visits, now), last, visits(last.key), now)
  }

  /** The pair a manual removal works on: the row's own day and endpoint when there is a row. */
  function ManualPair(t: Tables, key: Key, now: int): Pair {
    if key in t.rows then PairOf(t.rows, key) else Pair(key, UsageDay(now), BedrockRuntime)
  }

  /** How many of the team's blocked models are attached before the first call that fails. */
  function FirstFailure(models: seq<BlockedModel>, failing: set<BlockedModel>): (n: nat)
    ensures n <= |models|
    ensures forall i :: 0 <= i < n ==> models[i] !in failing
    ensures n < |models| ==> models[n] in failing
  {
    if models == [] || models[0] in failing then 0 else 1 + FirstFailure(models[1..], failing)
  }

  /** The policies attached before the first call that fails. */
  function Attached(role: Role, models: seq<BlockedModel>, failing: set<BlockedModel>): set<Deny> {
    set b | b in models[..FirstFailure(models, failing)] :: Deny(role, b.endpoint, b.model)
  }

  /** Tagging a role: the mapping is written first, then the policies, until a call fails. */
  function TagRole(t: Tables, role: Role, team: Team, models: seq<BlockedModel>, failing: set<BlockedModel>): Tables {
    t.(roles := t.roles[role := team], denies := t.denies + Attached(role, models, failing))
  }

  /** A row of the role index written, or lost, without any IAM call. */
  function Remap(t: Tables, role: Role, team: Option<Team>): Tables {
    t.(roles := match team case Some(name) => t.roles[role := name] case None => t.roles - {role})
  }

  function QuotaChange(t: Tables, key: Key, quota: Option<int>): Tables {
    match quota
    case Some(q) => t.(quotas := t.quotas[key := q])
    case None => t.(quotas := t.quotas - {key})
  }

  // ---------- what a trigger decides, and what it tells ----------

  /** Without a row, the pair is blocked exactly when it has a quota, which is not 0, and the total has reached it. */
  lemma BlocksAtTheQuota(t: Tables, u: Usage, v: Visit, now: int)
    requires u.key !in t.rows
    ensures var rows := Evaluate(t, u, v, now).rows;
      && (u.key in rows <==> u.key in t.quotas && t.quotas[u.key] != 0 && t.quotas[u.key] <= u.total)
      && (u.key in rows ==> rows[u.key] == Row(BLOCKED, u.day, StatusDay(BLOCKED, u.day), u.endpoint))
      && forall k :: k != u.key ==> (k in rows <==> k in t.rows) && (k in rows ==> rows[k] == t.rows[k])
  {
  }

  /**
   A BLOCKED row goes exactly when the pair has no quota, or a quota of 0, or the total is below it, and no call
   fails. A row that is PENDING_RESET stays, and no other row changes.
   */
  lemma LiftsBelowTheQuota(t: Tables, u: Usage, v: Visit, now: int)
    requires u.key in t.rows
    ensures var rows := Evaluate(t, u, v, now).rows;
      && (u.key !in rows <==>
            && t.rows[u.key].status == BLOCKED
            && (u.key !in t.quotas || t.quotas[u.key] == 0 || u.total < t.quotas[u.key])
            && forall r :: r in v.roles ==> r !in v.failing)
      && (u.key in rows ==> rows == t.rows)
      && forall k :: k != u.key ==> (k in rows <==> k in t.rows) && (k in rows ==> rows[k] == t.rows[k])
  {
  }

  /** The new entries of the log: one for each role, in the order of the visit. */
  ghost predicate Logs(before: seq<AuditEntry>, after: seq<AuditEntry>, v: Visit, key: Key, done: Action,
      failed: Action,
      total: int, quota: Option<int>, now: int)
  {
    && |after| == |before| + |v.roles| && after[..|before|] == before
    && forall i :: 0 <= i < |v.roles| ==>
         after[|before| + i] == AuditEntry(key, v.roles[i], if v.roles[i] in v.failing then failed
             else done, total, quota, now)
  }

  /** A block attaches its policy to the roles whose call succeeds, logs total and quota, and is announced. */
  lemma BlockIsTold(t: Tables, u: Usage, v: Visit, now: int)
    requires u.key !in t.rows && u.key in t.quotas && t.quotas[u.key] != 0 && t.quotas[u.key] <= u.total
    ensures var t' := Evaluate(t, u, v, now);
      && t'.events == t.events + [BlockedEvent(u.key)]
      && Logs(t.audit, t'.audit, v, u.key, ATTACH_DENY, ATTACH_DENY_FAILED, u.total, Some(t.quotas[u.key]), now)
      && forall d :: d in t'.denies <==>
           || d in t.denies
           || (d.role in v.roles && d.role !in v.failing && d.endpoint == u.endpoint && d.model == u.key.model)
  {
  }

  /**
   A removal takes its policy from the roles whose call succeeds, logs total and quota, and is announced unless
   one fails.
   */
  lemma RemovalIsTold(t: Tables, u: Usage, v: Visit, now: int)
    requires u.key in t.rows && t.rows[u.key].status == BLOCKED
    requires u.key !in t.quotas || t.quotas[u.key] == 0 || u.total < t.quotas[u.key]
    ensures var t' := Evaluate(t, u, v, now);
            var quota := if u.key in t.quotas then Some(t.quotas[u.key]) else None;
      && t'.events == t.events + (if exists r :: r in v.roles && r in v.failing then [] else [RestoredEvent(u.key)])
      && Logs(t.audit, t'.audit, v, u.key, REMOVE_DENY, REMOVE_DENY_FAILED, u.total, quota, now)
      && forall d :: d in t'.denies <==>
           && d in t.denies
           && !(d.role in v.roles && d.role !in v.failing && d.endpoint == u.endpoint && d.model == u.key.model)
  {
  }

  /** A change that meets neither condition does nothing. */
  lemma OtherwiseNothing(t: Tables, u: Usage, v: Visit, now: int)
    requires var reached := u.key in t.quotas && t.quotas[u.key] != 0 && t.quotas[u.key] <= u.total;
      if reached then u.key in t.rows else u.key in t.rows ==> t.rows[u.key].status == PENDING_RESET
    ensures Evaluate(t, u, v, now) == t
  {
  }

  /**
   An override works on the row's day and endpoint, or on the current day and the runtime endpoint; a failing call
   leaves the row PENDING_RESET, and otherwise it goes and this is announced.
   */
  lemma OverrideIsTold(t: Tables, key: Key, v: Visit, now: int, today: Day)
    requires OnDay(now, today)
    ensures var t' := ResetPair(t, ManualPair(t, key, now), v, now);
            var (day, endpoint) :=
              if key in t.rows then (t.rows[key].day, t.rows[key].endpoint) else (today, BedrockRuntime);
            var fails := exists r :: r in v.roles && r in v.failing;
      && t'.rows == (if fails then t.rows[key := Row(PENDING_RESET, day, StatusDay(PENDING_RESET, day), endpoint)]
                     else t.rows - {key})
      && t'.events == t.events + (if fails then [] else [RestoredEvent(key)])
      && Logs(t.audit, t'.audit, v, key, REMOVE_DENY, REMOVE_DENY_FAILED, 0, None, now)
      && forall d :: d in t'.denies <==>
           && d in t.denies
           && !(d.role in v.roles && d.role !in v.failing && d.endpoint == endpoint && d.model == key.model)
  {
    DaysOfInstant(now, today);
  }

  // ---------- stream batches ----------

  datatype EventName = INSERT | MODIFY | REMOVE

  /** A stream record; the image is absent, malformed, or a running total. */
  datatype Image = NoImage | Malformed | Image(usage: Usage)
  datatype StreamRecord = StreamRecord(name: EventName, image: Image)

  /** The enforcer looks at inserted or modified running totals of the current day only. */
  predicate Relevant(r: StreamRecord, today: Day) {
    r.name != REMOVE && r.image.Image? && r.image.usage.day == today
  }

  /** A whole batch, record after record; the i-th record meets the i-th visit. */
  function HandleBatch(t: Tables, records: seq<StreamRecord>, visits: nat -> Visit, now: int): Tables {
    if records == [] then t
    else
      var n := |records| - 1;
      var before := HandleBatch(t, records[..n], visits, now);
      if Relevant(records[n], UsageDay(now)) then Evaluate(before, records[n].image.usage, visits(n), now) else before
  }

  /** The records that are looked at: new or changed running totals of today. */
  lemma LooksAtToday(r: StreamRecord, now: int, today: Day)
    requires OnDay(now, today)
    ensures Relevant(r, UsageDay(now)) <==>
            (r.name == INSERT || r.name == MODIFY) && r.image.Image? && r.image.usage.day == today
  {
    DaysOfInstant(now, today);
  }

  /**
   One record more: deletions, records without a running total, and records of any other day than today are
   skipped.
   */
  lemma BatchNext(t: Tables, records: seq<StreamRecord>, r: StreamRecord, visits: nat -> Visit, now: int, today: Day)
    requires OnDay(now, today)
    ensures HandleBatch(t, [], visits, now) == t
    ensures var (before, after) :=
              (HandleBatch(t, records, visits, now), HandleBatch(t, records + [r], visits, now));
            if (r.name == INSERT || r.name == MODIFY) && r.image.Image? && r.image.usage.day == today
            then after == Evaluate(before, r.image.usage, visits(|records|), now)
            else after == before
  {
    LooksAtToday(r, now, today);
    assert (records + [r])[..|records|] == records;
  }
}
