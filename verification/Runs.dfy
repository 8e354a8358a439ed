/** Runs of the enforcement tables under any interleaving of triggers, and what they keep. */
module Runs {
  import opened Domain
  import opened Enforcement
  import opened DailyReset

  datatype Step =
    | UsageChange(u: Usage, v: Visit, now: int)
    /** A usage change whose invocation dies on the way. */
    | UsageCut(u: Usage, v: Visit, now: int, cut: Cut)
    | MidnightReset(reset: Reset)
    | ManualRemoval(key: Key, v: Visit, now: int)
    | ManualCut(key: Key, v: Visit, now: int, cut: Cut)
    | QuotaEdit(key: Key, quota: Option<int>)
    | RoleTagged(role: Role, team: Team, models: seq<BlockedModel>, failing: set<BlockedModel>)
    /** A cache row written, deleted or expired, as team resolution, the admin mapping and the sweep do. */
    | MappingChange(role: Role, mapping: Option<Team>)

  function Apply(t: Tables, step: Step): Tables {
    match step
    case UsageChange(u, v, now) => Evaluate(t, u, v, now)
    case UsageCut(u, v, now, cut) => Interrupted(t, u, v, now, cut)
    case MidnightReset(reset) => After(t, reset)
    case ManualRemoval(key, v, now) => ResetPair(t, ManualPair(t, key, now), v, now)
    case ManualCut(key, v, now, cut) => InterruptedPair(t, ManualPair(t, key, now), v, now, cut)
    case QuotaEdit(key, quota) => QuotaChange(t, key, quota)
    case RoleTagged(role, team, models, failing) => TagRole(t, role, team, models, failing)
    case MappingChange(role, mapping) => Remap(t, role, mapping)
  }

  function Run(t: Tables, steps: seq<Step>): Tables
    decreases |steps|
  {
    if steps == [] then t else Run(Apply(t, steps[0]), steps[1..])
  }

  /** Every query of the step is answered from the tables as they are. */
  ghost predicate Answered(t: Tables, step: Step) {
    match step
    case UsageChange(u, v, now) => Lists(v, t.roles, u.key.team)
    case UsageCut(u, v, now, cut) => Lists(v, t.roles, u.key.team) && CutFits(v, cut)
    case MidnightReset(reset) => Answers(t, reset)
    case ManualRemoval(key, v, now) => Lists(v, t.roles, key.team)
    case ManualCut(key, v, now, cut) => Lists(v, t.roles, key.team) && CutFits(v, cut)
    case QuotaEdit(_, _) => true
    case RoleTagged(role, team, models, failing) => ListsBlocked(models, t.rows, team)
    case MappingChange(_, _) => true
  }

  ghost predicate AnsweredRun(t: Tables, steps: seq<Step>)
    decreases |steps|
  {
    steps != [] ==> Answered(t, steps[0]) && AnsweredRun(Apply(t, steps[0]), steps[1..])
  }

  lemma StepKeepsWellFormed(t: Tables, step: Step)
    requires WellFormed(t.rows) && Answered(t, step)
    ensures WellFormed(Apply(t, step).rows)
  {
    if step.MidnightReset? {
      TouchesExactlyTheDueRows(t, step.reset);
    }
  }

  // ---------- every policy has a row ----------

  /** Every deny policy sits on a mapped role and has a row, BLOCKED or PENDING_RESET, of its endpoint. */
  ghost predicate Covered(t: Tables) {
    forall d :: d in t.denies ==> d.role in t.roles && Enforces(t, d, Key(t.roles[d.role], d.model))
  }

  /** The removal goes by the endpoint of the event, which is not that of the row. */
  predicate UnderOtherEndpoint(t: Tables, u: Usage) {
    Removes(t, u) && u.endpoint != t.rows[u.key].endpoint
  }

  /** The removal deletes the row, while a role of the team carries the row's policy under the other endpoint. */
  predicate ClearsWrongEndpoint(t: Tables, u: Usage, v: Visit) {
    && UnderOtherEndpoint(t, u) && !AnyFailed(v)
    && exists r :: r in v.roles && Deny(r, t.rows[u.key].endpoint, u.key.model) in t.denies
  }

  /** The policies on the role would have no row of their endpoint under the new mapping. */
  ghost predicate LosesRow(t: Tables, role: Role, mapping: Option<Team>) {
    exists d ::
      && d in t.denies && d.role == role
      && match mapping
         case None => true
         case Some(team) => Key(team, d.model) !in t.rows || t.rows[Key(team, d.model)].endpoint != d.endpoint
  }

  /** Some call of the visit succeeds. */
  predicate ReachesSome(v: Visit) {
    exists r :: r in v.roles && r !in v.failing
  }

  /** The step leaves a policy behind without a row. */
  ghost predicate Strands(t: Tables, step: Step) {
    match step
    case UsageChange(u, v, _) => ClearsWrongEndpoint(t, u, v)
    case UsageCut(u, v, _, cut) =>
      if cut.rowWritten then ClearsWrongEndpoint(t, u, v) else Breaches(t, u) && ReachesSome(FirstRoles(v, cut.calls))
    case RoleTagged(role, team, _, _) => LosesRow(t, role, Some(team))
    case MappingChange(role, mapping) => LosesRow(t, role, mapping)
    case _ => false
  }

  lemma UsageKeepsCoveredIff(t: Tables, u: Usage, v: Visit, now: int)
    requires Covered(t) && Lists(v, t.roles, u.key.team)
    ensures Covered(Evaluate(t, u, v, now)) <==> !ClearsWrongEndpoint(t, u, v)
  {
    var t' := Evaluate(t, u, v, now);
    forall r ensures r in v.roles <==> r in t.roles && t.roles[r] == u.key.team {
      assert r in v.roles <==> r in RolesOf(t.roles, u.key.team);
    }
    if ClearsWrongEndpoint(t, u, v) {
      var r :| r in v.roles && Deny(r, t.rows[u.key].endpoint, u.key.model) in t.denies;
      assert Deny(r, t.rows[u.key].endpoint, u.key.model) in t'.denies;
    } else {
      forall d | d in t'.denies ensures d.role in t'.roles && Enforces(t', d, Key(t'.roles[d.role], d.model)) {
        if d in t.denies {
          assert Enforces(t, d, Key(t.roles[d.role], d.model));
        }
      }
    }
  }

  lemma CutKeepsCoveredIff(t: Tables, u: Usage, v: Visit, now: int, cut: Cut)
    requires Covered(t) && Lists(v, t.roles, u.key.team) && CutFits(v, cut)
    ensures Covered(Interrupted(t, u, v, now, cut)) <==> !Strands(t, UsageCut(u, v, now, cut))
  {
    var t', called := Interrupted(t, u, v, now, cut), FirstRoles(v, cut.calls);
    if cut.rowWritten {
      UsageKeepsCoveredIff(t, u, v, now);
      assert forall d, k :: Enforces(t', d, k) <==> Enforces(Evaluate(t, u, v, now), d, k);
    } else {
      if Breaches(t, u) && ReachesSome(called) {
        var r :| r in called.roles && r !in called.failing;
        assert r in v.roles && r in RolesOf(t.roles, u.key.team);
        assert Deny(r, u.endpoint, u.key.model) in t'.denies;
      } else {
        forall d | d in t'.denies ensures d.role in t'.roles && Enforces(t', d, Key(t'.roles[d.role], d.model)) {
          assert Enforces(t, d, Key(t.roles[d.role], d.model));
        }
      }
    }
  }

  lemma MidnightKeepsCovered(t: Tables, r: Reset)
    requires WellFormed(t.rows) && Covered(t) && Answers(t, r)
    ensures Covered(After(t, r))
  {
    TouchesExactlyTheDueRows(t, r);
    var t' := After(t, r);
    forall d | d in t'.denies ensures d.role in t'.roles && Enforces(t', d, Key(t'.roles[d.role], d.model)) {
      var k := Key(t.roles[d.role], d.model);
      assert Enforces(t, d, k) && RowAfter(t, r, k) && Lists(r.visits(k), t.roles, k.team);
      assert d.role in RolesOf(t.roles, k.team);
    }
  }

  lemma ManualKeepsCovered(t: Tables, key: Key, v: Visit, now: int)
    requires Covered(t) && Lists(v, t.roles, key.team)
    ensures Covered(ResetPair(t, ManualPair(t, key, now), v, now))
  {
    var t' := ResetPair(t, ManualPair(t, key, now), v, now);
    forall d | d in t'.denies ensures d.role in t'.roles && Enforces(t', d, Key(t'.roles[d.role], d.model)) {
      assert Enforces(t, d, Key(t.roles[d.role], d.model));
      assert d.role in v.roles <==> d.role in RolesOf(t.roles, key.team);
    }
  }

  lemma ManualCutKeepsCovered(t: Tables, key: Key, v: Visit, now: int, cut: Cut)
    requires Covered(t) && Lists(v, t.roles, key.team)
    ensures Covered(InterruptedPair(t, ManualPair(t, key, now), v, now, cut))
  {
    var t', whole := InterruptedPair(t, ManualPair(t, key, now), v, now, cut),
        ResetPair(t, ManualPair(t, key, now), v, now);
    ManualKeepsCovered(t, key, v, now);
    forall d | d in t'.denies ensures d.role in t'.roles && Enforces(t', d, Key(t'.roles[d.role], d.model)) {
      assert Enforces(t, d, Key(t.roles[d.role], d.model));
      assert cut.rowWritten ==> Enforces(whole, d, Key(t.roles[d.role], d.model));
    }
  }

  lemma RemapKeepsCoveredIff(t: Tables, role: Role, mapping: Option<Team>)
    requires Covered(t)
    ensures Covered(Remap(t, role, mapping)) <==> !LosesRow(t, role, mapping)
  {
    var t' := Remap(t, role, mapping);
    if LosesRow(t, role, mapping) {
      var d :|
        && d in t.denies && d.role == role
        && match mapping
           case None => true
           case Some(team) => Key(team, d.model) !in t.rows || t.rows[Key(team, d.model)].endpoint != d.endpoint;
      assert d in t'.denies;
    } else {
      forall d | d in t'.denies ensures d.role in t'.roles && Enforces(t', d, Key(t'.roles[d.role], d.model)) {
        assert Enforces(t, d, Key(t.roles[d.role], d.model));
      }
    }
  }

  lemma TaggingKeepsCoveredIff(t: Tables, role: Role, team: Team, models: seq<BlockedModel>, failing: set<BlockedModel>)
    requires Covered(t) && ListsBlocked(models, t.rows, team)
    ensures Covered(TagRole(t, role, team, models, failing)) <==> !LosesRow(t, role, Some(team))
  {
    RemapKeepsCoveredIff(t, role, Some(team));
    var mapped, t' := Remap(t, role, Some(team)), TagRole(t, role, team, models, failing);
    forall d | d in t'.denies && d !in t.denies ensures Enforces(t', d, Key(team, d.model)) && d.role == role {
      var b :| b in models[..FirstFailure(models, failing)] && d == Deny(role, b.endpoint, b.model);
      assert IsBlocked(t.rows, Key(team, b.model), b.endpoint);
    }
    forall d: Deny, k ensures Enforces(t', d, k) <==> Enforces(mapped, d, k) { }
  }

  /** Whatever IAM calls fail, every policy keeps its row unless the step strands one. */
  lemma StepKeepsCoveredIff(t: Tables, step: Step)
    requires WellFormed(t.rows) && Covered(t) && Answered(t, step)
    ensures Covered(Apply(t, step)) <==> !Strands(t, step)
  {
    match step
    case UsageChange(u, v, now) => UsageKeepsCoveredIff(t, u, v, now);
    case UsageCut(u, v, now, cut) => CutKeepsCoveredIff(t, u, v, now, cut);
    case MidnightReset(reset) => MidnightKeepsCovered(t, reset);
    case ManualRemoval(key, v, now) => ManualKeepsCovered(t, key, v, now);
    case ManualCut(key, v, now, cut) => ManualCutKeepsCovered(t, key, v, now, cut);
    case QuotaEdit(key, quota) =>
      assert forall d: Deny, k :: Enforces(QuotaChange(t, key, quota), d, k) <==> Enforces(t, d, k);
    case RoleTagged(role, team, models, failing) => TaggingKeepsCoveredIff(t, role, team, models, failing);
    case MappingChange(role, mapping) => RemapKeepsCoveredIff(t, role, mapping);
  }

  // ---------- deny iff blocked ----------

  /** The deny policies are exactly those of the BLOCKED rows on the mapped roles. */
  ghost predicate Exact(t: Tables) {
    forall d :: d in t.denies <==> d.role in t.roles && IsBlocked(t.rows, Key(t.roles[d.role], d.model), d.endpoint)
  }

  /** Whatever blocks `from` blocks `to`. */
  ghost predicate BlocksCarryOver(rows: map<Key, Row>, from: Team, to: Team) {
    forall m, e :: IsBlocked(rows, Key(from, m), e) ==> IsBlocked(rows, Key(to, m), e)
  }

  ghost predicate NothingBlocked(rows: map<Key, Row>, team: Team) {
    forall m, e :: !IsBlocked(rows, Key(team, m), e)
  }

  /**
   A usage change keeps the correspondence exactly when: a breach fails for no role; a removal under the row's
   endpoint fails for no role or for every role; a removal under the other endpoint fails somewhere, or has no
   role to visit.
   */
  predicate UsageKeepsExact(t: Tables, u: Usage, v: Visit) {
    && (Breaches(t, u) ==> !AnyFailed(v))
    && (Removes(t, u) && u.endpoint == t.rows[u.key].endpoint ==>
          !AnyFailed(v) || forall r :: r in v.roles ==> r in v.failing)
    && (UnderOtherEndpoint(t, u) ==> AnyFailed(v) || v.roles == [])
  }

  lemma EvaluateKeepsExactIff(t: Tables, u: Usage, v: Visit, now: int)
    requires Exact(t) && Lists(v, t.roles, u.key.team)
    ensures Exact(Evaluate(t, u, v, now)) <==> UsageKeepsExact(t, u, v)
  {
    assert forall r :: r in v.roles <==> r in RolesOf(t.roles, u.key.team);
    var t' := Evaluate(t, u, v, now);
    if Breaches(t, u) {
      if r :| r in v.roles && r in v.failing {
        assert Deny(r, u.endpoint, u.key.model) !in t'.denies;
      }
    } else if Removes(t, u) {
      var e := t.rows[u.key].endpoint;
      if u.endpoint == e {
        if r :| AnyFailed(v) && r in v.roles && r !in v.failing {
          assert Deny(r, e, u.key.model) !in t'.denies;
        }
      } else {
        assert t'.denies == t.denies;
        if AnyFailed(v) {
          assert t'.rows == t.rows && t'.roles == t.roles;
        } else if v.roles == [] {
          assert forall r :: r in t.roles ==> r !in RolesOf(t.roles, u.key.team);
        } else {
          assert v.roles[0] in v.roles;
          assert Deny(v.roles[0], e, u.key.model) in t'.denies;
        }
      }
    }
  }

  /**
   A usage change that is cut off before the row is written keeps it exactly when no call has succeeded that
   attaches a policy, or that removes one under the row's endpoint; one that is cut off later, as a whole one does.
   */
  predicate CutKeepsExact(t: Tables, u: Usage, v: Visit, cut: Cut) {
    if cut.rowWritten then UsageKeepsExact(t, u, v)
    else
      Breaches(t, u) || (Removes(t, u) && u.endpoint == t.rows[u.key].endpoint) ==>
          !ReachesSome(FirstRoles(v, cut.calls))
  }

  lemma CutKeepsExactIff(t: Tables, u: Usage, v: Visit, now: int, cut: Cut)
    requires Exact(t) && Lists(v, t.roles, u.key.team) && CutFits(v, cut)
    ensures Exact(Interrupted(t, u, v, now, cut)) <==> CutKeepsExact(t, u, v, cut)
  {
    var t', called := Interrupted(t, u, v, now, cut), FirstRoles(v, cut.calls);
    if cut.rowWritten {
      EvaluateKeepsExactIff(t, u, v, now);
    } else if ReachesSome(called) {
      var r :| r in called.roles && r !in called.failing;
      var d := Deny(r, u.endpoint, u.key.model);
      assert r in v.roles && r in RolesOf(t.roles, u.key.team);
      assert d in Reached(called, u.endpoint, u.key.model);
      if Removes(t, u) && u.endpoint != t.rows[u.key].endpoint {
        forall x | x in Reached(called, u.endpoint, u.key.model) ensures x !in t.denies {
          assert x.role in RolesOf(t.roles, u.key.team);
        }
        assert t'.denies == t.denies;
      }
    } else {
      assert Reached(called, u.endpoint, u.key.model) == {};
    }
  }

  /** A reset keeps it exactly when no due BLOCKED row meets a failing call. */
  ghost predicate ResetKeepsExact(t: Tables, r: Reset) {
    forall k :: Due(t.rows, k, r.now) && t.rows[k].status == BLOCKED ==> !Fails(r, k)
  }

  lemma MidnightKeepsExactIff(t: Tables, r: Reset)
    requires WellFormed(t.rows) && Exact(t) && Answers(t, r)
    ensures Exact(After(t, r)) <==> ResetKeepsExact(t, r)
  {
    TouchesExactlyTheDueRows(t, r);
    var t' := After(t, r);
    if ResetKeepsExact(t, r) {
      forall d
        ensures d in t'.denies <==> d.role in t'.roles && IsBlocked(t'.rows, Key(t'.roles[d.role], d.model), d.endpoint)
      {
        if d.role in t.roles {
          ResetOfDeny(t, r, d);
        }
      }
    } else {
      var k :| Due(t.rows, k, r.now) && t.rows[k].status == BLOCKED && Fails(r, k);
      var role :| role in r.visits(k).roles && role in r.visits(k).failing;
      assert Lists(r.visits(k), t.roles, k.team) && RowAfter(t, r, k);
      assert role in RolesOf(t.roles, k.team);
      var d := Deny(role, t.rows[k].endpoint, k.model);
      assert d in t.denies && !Lifted(t, r, d) && d in t'.denies;
      assert Key(t'.roles[role], d.model) == k && t'.rows[k].status == PENDING_RESET;
    }
  }

  /** A policy on a mapped role after a reset in which its own pair does not fail while BLOCKED. */
  lemma ResetOfDeny(t: Tables, r: Reset, d: Deny)
    requires WellFormed(t.rows) && Exact(t) && Answers(t, r) && ResetKeepsExact(t, r)
    requires d.role in t.roles && After(t, r).roles == t.roles
    ensures d in After(t, r).denies <==> IsBlocked(After(t, r).rows, Key(t.roles[d.role], d.model), d.endpoint)
  {
    TouchesExactlyTheDueRows(t, r);
    var k := Key(t.roles[d.role], d.model);
    assert RowAfter(t, r, k) && Lists(r.visits(k), t.roles, k.team);
    assert d.role in RolesOf(t.roles, k.team);
    assert Lifted(t, r, d) <==> Due(t.rows, k, r.now) && Enforces(t, d, k) && d.role !in r.visits(k).failing;
    assert d in t.denies <==> IsBlocked(t.rows, k, d.endpoint);
  }

  /** An override keeps it exactly when no call fails on a BLOCKED row. */
  predicate OverrideKeepsExact(t: Tables, key: Key, v: Visit) {
    key in t.rows && t.rows[key].status == BLOCKED ==> !AnyFailed(v)
  }

  lemma ManualKeepsExactIff(t: Tables, key: Key, v: Visit, now: int)
    requires Exact(t) && Lists(v, t.roles, key.team)
    ensures Exact(ResetPair(t, ManualPair(t, key, now), v, now)) <==> OverrideKeepsExact(t, key, v)
  {
    var t' := ResetPair(t, ManualPair(t, key, now), v, now);
    assert forall r :: r in v.roles <==> r in RolesOf(t.roles, key.team);
    if !OverrideKeepsExact(t, key, v) {
      var r :| r in v.roles && r in v.failing;
      assert Deny(r, t.rows[key].endpoint, key.model) in t'.denies;
    }
  }

  /**
   An override that is cut off before the row is written keeps it exactly when no call has succeeded on a BLOCKED
   row.
   */
  predicate ManualCutKeepsExact(t: Tables, key: Key, v: Visit, cut: Cut) {
    if cut.rowWritten then OverrideKeepsExact(t, key, v)
    else key in t.rows && t.rows[key].status == BLOCKED ==> !ReachesSome(FirstRoles(v, cut.calls))
  }

  lemma ManualCutKeepsExactIff(t: Tables, key: Key, v: Visit, now: int, cut: Cut)
    requires Exact(t) && Lists(v, t.roles, key.team) && CutFits(v, cut)
    ensures Exact(InterruptedPair(t, ManualPair(t, key, now), v, now, cut)) <==> ManualCutKeepsExact(t, key, v, cut)
  {
    var p, called := ManualPair(t, key, now), FirstRoles(v, cut.calls);
    var t' := InterruptedPair(t, p, v, now, cut);
    if cut.rowWritten {
      ManualKeepsExactIff(t, key, v, now);
    } else if key in t.rows && t.rows[key].status == BLOCKED && ReachesSome(called) {
      var r :| r in called.roles && r !in called.failing;
      assert r in v.roles && r in RolesOf(t.roles, key.team);
      assert Deny(r, p.endpoint, key.model) !in t'.denies;
    } else {
      forall d | d in Reached(called, p.endpoint, key.model) ensures d !in t.denies {
        assert d.role in v.roles && d.role in RolesOf(t.roles, key.team);
      }
      assert t'.denies == t.denies;
    }
  }

  /**
   Tagging keeps it exactly when whatever blocks the role's old team blocks the new one, and the role gets the
   policy of every model that was not among those attached before the first failing call from its old team.
   */
  ghost predicate TagKeepsExact(t: Tables, role: Role, team: Team, models: seq<BlockedModel>,
      failing: set<BlockedModel>) {
    && (role in t.roles ==> BlocksCarryOver(t.rows, t.roles[role], team))
    && forall b :: b in models && b !in models[..FirstFailure(models, failing)] ==>
         role in t.roles && IsBlocked(t.rows, Key(t.roles[role], b.model), b.endpoint)
  }

  /** The policies on the role after tagging. */
  lemma TaggedDenies(t: Tables, role: Role, team: Team, models: seq<BlockedModel>, failing: set<BlockedModel>, d: Deny)
    requires d.role == role
    ensures d in TagRole(t, role, team, models, failing).denies <==>
            d in t.denies || BlockedModel(d.model, d.endpoint) in models[..FirstFailure(models, failing)]
  {
  }

  lemma TaggingKeepsExactIff(t: Tables, role: Role, team: Team, models: seq<BlockedModel>, failing: set<BlockedModel>)
    requires Exact(t) && ListsBlocked(models, t.rows, team)
    ensures Exact(TagRole(t, role, team, models, failing)) <==> TagKeepsExact(t, role, team, models, failing)
  {
    var t' := TagRole(t, role, team, models, failing);
    var attached := models[..FirstFailure(models, failing)];
    forall d: Deny | d.role == role
      ensures d in t'.denies <==> d in t.denies || BlockedModel(d.model, d.endpoint) in attached
      ensures IsBlocked(t.rows, Key(team, d.model), d.endpoint) <==> BlockedModel(d.model, d.endpoint) in models
      ensures d in t.denies <==> role in t.roles && IsBlocked(t.rows, Key(t.roles[role], d.model), d.endpoint)
    {
      TaggedDenies(t, role, team, models, failing, d);
    }
    if Exact(t') {
      if role in t.roles {
        forall m, e | IsBlocked(t.rows, Key(t.roles[role], m), e) ensures IsBlocked(t.rows, Key(team, m), e) {
          assert Deny(role, e, m) in t.denies && Deny(role, e, m) in t'.denies;
        }
      }
      forall b | b in models && b !in attached
        ensures role in t.roles && IsBlocked(t.rows, Key(t.roles[role], b.model), b.endpoint)
      {
        assert Deny(role, b.endpoint, b.model) in t'.denies;
      }
    }
    if TagKeepsExact(t, role, team, models, failing) {
      forall d ensures d in t'.denies <==>
          d.role in t'.roles && IsBlocked(t'.rows, Key(t'.roles[d.role], d.model), d.endpoint) {
        if d.role == role && BlockedModel(d.model, d.endpoint) in models &&
            BlockedModel(d.model, d.endpoint) !in attached {
          assert d in t.denies;
        }
      }
    }
  }

  /**
   A cache row written without attaching keeps it exactly between teams that are blocked alike; a lost one, when
   nothing blocks.
   */
  ghost predicate RemapKeepsExact(t: Tables, role: Role, mapping: Option<Team>) {
    match mapping
    case Some(team) =>
      if role in t.roles
      then BlocksCarryOver(t.rows, t.roles[role], team) && BlocksCarryOver(t.rows, team, t.roles[role])
      else NothingBlocked(t.rows, team)
    case None => role in t.roles ==> NothingBlocked(t.rows, t.roles[role])
  }

  lemma RemapKeepsExactIff(t: Tables, role: Role, mapping: Option<Team>)
    requires Exact(t)
    ensures Exact(Remap(t, role, mapping)) <==> RemapKeepsExact(t, role, mapping)
  {
    var t' := Remap(t, role, mapping);
    if Exact(t') {
      forall m, e
        ensures (role in t.roles && IsBlocked(t.rows, Key(t.roles[role], m), e)) <==>
                (mapping.Some? && IsBlocked(t.rows, Key(mapping.value, m), e))
      {
        assert Deny(role, e, m) in t.denies <==> Deny(role, e, m) in t'.denies;
      }
    }
  }

  /** The condition under which a step keeps the correspondence; a caller can check it before the step. */
  ghost predicate KeepsExact(t: Tables, step: Step) {
    match step
    case UsageChange(u, v, _) => UsageKeepsExact(t, u, v)
    case UsageCut(u, v, _, cut) => CutKeepsExact(t, u, v, cut)
    case MidnightReset(reset) => ResetKeepsExact(t, reset)
    case ManualRemoval(key, v, _) => OverrideKeepsExact(t, key, v)
    case ManualCut(key, v, _, cut) => ManualCutKeepsExact(t, key, v, cut)
    case QuotaEdit(_, _) => true
    case RoleTagged(role, team, models, failing) => TagKeepsExact(t, role, team, models, failing)
    case MappingChange(role, mapping) => RemapKeepsExact(t, role, mapping)
  }

  lemma StepKeepsExactIff(t: Tables, step: Step)
    requires WellFormed(t.rows) && Exact(t) && Answered(t, step)
    ensures Exact(Apply(t, step)) <==> KeepsExact(t, step)
  {
    match step
    case UsageChange(u, v, now) => EvaluateKeepsExactIff(t, u, v, now);
    case UsageCut(u, v, now, cut) => CutKeepsExactIff(t, u, v, now, cut);
    case MidnightReset(reset) => MidnightKeepsExactIff(t, reset);
    case ManualRemoval(key, v, now) => ManualKeepsExactIff(t, key, v, now);
    case ManualCut(key, v, now, cut) => ManualCutKeepsExactIff(t, key, v, now, cut);
    case QuotaEdit(key, quota) => assert Exact(QuotaChange(t, key, quota));
    case RoleTagged(role, team, models, failing) => TaggingKeepsExactIff(t, role, team, models, failing);
    case MappingChange(role, mapping) => RemapKeepsExactIff(t, role, mapping);
  }

  ghost predicate ExactThroughout(t: Tables, steps: seq<Step>)
    decreases |steps|
  {
    steps != [] ==> Exact(Apply(t, steps[0])) && ExactThroughout(Apply(t, steps[0]), steps[1..])
  }

  ghost predicate EachKeepsExact(t: Tables, steps: seq<Step>)
    decreases |steps|
  {
    steps != [] ==> KeepsExact(t, steps[0]) && EachKeepsExact(Apply(t, steps[0]), steps[1..])
  }

  /**
   Over any run, with any failures, endpoints, retagging and mapping changes: all states are exact if and only if
   each step meets its condition.
   */
  lemma {:induction false} RunIsExactIff(t: Tables, steps: seq<Step>)
    requires WellFormed(t.rows) && Exact(t) && AnsweredRun(t, steps)
    ensures ExactThroughout(t, steps) <==> EachKeepsExact(t, steps)
    decreases |steps|
  {
    if steps == [] {
    } else {
      StepKeepsExactIff(t, steps[0]);
      StepKeepsWellFormed(t, steps[0]);
      if KeepsExact(t, steps[0]) {
        RunIsExactIff(Apply(t, steps[0]), steps[1..]);
      }
    }
  }

  lemma {:induction false} ExactAtTheEnd(t: Tables, steps: seq<Step>)
    requires Exact(t) && ExactThroughout(t, steps)
    ensures Exact(Run(t, steps))
    decreases |steps|
  {
    if steps == [] {
    } else {
      ExactAtTheEnd(Apply(t, steps[0]), steps[1..]);
    }
  }

  // ---------- ordinary runs ----------

  /** The usage of a team and model comes from one endpoint. */
  ghost predicate OneEndpoint(step: Step, f: Key -> Endpoint) {
    step.UsageChange? || step.UsageCut? ==> step.u.endpoint == f(step.u.key)
  }

  /** A role is mapped by tagging only, and never moved from one team to another. */
  predicate NoRetagging(t: Tables, step: Step) {
    !step.MappingChange? && (step.RoleTagged? && step.role in t.roles ==> t.roles[step.role] == step.team)
  }

  /** The step runs to its end, and none of its IAM calls fails for good. */
  ghost predicate Succeeds(step: Step) {
    match step
    case UsageChange(_, v, _) => v.failing == {}
    case UsageCut(_, _, _, _) => false
    case MidnightReset(reset) => forall k :: reset.visits(k).failing == {}
    case ManualRemoval(_, v, _) => v.failing == {}
    case ManualCut(_, _, _, _) => false
    case RoleTagged(_, _, _, failing) => failing == {}
    case _ => true
  }

  ghost predicate Ordinary(t: Tables, step: Step, f: Key -> Endpoint) {
    Answered(t, step) && Succeeds(step) && OneEndpoint(step, f) && NoRetagging(t, step)
  }

  ghost predicate OrdinaryRun(t: Tables, steps: seq<Step>, f: Key -> Endpoint)
    decreases |steps|
  {
    steps != [] ==> Ordinary(t, steps[0], f) && OrdinaryRun(Apply(t, steps[0]), steps[1..], f)
  }

  ghost predicate BlockedUnder(rows: map<Key, Row>, f: Key -> Endpoint) {
    forall k :: k in rows && rows[k].status == BLOCKED ==> rows[k].endpoint == f(k)
  }

  lemma ResetKeepsBlockedUnder(t: Tables, r: Reset, f: Key -> Endpoint)
    requires WellFormed(t.rows) && BlockedUnder(t.rows, f) && Answers(t, r)
    ensures BlockedUnder(After(t, r).rows, f)
  {
    TouchesExactlyTheDueRows(t, r);
    var rows := After(t, r).rows;
    forall k | k in rows && rows[k].status == BLOCKED ensures rows[k].endpoint == f(k) {
      assert RowAfter(t, r, k);
    }
  }

  lemma UsageKeepsBlockedUnder(t: Tables, u: Usage, v: Visit, now: int, f: Key -> Endpoint)
    requires BlockedUnder(t.rows, f) && u.endpoint == f(u.key)
    ensures BlockedUnder(Evaluate(t, u, v, now).rows, f)
  {
  }

  lemma StepKeepsBlockedUnder(t: Tables, step: Step, f: Key -> Endpoint)
    requires WellFormed(t.rows) && BlockedUnder(t.rows, f) && Answered(t, step) && OneEndpoint(step, f)
    ensures BlockedUnder(Apply(t, step).rows, f)
  {
    match step
    case UsageChange(u, v, now) => UsageKeepsBlockedUnder(t, u, v, now, f);
    case UsageCut(u, v, now, cut) => UsageKeepsBlockedUnder(t, u, v, now, f);
    case MidnightReset(reset) => ResetKeepsBlockedUnder(t, reset, f);
    case _ =>
  }

  lemma OrdinaryKeepsExact(t: Tables, step: Step, f: Key -> Endpoint)
    requires BlockedUnder(t.rows, f) && Ordinary(t, step, f)
    ensures KeepsExact(t, step)
  {
    if step.RoleTagged? {
      assert step.models[..FirstFailure(step.models, step.failing)] == step.models;
    }
  }

  lemma {:induction false} OrdinaryRunsKeepExact(t: Tables, steps: seq<Step>, f: Key -> Endpoint)
    requires WellFormed(t.rows) && BlockedUnder(t.rows, f) && OrdinaryRun(t, steps, f)
    ensures AnsweredRun(t, steps) && EachKeepsExact(t, steps)
    decreases |steps|
  {
    if steps == [] {
    } else {
      OrdinaryKeepsExact(t, steps[0], f);
      StepKeepsBlockedUnder(t, steps[0], f);
      StepKeepsWellFormed(t, steps[0]);
      OrdinaryRunsKeepExact(Apply(t, steps[0]), steps[1..], f);
    }
  }

  const EMPTY: Tables := Tables(map[], map[], map[], {}, [], [])

  /**
   From empty tables, after any run without failing IAM calls, retagging, or usage of one model on both
   endpoints: a mapped role carries a deny policy for a model exactly when its team is BLOCKED for the model.
   */
  lemma DenyIffBlocked(steps: seq<Step>, f: Key -> Endpoint, role: Role, model: Model)
    requires OrdinaryRun(EMPTY, steps, f) && role in Run(EMPTY, steps).roles
    ensures var t := Run(EMPTY, steps);
            var key := Key(t.roles[role], model);
            (exists e :: Deny(role, e, model) in t.denies) <==> key in t.rows && t.rows[key].status == BLOCKED
  {
    OrdinaryRunsKeepExact(EMPTY, steps, f);
    RunIsExactIff(EMPTY, steps);
    ExactAtTheEnd(EMPTY, steps);
    var t := Run(EMPTY, steps);
    var key := Key(t.roles[role], model);
    if key in t.rows && t.rows[key].status == BLOCKED {
      assert Deny(role, t.rows[key].endpoint, model) in t.denies;
    }
  }

  // ---------- a role that leaves the mapping ----------

  predicate Maps(step: Step, role: Role) {
    || (step.RoleTagged? && step.role == role)
    || (step.MappingChange? && step.role == role && step.mapping.Some?)
  }

  lemma VisitAvoids(t: Tables, v: Visit, team: Team, role: Role)
    requires Lists(v, t.roles, team) && role !in t.roles
    ensures role !in v.roles
  {
    assert role in v.roles <==> role in RolesOf(t.roles, team);
  }

  /** No policy of the role comes or goes. */
  ghost predicate LeavesAlone(t: Tables, t': Tables, role: Role) {
    t'.roles == t.roles && forall d: Deny :: d.role == role ==> (d in t'.denies <==> d in t.denies)
  }

  lemma UsageLeavesUnmapped(t: Tables, u: Usage, v: Visit, now: int, cut: Cut, role: Role)
    requires role !in v.roles
    ensures LeavesAlone(t, Evaluate(t, u, v, now), role) && LeavesAlone(t, Interrupted(t, u, v, now, cut), role)
  {
    assert forall i :: 0 <= i < |FirstRoles(v, cut.calls).roles| ==> FirstRoles(v, cut.calls).roles[i] in v.roles;
  }

  lemma PairLeavesUnmapped(t: Tables, pair: Pair, v: Visit, now: int, cut: Cut, role: Role)
    requires role !in v.roles
    ensures LeavesAlone(t, ResetPair(t, pair, v, now), role) &&
              LeavesAlone(t, InterruptedPair(t, pair, v, now, cut), role)
  {
    assert forall i :: 0 <= i < |FirstRoles(v, cut.calls).roles| ==> FirstRoles(v, cut.calls).roles[i] in v.roles;
  }

  lemma StepLeavesUnmapped(t: Tables, step: Step, role: Role)
    requires WellFormed(t.rows) && Answered(t, step) && role !in t.roles && !Maps(step, role)
    ensures role !in Apply(t, step).roles
    ensures forall d: Deny :: d.role == role ==> (d in Apply(t, step).denies <==> d in t.denies)
  {
    var none := Cut(0, 0, false);
    match step
    case UsageChange(u, v, now) =>
      VisitAvoids(t, v, u.key.team, role);
      UsageLeavesUnmapped(t, u, v, now, none, role);
    case UsageCut(u, v, now, cut) =>
      VisitAvoids(t, v, u.key.team, role);
      UsageLeavesUnmapped(t, u, v, now, cut, role);
    case MidnightReset(reset) => TouchesExactlyTheDueRows(t, reset);
    case ManualRemoval(key, v, now) =>
      VisitAvoids(t, v, key.team, role);
      PairLeavesUnmapped(t, ManualPair(t, key, now), v, now, none, role);
    case ManualCut(key, v, now, cut) =>
      VisitAvoids(t, v, key.team, role);
      PairLeavesUnmapped(t, ManualPair(t, key, now), v, now, cut, role);
    case _ =>
  }

  /**
   While a role is not mapped, no run of resets, overrides, usage changes or quota edits attaches or lifts a
   policy on it.
   */
  lemma {:induction false} UnmappedKeepsItsDenies(t: Tables, steps: seq<Step>, role: Role)
    requires WellFormed(t.rows) && AnsweredRun(t, steps) && role !in t.roles
    requires forall i :: 0 <= i < |steps| ==> !Maps(steps[i], role)
    ensures role !in Run(t, steps).roles
    ensures forall d: Deny :: d.role == role ==> (d in Run(t, steps).denies <==> d in t.denies)
    decreases |steps|
  {
    if steps == [] {
    } else {
      StepLeavesUnmapped(t, steps[0], role);
      StepKeepsWellFormed(t, steps[0]);
      UnmappedKeepsItsDenies(Apply(t, steps[0]), steps[1..], role);
    }
  }

  // ---------- a batch is a run ----------

  /** The usage changes that a stream batch amounts to. */
  function StepsOf(records: seq<StreamRecord>, visits: nat -> Visit, now: int): seq<Step> {
    if records == [] then []
    else
      var n := |records| - 1;
      StepsOf(records[..n], visits, now) +
      if Relevant(records[n], UsageDay(now)) then [UsageChange(records[n].image.usage, visits(n), now)] else []
  }

  /** One more step. */
  lemma {:induction false} OneMore(t: Tables, steps: seq<Step>, last: Step)
    ensures Run(t, steps + [last]) == Apply(Run(t, steps), last)
    ensures AnsweredRun(t, steps + [last]) <==> AnsweredRun(t, steps) && Answered(Run(t, steps), last)
    decreases |steps|
  {
    if steps == [] {
      assert [] + [last] == [last] && [last][1..] == [];
      assert Run(Apply(t, last), []) == Apply(t, last);
    } else {
      assert (steps + [last])[1..] == steps[1..] + [last];
      OneMore(Apply(t, steps[0]), steps[1..], last);
    }
  }

  /** Handling a batch is running its usage changes of the current day, in order, and nothing else. */
  lemma {:induction false} BatchIsARun(t: Tables, records: seq<StreamRecord>, visits: nat -> Visit, now: int)
    ensures HandleBatch(t, records, visits, now) == Run(t, StepsOf(records, visits, now))
  {
    if records == [] {
    } else {
      var n := |records| - 1;
      BatchIsARun(t, records[..n], visits, now);
      var before := StepsOf(records[..n], visits, now);
      if Relevant(records[n], UsageDay(now)) {
        var step := UsageChange(records[n].image.usage, visits(n), now);
        OneMore(t, before, step);
      } else {
        assert before + [] == before;
      }
    }
  }

  // ---------- a reset is a run ----------

  /** The overrides that the first `n` pairs of a reset amount to. */
  function OverridesOf(r: Reset, n: nat): seq<Step>
    requires n <= |Pairs(r)|
  {
    if n == 0 then [] else OverridesOf(r, n - 1) + [OverrideOf(r, n - 1)]
  }

  function OverrideOf(r: Reset, i: nat): Step
    requires i < |Pairs(r)|
  {
    ManualRemoval(Pairs(r)[i].key, r.visits(Pairs(r)[i].key), r.now)
  }

  /** The pairs of a reset after the first `n` still have their rows when it comes to them. */
  lemma NextPairIsManual(t: Tables, r: Reset, n: nat)
    requires WellFormed(t.rows) && Answers(t, r) && n < |Pairs(r)|
    ensures ManualPair(ResetAll(t, Pairs(r)[..n], r.visits, r.now), Pairs(r)[n].key, r.now) == Pairs(r)[n]
    ensures ResetAll(t, Pairs(r)[..n], r.visits, r.now).roles == t.roles
  {
    var done := Pairs(r)[..n];
    DueArePairs(t, r);
    assert forall i :: 0 <= i < n ==> done[i] == Pairs(r)[i];
    ResetAllRows(t, done, r.visits, r.now);
    ResetAllFrame(t, done, r.visits, r.now);
    assert forall i :: 0 <= i < n ==> done[i].key != Pairs(r)[n].key;
  }

  lemma ResetAllNext(t: Tables, pairs: seq<Pair>, n: nat, visits: Key -> Visit, now: int)
    requires n < |pairs|
    ensures ResetAll(t, pairs[..n + 1], visits, now)
         == ResetPair(ResetAll(t, pairs[..n], visits, now), pairs[n], visits(pairs[n].key), now)
  {
    assert pairs[..n + 1][..n] == pairs[..n];
  }

  /** Where a run ends whose queries are answered. */
  ghost function EndOf(t: Tables, steps: seq<Step>): Option<Tables> {
    if AnsweredRun(t, steps) then Some(Run(t, steps)) else None
  }

  lemma EndAfter(t: Tables, steps: seq<Step>, end: Tables, step: Step)
    requires EndOf(t, steps) == Some(end) && Answered(end, step)
    ensures EndOf(t, steps + [step]) == Some(Apply(end, step))
  {
    OneMore(t, steps, step);
  }

  function FirstPairs(t: Tables, r: Reset, n: nat): Tables
    requires n <= |Pairs(r)|
  {
    ResetAll(t, Pairs(r)[..n], r.visits, r.now)
  }

  /** The override of the next pair can run, and does what the reset does. */
  ghost predicate NextIsOverride(t: Tables, r: Reset, n: nat)
    requires n < |Pairs(r)|
  {
    && Answered(FirstPairs(t, r, n), OverrideOf(r, n))
    && Apply(FirstPairs(t, r, n), OverrideOf(r, n)) == FirstPairs(t, r, n + 1)
  }

  lemma NextPair(t: Tables, r: Reset, n: nat)
    requires WellFormed(t.rows) && Answers(t, r) && n < |Pairs(r)|
    ensures NextIsOverride(t, r, n)
  {
    NextPairIsManual(t, r, n);
    ResetAllNext(t, Pairs(r), n, r.visits, r.now);
  }

  lemma {:induction false} PairsAreARun(t: Tables, r: Reset, n: nat)
    requires n <= |Pairs(r)| && forall i :: 0 <= i < n ==> NextIsOverride(t, r, i)
    ensures EndOf(t, OverridesOf(r, n)) == Some(FirstPairs(t, r, n))
  {
    if n == 0 {
      assert Pairs(r)[..0] == [];
    } else {
      PairsAreARun(t, r, n - 1);
      assert NextIsOverride(t, r, n - 1);
      EndAfter(t, OverridesOf(r, n - 1), FirstPairs(t, r, n - 1), OverrideOf(r, n - 1));
    }
  }

  /** A reset is a run of overrides of its pairs; one cut off is the run of the first of them and a cut override. */
  lemma ResetIsARun(t: Tables, r: Reset)
    requires WellFormed(t.rows) && Answers(t, r)
    ensures EndOf(t, OverridesOf(r, |Pairs(r)|)) == Some(After(t, r))
  {
    forall i | 0 <= i < |Pairs(r)| ensures NextIsOverride(t, r, i) {
      NextPair(t, r, i);
    }
    PairsAreARun(t, r, |Pairs(r)|);
    assert Pairs(r)[..|Pairs(r)|] == Pairs(r);
  }
}
