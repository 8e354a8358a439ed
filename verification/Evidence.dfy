/** What the audit log and the notifications tell about the deny policies, whatever IAM calls fail. */
module Evidence {
  import opened Domain
  import opened Enforcement
  import opened DailyReset
  import opened Runs

  // ---------- the audit log ----------

  /** A deny as the audit log names it: the entries carry no endpoint. */
  datatype Mark = Mark(role: Role, model: Model)

  function MarkOf(e: AuditEntry): Mark {
    Mark(e.role, e.key.model)
  }

  /** One entry read as an instruction; the FAILED actions change nothing. */
  function Read(marks: set<Mark>, e: AuditEntry): set<Mark> {
    match e.action
    case ATTACH_DENY => marks + {MarkOf(e)}
    case REMOVE_DENY => marks - {MarkOf(e)}
    case _ => marks
  }

  function Replay(log: seq<AuditEntry>): set<Mark> {
    if log == [] then {} else Read(Replay(log[..|log| - 1]), log[|log| - 1])
  }

  function Marks(denies: set<Deny>): set<Mark> {
    set d | d in denies :: Mark(d.role, d.model)
  }

  ghost predicate LogAgrees(t: Tables) {
    Replay(t.audit) == Marks(t.denies)
  }

  function ReachedMarks(v: Visit, model: Model): set<Mark> {
    set r | r in v.roles && r !in v.failing :: Mark(r, model)
  }

  lemma ReplayOne(log: seq<AuditEntry>, e: AuditEntry)
    ensures Replay(log + [e]) == Read(Replay(log), e)
  {
    assert (log + [e])[..|log|] == log;
  }

  function EntryFor(key: Key, role: Role, attach: bool, fails: bool, total: int, quota: Option<int>,
      at: int): AuditEntry {
    var action :=
      if attach then (if fails then ATTACH_DENY_FAILED else ATTACH_DENY)
      else (if fails then REMOVE_DENY_FAILED else REMOVE_DENY);
    AuditEntry(key, role, action, total, quota, at)
  }

  /** The log of a visit for attaching, or for removing. */
  function VisitLog(key: Key, v: Visit, attach: bool, total: int, quota: Option<int>, at: int): seq<AuditEntry> {
    if attach
    then CallLog(key, v, ATTACH_DENY, ATTACH_DENY_FAILED, total, quota, at)
    else CallLog(key, v, REMOVE_DENY, REMOVE_DENY_FAILED, total, quota, at)
  }

  lemma VisitLogGrows(key: Key, v: Visit, n: nat, attach: bool, total: int, quota: Option<int>, at: int)
    requires n < |v.roles|
    ensures VisitLog(key, FirstRoles(v, n + 1), attach, total, quota, at)
         == VisitLog(key, FirstRoles(v, n), attach, total, quota, at) +
             [EntryFor(key, v.roles[n], attach, v.roles[n] in v.failing, total, quota, at)]
  {
  }

  lemma ReachedGrows(v: Visit, n: nat, model: Model)
    requires n < |v.roles|
    ensures ReachedMarks(FirstRoles(v, n + 1), model)
         == ReachedMarks(FirstRoles(v, n), model) + if v.roles[n] in v.failing then {} else {Mark(v.roles[n], model)}
  {
    assert v.roles[..n + 1] == v.roles[..n] + [v.roles[n]];
  }

  function Change(marks: set<Mark>, reached: set<Mark>, attach: bool): set<Mark> {
    if attach then marks + reached else marks - reached
  }

  lemma ReadGrows(marks: set<Mark>, reached: set<Mark>, key: Key, role: Role, attach: bool, fails: bool, total: int,
      quota: Option<int>, at: int)
    ensures Read(Change(marks, reached, attach), EntryFor(key, role, attach, fails, total, quota, at))
         == Change(marks, reached + if fails then {} else {Mark(role, key.model)}, attach)
  {
  }

  lemma ReplayNext(log: seq<AuditEntry>, key: Key, v: Visit, n: nat, attach: bool, total: int, quota: Option<int>,
      at: int)
    requires n < |v.roles|
    ensures Replay(log + VisitLog(key, FirstRoles(v, n + 1), attach, total, quota, at))
         == Read(Replay(log + VisitLog(key, FirstRoles(v, n), attach, total, quota, at)),
                 EntryFor(key, v.roles[n], attach, v.roles[n] in v.failing, total, quota, at))
  {
    var before := log + VisitLog(key, FirstRoles(v, n), attach, total, quota, at);
    var last := EntryFor(key, v.roles[n], attach, v.roles[n] in v.failing, total, quota, at);
    VisitLogGrows(key, v, n, attach, total, quota, at);
    assert log + VisitLog(key, FirstRoles(v, n + 1), attach, total, quota, at) == before + [last];
    ReplayOne(before, last);
  }

  lemma ChangeNext(marks: set<Mark>, key: Key, v: Visit, n: nat, attach: bool, total: int, quota: Option<int>, at: int)
    requires n < |v.roles|
    ensures Read(Change(marks, ReachedMarks(FirstRoles(v, n), key.model), attach),
                 EntryFor(key, v.roles[n], attach, v.roles[n] in v.failing, total, quota, at))
         == Change(marks, ReachedMarks(FirstRoles(v, n + 1), key.model), attach)
  {
    var role := v.roles[n];
    ReadGrows(marks, ReachedMarks(FirstRoles(v, n), key.model), key, role, attach, role in v.failing, total, quota, at);
    ReachedGrows(v, n, key.model);
  }

  lemma {:induction false} ReplayPrefix(log: seq<AuditEntry>, key: Key, v: Visit, n: nat, attach: bool, total: int,
      quota: Option<int>, at: int)
    requires n <= |v.roles|
    ensures Replay(log + VisitLog(key, FirstRoles(v, n), attach, total, quota, at))
         == Change(Replay(log), ReachedMarks(FirstRoles(v, n), key.model), attach)
  {
    if n == 0 {
      assert log + VisitLog(key, FirstRoles(v, 0), attach, total, quota, at) == log;
      assert ReachedMarks(FirstRoles(v, 0), key.model) == {};
    } else {
      ReplayPrefix(log, key, v, n - 1, attach, total, quota, at);
      ReplayNext(log, key, v, n - 1, attach, total, quota, at);
      ChangeNext(Replay(log), key, v, n - 1, attach, total, quota, at);
    }
  }

  lemma ReplayVisit(log: seq<AuditEntry>, key: Key, v: Visit, attach: bool, total: int, quota: Option<int>, at: int)
    ensures Replay(log + VisitLog(key, v, attach, total, quota, at))
         == Change(Replay(log), ReachedMarks(v, key.model), attach)
  {
    ReplayPrefix(log, key, v, |v.roles|, attach, total, quota, at);
    assert FirstRoles(v, |v.roles|) == v;
  }

  /** A call that succeeds on a role leaves there a policy for the model under the other endpoint. */
  predicate Misses(t: Tables, v: Visit, endpoint: Endpoint, model: Model) {
    exists d :: d in t.denies && d.role in v.roles && d.role !in v.failing && d.model == model && d.endpoint != endpoint
  }

  /** The removals of a visit keep log and policies in agreement exactly when they miss no policy. */
  lemma RemovalKeepsLogIff(t: Tables, key: Key, endpoint: Endpoint, v: Visit, total: int, quota: Option<int>, at: int)
    requires LogAgrees(t)
    ensures var log := t.audit + CallLog(key, v, REMOVE_DENY, REMOVE_DENY_FAILED, total, quota, at);
            Replay(log) == Marks(t.denies - Reached(v, endpoint, key.model)) <==> !Misses(t, v, endpoint, key.model)
  {
    ReplayVisit(t.audit, key, v, false, total, quota, at);
    var left := t.denies - Reached(v, endpoint, key.model);
    if Misses(t, v, endpoint, key.model) {
      var d :| d in t.denies && d.role in v.roles && d.role !in v.failing && d.model == key.model &&
          d.endpoint != endpoint;
      assert d in left;
      assert Mark(d.role, d.model) in Marks(left) && Mark(d.role, d.model) in ReachedMarks(v, key.model);
    } else {
      forall m ensures m in Marks(t.denies) - ReachedMarks(v, key.model) <==> m in Marks(left) {
        if d :| d in t.denies && m == Mark(d.role, d.model) && m !in ReachedMarks(v, key.model) {
          assert d in left;
        }
      }
    }
  }

  lemma BreachKeepsLog(t: Tables, u: Usage, v: Visit, now: int)
    requires LogAgrees(t)
    ensures LogAgrees(Breach(t, u, v, now))
  {
    ReplayVisit(t.audit, u.key, v, true, u.total, QuotaOf(t, u.key), now);
    var reached := Reached(v, u.endpoint, u.key.model);
    assert Marks(t.denies + reached) == Marks(t.denies) + Marks(reached);
    forall m | m in ReachedMarks(v, u.key.model) ensures m in Marks(reached) {
      assert Deny(m.role, u.endpoint, m.model) in reached;
    }
    assert Marks(reached) == ReachedMarks(v, u.key.model);
  }

  /** On the roles of a team, policies for a model belong to the row's endpoint, so a visit under it misses none. */
  lemma CoveredMissesNothing(t: Tables, key: Key, v: Visit, endpoint: Endpoint)
    requires Covered(t) && Lists(v, t.roles, key.team)
    requires key in t.rows ==> t.rows[key].endpoint == endpoint
    ensures !Misses(t, v, endpoint, key.model)
  {
    forall d | d in t.denies && d.role in v.roles && d.model == key.model ensures d.endpoint == endpoint {
      assert d.role in RolesOf(t.roles, key.team);
    }
  }

  // ---------- a visit that is cut off ----------

  function Other(e: Endpoint): Endpoint {
    if e == BedrockRuntime then BedrockMantle else BedrockRuntime
  }

  /** The last call has succeeded and is not logged, and the role has not been visited before. */
  predicate LastIsUnlogged(v: Visit, cut: Cut) {
    && cut.logged < cut.calls <= |v.roles|
    && v.roles[cut.logged] !in v.failing && v.roles[cut.logged] !in v.roles[..cut.logged]
  }

  /** The unlogged call attaches a policy for a model that the role had none for. */
  predicate AttachesLast(t: Tables, v: Visit, model: Model, cut: Cut) {
    LastIsUnlogged(v, cut) && Mark(v.roles[cut.logged], model) !in Marks(t.denies)
  }

  /** The unlogged call removes the role's only policy for the model. */
  predicate RemovesLast(t: Tables, v: Visit, endpoint: Endpoint, model: Model, cut: Cut) {
    && LastIsUnlogged(v, cut)
    && Deny(v.roles[cut.logged], endpoint, model) in t.denies
    && Deny(v.roles[cut.logged], Other(endpoint), model) !in t.denies
  }

  lemma MarkInMarks(denies: set<Deny>, e: Endpoint, role: Role, model: Model)
    ensures Mark(role, model) in Marks(denies) <==>
              Deny(role, e, model) in denies || Deny(role, Other(e), model) in denies
  {
    if Mark(role, model) in Marks(denies) {
      var d :| d in denies && Mark(d.role, d.model) == Mark(role, model);
      assert d == Deny(role, e, model) || d == Deny(role, Other(e), model);
    }
    if Deny(role, e, model) in denies { assert Mark(role, model) in Marks(denies); }
    if Deny(role, Other(e), model) in denies { assert Mark(role, model) in Marks(denies); }
  }

  /** The policies reached by the calls are those reached by the logged ones, and that of the last call. */
  lemma CalledIsLoggedAndLast(v: Visit, cut: Cut, endpoint: Endpoint, model: Model)
    requires CutFits(v, cut)
    ensures Reached(FirstRoles(v, cut.calls), endpoint, model) == Reached(FirstRoles(v, cut.logged), endpoint, model) +
              if LastIsUnlogged(v, cut) then {Deny(v.roles[cut.logged], endpoint, model)} else {}
  {
    if cut.logged < cut.calls {
      assert v.roles[..cut.calls] == v.roles[..cut.logged] + [v.roles[cut.logged]];
    }
  }

  lemma CutBreachKeepsLogIff(t: Tables, u: Usage, v: Visit, now: int, cut: Cut)
    requires LogAgrees(t) && Breaches(t, u) && CutFits(v, cut) && !cut.rowWritten
    ensures LogAgrees(Interrupted(t, u, v, now, cut)) <==> !AttachesLast(t, v, u.key.model, cut)
  {
    var e, m, logged := u.endpoint, u.key.model, FirstRoles(v, cut.logged);
    BreachKeepsLog(t, u, logged, now);
    CalledIsLoggedAndLast(v, cut, e, m);
    var before, after := t.denies + Reached(logged, e, m), t.denies + Reached(FirstRoles(v, cut.calls), e, m);
    if LastIsUnlogged(v, cut) {
      var r := v.roles[cut.logged];
      assert after == before + {Deny(r, e, m)};
      assert Marks(after) == Marks(before) + {Mark(r, m)};
      MarkInMarks(before, e, r, m);
      MarkInMarks(t.denies, e, r, m);
    } else {
      assert after == before;
    }
  }

  lemma CutRemovalKeepsLogIff(t: Tables, key: Key, e: Endpoint, v: Visit, cut: Cut, total: int, quota: Option<int>,
      at: int)
    requires LogAgrees(t) && CutFits(v, cut)
    ensures var log := t.audit + CallLog(key, FirstRoles(v, cut.logged), REMOVE_DENY, REMOVE_DENY_FAILED, total, quota,
              at);
            Replay(log) == Marks(t.denies - Reached(FirstRoles(v, cut.calls), e, key.model)) <==>
            !Misses(t, FirstRoles(v, cut.logged), e, key.model) && !RemovesLast(t, v, e, key.model, cut)
  {
    var m, logged := key.model, FirstRoles(v, cut.logged);
    var log := t.audit + CallLog(key, logged, REMOVE_DENY, REMOVE_DENY_FAILED, total, quota, at);
    RemovalKeepsLogIff(t, key, e, logged, total, quota, at);
    ReplayVisit(t.audit, key, logged, false, total, quota, at);
    CalledIsLoggedAndLast(v, cut, e, m);
    var before, after := t.denies - Reached(logged, e, m), t.denies - Reached(FirstRoles(v, cut.calls), e, m);
    if LastIsUnlogged(v, cut) {
      var r := v.roles[cut.logged];
      assert after == before - {Deny(r, e, m)};
      LastRemoval(before, e, r, m);
      assert Mark(r, m) !in ReachedMarks(logged, m);
      assert Deny(r, e, m) in before <==> Deny(r, e, m) in t.denies;
      assert Deny(r, Other(e), m) in before <==> Deny(r, Other(e), m) in t.denies;
      MarkInMarks(t.denies, e, r, m);
      if Misses(t, logged, e, m) {
        MissedMark(t, logged, e, m, after);
      }
    } else {
      assert after == before;
    }
  }

  /** Removing one policy takes its mark away unless the other endpoint keeps it. */
  lemma LastRemoval(before: set<Deny>, e: Endpoint, r: Role, m: Model)
    ensures var only := Deny(r, e, m) in before && Deny(r, Other(e), m) !in before;
            Marks(before - {Deny(r, e, m)}) == if only then Marks(before) - {Mark(r, m)} else Marks(before)
  {
    var after := before - {Deny(r, e, m)};
    forall x
      ensures x in Marks(after) <==> x in Marks(before) && (x == Mark(r, m) ==> Deny(r, Other(e), m) in before)
    {
      MarkInMarks(after, e, x.role, x.model);
      MarkInMarks(before, e, x.role, x.model);
    }
  }

  /** What is missed stays, while the log has it removed. */
  lemma MissedMark(t: Tables, logged: Visit, e: Endpoint, m: Model, after: set<Deny>)
    requires Misses(t, logged, e, m) && forall d :: d in t.denies && d.endpoint != e ==> d in after
    ensures Marks(t.denies) - ReachedMarks(logged, m) != Marks(after)
  {
    var d :| d in t.denies && d.role in logged.roles && d.role !in logged.failing && d.model == m && d.endpoint != e;
    assert Mark(d.role, m) in Marks(after) && Mark(d.role, m) in ReachedMarks(logged, m);
  }

  // ---------- a reset ----------

  /** The marks that the successful calls for the pairs are about. */
  function AllReached(pairs: seq<Pair>, visits: Key -> Visit): set<Mark> {
    if pairs == [] then {}
    else
      var last := pairs[|pairs| - 1];
      AllReached(pairs[..|pairs| - 1], visits) + ReachedMarks(visits(last.key), last.key.model)
  }

  lemma {:induction false} AllReachedHas(pairs: seq<Pair>, visits: Key -> Visit, m: Mark)
    ensures m in AllReached(pairs, visits) <==>
            exists i :: 0 <= i < |pairs| && m in ReachedMarks(visits(pairs[i].key), pairs[i].key.model)
  {
    if pairs == [] {
    } else {
      AllReachedHas(pairs[..|pairs| - 1], visits, m);
      assert pairs == pairs[..|pairs| - 1] + [pairs[|pairs| - 1]];
    }
  }

  /** Replaying the log of a list of pairs removes exactly the marks reached. */
  lemma {:induction false} ReplayResetAll(t: Tables, pairs: seq<Pair>, visits: Key -> Visit, now: int)
    ensures Replay(ResetAll(t, pairs, visits, now).audit) == Replay(t.audit) - AllReached(pairs, visits)
  {
    if pairs == [] {
    } else {
      var n := |pairs| - 1;
      ReplayResetAll(t, pairs[..n], visits, now);
      ReplayVisit(ResetAll(t, pairs[..n], visits, now).audit, pairs[n].key, visits(pairs[n].key), false, 0, None, now);
    }
  }

  /** A due row's calls miss a policy under the other endpoint. */
  ghost predicate ResetMisses(t: Tables, r: Reset) {
    exists k :: Due(t.rows, k, r.now) && Misses(t, r.visits(k), t.rows[k].endpoint, k.model)
  }

  /** The marks reached are those of the due rows' teams. */
  lemma ReachedByDue(t: Tables, r: Reset, m: Mark)
    requires WellFormed(t.rows) && Answers(t, r)
    ensures m in AllReached(Pairs(r), r.visits) <==>
            exists k :: Due(t.rows, k, r.now) && m in ReachedMarks(r.visits(k), k.model)
  {
    AllReachedHas(Pairs(r), r.visits, m);
    DueArePairs(t, r);
    if k :| Due(t.rows, k, r.now) && m in ReachedMarks(r.visits(k), k.model) {
      var i := DueIsListed(t, r, k);
      assert m in ReachedMarks(r.visits(Pairs(r)[i].key), Pairs(r)[i].key.model);
    }
  }

  /** A policy that the reset has left although its role was reached for its model was missed. */
  lemma LeftIsMissed(t: Tables, r: Reset, k: Key, d: Deny)
    requires WellFormed(t.rows) && Answers(t, r) && Due(t.rows, k, r.now)
    requires d in After(t, r).denies && MarkOfDeny(d) in ReachedMarks(r.visits(k), k.model)
    ensures d in t.denies && d.endpoint != t.rows[k].endpoint && Misses(t, r.visits(k), t.rows[k].endpoint, k.model)
  {
    TouchesExactlyTheDueRows(t, r);
    assert d in t.denies && !Lifted(t, r, d);
    assert Lists(r.visits(k), t.roles, k.team) && d.role in RolesOf(t.roles, k.team);
    assert !Enforces(t, d, k);
  }

  function MarkOfDeny(d: Deny): Mark {
    Mark(d.role, d.model)
  }

  /** A missed policy is left, and its mark is reached. */
  lemma MissedIsLeft(t: Tables, r: Reset, k: Key) returns (d: Deny)
    requires WellFormed(t.rows) && Answers(t, r) && Due(t.rows, k, r.now)
    requires Misses(t, r.visits(k), t.rows[k].endpoint, k.model)
    ensures d in After(t, r).denies && d.model == k.model && d.role in t.roles && t.roles[d.role] == k.team
    ensures MarkOfDeny(d) in ReachedMarks(r.visits(k), k.model)
  {
    var v, e := r.visits(k), t.rows[k].endpoint;
    d :| d in t.denies && d.role in v.roles && d.role !in v.failing && d.model == k.model && d.endpoint != e;
    TouchesExactlyTheDueRows(t, r);
    assert Lists(v, t.roles, k.team) && d.role in RolesOf(t.roles, k.team);
    assert forall k' :: Enforces(t, d, k') ==> k' == k;
    assert !Lifted(t, r, d);
  }

  lemma MidnightKeepsLogIff(t: Tables, r: Reset)
    requires LogAgrees(t) && WellFormed(t.rows) && Answers(t, r)
    ensures LogAgrees(After(t, r)) <==> !ResetMisses(t, r)
  {
    var t', reached := After(t, r), AllReached(Pairs(r), r.visits);
    ReplayResetAll(t, Pairs(r), r.visits, r.now);
    assert Replay(t'.audit) == Marks(t.denies) - reached;
    if ResetMisses(t, r) {
      var k :| Due(t.rows, k, r.now) && Misses(t, r.visits(k), t.rows[k].endpoint, k.model);
      var d := MissedIsLeft(t, r, k);
      ReachedByDue(t, r, MarkOfDeny(d));
      assert MarkOfDeny(d) in Marks(t'.denies) && MarkOfDeny(d) in reached;
    } else {
      forall m ensures m in Marks(t'.denies) <==> m in Marks(t.denies) && m !in reached {
        ReachedByDue(t, r, m);
        MarkAfterReset(t, r, m);
      }
    }
  }

  lemma MarkIn(denies: set<Deny>, d: Deny)
    ensures d in denies ==> MarkOfDeny(d) in Marks(denies)
  {
  }

  lemma MarkAfterReset(t: Tables, r: Reset, m: Mark)
    requires WellFormed(t.rows) && Answers(t, r) && !ResetMisses(t, r)
    ensures m in Marks(After(t, r).denies) <==>
            m in Marks(t.denies) && !exists k :: Due(t.rows, k, r.now) && m in ReachedMarks(r.visits(k), k.model)
  {
    var t' := After(t, r);
    TouchesExactlyTheDueRows(t, r);
    if m in Marks(t'.denies) {
      var d :| d in t'.denies && m == MarkOfDeny(d);
      assert d in t.denies;
      forall k | Due(t.rows, k, r.now) && m in ReachedMarks(r.visits(k), k.model) ensures false {
        LeftIsMissed(t, r, k, d);
      }
    }
    if m in Marks(t.denies) && m !in Marks(t'.denies) {
      var d :| d in t.denies && m == MarkOfDeny(d);
      MarkIn(t'.denies, d);
      assert Lifted(t, r, d);
      var k :| Due(t.rows, k, r.now) && Enforces(t, d, k) && d.role !in r.visits(k).failing;
      assert Lists(r.visits(k), t.roles, k.team) && d.role in RolesOf(t.roles, k.team);
      assert d.role in r.visits(k).roles && MarkOfDeny(d) == Mark(d.role, k.model);
    }
  }

  // ---------- tagging ----------

  /** Tagging attaches a policy that the log says nothing about. */
  ghost predicate AttachesUnlogged(t: Tables, role: Role, models: seq<BlockedModel>, failing: set<BlockedModel>) {
    exists b :: b in models[..FirstFailure(models, failing)] && Mark(role, b.model) !in Marks(t.denies)
  }

  lemma TaggingKeepsLogIff(t: Tables, role: Role, team: Team, models: seq<BlockedModel>, failing: set<BlockedModel>)
    requires LogAgrees(t)
    ensures LogAgrees(TagRole(t, role, team, models, failing)) <==> !AttachesUnlogged(t, role, models, failing)
  {
    var t' := TagRole(t, role, team, models, failing);
    var attached := models[..FirstFailure(models, failing)];
    forall b | b in attached ensures Mark(role, b.model) in Marks(t'.denies) {
      assert Deny(role, b.endpoint, b.model) in t'.denies;
    }
    forall m | m in Marks(t.denies) ensures m in Marks(t'.denies) {
      var d :| d in t.denies && m == Mark(d.role, d.model);
      assert d in t'.denies;
    }
    forall m | m in Marks(t'.denies)
      ensures m in Marks(t.denies) || exists b :: b in attached && m == Mark(role, b.model)
    {
    }
  }

  // ---------- the log over runs ----------

  /** The step makes the log and the policies disagree; a caller can check it before the step. */
  ghost predicate BreaksLog(t: Tables, step: Step) {
    match step
    case UsageChange(u, v, _) => Removes(t, u) && Misses(t, v, u.endpoint, u.key.model)
    case UsageCut(u, v, _, cut) =>
      if cut.rowWritten then Removes(t, u) && Misses(t, v, u.endpoint, u.key.model)
      else
        || (Breaches(t, u) && AttachesLast(t, v, u.key.model, cut))
        || (Removes(t, u) && CutMisses(t, v, u.endpoint, u.key.model, cut))
    case MidnightReset(reset) => ResetMisses(t, reset)
    case ManualRemoval(key, v, now) => Misses(t, v, ManualPair(t, key, now).endpoint, key.model)
    case ManualCut(key, v, now, cut) =>
      if cut.rowWritten then Misses(t, v, ManualPair(t, key, now).endpoint, key.model)
      else CutMisses(t, v, ManualPair(t, key, now).endpoint, key.model, cut)
    case RoleTagged(role, _, models, failing) => AttachesUnlogged(t, role, models, failing)
    case _ => false
  }

  /** A logged removal misses a policy, or an unlogged one removes the role's only policy for the model. */
  predicate CutMisses(t: Tables, v: Visit, endpoint: Endpoint, model: Model, cut: Cut) {
    Misses(t, FirstRoles(v, cut.logged), endpoint, model) || RemovesLast(t, v, endpoint, model, cut)
  }

  lemma UsageKeepsLogIff(t: Tables, u: Usage, v: Visit, now: int)
    requires LogAgrees(t)
    ensures LogAgrees(Evaluate(t, u, v, now)) <==> !(Removes(t, u) && Misses(t, v, u.endpoint, u.key.model))
  {
    if Breaches(t, u) {
      BreachKeepsLog(t, u, v, now);
    } else if Removes(t, u) {
      RemovalKeepsLogIff(t, u.key, u.endpoint, v, u.total, QuotaOf(t, u.key), now);
    }
  }

  lemma UsageCutKeepsLogIff(t: Tables, u: Usage, v: Visit, now: int, cut: Cut)
    requires LogAgrees(t) && CutFits(v, cut)
    ensures LogAgrees(Interrupted(t, u, v, now, cut)) <==> !BreaksLog(t, UsageCut(u, v, now, cut))
  {
    if cut.rowWritten {
      UsageKeepsLogIff(t, u, v, now);
    } else if Breaches(t, u) {
      CutBreachKeepsLogIff(t, u, v, now, cut);
    } else if Removes(t, u) {
      CutRemovalKeepsLogIff(t, u.key, u.endpoint, v, cut, u.total, QuotaOf(t, u.key), now);
    }
  }

  lemma OverrideKeepsLogIff(t: Tables, key: Key, v: Visit, now: int)
    requires LogAgrees(t)
    ensures LogAgrees(ResetPair(t, ManualPair(t, key, now), v, now)) <==>
            !Misses(t, v, ManualPair(t, key, now).endpoint, key.model)
  {
    RemovalKeepsLogIff(t, key, ManualPair(t, key, now).endpoint, v, 0, None, now);
  }

  lemma OverrideCutKeepsLogIff(t: Tables, key: Key, v: Visit, now: int, cut: Cut)
    requires LogAgrees(t) && CutFits(v, cut)
    ensures LogAgrees(InterruptedPair(t, ManualPair(t, key, now), v, now, cut)) <==>
            !BreaksLog(t, ManualCut(key, v, now, cut))
  {
    if cut.rowWritten {
      OverrideKeepsLogIff(t, key, v, now);
    } else {
      CutRemovalKeepsLogIff(t, key, ManualPair(t, key, now).endpoint, v, cut, 0, None, now);
    }
  }

  /** For any tables, the exact condition of each kind of step. */
  lemma StepKeepsLogIff(t: Tables, step: Step)
    requires WellFormed(t.rows) && Answered(t, step) && LogAgrees(t)
    ensures LogAgrees(Apply(t, step)) <==> !BreaksLog(t, step)
  {
    match step
    case UsageChange(u, v, now) => UsageKeepsLogIff(t, u, v, now);
    case UsageCut(u, v, now, cut) => UsageCutKeepsLogIff(t, u, v, now, cut);
    case MidnightReset(reset) => MidnightKeepsLogIff(t, reset);
    case ManualRemoval(key, v, now) => OverrideKeepsLogIff(t, key, v, now);
    case ManualCut(key, v, now, cut) => OverrideCutKeepsLogIff(t, key, v, now, cut);
    case RoleTagged(role, team, models, failing) => TaggingKeepsLogIff(t, role, team, models, failing);
    case _ =>
  }

  ghost predicate LogAgreesThroughout(t: Tables, steps: seq<Step>)
    decreases |steps|
  {
    steps != [] ==> LogAgrees(Apply(t, steps[0])) && LogAgreesThroughout(Apply(t, steps[0]), steps[1..])
  }

  ghost predicate NoneBreaksLog(t: Tables, steps: seq<Step>)
    decreases |steps|
  {
    steps != [] ==> !BreaksLog(t, steps[0]) && NoneBreaksLog(Apply(t, steps[0]), steps[1..])
  }

  /**
   Over any run: reading the audit log from the start gives exactly the attached denies in all states if and only if
   no step breaks the log.
   */
  lemma {:induction false} AuditReplay(t: Tables, steps: seq<Step>)
    requires WellFormed(t.rows) && LogAgrees(t) && AnsweredRun(t, steps)
    ensures LogAgreesThroughout(t, steps) <==> NoneBreaksLog(t, steps)
    decreases |steps|
  {
    if steps == [] {
    } else {
      StepKeepsLogIff(t, steps[0]);
      StepKeepsWellFormed(t, steps[0]);
      if !BreaksLog(t, steps[0]) {
        AuditReplay(Apply(t, steps[0]), steps[1..]);
      }
    }
  }

  // ---------- the notifications ----------

  /** No role mapped to the team carries a deny policy for the model. */
  ghost predicate FreeOf(t: Tables, key: Key) {
    forall d :: d in t.denies && d.role in t.roles && t.roles[d.role] == key.team ==> d.model != key.model
  }

  ghost predicate Announces(t: Tables, t': Tables, key: Key)
    requires t.events <= t'.events
  {
    RestoredEvent(key) in t'.events[|t.events|..]
  }

  /**
   What is announced holds: the pair has no row and no role of its team is denied. Every deleted row is announced,
   and a row that stays keeps its day and endpoint.
   */
  ghost predicate Honest(t: Tables, t': Tables) {
    && t.events <= t'.events
    && (forall k :: Announces(t, t', k) ==> k !in t'.rows && FreeOf(t', k))
    && RowsAccountedFor(t, t')
  }

  ghost predicate RowsAccountedFor(t: Tables, t': Tables)
    requires t.events <= t'.events
  {
    && (forall k :: k in t.rows && k !in t'.rows ==> Announces(t, t', k))
    && (forall k :: k in t.rows && k in t'.rows ==>
          t'.rows[k] == t.rows[k] || t'.rows[k] == PendingRow(t.rows[k].day, t.rows[k].endpoint))
  }

  /** The new events of a step on one pair. */
  lemma OneNews(events: seq<Event>, e: Event)
    ensures (events + [e])[|events|..] == [e] && (events + [])[|events|..] == []
  {
  }

  /** After a removal without a failing call, the team is free exactly when no policy was missed. */
  lemma FreeIffNoneMissed(t: Tables, key: Key, v: Visit, endpoint: Endpoint, t': Tables)
    requires Lists(v, t.roles, key.team) && !AnyFailed(v)
    requires t'.roles == t.roles && t'.denies == t.denies - Reached(v, endpoint, key.model)
    ensures FreeOf(t', key) <==> !Misses(t, v, endpoint, key.model)
  {
    assert forall r :: r in v.roles <==> r in RolesOf(t.roles, key.team);
    if Misses(t, v, endpoint, key.model) {
      var d :| d in t.denies && d.role in v.roles && d.role !in v.failing && d.model == key.model &&
          d.endpoint != endpoint;
      assert d in t'.denies;
    }
  }

  lemma UsageIsHonestIff(t: Tables, u: Usage, v: Visit, now: int)
    requires Lists(v, t.roles, u.key.team)
    ensures Honest(t, Evaluate(t, u, v, now)) <==>
              !(Removes(t, u) && !AnyFailed(v) && Misses(t, v, u.endpoint, u.key.model))
  {
    var t' := Evaluate(t, u, v, now);
    OneNews(t.events, BlockedEvent(u.key));
    OneNews(t.events, RestoredEvent(u.key));
    if Removes(t, u) && !AnyFailed(v) {
      FreeIffNoneMissed(t, u.key, v, u.endpoint, t');
      assert forall k :: Announces(t, t', k) <==> k == u.key;
    } else {
      assert forall k :: !Announces(t, t', k);
    }
  }

  lemma OverrideIsHonestIff(t: Tables, key: Key, v: Visit, now: int)
    requires Lists(v, t.roles, key.team)
    ensures Honest(t, ResetPair(t, ManualPair(t, key, now), v, now)) <==>
            !(!AnyFailed(v) && Misses(t, v, ManualPair(t, key, now).endpoint, key.model))
  {
    var t' := ResetPair(t, ManualPair(t, key, now), v, now);
    OneNews(t.events, RestoredEvent(key));
    if !AnyFailed(v) {
      FreeIffNoneMissed(t, key, v, ManualPair(t, key, now).endpoint, t');
      assert forall k :: Announces(t, t', k) <==> k == key;
    } else {
      assert forall k :: !Announces(t, t', k);
    }
  }

  /** A due row whose calls all succeed, while one misses a policy. */
  ghost predicate ResetAnnouncesFalsely(t: Tables, r: Reset) {
    exists k :: Due(t.rows, k, r.now) && !Fails(r, k) && Misses(t, r.visits(k), t.rows[k].endpoint, k.model)
  }

  lemma ResetNews(t: Tables, r: Reset)
    requires WellFormed(t.rows) && Answers(t, r)
    ensures var t' := After(t, r);
      && t.events <= t'.events && RowsAccountedFor(t, t')
      && forall k :: Announces(t, t', k) <==> Due(t.rows, k, r.now) && !Fails(r, k)
    ensures forall k :: Due(t.rows, k, r.now) && !Fails(r, k) ==> k !in After(t, r).rows
  {
    var t' := After(t, r);
    TouchedRows(t, r);
    Announced(t, r);
    var news := Cleared(Pairs(r), r.visits);
    assert t'.events[|t.events|..] == news;
    forall k ensures Announces(t, t', k) <==> Due(t.rows, k, r.now) && !Fails(r, k) {
      assert RestoredEvent(k) in news <==> Announces(t, t', k);
    }
    forall k
      ensures k in t.rows && k !in t'.rows ==> Announces(t, t', k)
      ensures k in t.rows && k in t'.rows ==>
                t'.rows[k] == t.rows[k] || t'.rows[k] == PendingRow(t.rows[k].day, t.rows[k].endpoint)
      ensures Due(t.rows, k, r.now) && !Fails(r, k) ==> k !in t'.rows
    {
      assert RowAfter(t, r, k);
    }
  }

  lemma MidnightIsHonestIff(t: Tables, r: Reset)
    requires WellFormed(t.rows) && Answers(t, r)
    ensures Honest(t, After(t, r)) <==> !ResetAnnouncesFalsely(t, r)
  {
    var t' := After(t, r);
    ResetNews(t, r);
    forall k | Due(t.rows, k, r.now) && !Fails(r, k)
      ensures FreeOf(t', k) <==> !Misses(t, r.visits(k), t.rows[k].endpoint, k.model)
    {
      FreeAfterReset(t, r, k);
    }
  }

  lemma FreeAfterReset(t: Tables, r: Reset, k: Key)
    requires WellFormed(t.rows) && Answers(t, r) && Due(t.rows, k, r.now) && !Fails(r, k)
    ensures FreeOf(After(t, r), k) <==> !Misses(t, r.visits(k), t.rows[k].endpoint, k.model)
  {
    if Misses(t, r.visits(k), t.rows[k].endpoint, k.model) {
      var d := MissedIsLeft(t, r, k);
      TouchesExactlyTheDueRows(t, r);
      assert d in After(t, r).denies;
    } else if !FreeOf(After(t, r), k) {
      NotFreeIsMissed(t, r, k);
    }
  }

  lemma NotFreeIsMissed(t: Tables, r: Reset, k: Key)
    requires WellFormed(t.rows) && Answers(t, r) && Due(t.rows, k, r.now) && !Fails(r, k) && !FreeOf(After(t, r), k)
    ensures Misses(t, r.visits(k), t.rows[k].endpoint, k.model)
  {
    var t', v := After(t, r), r.visits(k);
    TouchesExactlyTheDueRows(t, r);
    assert Lists(v, t.roles, k.team);
    var d :| d in t'.denies && d.role in t'.roles && t'.roles[d.role] == k.team && d.model == k.model;
    assert d.role in RolesOf(t.roles, k.team) && d.role in v.roles && d.role !in v.failing;
    LeftIsMissed(t, r, k, d);
  }

  /** The step announces falsely, or deletes a row and dies before the announcement; a caller can check it before. */
  ghost predicate Misleads(t: Tables, step: Step) {
    match step
    case UsageChange(u, v, _) => Removes(t, u) && !AnyFailed(v) && Misses(t, v, u.endpoint, u.key.model)
    case UsageCut(u, v, _, cut) => cut.rowWritten && Removes(t, u) && !AnyFailed(v)
    case MidnightReset(reset) => ResetAnnouncesFalsely(t, reset)
    case ManualRemoval(key, v, now) => !AnyFailed(v) && Misses(t, v, ManualPair(t, key, now).endpoint, key.model)
    case ManualCut(key, v, _, cut) => cut.rowWritten && key in t.rows && !AnyFailed(v)
    case _ => false
  }

  /** What dies before the announcement is honest exactly when it keeps every row, or makes it PENDING_RESET. */
  lemma SilentIsHonestIff(t: Tables, t': Tables)
    requires t'.events == t.events
    ensures Honest(t, t') <==> (forall k :: k in t.rows ==> k in t'.rows) && RowsAccountedFor(t, t')
  {
    assert t'.events[|t.events|..] == [];
    assert forall k :: !Announces(t, t', k);
  }

  lemma RowsAfterUsage(t: Tables, u: Usage, v: Visit, now: int)
    ensures var rows := Evaluate(t, u, v, now).rows;
            if Removes(t, u) && !AnyFailed(v) then u.key in t.rows && u.key !in rows
            else forall k :: k in t.rows ==> k in rows && rows[k] == t.rows[k]
  {
  }

  lemma UsageCutIsHonestIff(t: Tables, u: Usage, v: Visit, now: int, cut: Cut)
    ensures Honest(t, Interrupted(t, u, v, now, cut)) <==> !(cut.rowWritten && Removes(t, u) && !AnyFailed(v))
  {
    SilentIsHonestIff(t, Interrupted(t, u, v, now, cut));
    RowsAfterUsage(t, u, v, now);
  }

  lemma OverrideCutIsHonestIff(t: Tables, key: Key, v: Visit, now: int, cut: Cut)
    ensures Honest(t, InterruptedPair(t, ManualPair(t, key, now), v, now, cut)) <==>
            !(cut.rowWritten && key in t.rows && !AnyFailed(v))
  {
    var t' := InterruptedPair(t, ManualPair(t, key, now), v, now, cut);
    SilentIsHonestIff(t, t');
    if cut.rowWritten && key in t.rows && !AnyFailed(v) {
      assert key !in t'.rows;
    }
  }

  /** For any tables: a step tells the truth if and only if it does not mislead. */
  lemma StepIsHonestIff(t: Tables, step: Step)
    requires WellFormed(t.rows) && Answered(t, step)
    ensures Honest(t, Apply(t, step)) <==> !Misleads(t, step)
  {
    match step
    case UsageChange(u, v, now) => UsageIsHonestIff(t, u, v, now);
    case UsageCut(u, v, now, cut) => UsageCutIsHonestIff(t, u, v, now, cut);
    case MidnightReset(reset) => MidnightIsHonestIff(t, reset);
    case ManualRemoval(key, v, now) => OverrideIsHonestIff(t, key, v, now);
    case ManualCut(key, v, now, cut) => OverrideCutIsHonestIff(t, key, v, now, cut);
    case _ => assert Apply(t, step).events[|t.events|..] == [];
  }

  ghost predicate HonestRun(t: Tables, steps: seq<Step>)
    decreases |steps|
  {
    steps != [] ==> Honest(t, Apply(t, steps[0])) && HonestRun(Apply(t, steps[0]), steps[1..])
  }

  ghost predicate NoneMisleads(t: Tables, steps: seq<Step>)
    decreases |steps|
  {
    steps != [] ==> !Misleads(t, steps[0]) && NoneMisleads(Apply(t, steps[0]), steps[1..])
  }

  /** Over any run: every announcement is true and every deleted row announced if and only if no step misleads. */
  lemma {:induction false} NoFalseRestore(t: Tables, steps: seq<Step>)
    requires WellFormed(t.rows) && AnsweredRun(t, steps)
    ensures HonestRun(t, steps) <==> NoneMisleads(t, steps)
    ensures WellFormed(Run(t, steps).rows)
    decreases |steps|
  {
    if steps == [] {
    } else {
      StepIsHonestIff(t, steps[0]);
      StepKeepsWellFormed(t, steps[0]);
      NoFalseRestore(Apply(t, steps[0]), steps[1..]);
    }
  }

  // ---------- one endpoint for each pair ----------

  /** No mapping change, no tagging and no cut breach leaves a policy without a row. */
  ghost predicate StrandsNothing(t: Tables, steps: seq<Step>)
    decreases |steps|
  {
    steps != [] ==> !Strands(t, steps[0]) && StrandsNothing(Apply(t, steps[0]), steps[1..])
  }

  predicate RunsToItsEnd(step: Step) {
    !step.UsageCut? && !step.ManualCut?
  }

  lemma OneEndpointMissesNothing(t: Tables, step: Step, f: Key -> Endpoint)
    requires Covered(t) && BlockedUnder(t.rows, f) && Answered(t, step) && OneEndpoint(step, f)
    ensures RunsToItsEnd(step) ==> !Misleads(t, step)
    ensures RunsToItsEnd(step) && BreaksLog(t, step) ==> step.RoleTagged?
  {
    match step
    case UsageChange(u, v, _) =>
      if Removes(t, u) {
        CoveredMissesNothing(t, u.key, v, u.endpoint);
      }
    case MidnightReset(r) =>
      forall k | Due(t.rows, k, r.now) ensures !Misses(t, r.visits(k), t.rows[k].endpoint, k.model) {
        CoveredMissesNothing(t, k, r.visits(k), t.rows[k].endpoint);
      }
    case ManualRemoval(key, v, now) => CoveredMissesNothing(t, key, v, ManualPair(t, key, now).endpoint);
    case _ =>
  }

  /**
   In a run in which every policy keeps its row and no invocation dies, usage of each pair from one endpoint is
   enough, whatever calls fail: nothing misleads, and nothing but tagging breaks the log.
   */
  lemma {:induction false} OneEndpointIsEnough(t: Tables, steps: seq<Step>, f: Key -> Endpoint)
    requires WellFormed(t.rows) && Covered(t) && BlockedUnder(t.rows, f)
    requires AnsweredRun(t, steps) && StrandsNothing(t, steps)
    requires forall i :: 0 <= i < |steps| ==> OneEndpoint(steps[i], f) && RunsToItsEnd(steps[i])
    ensures NoneMisleads(t, steps)
    ensures (forall i :: 0 <= i < |steps| ==> !steps[i].RoleTagged?) ==> NoneBreaksLog(t, steps)
    decreases |steps|
  {
    if steps == [] {
    } else {
      OneEndpointMissesNothing(t, steps[0], f);
      StepKeepsWellFormed(t, steps[0]);
      StepKeepsCoveredIff(t, steps[0]);
      StepKeepsBlockedUnder(t, steps[0], f);
      OneEndpointIsEnough(Apply(t, steps[0]), steps[1..], f);
    }
  }
}
