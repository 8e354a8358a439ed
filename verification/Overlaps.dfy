/**
 Triggers that overlap. A usage change reads the quota, the row and the role listing, makes its IAM calls and then
 writes the row; other triggers may come in between. What it decides by is then older than what it writes into.
 */
module Overlaps {
  import opened Domain
  import opened Enforcement
  import opened Runs

  /** The change decided by the tables `seen`, and with a listing of any age, as it is written into the tables `t`. */
  function Late(seen: Tables, t: Tables, u: Usage, v: Visit, now: int): Tables {
    var reached, quota := Reached(v, u.endpoint, u.key.model), QuotaOf(seen, u.key);
    if Breaches(seen, u) then
      t.(denies := t.denies + reached,
         audit := t.audit + CallLog(u.key, v, ATTACH_DENY, ATTACH_DENY_FAILED, u.total, quota, now),
         rows := t.rows[u.key := BlockedRow(u.day, u.endpoint)],
         events := t.events + [BlockedEvent(u.key)])
    else if Removes(seen, u) then
      var visited := t.(
        denies := t.denies - reached,
        audit := t.audit + CallLog(u.key, v, REMOVE_DENY, REMOVE_DENY_FAILED, u.total, quota, now));
      if AnyFailed(v) then visited
      else visited.(rows := t.rows - {u.key}, events := t.events + [RestoredEvent(u.key)])
    else t
  }

  /** Without anything in between, it is the usage change as one step. */
  lemma LateOfNothing(t: Tables, u: Usage, v: Visit, now: int)
    ensures Late(t, t, u, v, now) == Evaluate(t, u, v, now)
  {
  }

  /** The log quotes the quota that the change was decided by, whatever it is by the time of the entry. */
  lemma LateLog(seen: Tables, t: Tables, u: Usage, v: Visit, now: int)
    requires u.key !in seen.rows && u.key in seen.quotas && seen.quotas[u.key] != 0 && seen.quotas[u.key] <= u.total
    ensures Logs(t.audit, Late(seen, t, u, v, now).audit, v, u.key, ATTACH_DENY, ATTACH_DENY_FAILED, u.total,
              Some(seen.quotas[u.key]), now)
  {
  }

  /** The roles whose call succeeds. */
  function Served(v: Visit): set<Role> {
    set r | r in v.roles && r !in v.failing
  }

  /** The role has the change's policy. */
  predicate Has(t: Tables, u: Usage, role: Role) {
    Deny(role, u.endpoint, u.key.model) in t.denies
  }

  /**
   A late breach: every role of the team is served or has the policy already, everyone else who is served has it
   already, and the pair is not blocked under the other endpoint, unless the team has no role.
   */
  ghost predicate BreachComesRight(t: Tables, u: Usage, v: Visit) {
    var roles := RolesOf(t.roles, u.key.team);
    && (forall r :: r in roles ==> r in Served(v) || Has(t, u, r))
    && (forall r :: r in Served(v) && r !in roles ==> Has(t, u, r))
    && (roles != {} ==> forall e :: IsBlocked(t.rows, u.key, e) ==> e == u.endpoint)
  }

  /**
   A late removal that deletes the row: no one outside the team loses a policy, and every role of the team loses the
   one that the row is about, if the row is still BLOCKED.
   */
  ghost predicate RemovalComesRight(t: Tables, u: Usage, v: Visit) {
    var roles := RolesOf(t.roles, u.key.team);
    && (forall r :: r in Served(v) && r !in roles ==> !Has(t, u, r))
    && (roles != {} ==> forall e :: IsBlocked(t.rows, u.key, e) ==> e == u.endpoint && roles <= Served(v))
  }

  ghost predicate LateKeepsExact(seen: Tables, t: Tables, u: Usage, v: Visit) {
    && (Breaches(seen, u) ==> BreachComesRight(t, u, v))
    && (Removes(seen, u) ==>
          if AnyFailed(v) then forall r :: r in Served(v) ==> !Has(t, u, r) else RemovalComesRight(t, u, v))
  }

  lemma LateBreachIff(seen: Tables, t: Tables, u: Usage, v: Visit, now: int)
    requires Exact(t) && Breaches(seen, u)
    ensures Exact(Late(seen, t, u, v, now)) <==> BreachComesRight(t, u, v)
  {
    var t', m := Late(seen, t, u, v, now), u.key.model;
    assert forall r :: r in Served(v) <==> Deny(r, u.endpoint, m) in Reached(v, u.endpoint, m);
    assert forall r :: r in RolesOf(t.roles, u.key.team) <==> r in t.roles && t.roles[r] == u.key.team;
    if Exact(t') {
      forall r | r in RolesOf(t.roles, u.key.team) ensures r in Served(v) || Has(t, u, r) {
        assert Deny(r, u.endpoint, m) in t'.denies;
      }
      forall r | r in Served(v) && r !in RolesOf(t.roles, u.key.team) ensures Has(t, u, r) {
        assert Deny(r, u.endpoint, m) in t'.denies;
      }
      forall r, e | r in RolesOf(t.roles, u.key.team) && IsBlocked(t.rows, u.key, e) ensures e == u.endpoint {
        assert Deny(r, e, m) in t.denies && Deny(r, e, m) in t'.denies;
      }
    }
  }

  lemma LateRemovalIff(seen: Tables, t: Tables, u: Usage, v: Visit, now: int)
    requires Exact(t) && Removes(seen, u) && !AnyFailed(v)
    ensures Exact(Late(seen, t, u, v, now)) <==> RemovalComesRight(t, u, v)
  {
    var t', m := Late(seen, t, u, v, now), u.key.model;
    assert forall r :: r in Served(v) <==> Deny(r, u.endpoint, m) in Reached(v, u.endpoint, m);
    assert forall r :: r in RolesOf(t.roles, u.key.team) <==> r in t.roles && t.roles[r] == u.key.team;
    if Exact(t') {
      forall r | r in Served(v) && r !in RolesOf(t.roles, u.key.team) ensures !Has(t, u, r) {
        assert Deny(r, u.endpoint, m) !in t'.denies;
      }
      forall r, e | r in RolesOf(t.roles, u.key.team) && IsBlocked(t.rows, u.key, e)
        ensures e == u.endpoint && r in Served(v)
      {
        assert Deny(r, e, m) in t.denies && Deny(r, e, m) !in t'.denies;
      }
    }
  }

  lemma LateFailureIff(seen: Tables, t: Tables, u: Usage, v: Visit, now: int)
    requires Exact(t) && Removes(seen, u) && AnyFailed(v)
    ensures Exact(Late(seen, t, u, v, now)) <==> forall r :: r in Served(v) ==> !Has(t, u, r)
  {
    var t', m := Late(seen, t, u, v, now), u.key.model;
    assert forall r :: r in Served(v) <==> Deny(r, u.endpoint, m) in Reached(v, u.endpoint, m);
    if r :| r in Served(v) && Has(t, u, r) {
      assert Deny(r, u.endpoint, m) !in t'.denies;
    } else {
      assert t'.denies == t.denies;
    }
  }

  /** Whatever has happened since the reads, and however old the listing is: when the write leaves exact tables. */
  lemma LateKeepsExactIff(seen: Tables, t: Tables, u: Usage, v: Visit, now: int)
    requires Exact(t)
    ensures Exact(Late(seen, t, u, v, now)) <==> LateKeepsExact(seen, t, u, v)
  {
    if Breaches(seen, u) {
      LateBreachIff(seen, t, u, v, now);
    } else if Removes(seen, u) && AnyFailed(v) {
      LateFailureIff(seen, t, u, v, now);
    } else if Removes(seen, u) {
      LateRemovalIff(seen, t, u, v, now);
    }
  }

  // ---------- a tagging in between ----------

  /** The roles of a team after a role has been tagged. */
  lemma TaggedRoles(t: Tables, role: Role, to: Team, models: seq<BlockedModel>, failing: set<BlockedModel>, team: Team)
    ensures RolesOf(TagRole(t, role, to, models, failing).roles, team)
         == if to == team then RolesOf(t.roles, team) + {role} else RolesOf(t.roles, team) - {role}
  {
  }

  /**
   Between the listing and the row write of a block, a role is tagged, which by itself keeps exactness. The end is
   exact if and only if the role was listed and stays in the team, or was not listed and goes elsewhere, or goes
   to a team that the same policy blocks.
   */
  lemma TaggingDuringBreachIff(t: Tables, role: Role, to: Team, models: seq<BlockedModel>, failing: set<BlockedModel>,
      u: Usage, v: Visit, now: int)
    requires Exact(t) && ListsBlocked(models, t.rows, to) && TagKeepsExact(t, role, to, models, failing)
    requires Breaches(t, u) && Lists(v, t.roles, u.key.team) && !AnyFailed(v)
    ensures Exact(Late(t, TagRole(t, role, to, models, failing), u, v, now)) <==>
            if to == u.key.team then role in v.roles
            else role in v.roles ==> IsBlocked(t.rows, Key(to, u.key.model), u.endpoint)
  {
    var tagged := TagRole(t, role, to, models, failing);
    TaggingKeepsExactIff(t, role, to, models, failing);
    LateBreachIff(t, tagged, u, v, now);
    TaggedRoles(t, role, to, models, failing, u.key.team);
    assert Served(v) == RolesOf(t.roles, u.key.team) by {
      assert forall r :: r in v.roles <==> r in RolesOf(t.roles, u.key.team);
    }
    assert Has(tagged, u, role) <==> IsBlocked(t.rows, Key(to, u.key.model), u.endpoint);
    assert tagged.rows == t.rows && u.key !in t.rows;
  }

  /**
   The same for a removal under the row's endpoint: exact if and only if the tagging does not change the team's
   roles.
   */
  lemma TaggingDuringRemovalIff(t: Tables, role: Role, to: Team, models: seq<BlockedModel>, failing: set<BlockedModel>,
      u: Usage, v: Visit, now: int)
    requires Exact(t) && ListsBlocked(models, t.rows, to) && TagKeepsExact(t, role, to, models, failing)
    requires Removes(t, u) && u.endpoint == t.rows[u.key].endpoint && Lists(v, t.roles, u.key.team) && !AnyFailed(v)
    ensures Exact(Late(t, TagRole(t, role, to, models, failing), u, v, now)) <==>
              (to == u.key.team <==> role in v.roles)
  {
    var tagged := TagRole(t, role, to, models, failing);
    TaggingKeepsExactIff(t, role, to, models, failing);
    LateRemovalIff(t, tagged, u, v, now);
    TaggedRoles(t, role, to, models, failing, u.key.team);
    assert Served(v) == RolesOf(t.roles, u.key.team) by {
      assert forall r :: r in v.roles <==> r in RolesOf(t.roles, u.key.team);
    }
    assert Has(tagged, u, role) <==> IsBlocked(t.rows, Key(to, u.key.model), u.endpoint);
    assert tagged.rows == t.rows && IsBlocked(t.rows, u.key, u.endpoint);
  }
}
