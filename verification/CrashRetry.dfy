/**
 A stream batch is retried as a whole when its handler dies. This module shows that dying does no harm:
 any number of passes, each cut off between two writes, followed by one complete pass, leave the rows and
 the deny policies as one complete pass does.
 */
module CrashRetry {
  import opened Domain
  import opened Enforcement
  import opened Runs

  /** A pass that handles `upto` records and is cut off in the handling of the next one. */
  datatype CutPass = CutPass(upto: nat, cut: Cut, visits: nat -> Visit, now: int)

  function AfterCut(t: Tables, records: seq<StreamRecord>, c: CutPass): Tables
    requires c.upto <= |records|
  {
    var before := HandleBatch(t, records[..c.upto], c.visits, c.now);
    if c.upto < |records| && Relevant(records[c.upto], UsageDay(c.now))
    then Interrupted(before, records[c.upto].image.usage, c.visits(c.upto), c.now, c.cut)
    else before
  }

  function AfterCuts(t: Tables, records: seq<StreamRecord>, cuts: seq<CutPass>): Tables
    requires forall c :: c in cuts ==> c.upto <= |records|
  {
    if cuts == [] then t else AfterCut(AfterCuts(t, records, cuts[..|cuts| - 1]), records, cuts[|cuts| - 1])
  }

  // ---------- what is asked of a pass ----------

  /** The relevant records of the batch carry one endpoint for each team and model. */
  ghost predicate OneEndpointPerKey(records: seq<StreamRecord>, today: Day, f: Key -> Endpoint) {
    forall i :: 0 <= i < |records| && Relevant(records[i], today) ==>
        records[i].image.usage.endpoint == f(records[i].image.usage.key)
  }

  /** Each record's roles are listed from the mapping, and every IAM call succeeds. */
  ghost predicate Smooth(records: seq<StreamRecord>, visits: nat -> Visit, roles: map<Role, Team>, today: Day) {
    forall i :: 0 <= i < |records| && Relevant(records[i], today) ==>
                  visits(i).failing == {} && Lists(visits(i), roles, records[i].image.usage.key.team)
  }

  ghost predicate SmoothCut(records: seq<StreamRecord>, c: CutPass, roles: map<Role, Team>) {
    && c.upto <= |records|
    && Smooth(records, c.visits, roles, UsageDay(c.now))
    && (c.upto < |records| ==> CutFits(c.visits(c.upto), c.cut))
  }

  // ---------- the tables as one key sees them ----------

  datatype View = View(row: Option<Row>, denied: set<Role>)

  /** The parts of the batch that concern one key: the fresh row, the team's roles, and what each record decides. */
  datatype Case = Case(newRow: Row, roles: set<Role>, breaches: seq<bool>)

  function ViewOf(t: Tables, k: Key, f: Key -> Endpoint): View {
    View(if k in t.rows then Some(t.rows[k]) else None,
         set r | r in RolesOf(t.roles, k.team) && Deny(r, f(k), k.model) in t.denies)
  }

  function CaseOf(t: Tables, records: seq<StreamRecord>, today: Day, k: Key, f: Key -> Endpoint): Case {
    Case(BlockedRow(today, f(k)), RolesOf(t.roles, k.team), BreachesOf(t, records, today, k))
  }

  function BreachesOf(t: Tables, records: seq<StreamRecord>, today: Day, k: Key): seq<bool> {
    if records == [] then []
    else
      var n := |records| - 1;
      var last := records[n];
      BreachesOf(t, records[..n], today, k) +
      if Relevant(last, today) && last.image.usage.key == k then [!Unrestricted(t, last.image.usage)] else []
  }

  predicate Standing(v: View) {
    v.row.Some? && v.row.value.status == BLOCKED
  }

  function Decide(v: View, c: Case, breach: bool): View {
    if breach && v.row.None? then View(Some(c.newRow), c.roles)
    else if !breach && Standing(v) then View(None, {})
    else v
  }

  function DecidePart(v: View, breach: bool, written: set<Role>): View {
    if breach && v.row.None? then v.(denied := v.denied + written)
    else if !breach && Standing(v) then v.(denied := v.denied - written)
    else v
  }

  function DecideAll(v: View, c: Case): View
    decreases |c.breaches|
  {
    if c.breaches == [] then v
    else
      var n := |c.breaches| - 1;
      Decide(DecideAll(v, c.(breaches := c.breaches[..n])), c, c.breaches[n])
  }

  /** Where the decisions lead, without walking through them. */
  function Outcome(v: View, c: Case): View {
    if c.breaches == [] || (v.row.Some? && v.row.value.status == PENDING_RESET) then v
    else if (true !in c.breaches && v.row.None?) || (false !in c.breaches && v.row.Some?) then v
    else if c.breaches[|c.breaches| - 1] then View(Some(c.newRow), c.roles)
    else View(None, {})
  }

  lemma {:induction false} DecisionsLeadToOutcome(v: View, c: Case)
    requires c.newRow.status == BLOCKED
    ensures DecideAll(v, c) == Outcome(v, c)
    decreases |c.breaches|
  {
    if c.breaches == [] {
    } else {
      var n := |c.breaches| - 1;
      DecisionsLeadToOutcome(v, c.(breaches := c.breaches[..n]));
      assert c.breaches == c.breaches[..n] + [c.breaches[n]];
      assert n > 0 ==> c.breaches[n - 1] in c.breaches[..n];
    }
  }

  function Prefix(c: Case, n: nat): Case
    requires n <= |c.breaches|
  {
    c.(breaches := c.breaches[..n])
  }

  /** Deciding some records, and part of the next, does not change where all the records lead. */
  lemma InterruptionForgotten(v: View, c: Case, n: nat, written: set<Role>)
    requires c.newRow.status == BLOCKED && n <= |c.breaches|
    ensures DecideAll(DecideAll(v, Prefix(c, n)), c) == DecideAll(v, c)
    ensures n < |c.breaches| ==>
              DecideAll(DecidePart(DecideAll(v, Prefix(c, n)), c.breaches[n], written), c) == DecideAll(v, c)
  {
    var v1 := DecideAll(v, Prefix(c, n));
    DecisionsLeadToOutcome(v, Prefix(c, n));
    DecisionsLeadToOutcome(v, c);
    DecisionsLeadToOutcome(v1, c);
    assert forall b :: b in c.breaches[..n] ==> b in c.breaches;
    assert n > 0 ==> c.breaches[n - 1] in c.breaches;
    if n < |c.breaches| {
      DecisionsLeadToOutcome(DecidePart(v1, c.breaches[n], written), c);
      assert c.breaches[n] in c.breaches;
    }
  }

  // ---------- from the tables to the views ----------

  /** A deny that some key's view shows. */
  predicate Shown(t: Tables, d: Deny, f: Key -> Endpoint) {
    d.role in t.roles && d.endpoint == f(Key(t.roles[d.role], d.model))
  }

  /** Same quotas and mapping, and the same denies among those that no view shows. */
  ghost predicate SameFrame(t: Tables, t': Tables, f: Key -> Endpoint) {
    && t'.quotas == t.quotas && t'.roles == t.roles
    && forall d :: !Shown(t, d, f) ==> (d in t'.denies <==> d in t.denies)
  }

  lemma EvaluateView(t: Tables, u: Usage, v: Visit, now: int, k: Key, f: Key -> Endpoint, c: Case)
    requires v.failing == {} && Lists(v, t.roles, u.key.team) && u.endpoint == f(u.key)
    requires c.newRow == BlockedRow(u.day, f(k)) && c.roles == RolesOf(t.roles, k.team)
    ensures SameFrame(t, Evaluate(t, u, v, now), f)
    ensures ViewOf(Evaluate(t, u, v, now), k, f)
         == if u.key == k then Decide(ViewOf(t, k, f), c, !Unrestricted(t, u)) else ViewOf(t, k, f)
  {
    assert forall r :: r in v.roles <==> r in RolesOf(t.roles, u.key.team);
    assert !AnyFailed(v);
    var t' := Evaluate(t, u, v, now);
    forall r | r in RolesOf(t.roles, k.team)
      ensures Deny(r, f(k), k.model) in t'.denies <==>
              if u.key == k then r in Decide(ViewOf(t, k, f), c, !Unrestricted(t, u)).denied
                  else Deny(r, f(k), k.model) in t.denies
    {
    }
    assert ViewOf(t', k, f).denied == if u.key == k then Decide(ViewOf(t, k, f), c, !Unrestricted(t, u)).denied
        else ViewOf(t, k, f).denied;
  }

  /** The roles reached before the cut. */
  function WrittenBefore(v: Visit, cut: Cut): set<Role> {
    set r | r in FirstRoles(v, cut.calls).roles
  }

  lemma InterruptedView(t: Tables, u: Usage, v: Visit, now: int, cut: Cut, k: Key, f: Key -> Endpoint, c: Case)
    requires v.failing == {} && Lists(v, t.roles, u.key.team) && u.endpoint == f(u.key) && CutFits(v, cut)
    requires c.newRow == BlockedRow(u.day, f(k)) && c.roles == RolesOf(t.roles, k.team)
    ensures SameFrame(t, Interrupted(t, u, v, now, cut), f)
    ensures ViewOf(Interrupted(t, u, v, now, cut), k, f)
         == if u.key != k then ViewOf(t, k, f)
            else if cut.rowWritten then Decide(ViewOf(t, k, f), c, !Unrestricted(t, u))
            else DecidePart(ViewOf(t, k, f), !Unrestricted(t, u), WrittenBefore(v, cut))
  {
    if cut.rowWritten {
      EvaluateView(t, u, v, now, k, f, c);
      assert ViewOf(Interrupted(t, u, v, now, cut), k, f) == ViewOf(Evaluate(t, u, v, now), k, f);
    } else {
      PartView(t, u, v, now, cut, k, f);
    }
  }

  lemma PartView(t: Tables, u: Usage, v: Visit, now: int, cut: Cut, k: Key, f: Key -> Endpoint)
    requires v.failing == {} && Lists(v, t.roles, u.key.team) && u.endpoint == f(u.key) && CutFits(v, cut)
    requires !cut.rowWritten
    ensures SameFrame(t, Interrupted(t, u, v, now, cut), f)
    ensures ViewOf(Interrupted(t, u, v, now, cut), k, f)
         == if u.key != k then ViewOf(t, k, f)
            else DecidePart(ViewOf(t, k, f), !Unrestricted(t, u), WrittenBefore(v, cut))
  {
    var t', written := Interrupted(t, u, v, now, cut), WrittenBefore(v, cut);
    WrittenAreReached(t, u, v, cut);
    assert ViewOf(t', k, f).denied
        == if u.key != k then ViewOf(t, k, f).denied
           else DecidePart(ViewOf(t, k, f), !Unrestricted(t, u), written).denied;
  }

  lemma WrittenAreReached(t: Tables, u: Usage, v: Visit, cut: Cut)
    requires v.failing == {} && Lists(v, t.roles, u.key.team) && CutFits(v, cut)
    ensures WrittenBefore(v, cut) <= RolesOf(t.roles, u.key.team)
    ensures Reached(FirstRoles(v, cut.calls), u.endpoint, u.key.model) == DeniesFor(u, WrittenBefore(v, cut))
  {
    forall r | r in WrittenBefore(v, cut) ensures r in RolesOf(t.roles, u.key.team) {
      assert r in v.roles;
    }
  }

  /** The deny policies of `roles` that a usage is about. */
  function DeniesFor(u: Usage, roles: set<Role>): set<Deny> {
    set r | r in roles :: Deny(r, u.endpoint, u.key.model)
  }

  lemma {:induction false} SameQuotasSameBreaches(t: Tables, t': Tables, records: seq<StreamRecord>, today: Day, k: Key)
    requires t'.quotas == t.quotas
    ensures BreachesOf(t', records, today, k) == BreachesOf(t, records, today, k)
  {
    if records == [] {
    } else {
      SameQuotasSameBreaches(t, t', records[..|records| - 1], today, k);
    }
  }

  /** The last record adds its decision to the case of its own key only. */
  lemma CaseGrows(t: Tables, records: seq<StreamRecord>, today: Day, k: Key, f: Key -> Endpoint)
    requires records != []
    ensures var last := records[|records| - 1];
      var (c, c') := (CaseOf(t, records, today, k, f), CaseOf(t, records[..|records| - 1], today, k, f));
      if Relevant(last, today) && last.image.usage.key == k then
        && c.breaches == c'.breaches + [!Unrestricted(t, last.image.usage)]
        && forall v :: DecideAll(v, c) == Decide(DecideAll(v, c'), c, !Unrestricted(t, last.image.usage))
      else c == c'
  {
    var c, c' := CaseOf(t, records, today, k, f), CaseOf(t, records[..|records| - 1], today, k, f);
    if c.breaches != [] {
      var n := |c.breaches| - 1;
      assert c.breaches[..n] == c'.breaches ==> c.(breaches := c.breaches[..n]) == c';
    }
  }

  /** A pass over the batch does to each key's view what the key's own records decide. */
  lemma {:induction false} BatchView(t: Tables, records: seq<StreamRecord>, visits: nat -> Visit, now: int, k: Key,
      f: Key -> Endpoint)
    requires OneEndpointPerKey(records, UsageDay(now), f) && Smooth(records, visits, t.roles, UsageDay(now))
    ensures SameFrame(t, HandleBatch(t, records, visits, now), f)
    ensures ViewOf(HandleBatch(t, records, visits, now), k, f)
              == DecideAll(ViewOf(t, k, f), CaseOf(t, records, UsageDay(now), k, f))
  {
    if records == [] {
    } else {
      var n, today := |records| - 1, UsageDay(now);
      BatchView(t, records[..n], visits, now, k, f);
      CaseGrows(t, records, today, k, f);
      if Relevant(records[n], today) {
        BatchStepView(t, HandleBatch(t, records[..n], visits, now), records[n].image.usage, visits(n), now, k, f,
                      CaseOf(t, records, today, k, f));
      }
    }
  }

  lemma BatchStepView(t: Tables, before: Tables, u: Usage, v: Visit, now: int, k: Key, f: Key -> Endpoint, c: Case)
    requires SameFrame(t, before, f) && u.endpoint == f(u.key) && u.day == UsageDay(now)
    requires v.failing == {} && Lists(v, t.roles, u.key.team)
    requires c.newRow == BlockedRow(UsageDay(now), f(k)) && c.roles == RolesOf(t.roles, k.team)
    ensures SameFrame(t, Evaluate(before, u, v, now), f)
    ensures ViewOf(Evaluate(before, u, v, now), k, f)
         == if u.key == k then Decide(ViewOf(before, k, f), c, !Unrestricted(t, u)) else ViewOf(before, k, f)
  {
    EvaluateView(before, u, v, now, k, f, c);
  }

  lemma {:induction false} BreachesOfPrefix(t: Tables, records: seq<StreamRecord>, today: Day, k: Key, n: nat)
    requires n <= |records|
    ensures BreachesOf(t, records[..n], today, k) <= BreachesOf(t, records, today, k)
    ensures n < |records| && Relevant(records[n], today) && records[n].image.usage.key == k ==>
              var m := |BreachesOf(t, records[..n], today, k)|;
              m < |BreachesOf(t, records, today, k)| &&
                  BreachesOf(t, records, today, k)[m] == !Unrestricted(t, records[n].image.usage)
    decreases |records|
  {
    if n == |records| {
      assert records[..n] == records;
    } else {
      var short := records[..|records| - 1];
      assert short[..n] == records[..n];
      BreachesOfPrefix(t, short, today, k, n);
      if n == |short| {
        assert short[..n] == short;
      }
    }
  }

  /** The records handled before the cut: they decide a prefix of what the batch decides. */
  lemma DoneView(t: Tables, records: seq<StreamRecord>, c: CutPass, k: Key, f: Key -> Endpoint) returns (m: nat)
    requires OneEndpointPerKey(records, UsageDay(c.now), f) && SmoothCut(records, c, t.roles)
    ensures var before := HandleBatch(t, records[..c.upto], c.visits, c.now);
            var all := CaseOf(t, records, UsageDay(c.now), k, f);
      && SameFrame(t, before, f) && m <= |all.breaches| &&
          ViewOf(before, k, f) == DecideAll(ViewOf(t, k, f), Prefix(all, m))
      && (c.upto < |records| && Relevant(records[c.upto], UsageDay(c.now)) && records[c.upto].image.usage.key == k ==>
            m < |all.breaches| && all.breaches[m] == !Unrestricted(t, records[c.upto].image.usage))
  {
    var today, done := UsageDay(c.now), records[..c.upto];
    BatchView(t, done, c.visits, c.now, k, f);
    BreachesOfPrefix(t, records, today, k, c.upto);
    m := |CaseOf(t, done, today, k, f).breaches|;
    assert Prefix(CaseOf(t, records, today, k, f), m) == CaseOf(t, done, today, k, f);
  }

  lemma DecideNext(v: View, c: Case, m: nat)
    requires m < |c.breaches|
    ensures DecideAll(v, Prefix(c, m + 1)) == Decide(DecideAll(v, Prefix(c, m)), c, c.breaches[m])
  {
    assert Prefix(c, m + 1).breaches[..m] == c.breaches[..m];
    assert Prefix(c, m + 1).(breaches := c.breaches[..m]) == Prefix(c, m);
  }

  /** What a cut pass does to a key's view: it decides some records, and perhaps part of the next. */
  lemma CutView(t: Tables, records: seq<StreamRecord>, c: CutPass, k: Key, f: Key -> Endpoint)
    returns (m: nat, part: bool)
    requires OneEndpointPerKey(records, UsageDay(c.now), f) && SmoothCut(records, c, t.roles)
    ensures SameFrame(t, AfterCut(t, records, c), f)
    ensures var all := CaseOf(t, records, UsageDay(c.now), k, f);
      && m <= |all.breaches| && (part ==> m < |all.breaches|)
      && var before := DecideAll(ViewOf(t, k, f), Prefix(all, m));
         ViewOf(AfterCut(t, records, c), k, f)
         == if part then DecidePart(before, all.breaches[m], WrittenBefore(c.visits(c.upto), c.cut)) else before
  {
    part := false;
    m := DoneView(t, records, c, k, f);
    if c.upto < |records| && Relevant(records[c.upto], UsageDay(c.now)) {
      var before, u := HandleBatch(t, records[..c.upto], c.visits, c.now), records[c.upto].image.usage;
      var all := CaseOf(t, records, UsageDay(c.now), k, f);
      InterruptedView(before, u, c.visits(c.upto), c.now, c.cut, k, f, all);
      if u.key == k && c.cut.rowWritten {
        DecideNext(ViewOf(t, k, f), all, m);
        m := m + 1;
      } else {
        part := u.key == k;
      }
    }
  }

  /**
   After a cut pass, a complete pass of the same day makes of each key's view what it would have made without the
   cut.
   */
  lemma CutIsForgotten(t: Tables, records: seq<StreamRecord>, c: CutPass, k: Key, f: Key -> Endpoint)
    requires OneEndpointPerKey(records, UsageDay(c.now), f) && SmoothCut(records, c, t.roles)
    ensures var (t', all) := (AfterCut(t, records, c), CaseOf(t, records, UsageDay(c.now), k, f));
            SameFrame(t, t', f) && DecideAll(ViewOf(t', k, f), all) == DecideAll(ViewOf(t, k, f), all)
  {
    var m, part := CutView(t, records, c, k, f);
    var all := CaseOf(t, records, UsageDay(c.now), k, f);
    InterruptionForgotten(ViewOf(t, k, f), all, m, WrittenBefore(c.visits(c.upto), c.cut));
  }

  lemma {:induction false} CutsAreForgotten(t: Tables, records: seq<StreamRecord>, cuts: seq<CutPass>, today: Day,
      k: Key, f: Key -> Endpoint)
    requires OneEndpointPerKey(records, today, f)
    requires forall c :: c in cuts ==> c.upto <= |records| && UsageDay(c.now) == today && SmoothCut(records, c, t.roles)
    ensures var t' := AfterCuts(t, records, cuts);
            SameFrame(t, t', f) && DecideAll(ViewOf(t', k, f), CaseOf(t, records, today, k, f))
                == DecideAll(ViewOf(t, k, f), CaseOf(t, records, today, k, f))
  {
    if cuts == [] {
    } else {
      var before, last := AfterCuts(t, records, cuts[..|cuts| - 1]), cuts[|cuts| - 1];
      CutsAreForgotten(t, records, cuts[..|cuts| - 1], today, k, f);
      CutIsForgotten(before, records, last, k, f);
      SameQuotasSameBreaches(t, before, records, today, k);
    }
  }

  /**
   Cut passes and then a complete one on the same day,
       against one complete pass from the same tables. The visits may list the
   roles in any order, the cuts may fall anywhere, and nothing is asked of the tables at the start.
   */
  lemma CrashAndRetryIsHarmless(t: Tables, records: seq<StreamRecord>, cuts: seq<CutPass>,
                                visits: nat -> Visit, now: int, visits': nat -> Visit, now': int, f: Key -> Endpoint)
    requires UsageDay(now) == UsageDay(now') && OneEndpointPerKey(records, UsageDay(now), f)
    requires forall c :: c in cuts ==>
               c.upto <= |records| && UsageDay(c.now) == UsageDay(now) && SmoothCut(records, c, t.roles)
    requires Smooth(records, visits, t.roles, UsageDay(now)) && Smooth(records, visits', t.roles, UsageDay(now))
    ensures var retried := HandleBatch(AfterCuts(t, records, cuts), records, visits, now);
            var once := HandleBatch(t, records, visits', now');
            retried.rows == once.rows && retried.denies == once.denies
  {
    var today, cut := UsageDay(now), AfterCuts(t, records, cuts);
    var retried, once := HandleBatch(cut, records, visits, now), HandleBatch(t, records, visits', now');
    forall k ensures ViewOf(retried, k, f) == ViewOf(once, k, f) && SameFrame(t, once, f) && SameFrame(t, retried, f) {
      CutsAreForgotten(t, records, cuts, today, k, f);
      SameQuotasSameBreaches(t, cut, records, today, k);
      BatchView(cut, records, visits, now, k, f);
      BatchView(t, records, visits', now', k, f);
    }
    assert SameFrame(t, once, f) && SameFrame(t, retried, f) by {
      assert ViewOf(retried, Key(Unmapped, ""), f) == ViewOf(once, Key(Unmapped, ""), f);
    }
    forall k ensures k in retried.rows <==> k in once.rows
             ensures k in retried.rows ==> retried.rows[k] == once.rows[k]
    {
      assert ViewOf(retried, k, f) == ViewOf(once, k, f);
    }
    forall d ensures d in retried.denies <==> d in once.denies {
      if Shown(t, d, f) {
        var k := Key(t.roles[d.role], d.model);
        assert ViewOf(retried, k, f) == ViewOf(once, k, f);
        assert d.role in ViewOf(retried, k, f).denied <==> d in retried.denies;
        assert d.role in ViewOf(once, k, f).denied <==> d in once.denies;
      }
    }
  }

  /**
   After a complete pass, a key that was not PENDING_RESET is blocked exactly when its last record of the day
   breaches.
   */
  lemma LastRecordDecides(t: Tables, records: seq<StreamRecord>, visits: nat -> Visit, now: int, k: Key,
      f: Key -> Endpoint)
    requires OneEndpointPerKey(records, UsageDay(now), f) && Smooth(records, visits, t.roles, UsageDay(now))
    requires k in t.rows ==> t.rows[k].status == BLOCKED
    requires BreachesOf(t, records, UsageDay(now), k) != []
    ensures var breaches := BreachesOf(t, records, UsageDay(now), k);
            k in HandleBatch(t, records, visits, now).rows <==> breaches[|breaches| - 1]
  {
    var c := CaseOf(t, records, UsageDay(now), k, f);
    BatchView(t, records, visits, now, k, f);
    DecisionsLeadToOutcome(ViewOf(t, k, f), c);
    assert c.breaches[|c.breaches| - 1] in c.breaches;
    assert forall b :: b in c.breaches ==> b == true || b == false;
  }

  // ---------- passes of other days ----------

  /** The denied roles are those that the row calls for. */
  predicate Consistent(v: View, roles: set<Role>) {
    v.denied == if Standing(v) then roles else {}
  }

  /** The decisions of a pass set right what a cut has left: a breach blocks again, the absence of one clears again. */
  predicate Repairs(v: View, breaches: seq<bool>) {
    match v.row
    case None => true in breaches
    case Some(row) => row.status == BLOCKED && false in breaches
  }

  lemma DecidedConsistentIff(v: View, c: Case)
    requires c.newRow.status == BLOCKED
    ensures Consistent(DecideAll(v, c), c.roles) <==> Consistent(v, c.roles) || Repairs(v, c.breaches)
  {
    DecisionsLeadToOutcome(v, c);
    if c.breaches == [] {
    } else {
      var last := c.breaches[|c.breaches| - 1];
      assert last in c.breaches;
      assert last == true || last == false;
    }
  }

  /** A complete pass, on whatever day and over whatever tables earlier passes have left, and one key. */
  lemma PassRepairsIff(t: Tables, records: seq<StreamRecord>, visits: nat -> Visit, now: int, k: Key,
      f: Key -> Endpoint)
    requires OneEndpointPerKey(records, UsageDay(now), f) && Smooth(records, visits, t.roles, UsageDay(now))
    ensures Consistent(ViewOf(HandleBatch(t, records, visits, now), k, f), RolesOf(t.roles, k.team)) <==>
            || Consistent(ViewOf(t, k, f), RolesOf(t.roles, k.team))
            || Repairs(ViewOf(t, k, f), BreachesOf(t, records, UsageDay(now), k))
  {
    BatchView(t, records, visits, now, k, f);
    DecidedConsistentIff(ViewOf(t, k, f), CaseOf(t, records, UsageDay(now), k, f));
  }

  /** The policies are exact when each key's view is consistent and no policy is out of view. */
  lemma ExactIffConsistent(t: Tables, f: Key -> Endpoint)
    requires BlockedUnder(t.rows, f)
    ensures Exact(t) <==>
            && (forall k :: Consistent(ViewOf(t, k, f), RolesOf(t.roles, k.team)))
            && (forall d :: d in t.denies ==> Shown(t, d, f))
  {
    if Exact(t) {
      forall k ensures Consistent(ViewOf(t, k, f), RolesOf(t.roles, k.team)) {
        forall r | r in RolesOf(t.roles, k.team)
          ensures Deny(r, f(k), k.model) in t.denies <==> Standing(ViewOf(t, k, f))
        {
        }
        assert ViewOf(t, k, f).denied == if Standing(ViewOf(t, k, f)) then RolesOf(t.roles, k.team) else {};
      }
    }
    if forall k :: Consistent(ViewOf(t, k, f), RolesOf(t.roles, k.team)) {
      forall d | Shown(t, d, f) ensures d in t.denies <==>
          IsBlocked(t.rows, Key(t.roles[d.role], d.model), d.endpoint) {
        var k := Key(t.roles[d.role], d.model);
        assert Consistent(ViewOf(t, k, f), RolesOf(t.roles, k.team));
        assert d.role in RolesOf(t.roles, k.team);
        assert d in t.denies <==> d.role in ViewOf(t, k, f).denied;
      }
    }
  }

  lemma {:induction false} PassKeepsExact(t: Tables, records: seq<StreamRecord>, visits: nat -> Visit, now: int,
      f: Key -> Endpoint)
    requires Exact(t) && BlockedUnder(t.rows, f)
    requires OneEndpointPerKey(records, UsageDay(now), f) && Smooth(records, visits, t.roles, UsageDay(now))
    ensures var t' := HandleBatch(t, records, visits, now);
      Exact(t') && BlockedUnder(t'.rows, f) && t'.roles == t.roles && t'.quotas == t.quotas
  {
    if records == [] {
    } else {
      var n := |records| - 1;
      PassKeepsExact(t, records[..n], visits, now, f);
      if Relevant(records[n], UsageDay(now)) {
        EvaluateKeepsExactIff(HandleBatch(t, records[..n], visits, now), records[n].image.usage, visits(n), now);
      }
    }
  }

  /** The cut falls between the first IAM call of a block, or of a removal, and the write of the row. */
  predicate CutsBetween(t: Tables, records: seq<StreamRecord>, c: CutPass)
    requires c.upto <= |records|
  {
    && c.upto < |records| && Relevant(records[c.upto], UsageDay(c.now))
    && !c.cut.rowWritten && c.cut.calls > 0
    && var (before, u) := (HandleBatch(t, records[..c.upto], c.visits, c.now), records[c.upto].image.usage);
       Breaches(before, u) || Removes(before, u)
  }

  /** From exact tables, a pass that dies leaves exact ones if and only if it does not die in between. */
  lemma CutIsExactIff(t: Tables, records: seq<StreamRecord>, c: CutPass, f: Key -> Endpoint)
    requires Exact(t) && BlockedUnder(t.rows, f)
    requires OneEndpointPerKey(records, UsageDay(c.now), f) && SmoothCut(records, c, t.roles)
    ensures Exact(AfterCut(t, records, c)) <==> !CutsBetween(t, records, c)
  {
    var before, v := HandleBatch(t, records[..c.upto], c.visits, c.now), c.visits(c.upto);
    PassKeepsExact(t, records[..c.upto], c.visits, c.now, f);
    if c.upto < |records| && Relevant(records[c.upto], UsageDay(c.now)) {
      CutKeepsExactIff(before, records[c.upto].image.usage, v, c.now, c.cut);
      var called := FirstRoles(v, c.cut.calls);
      if c.cut.calls > 0 {
        assert called.roles[0] in called.roles;
      }
      assert ReachesSome(called) <==> c.cut.calls > 0;
    }
  }

  lemma {:induction false} CutsKeepFrame(t: Tables, records: seq<StreamRecord>, cuts: seq<CutPass>, f: Key -> Endpoint)
    requires BlockedUnder(t.rows, f) && forall d :: d in t.denies ==> Shown(t, d, f)
    requires forall c :: c in cuts ==>
               c.upto <= |records| && OneEndpointPerKey(records, UsageDay(c.now), f) && SmoothCut(records, c, t.roles)
    ensures var t' := AfterCuts(t, records, cuts);
      && t'.roles == t.roles && t'.quotas == t.quotas
      && BlockedUnder(t'.rows, f) && forall d :: d in t'.denies ==> Shown(t', d, f)
  {
    if cuts == [] {
    } else {
      var before, last := AfterCuts(t, records, cuts[..|cuts| - 1]), cuts[|cuts| - 1];
      CutsKeepFrame(t, records, cuts[..|cuts| - 1], f);
      OneCutKeepsFrame(before, records, last, f);
    }
  }

  lemma OneCutKeepsFrame(t: Tables, records: seq<StreamRecord>, c: CutPass, f: Key -> Endpoint)
    requires BlockedUnder(t.rows, f) && forall d :: d in t.denies ==> Shown(t, d, f)
    requires OneEndpointPerKey(records, UsageDay(c.now), f) && SmoothCut(records, c, t.roles)
    ensures var t' := AfterCut(t, records, c);
      && t'.roles == t.roles && t'.quotas == t.quotas
      && BlockedUnder(t'.rows, f) && forall d :: d in t'.denies ==> Shown(t', d, f)
  {
    var t' := AfterCut(t, records, c);
    var _, _ := CutView(t, records, c, Key(Unmapped, ""), f);
    forall d | d in t'.denies ensures Shown(t', d, f) {
      assert !Shown(t, d, f) ==> d in t.denies;
    }
    PassKeepsBlockedUnder(t, records[..c.upto], c.visits, c.now, f);
  }

  lemma {:induction false} PassKeepsBlockedUnder(t: Tables, records: seq<StreamRecord>, visits: nat -> Visit, now: int,
      f: Key -> Endpoint)
    requires BlockedUnder(t.rows, f) && OneEndpointPerKey(records, UsageDay(now), f)
    ensures BlockedUnder(HandleBatch(t, records, visits, now).rows, f)
  {
    if records == [] {
    } else {
      PassKeepsBlockedUnder(t, records[..|records| - 1], visits, now, f);
    }
  }

  /**
   Passes that die anywhere, each on a day of its own, and then a complete pass on whatever day, from exact tables:
   the end is exact if and only if, for each key, what the cuts have left is consistent or one of the key's records
   of the last pass's day repairs it.
   */
  lemma RetryIsExactIff(t: Tables, records: seq<StreamRecord>, cuts: seq<CutPass>, visits: nat -> Visit, now: int,
      f: Key -> Endpoint)
    requires Exact(t) && BlockedUnder(t.rows, f)
    requires forall c :: c in cuts ==>
               c.upto <= |records| && OneEndpointPerKey(records, UsageDay(c.now), f) && SmoothCut(records, c, t.roles)
    requires OneEndpointPerKey(records, UsageDay(now), f) && Smooth(records, visits, t.roles, UsageDay(now))
    ensures var left := AfterCuts(t, records, cuts);
      Exact(HandleBatch(left, records, visits, now)) <==>
      forall k ::
        || Consistent(ViewOf(left, k, f), RolesOf(t.roles, k.team))
        || Repairs(ViewOf(left, k, f), BreachesOf(t, records, UsageDay(now), k))
  {
    var left := AfterCuts(t, records, cuts);
    ExactIffConsistent(t, f);
    CutsKeepFrame(t, records, cuts, f);
    var end := HandleBatch(left, records, visits, now);
    PassKeepsBlockedUnder(left, records, visits, now, f);
    BatchView(left, records, visits, now, Key(Unmapped, ""), f);
    assert forall d :: d in end.denies ==> Shown(end, d, f) by {
      forall d | d in end.denies ensures Shown(end, d, f) {
        assert !Shown(left, d, f) ==> d in left.denies;
      }
    }
    ExactIffConsistent(end, f);
    forall k
      ensures Consistent(ViewOf(end, k, f), RolesOf(end.roles, k.team)) <==>
              || Consistent(ViewOf(left, k, f), RolesOf(t.roles, k.team))
              || Repairs(ViewOf(left, k, f), BreachesOf(t, records, UsageDay(now), k))
    {
      PassRepairsIff(left, records, visits, now, k, f);
      SameQuotasSameBreaches(t, left, records, UsageDay(now), k);
    }
  }
}
