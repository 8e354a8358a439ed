/** What a daily reset touches, and what becomes of a pair over several resets. */
module DailyReset {
  import opened Domain
  import opened Enforcement

  /** The index attribute of every row says what its status and day say. */
  ghost predicate WellFormed(rows: map<Key, Row>) {
    forall k :: k in rows ==> rows[k].statusDay == StatusDay(rows[k].status, rows[k].day)
  }

  /** One invocation: the instant, the answers of the two index queries, and the visit made for each key. */
  datatype Reset = Reset(now: int, blocked: seq<Pair>, pending: seq<Pair>, visits: Key -> Visit)

  /** The queries were answered from these tables. */
  ghost predicate Answers(t: Tables, r: Reset) {
    && Queried(r.blocked, t.rows, StatusDay(BLOCKED, PreviousUsageDay(r.now)))
    && Queried(r.pending, t.rows, StatusDay(PENDING_RESET, PreviousUsageDay(r.now)))
    && forall k :: Lists(r.visits(k), t.roles, k.team)
  }

  function Pairs(r: Reset): seq<Pair> {
    r.blocked + r.pending
  }

  function After(t: Tables, r: Reset): Tables {
    ResetAll(t, Pairs(r), r.visits, r.now)
  }

  /** The row of `k` is one that a reset at `now` looks for. */
  predicate Due(rows: map<Key, Row>, k: Key, now: int) {
    k in rows && rows[k].day == PreviousUsageDay(now)
  }

  predicate Fails(r: Reset, k: Key) {
    AnyFailed(r.visits(k))
  }

  /** The deny `d` enforces the row of `k`, on a role that is mapped to the team of `k`. */
  predicate Enforces(t: Tables, d: Deny, k: Key) {
    && k in t.rows
    && d.role in t.roles && k == Key(t.roles[d.role], d.model)
    && d.endpoint == t.rows[k].endpoint
  }

  // ---------- resetting a list of pairs ----------

  ghost predicate DistinctPairs(pairs: seq<Pair>) {
    forall i, j :: 0 <= i < j < |pairs| ==> pairs[i].key != pairs[j].key
  }

  /** The pairs of the list that every call went well for. */
  function Cleared(pairs: seq<Pair>, visits: Key -> Visit): seq<Event> {
    if pairs == [] then []
    else
      var n := |pairs| - 1;
      Cleared(pairs[..n], visits) + if AnyFailed(visits(pairs[n].key)) then [] else [RestoredEvent(pairs[n].key)]
  }

  /** The row of `k` after the pair has been reset. */
  ghost predicate IsReset(rows: map<Key, Row>, p: Pair, visits: Key -> Visit) {
    if AnyFailed(visits(p.key)) then p.key in rows && rows[p.key] == PendingRow(p.day, p.endpoint) else p.key !in rows
  }

  lemma {:induction false} ResetAllFrame(t: Tables, pairs: seq<Pair>, visits: Key -> Visit, now: int)
    ensures var t' := ResetAll(t, pairs, visits, now);
            && t'.quotas == t.quotas && t'.roles == t.roles
            && t'.events == t.events + Cleared(pairs, visits)
  {
    if pairs == [] {
    } else {
      ResetAllFrame(t, pairs[..|pairs| - 1], visits, now);
    }
  }

  lemma {:induction false} ResetAllRows(t: Tables, pairs: seq<Pair>, visits: Key -> Visit, now: int)
    requires DistinctPairs(pairs)
    ensures var rows := ResetAll(t, pairs, visits, now).rows;
            && (forall i :: 0 <= i < |pairs| ==> IsReset(rows, pairs[i], visits))
            && (forall k :: (forall i :: 0 <= i < |pairs| ==> pairs[i].key != k) ==>
                  ((k in rows <==> k in t.rows) && (k in rows ==> rows[k] == t.rows[k])))
  {
    if pairs == [] {
    } else {
      var n := |pairs| - 1;
      ResetAllRows(t, pairs[..n], visits, now);
      var rows, last := ResetAll(t, pairs, visits, now).rows, ResetAll(t, pairs[..n], visits, now).rows;
      forall i | 0 <= i < |pairs| ensures IsReset(rows, pairs[i], visits) {
        if i < n {
          assert IsReset(last, pairs[..n][i], visits);
        }
      }
    }
  }

  lemma {:induction false} ResetAllDenies(t: Tables, pairs: seq<Pair>, visits: Key -> Visit, now: int)
    ensures forall d :: d in ResetAll(t, pairs, visits, now).denies <==>
                        d in t.denies && forall i :: 0 <= i < |pairs| ==>
                            d !in Reached(visits(pairs[i].key), pairs[i].endpoint, pairs[i].key.model)
  {
    if pairs == [] {
    } else {
      var n := |pairs| - 1;
      ResetAllDenies(t, pairs[..n], visits, now);
      assert pairs == pairs[..n] + [pairs[n]];
    }
  }

  lemma {:induction false} ClearedKeys(pairs: seq<Pair>, visits: Key -> Visit)
    requires DistinctPairs(pairs)
    ensures forall e :: e in Cleared(pairs, visits) <==>
                        exists i :: 0 <= i < |pairs| && e == RestoredEvent(pairs[i].key) &&
                            !AnyFailed(visits(pairs[i].key))
    ensures forall i, j :: 0 <= i < j < |Cleared(pairs, visits)| ==>
              Cleared(pairs, visits)[i] != Cleared(pairs, visits)[j]
  {
    if pairs == [] {
    } else {
      var n := |pairs| - 1;
      ClearedKeys(pairs[..n], visits);
      assert pairs == pairs[..n] + [pairs[n]];
      assert RestoredEvent(pairs[n].key) !in Cleared(pairs[..n], visits);
    }
  }

  // ---------- one daily reset ----------

  lemma DueArePairs(t: Tables, r: Reset)
    requires WellFormed(t.rows) && Answers(t, r)
    ensures DistinctPairs(Pairs(r))
    ensures forall i :: 0 <= i < |Pairs(r)| ==>
              Due(t.rows, Pairs(r)[i].key, r.now) && Pairs(r)[i] == PairOf(t.rows, Pairs(r)[i].key)
  {
  }

  lemma DueIsListed(t: Tables, r: Reset, k: Key) returns (i: nat)
    requires WellFormed(t.rows) && Answers(t, r) && Due(t.rows, k, r.now)
    ensures i < |Pairs(r)| && Pairs(r)[i] == PairOf(t.rows, k)
  {
    match t.rows[k].status
    case BLOCKED =>
      i :| 0 <= i < |r.blocked| && r.blocked[i] == PairOf(t.rows, k);
    case PENDING_RESET =>
      var j :| 0 <= j < |r.pending| && r.pending[j] == PairOf(t.rows, k);
      i := |r.blocked| + j;
  }

  /** What the reset leaves of the row of `k`. */
  ghost predicate RowAfter(t: Tables, r: Reset, k: Key) {
    var rows := After(t, r).rows;
    && (k in rows <==> k in t.rows && (Due(t.rows, k, r.now) ==> Fails(r, k)))
    && (k in rows ==> rows[k] == if Due(t.rows, k, r.now) then PendingRow(t.rows[k].day, t.rows[k].endpoint)
        else t.rows[k])
  }

  lemma TouchedRows(t: Tables, r: Reset)
    requires WellFormed(t.rows) && Answers(t, r)
    ensures forall k :: RowAfter(t, r, k)
  {
    DueArePairs(t, r);
    ResetAllRows(t, Pairs(r), r.visits, r.now);
    forall k ensures RowAfter(t, r, k) {
      if Due(t.rows, k, r.now) {
        var i := DueIsListed(t, r, k);
        assert IsReset(After(t, r).rows, Pairs(r)[i], r.visits);
      }
    }
  }

  lemma TouchedDenies(t: Tables, r: Reset)
    requires WellFormed(t.rows) && Answers(t, r)
    ensures forall d :: d in After(t, r).denies <==> d in t.denies && !Lifted(t, r, d)
  {
    ResetAllDenies(t, Pairs(r), r.visits, r.now);
    forall d ensures d in After(t, r).denies <==> d in t.denies && !Lifted(t, r, d) {
      FreedByDuePair(t, r, d);
    }
  }

  lemma Announced(t: Tables, r: Reset)
    requires WellFormed(t.rows) && Answers(t, r)
    ensures After(t, r).events == t.events + Cleared(Pairs(r), r.visits)
    ensures AnnouncesOnce(t, r, Cleared(Pairs(r), r.visits))
  {
    var pairs := Pairs(r);
    DueArePairs(t, r);
    ResetAllFrame(t, pairs, r.visits, r.now);
    ClearedKeys(pairs, r.visits);
    forall e
      ensures e in Cleared(pairs, r.visits) <==>
                exists k :: e == RestoredEvent(k) && Due(t.rows, k, r.now) && !Fails(r, k)
    {
      if k :| e == RestoredEvent(k) && Due(t.rows, k, r.now) && !Fails(r, k) {
        var i := DueIsListed(t, r, k);
        assert e == RestoredEvent(pairs[i].key) && !AnyFailed(r.visits(pairs[i].key));
      }
      if e in Cleared(pairs, r.visits) {
        var i :| 0 <= i < |pairs| && e == RestoredEvent(pairs[i].key) && !AnyFailed(r.visits(pairs[i].key));
      }
    }
  }

  /** The reset lifts the deny policy `d`: a due row is enforced by it, and the call for its role succeeds. */
  ghost predicate Lifted(t: Tables, r: Reset, d: Deny) {
    exists k :: Due(t.rows, k, r.now) && Enforces(t, d, k) && d.role !in r.visits(k).failing
  }

  /** `news` announces the cleared pairs, each once. */
  ghost predicate AnnouncesOnce(t: Tables, r: Reset, news: seq<Event>) {
    && (forall e :: e in news <==> exists k :: e == RestoredEvent(k) && Due(t.rows, k, r.now) && !Fails(r, k))
    && (forall i, j :: 0 <= i < j < |news| ==> news[i] != news[j])
  }

  /**
   A reset rewrites or deletes the rows of the previous day and no other; it lifts the deny policies of those
   rows from the roles whose call succeeds and no other; and it announces each cleared pair once.
   */
  lemma TouchesExactlyTheDueRows(t: Tables, r: Reset)
    requires WellFormed(t.rows) && Answers(t, r)
    ensures After(t, r).quotas == t.quotas && After(t, r).roles == t.roles && WellFormed(After(t, r).rows)
    ensures forall k :: RowAfter(t, r, k)
    ensures forall d :: d in After(t, r).denies <==> d in t.denies && !Lifted(t, r, d)
    ensures exists news :: After(t, r).events == t.events + news && AnnouncesOnce(t, r, news)
  {
    ResetAllFrame(t, Pairs(r), r.visits, r.now);
    TouchedRows(t, r);
    TouchedDenies(t, r);
    Announced(t, r);
    assert forall k :: k in After(t, r).rows ==> RowAfter(t, r, k);
  }

  /**
   What is asked of a reset for one day: its rows go, or stay as PENDING_RESET when a call fails; its policies leave
   the roles whose call succeeds; and everything else stays.
   */
  ghost predicate ResetsDay(t: Tables, t': Tables, visits: Key -> Visit, day: Day) {
    && RowsReset(t.rows, t'.rows, visits, day)
    && forall d :: d in t'.denies <==> d in t.denies && !(d.role in t.roles && LiftedOnDay(t, visits, day, d))
  }

  ghost predicate RowsReset(rows: map<Key, Row>, rows': map<Key, Row>, visits: Key -> Visit, day: Day) {
    forall k :: RowReset(rows, rows', visits, day, k)
  }

  predicate RowReset(rows: map<Key, Row>, rows': map<Key, Row>, visits: Key -> Visit, day: Day, k: Key) {
    var fails := exists r :: r in visits(k).roles && r in visits(k).failing;
    && (k in rows' <==> k in rows && (rows[k].day == day ==> fails))
    && (k in rows' ==>
          rows'[k] == if rows[k].day != day then rows[k]
                      else Row(PENDING_RESET, day, StatusDay(PENDING_RESET, day), rows[k].endpoint))
  }

  predicate LiftedOnDay(t: Tables, visits: Key -> Visit, day: Day, d: Deny)
    requires d.role in t.roles
  {
    var k := Key(t.roles[d.role], d.model);
    k in t.rows && t.rows[k].day == day && t.rows[k].endpoint == d.endpoint && d.role !in visits(k).failing
  }

  lemma LiftedIsOnDay(t: Tables, r: Reset, today: Day, d: Deny)
    requires OnDay(r.now, today)
    ensures Lifted(t, r, d) <==> d.role in t.roles && LiftedOnDay(t, r.visits, today - 1, d)
  {
    DaysOfInstant(r.now, today);
    if d.role in t.roles && LiftedOnDay(t, r.visits, today - 1, d) {
      var k := Key(t.roles[d.role], d.model);
      assert Due(t.rows, k, r.now) && Enforces(t, d, k);
    }
  }

  lemma RowOnDay(t: Tables, r: Reset, today: Day, k: Key)
    requires OnDay(r.now, today) && RowAfter(t, r, k)
    ensures RowReset(t.rows, After(t, r).rows, r.visits, today - 1, k)
  {
    DaysOfInstant(r.now, today);
  }

  lemma RowsOnDay(t: Tables, r: Reset, today: Day)
    requires WellFormed(t.rows) && Answers(t, r) && OnDay(r.now, today)
    ensures RowsReset(t.rows, After(t, r).rows, r.visits, today - 1)
  {
    TouchedRows(t, r);
    var rows, before := After(t, r).rows, today - 1;
    forall k ensures RowReset(t.rows, rows, r.visits, before, k) {
      RowOnDay(t, r, today, k);
    }
  }

  /** A reset on one day resets the day before. */
  lemma ResetsTheDayBefore(t: Tables, r: Reset, today: Day)
    requires WellFormed(t.rows) && Answers(t, r) && OnDay(r.now, today)
    ensures ResetsDay(t, After(t, r), r.visits, today - 1)
  {
    RowsOnDay(t, r, today);
    TouchedDenies(t, r);
    forall d ensures Lifted(t, r, d) <==> d.role in t.roles && LiftedOnDay(t, r.visits, today - 1, d) {
      LiftedIsOnDay(t, r, today, d);
    }
  }

  lemma FreedByDuePair(t: Tables, r: Reset, d: Deny)
    requires WellFormed(t.rows) && Answers(t, r)
    ensures (exists i :: 0 <= i < |Pairs(r)| &&
                         var p := Pairs(r)[i]; d in Reached(r.visits(p.key), p.endpoint, p.key.model)) <==>
       Lifted(t, r, d)
  {
    var pairs := Pairs(r);
    DueArePairs(t, r);
    if i :| 0 <= i < |pairs| && d in Reached(r.visits(pairs[i].key), pairs[i].endpoint, pairs[i].key.model) {
      var k := pairs[i].key;
      assert Lists(r.visits(k), t.roles, k.team);
      assert Due(t.rows, k, r.now) && Enforces(t, d, k) && d.role !in r.visits(k).failing;
    }
    if k :| Due(t.rows, k, r.now) && Enforces(t, d, k) && d.role !in r.visits(k).failing {
      assert Lists(r.visits(k), t.roles, k.team) && d.role in RolesOf(t.roles, k.team);
      assert d == Deny(d.role, t.rows[k].endpoint, k.model);
      var i := DueIsListed(t, r, k);
      assert d in Reached(r.visits(pairs[i].key), pairs[i].endpoint, pairs[i].key.model);
    }
  }

  // ---------- several resets ----------

  function AfterAll(t: Tables, rs: seq<Reset>): Tables
    decreases |rs|
  {
    if rs == [] then t else AfterAll(After(t, rs[0]), rs[1..])
  }

  ghost predicate AnswersAll(t: Tables, rs: seq<Reset>)
    decreases |rs|
  {
    rs != [] ==> Answers(t, rs[0]) && AnswersAll(After(t, rs[0]), rs[1..])
  }

  /** Every one of the first `n` resets has a failing call for `k`. */
  ghost predicate FailsUpTo(rs: seq<Reset>, k: Key, n: nat)
    requires n <= |rs|
  {
    forall i :: 0 <= i < n ==> Fails(rs[i], k)
  }

  /** Some reset that still finds the row succeeds on this role. */
  ghost predicate Freed(rs: seq<Reset>, k: Key, role: Role) {
    exists i :: 0 <= i < |rs| && FailsUpTo(rs, k, i) && role !in rs[i].visits(k).failing
  }

  lemma {:induction false} RowWhileFailing(t: Tables, rs: seq<Reset>, k: Key)
    requires WellFormed(t.rows) && AnswersAll(t, rs)
    requires forall i :: 0 <= i < |rs| ==> Due(t.rows, k, rs[i].now)
    requires k in t.rows
    ensures k in AfterAll(t, rs).rows <==> FailsUpTo(rs, k, |rs|)
    ensures k in AfterAll(t, rs).rows && rs != [] ==>
              AfterAll(t, rs).rows[k] == PendingRow(t.rows[k].day, t.rows[k].endpoint)
    decreases |rs|
  {
    if rs == [] {
    } else {
      var t1, rest := After(t, rs[0]), rs[1..];
      TouchesExactlyTheDueRows(t, rs[0]);
      assert RowAfter(t, rs[0], k);
      if Fails(rs[0], k) {
        RowWhileFailing(t1, rest, k);
        FailsUpToTail(rs, k);
      } else {
        StaysCleared(t1, rest, k);
      }
    }
  }

  lemma {:induction false} DenyWhileFailing(t: Tables, rs: seq<Reset>, k: Key, d: Deny)
    requires WellFormed(t.rows) && AnswersAll(t, rs)
    requires forall i :: 0 <= i < |rs| ==> Due(t.rows, k, rs[i].now)
    requires d in t.denies && Enforces(t, d, k)
    ensures d in AfterAll(t, rs).denies <==> !Freed(rs, k, d.role)
    decreases |rs|
  {
    if rs == [] {
    } else {
      var t1, rest := After(t, rs[0]), rs[1..];
      FreedTail(rs, k, d.role);
      FirstReset(t, rs[0], k, d);
      TouchesExactlyTheDueRows(t, rs[0]);
      if d.role in rs[0].visits(k).failing {
        assert RowAfter(t, rs[0], k);
        DenyWhileFailing(t1, rest, k, d);
      } else {
        NeverReattached(t1, rest, d);
      }
    }
  }

  /**
   Repeated resets of one day: a due pair survives exactly while each reset has a failing call for it, then as
   PENDING_RESET with its original day and endpoint; the first reset without a failure clears it for good. A
   role keeps the deny policy exactly when no reset up to then reached it.
   */
  lemma RetriedUntilFailuresRunOut(t: Tables, rs: seq<Reset>, k: Key)
    requires WellFormed(t.rows) && AnswersAll(t, rs)
    requires forall i :: 0 <= i < |rs| ==> Due(t.rows, k, rs[i].now)
    requires k in t.rows
    ensures k in AfterAll(t, rs).rows <==> FailsUpTo(rs, k, |rs|)
    ensures k in AfterAll(t, rs).rows && rs != [] ==>
              AfterAll(t, rs).rows[k] == PendingRow(t.rows[k].day, t.rows[k].endpoint)
    ensures forall d :: d in t.denies && Enforces(t, d, k) ==> (d in AfterAll(t, rs).denies <==> !Freed(rs, k, d.role))
  {
    RowWhileFailing(t, rs, k);
    forall d | d in t.denies && Enforces(t, d, k) ensures d in AfterAll(t, rs).denies <==> !Freed(rs, k, d.role) {
      DenyWhileFailing(t, rs, k, d);
    }
  }

  /** What one reset does to a policy of a due pair. */
  lemma FirstReset(t: Tables, r: Reset, k: Key, d: Deny)
    requires WellFormed(t.rows) && Answers(t, r) && Due(t.rows, k, r.now) && d in t.denies && Enforces(t, d, k)
    ensures d in After(t, r).denies <==> d.role in r.visits(k).failing
    ensures d.role in r.visits(k).failing ==> Fails(r, k) && Enforces(After(t, r), d, k)
  {
    TouchesExactlyTheDueRows(t, r);
    assert RowAfter(t, r, k) && Lists(r.visits(k), t.roles, k.team) && d.role in RolesOf(t.roles, k.team);
    assert forall k' :: Enforces(t, d, k') ==> k' == k;
  }

  lemma FailsUpToTail(rs: seq<Reset>, k: Key)
    requires rs != [] && Fails(rs[0], k)
    ensures FailsUpTo(rs, k, |rs|) <==> FailsUpTo(rs[1..], k, |rs| - 1)
  {
    if FailsUpTo(rs[1..], k, |rs| - 1) {
      forall i | 0 <= i < |rs| ensures Fails(rs[i], k) {
        if i > 0 {
          assert rs[i] == rs[1..][i - 1];
        }
      }
    }
  }

  lemma FreedTail(rs: seq<Reset>, k: Key, role: Role)
    requires rs != []
    ensures Freed(rs, k, role) <==> role !in rs[0].visits(k).failing || (Fails(rs[0], k) && Freed(rs[1..], k, role))
  {
    var rest := rs[1..];
    if role !in rs[0].visits(k).failing {
      assert FailsUpTo(rs, k, 0);
    }
    if i :| 0 <= i < |rs| && FailsUpTo(rs, k, i) && role !in rs[i].visits(k).failing {
      if i > 0 {
        assert rest[i - 1] == rs[i] && FailsUpTo(rest, k, i - 1);
      }
    }
    if Fails(rs[0], k) && Freed(rest, k, role) {
      var i :| 0 <= i < |rest| && FailsUpTo(rest, k, i) && role !in rest[i].visits(k).failing;
      assert rs[i + 1] == rest[i];
      forall j | 0 <= j < i + 1 ensures Fails(rs[j], k) {
        if j > 0 {
          assert rs[j] == rest[j - 1];
        }
      }
      assert FailsUpTo(rs, k, i + 1);
    }
  }

  lemma {:induction false} StaysCleared(t: Tables, rs: seq<Reset>, k: Key)
    requires WellFormed(t.rows) && AnswersAll(t, rs) && k !in t.rows
    ensures k !in AfterAll(t, rs).rows
    ensures forall d: Deny :: d.role in t.roles && k == Key(t.roles[d.role], d.model) ==>
              (d in AfterAll(t, rs).denies <==> d in t.denies)
    decreases |rs|
  {
    if rs == [] {
    } else {
      TouchesExactlyTheDueRows(t, rs[0]);
      assert RowAfter(t, rs[0], k);
      StaysCleared(After(t, rs[0]), rs[1..], k);
    }
  }

  lemma {:induction false} NeverReattached(t: Tables, rs: seq<Reset>, d: Deny)
    requires WellFormed(t.rows) && AnswersAll(t, rs) && d !in t.denies
    ensures d !in AfterAll(t, rs).denies
    decreases |rs|
  {
    if rs == [] {
    } else {
      TouchesExactlyTheDueRows(t, rs[0]);
      NeverReattached(After(t, rs[0]), rs[1..], d);
    }
  }

  /**
   A row is found by the resets of the following day only. Resets of any other day, however many, leave the row
   and its deny policies as they are: a pair still PENDING_RESET when that day ends is not retried any more.
   */
  lemma {:induction false} NeverRetriedOnOtherDays(t: Tables, rs: seq<Reset>, k: Key)
    requires WellFormed(t.rows) && AnswersAll(t, rs) && k in t.rows
    requires forall i :: 0 <= i < |rs| ==> PreviousUsageDay(rs[i].now) != t.rows[k].day
    ensures k in AfterAll(t, rs).rows && AfterAll(t, rs).rows[k] == t.rows[k]
    ensures forall d :: Enforces(t, d, k) ==> (d in AfterAll(t, rs).denies <==> d in t.denies)
    decreases |rs|
  {
    if rs == [] {
    } else {
      TouchesExactlyTheDueRows(t, rs[0]);
      assert RowAfter(t, rs[0], k);
      NeverRetriedOnOtherDays(After(t, rs[0]), rs[1..], k);
    }
  }
}
