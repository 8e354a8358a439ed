/** The reconcile sweep, its job rows and its queue worker as they run. */
module Reconciler {
  import opened Domain
  import opened Reconcile
  import opened ReconcileProtocol

  /**
   What goes wrong in one invocation: pages that cannot be listed, roles whose lookup fails for good, other roles
   of a failing batch whose entry is written all the same, and the job-row and queue calls that fail.
   */
  datatype Faults = Faults(listing: set<nat>, lookups: set<Role>, landed: set<Role>, counts: bool, send: bool,
      mark: bool)

  /** The page cannot be listed, or a lookup on it fails for good. */
  predicate PageFails(iam: Iam, page: nat, faults: Faults)
    requires page < |iam.pages|
  {
    page in faults.listing || LookupFails(iam.pages[page], faults)
  }

  predicate LookupFails(roles: seq<Role>, faults: Faults) {
    exists r :: r in roles && r in faults.lookups
  }

  predicate SomePageFails(iam: Iam, start: nat, end: nat, faults: Faults)
    requires end <= |iam.pages|
  {
    exists p :: start <= p < end && PageFails(iam, p, faults)
  }

  /** When handling a message ends in an error: the first of its calls that fails decides. */
  predicate Throws(iam: Iam, msg: Message, faults: Faults)
    requires msg.page < |iam.pages|
  {
    PageFails(iam, msg.page, faults) || faults.counts || (msg.page + 1 < |iam.pages| && faults.send)
  }

  /** `Interrupted` stands for a thrown error. */
  datatype SweepResult =
    | Interrupted
    | Finished(reconciled: seq<Reconciled>, pageCount: nat, next: Option<nat>)

  class Reconciler {
    var cache: map<Role, Team>
    var jobs: map<JobId, Job>
    var queue: set<Message>

    ghost function State(): World
      reads this
    {
      World(cache, jobs, queue)
    }

    constructor (cache: map<Role, Team>)
      ensures State() == World(cache, map[], {})
    {
      this.cache, jobs, queue := cache, map[], {};
    }

    /** The entry of a role with a team is upserted; that of a role without one is deleted. */
    method SweepRole(iam: Iam, role: Role)
      modifies this`cache
      ensures cache == Swept(old(cache), iam, {role})
      ensures FollowsTags(old(cache), cache, iam, {role})
    {
      var team := Resolve(iam, role);
      if team == Unmapped {
        cache := cache - {role};
      } else {
        cache := cache[role := team];
      }
    }

    /** Roles of one batch are resolved side by side; the batch fails as a whole when one of them does. */
    method SweepBatch(iam: Iam, batch: seq<Role>, faults: Faults) returns (ok: bool, ghost written: set<Role>)
      modifies this`cache
      ensures ok == !LookupFails(batch, faults)
      ensures written <= ToSet(batch) && (ok ==> written == ToSet(batch))
      ensures cache == Swept(old(cache), iam, written)
    {
      ok, written := true, {};
      assert cache == Swept(old(cache), iam, {});
      for i := 0 to |batch|
        invariant ok == !LookupFails(batch[..i], faults)
        invariant written <= ToSet(batch[..i]) && (ok ==> written == ToSet(batch[..i]))
        invariant cache == Swept(old(cache), iam, written)
      {
        var role := batch[i];
        assert batch[..i + 1] == batch[..i] + [role];
        if role in faults.lookups {
          ok := false;
        } else if ok || role in faults.landed {
          SweptTwice(old(cache), iam, written, {role});
          SweepRole(iam, role);
          written := written + {role};
        }
      }
      assert batch[..|batch|] == batch;
    }

    method SweepPage(iam: Iam, roles: seq<Role>, concurrency: nat, faults: Faults)
      returns (ok: bool, reconciled: seq<Reconciled>, ghost written: set<Role>)
      requires concurrency > 0
      modifies this`cache
      ensures ok == !LookupFails(roles, faults)
      ensures written <= ToSet(roles) && (ok ==> written == ToSet(roles) && reconciled == Mapped(iam, roles))
      ensures cache == Swept(old(cache), iam, written)
    {
      ok, reconciled, written := true, [], {};
      var i := 0;
      while i < |roles|
        invariant 0 <= i <= |roles|
        invariant !LookupFails(roles[..i], faults)
        invariant written == ToSet(roles[..i]) && reconciled == Mapped(iam, roles[..i])
        invariant cache == Swept(old(cache), iam, written)
        decreases |roles| - i
      {
        var end := if i + concurrency < |roles| then i + concurrency else |roles|;
        ghost var more: set<Role>;
        ok, more := SweepBatch(iam, roles[i..end], faults);
        BatchAdded(old(cache), iam, roles, i, end, more, faults);
        written := written + more;
        if !ok {
          return;
        }
        reconciled := reconciled + Mapped(iam, roles[i..end]);
        i := end;
      }
      assert roles[..|roles|] == roles;
    }

    /** One call for a page of roles, and the sweep of what it lists. */
    method ListAndSweepPage(iam: Iam, page: nat, concurrency: nat, faults: Faults)
      returns (ok: bool, reconciled: seq<Reconciled>, ghost written: set<Role>)
      requires page < |iam.pages| && concurrency > 0
      modifies this`cache
      ensures ok == !PageFails(iam, page, faults)
      ensures written <= ToSet(iam.pages[page])
      ensures ok ==> written == ToSet(iam.pages[page]) && reconciled == Mapped(iam, iam.pages[page])
      ensures cache == Swept(old(cache), iam, written)
    {
      if page in faults.listing {
        assert cache == Swept(cache, iam, {});
        return false, [], {};
      }
      ok, reconciled, written := SweepPage(iam, iam.pages[page], concurrency, faults);
    }

    /** What the sweep of the pages says about the tags. */
    method ReconcileTeamRoleCache(iam: Iam, start: nat, maxPages: Option<nat>, concurrency: nat, faults: Faults)
      returns (result: SweepResult, ghost written: set<Role>)
      requires start < |iam.pages| && concurrency > 0
      modifies this`cache
      ensures written <= ToSet(Listed(iam, start, start + PagesDone(iam, start, maxPages)))
      ensures cache == Swept(old(cache), iam, written) && FollowsTags(old(cache), cache, iam, written)
      ensures result.Finished? ==>
                var end := start + PagesDone(iam, start, maxPages);
                && written == ToSet(Listed(iam, start, end))
                && result == Finished(Mapped(iam, Listed(iam, start, end)), end - start, Next(iam, end))
                && IsReport(result.reconciled, Listed(iam, start, end), iam.tags)
      ensures result.Interrupted? <==> SomePageFails(iam, start, start + PagesDone(iam, start, maxPages), faults)
    {
      result, written := SweepPages(iam, start, maxPages, concurrency, faults);
      SweptFollowsTags(old(cache), iam, written);
      ReportIsExact(iam, Listed(iam, start, start + PagesDone(iam, start, maxPages)));
    }

    /** The loop over the pages. */
    method SweepPages(iam: Iam, start: nat, maxPages: Option<nat>, concurrency: nat, faults: Faults)
      returns (result: SweepResult, ghost written: set<Role>)
      requires start < |iam.pages| && concurrency > 0
      modifies this`cache
      ensures written <= ToSet(Listed(iam, start, start + PagesDone(iam, start, maxPages)))
      ensures cache == Swept(old(cache), iam, written)
      ensures result.Finished? ==>
                var end := start + PagesDone(iam, start, maxPages);
                && written == ToSet(Listed(iam, start, end))
                && result == Finished(Mapped(iam, Listed(iam, start, end)), end - start, Next(iam, end))
      ensures result.Interrupted? <==> SomePageFails(iam, start, start + PagesDone(iam, start, maxPages), faults)
    {
      var reconciled: seq<Reconciled>, page, more := [], start, true;
      ghost var goal := start + PagesDone(iam, start, maxPages);
      while more
        invariant start <= page <= goal && (more ==> page < goal)
        invariant !SomePageFails(iam, start, page, faults)
        invariant reconciled == Mapped(iam, Listed(iam, start, page))
        invariant cache == Swept(old(cache), iam, ToSet(Listed(iam, start, page)))
        invariant !more ==> page == goal == |iam.pages|
        decreases goal - page, more
      {
        var ok, mapped;
        ghost var here;
        ok, mapped, here := ListAndSweepPage(iam, page, concurrency, faults);
        PageAdded(old(cache), iam, start, page, goal, here);
        written := ToSet(Listed(iam, start, page)) + here;
        if !ok {
          assert PageFails(iam, page, faults);
          return Interrupted, written;
        }
        reconciled := reconciled + mapped;
        page := page + 1;
        if maxPages.Some? && page - start >= maxPages.value && page < |iam.pages| {
          assert page == goal == start + PagesDone(iam, start, maxPages);
          written := ToSet(Listed(iam, start, page));
          return Finished(reconciled, page - start, Some(page)), written;
        }
        more := page < |iam.pages|;
      }
      written := ToSet(Listed(iam, start, page));
      result := Finished(reconciled, page - start, None);
    }

    method CreateReconcileJob(id: JobId)
      modifies this`jobs
      ensures jobs == old(jobs)[id := Job(Some(RUNNING), 0, 0)]
    {
      jobs := jobs[id := Job(Some(RUNNING), 0, 0)];
    }

    /** The administrator's request. */
    method StartReconcile(id: JobId, sendFails: bool)
      modifies this`jobs, this`queue
      ensures State() == Apply(old(State()), Iam([], map[]), Start(id, !sendFails))
    {
      CreateReconcileJob(id);
      if !sendFails {
        queue := queue + {Message(id, 0)};
      }
    }

    /** The row update of a page: counters are added, and a status is set when one is given. */
    method UpdateJob(id: JobId, roles: nat, pages: nat, status: Option<JobStatus>)
      modifies this`jobs
      ensures var job := JobOf(old(State()), id);
              jobs == old(jobs)[id := Job(if status.Some? then status
                  else job.status, job.rolesProcessed + roles, job.pageCount + pages)]
    {
      var job := if id in jobs then jobs[id] else Job(None, 0, 0);
      jobs := jobs[id := Job(if status.Some? then status
          else job.status, job.rolesProcessed + roles, job.pageCount + pages)];
    }

    /** The sweep of a message: a budget of one page, and batches of 25. */
    method ReconcileOnePage(iam: Iam, page: nat, faults: Faults) returns (result: SweepResult, ghost written: set<Role>)
      requires page < |iam.pages|
      modifies this`cache
      ensures result == if PageFails(iam, page, faults) then Interrupted
                        else Finished(Mapped(iam, iam.pages[page]), 1, Next(iam, page + 1))
      ensures written <= ToSet(iam.pages[page]) && (result.Finished? ==> written == ToSet(iam.pages[page]))
      ensures cache == Swept(old(cache), iam, written)
    {
      result, written := ReconcileTeamRoleCache(iam, page, Some(1), 25, faults);
      OnePage(iam, page, faults);
    }

    /** The guarded part of a message: one page, the job row, and the next message or the end. */
    method SweepOnePage(iam: Iam, msg: Message, faults: Faults) returns (threw: bool, ghost reached: Reached)
      requires msg.page < |iam.pages|
      modifies this
      ensures State() == Handle(old(State()), iam, msg, reached, false)
      ensures threw <==> Throws(iam, msg, faults)
      ensures ReachedUnder(iam, msg, faults, reached)
    {
      var result;
      ghost var written;
      ghost var before := State();
      result, written := ReconcileOnePage(iam, msg.page, faults);
      if result.Interrupted? {
        HandledPartway(before, State(), iam, msg, written);
        return true, Partway(written);
      }
      threw, reached := CountAndPassOn(iam, msg, result.reconciled, result.next, faults, before);
    }

    /** What follows a swept page. */
    method CountAndPassOn(iam: Iam, msg: Message, reconciled: seq<Reconciled>, next: Option<nat>, faults: Faults,
        ghost before: World)
      returns (threw: bool, ghost reached: Reached)
      requires msg.page < |iam.pages| && !PageFails(iam, msg.page, faults)
      requires reconciled == Mapped(iam, iam.pages[msg.page]) && next == Next(iam, msg.page + 1)
      requires State() == before.(cache := Swept(before.cache, iam, ToSet(iam.pages[msg.page])))
      modifies this`jobs, this`queue
      ensures State() == Handle(before, iam, msg, reached, false)
      ensures threw <==> Throws(iam, msg, faults)
      ensures ReachedUnder(iam, msg, faults, reached)
    {
      if faults.counts {
        HandledPage(before, State(), iam, msg);
        return true, PageSwept;
      }
      if next.None? {
        UpdateJob(msg.job, |reconciled|, 1, Some(COMPLETE));
        HandledCounts(before, State(), iam, msg);
        return false, CountsWritten;
      }
      UpdateJob(msg.job, |reconciled|, 1, None);
      if faults.send {
        HandledCounts(before, State(), iam, msg);
        return true, CountsWritten;
      }
      queue := queue + {Message(msg.job, next.value)};
      HandledNext(before, State(), iam, msg);
      return false, NextSent;
    }

    /** One message; an error marks the job as failed, unless that fails, too, and is thrown again. */
    method ProcessReconcileMessage(iam: Iam, msg: Message, faults: Faults)
      returns (threw: bool, ghost reached: Reached, ghost marked: bool)
      requires msg.page < |iam.pages|
      modifies this
      ensures State() == Handle(old(State()), iam, msg, reached, marked)
      ensures threw <==> Throws(iam, msg, faults)
      ensures marked <==> threw && !faults.mark
      ensures ReachedUnder(iam, msg, faults, reached)
      ensures msg in old(queue) ==> Possible(old(State()), iam, Deliver(msg, reached, marked, false))
      ensures !threw ==> Deliver(msg, reached, marked, true) == FullDelivery(iam, msg)
    {
      threw, reached := SweepOnePage(iam, msg, faults);
      marked := false;
      if threw && !faults.mark {
        MarkAfterHandle(old(State()), iam, msg, reached);
        UpdateJob(msg.job, 0, 0, Some(FAILED));
        marked := true;
      }
    }
  }

  /** How far a handling gets under the given faults. */
  predicate ReachedUnder(iam: Iam, msg: Message, faults: Faults, reached: Reached)
    requires msg.page < |iam.pages|
  {
    if PageFails(iam, msg.page, faults) then reached.Partway? && reached.written <= ToSet(iam.pages[msg.page])
    else if faults.counts then reached == PageSwept
    else if msg.page + 1 < |iam.pages| && !faults.send then reached == NextSent
    else reached == CountsWritten
  }

  lemma HandledPartway(w: World, w': World, iam: Iam, msg: Message, written: set<Role>)
    requires w' == w.(cache := Swept(w.cache, iam, written))
    ensures w' == Handle(w, iam, msg, Partway(written), false)
  {
  }

  lemma HandledPage(w: World, w': World, iam: Iam, msg: Message)
    requires msg.page < |iam.pages| && w' == w.(cache := Swept(w.cache, iam, ToSet(iam.pages[msg.page])))
    ensures w' == Handle(w, iam, msg, PageSwept, false)
  {
  }

  lemma HandledCounts(w: World, w': World, iam: Iam, msg: Message)
    requires msg.page < |iam.pages| && w'.cache == Swept(w.cache, iam, ToSet(iam.pages[msg.page])) &&
               w'.queue == w.queue
    requires w'.jobs == w.jobs[msg.job := Counted(JobOf(w, msg.job), iam, msg.page)]
    ensures w' == Handle(w, iam, msg, CountsWritten, false)
  {
  }

  lemma HandledNext(w: World, w': World, iam: Iam, msg: Message)
    requires msg.page < |iam.pages| && w'.cache == Swept(w.cache, iam, ToSet(iam.pages[msg.page]))
    requires w'.jobs == w.jobs[msg.job := Counted(JobOf(w, msg.job), iam, msg.page)]
    requires w'.queue == w.queue + {Message(msg.job, msg.page + 1)}
    ensures w' == Handle(w, iam, msg, NextSent, false)
  {
  }

  lemma BatchAdded(cache: map<Role, Team>, iam: Iam, roles: seq<Role>, i: nat, end: nat, more: set<Role>,
      faults: Faults)
    requires i <= end <= |roles|
    ensures ToSet(roles[..end]) == ToSet(roles[..i]) + ToSet(roles[i..end]) && ToSet(roles[..end]) <= ToSet(roles)
    ensures Mapped(iam, roles[..end]) == Mapped(iam, roles[..i]) + Mapped(iam, roles[i..end])
    ensures Swept(Swept(cache, iam, ToSet(roles[..i])), iam, more) == Swept(cache, iam, ToSet(roles[..i]) + more)
    ensures LookupFails(roles[..end], faults) <==> LookupFails(roles[..i], faults) || LookupFails(roles[i..end], faults)
    ensures LookupFails(roles[..end], faults) ==> LookupFails(roles, faults)
  {
    assert roles[..end] == roles[..i] + roles[i..end];
    Appended(iam, roles[..i], roles[i..end]);
    SweptTwice(cache, iam, ToSet(roles[..i]), more);
  }

  lemma PageAdded(cache: map<Role, Team>, iam: Iam, start: nat, page: nat, goal: nat, here: set<Role>)
    requires start <= page < goal <= |iam.pages| && here <= ToSet(iam.pages[page])
    ensures Listed(iam, start, page + 1) == Listed(iam, start, page) + iam.pages[page]
    ensures ToSet(Listed(iam, start, page + 1)) == ToSet(Listed(iam, start, page)) + ToSet(iam.pages[page])
    ensures Mapped(iam, Listed(iam, start, page + 1))
              == Mapped(iam, Listed(iam, start, page)) + Mapped(iam, iam.pages[page])
    ensures Swept(Swept(cache, iam, ToSet(Listed(iam, start, page))), iam, here)
              == Swept(cache, iam, ToSet(Listed(iam, start, page)) + here)
    ensures ToSet(Listed(iam, start, page)) + here <= ToSet(Listed(iam, start, goal))
  {
    SweptTwice(cache, iam, ToSet(Listed(iam, start, page)), here);
    Appended(iam, Listed(iam, start, page), iam.pages[page]);
    ListedGrows(iam, start, page + 1, goal);
  }

  /** A call for one page. */
  lemma OnePage(iam: Iam, page: nat, faults: Faults)
    requires page < |iam.pages|
    ensures PagesDone(iam, page, Some(1)) == 1 && Listed(iam, page, page + 1) == iam.pages[page]
    ensures SomePageFails(iam, page, page + 1, faults) <==> PageFails(iam, page, faults)
  {
  }

  /** Marking the job comes after everything else. */
  lemma MarkAfterHandle(w: World, iam: Iam, msg: Message, reached: Reached)
    ensures var (before, marked) := (Handle(w, iam, msg, reached, false), Handle(w, iam, msg, reached, true));
      && marked.cache == before.cache && marked.queue == before.queue
      && marked.jobs == before.jobs[msg.job := JobOf(before, msg.job).(status := Some(FAILED))]
  {
  }

  lemma Appended(iam: Iam, a: seq<Role>, b: seq<Role>)
    ensures ToSet(a + b) == ToSet(a) + ToSet(b)
    ensures Mapped(iam, a + b) == Mapped(iam, a) + Mapped(iam, b)
  {
    MappedConcat(iam, a, b);
  }

  lemma {:induction false} ListedGrows(iam: Iam, start: nat, page: nat, end: nat)
    requires start <= page <= end <= |iam.pages|
    ensures ToSet(Listed(iam, start, page)) <= ToSet(Listed(iam, start, end))
    decreases end - page
  {
    if page < end {
      ListedGrows(iam, start, page, end - 1);
    }
  }
}
