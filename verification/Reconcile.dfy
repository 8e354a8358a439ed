/** The sweep that brings the role cache in line with the IAM tags, on values. */
module Reconcile {
  import opened Domain

  /** What IAM answers while a sweep runs: the pages of its role list, and the team tags. */
  datatype Iam = Iam(pages: seq<seq<Role>>, tags: map<Role, Team>)

  datatype Reconciled = Reconciled(role: Role, team: Team)

  /** A role without the tag resolves to Unmapped; so does a role tagged with that very word. */
  function Resolve(iam: Iam, role: Role): Team {
    if role in iam.tags then iam.tags[role] else Unmapped
  }

  /** The entries of those roles that resolve to a team. */
  function Teams(iam: Iam, rs: set<Role>): map<Role, Team> {
    map r | r in rs && Resolve(iam, r) != Unmapped :: Resolve(iam, r)
  }

  /** The cache after sweeping the roles of `rs`: upserted when they resolve to a team, deleted when not. */
  function Swept(cache: map<Role, Team>, iam: Iam, rs: set<Role>): map<Role, Team> {
    (cache - rs) + Teams(iam, rs)
  }

  /** The roles reported as reconciled: those that resolve to a team, in the order of the listing. */
  function Mapped(iam: Iam, roles: seq<Role>): seq<Reconciled> {
    if roles == [] then []
    else
      var last := roles[|roles| - 1];
      Mapped(iam, roles[..|roles| - 1]) +
      if Resolve(iam, last) != Unmapped then [Reconciled(last, Resolve(iam, last))] else []
  }

  /** The roles of the pages from `start` up to `end`, in order. */
  function Listed(iam: Iam, start: nat, end: nat): seq<Role>
    requires start <= end <= |iam.pages|
  {
    if start == end then [] else Listed(iam, start, end - 1) + iam.pages[end - 1]
  }

  function ToSet(roles: seq<Role>): set<Role> {
    set r | r in roles
  }

  lemma SweptTwice(cache: map<Role, Team>, iam: Iam, a: set<Role>, b: set<Role>)
    ensures Swept(Swept(cache, iam, a), iam, b) == Swept(cache, iam, a + b)
  {
  }

  lemma {:induction false} MappedConcat(iam: Iam, a: seq<Role>, b: seq<Role>)
    ensures Mapped(iam, a + b) == Mapped(iam, a) + Mapped(iam, b)
  {
    if b == [] {
      assert a + b == a;
    } else {
      var n := |b| - 1;
      assert (a + b)[..|a| + n] == a + b[..n];
      MappedConcat(iam, a, b[..n]);
    }
  }

  // ---------- what a sweep says about the tags ----------

  /** The entry of the role is what its tag says; a role without a team has none. */
  predicate Settled(cache: map<Role, Team>, iam: Iam, r: Role) {
    if r in iam.tags && iam.tags[r] != Unmapped then r in cache && cache[r] == iam.tags[r] else r !in cache
  }

  /** The entries of these roles are what their tags say, and all others are as they were. */
  ghost predicate FollowsTags(cache: map<Role, Team>, cache': map<Role, Team>, iam: Iam, rs: set<Role>) {
    forall r ::
      if r in rs then Settled(cache', iam, r)
      else (r in cache' <==> r in cache) && (r in cache' ==> cache'[r] == cache[r])
  }

  lemma SweptFollowsTags(cache: map<Role, Team>, iam: Iam, rs: set<Role>)
    ensures FollowsTags(cache, Swept(cache, iam, rs), iam, rs)
  {
  }

  /** The report lists the roles at these positions: those tagged with a team, each with its tag, in order. */
  ghost predicate Reports(report: seq<Reconciled>, roles: seq<Role>, tags: map<Role, Team>, from: seq<nat>) {
    && |from| == |report|
    && (forall j, k :: 0 <= j < k < |from| ==> from[j] < from[k])
    && (forall j :: 0 <= j < |from| ==>
          && from[j] < |roles| && roles[from[j]] in tags && tags[roles[from[j]]] != Unmapped
          && report[j] == Reconciled(roles[from[j]], tags[roles[from[j]]]))
    && (forall i :: 0 <= i < |roles| && roles[i] in tags && tags[roles[i]] != Unmapped ==> i in from)
  }

  ghost predicate IsReport(report: seq<Reconciled>, roles: seq<Role>, tags: map<Role, Team>) {
    exists from :: Reports(report, roles, tags, from)
  }

  /** One role more. */
  lemma ReportNext(report: seq<Reconciled>, roles: seq<Role>, tags: map<Role, Team>, last: Role)
    requires IsReport(report, roles, tags)
    ensures IsReport(report + if last in tags && tags[last] != Unmapped then [Reconciled(last, tags[last])] else [],
                     roles + [last], tags)
  {
    var from: seq<nat> :| Reports(report, roles, tags, from);
    if last in tags && tags[last] != Unmapped {
      ReportWith(report, roles, tags, last, from);
    } else {
      ReportWithout(report, roles, tags, last, from);
      assert report + [] == report;
    }
  }

  lemma ReportWith(report: seq<Reconciled>, roles: seq<Role>, tags: map<Role, Team>, last: Role, from: seq<nat>)
    requires Reports(report, roles, tags, from) && last in tags && tags[last] != Unmapped
    ensures Reports(report + [Reconciled(last, tags[last])], roles + [last], tags, from + [|roles|])
  {
    assert forall i :: 0 <= i < |roles| ==> (roles + [last])[i] == roles[i];
  }

  lemma ReportWithout(report: seq<Reconciled>, roles: seq<Role>, tags: map<Role, Team>, last: Role, from: seq<nat>)
    requires Reports(report, roles, tags, from) && !(last in tags && tags[last] != Unmapped)
    ensures Reports(report, roles + [last], tags, from)
  {
    assert forall i :: 0 <= i < |roles| ==> (roles + [last])[i] == roles[i];
  }

  lemma {:induction false} ReportIsExact(iam: Iam, roles: seq<Role>)
    ensures IsReport(Mapped(iam, roles), roles, iam.tags)
  {
    if roles == [] {
      assert Reports([], [], iam.tags, []);
    } else {
      var n := |roles| - 1;
      ReportIsExact(iam, roles[..n]);
      ReportNext(Mapped(iam, roles[..n]), roles[..n], iam.tags, roles[n]);
      assert roles[..n] + [roles[n]] == roles;
    }
  }

  /** How many of the listed roles are tagged with a team. */
  function Tagged(roles: seq<Role>, tags: map<Role, Team>): nat {
    if roles == [] then 0
    else
      var last := roles[|roles| - 1];
      Tagged(roles[..|roles| - 1], tags) + if last in tags && tags[last] != Unmapped then 1 else 0
  }

  lemma {:induction false} ReportCountsTagged(iam: Iam, roles: seq<Role>)
    ensures |Mapped(iam, roles)| == Tagged(roles, iam.tags)
  {
    if roles == [] {
    } else {
      ReportCountsTagged(iam, roles[..|roles| - 1]);
    }
  }

  // ---------- pages ----------

  /** How many pages an invocation fetches from page `start` on; the budget is looked at after a page. */
  function PagesDone(iam: Iam, start: nat, maxPages: Option<nat>): (n: nat)
    requires start < |iam.pages|
    ensures 1 <= n <= |iam.pages| - start
    ensures maxPages.Some? ==> n == 1 || n <= maxPages.value
    ensures n < |iam.pages| - start ==> maxPages.Some? && maxPages.value <= n
  {
    match maxPages
    case None => |iam.pages| - start
    case Some(m) => if m < 1 then 1 else if m < |iam.pages| - start then m else |iam.pages| - start
  }

  function Next(iam: Iam, page: nat): Option<nat> {
    if page < |iam.pages| then Some(page) else None
  }
}

/** The queue-driven reconcile job: what one delivery of a message does, and every run of deliveries. */
module ReconcileProtocol {
  import opened Domain
  import opened Reconcile

  type JobId = string

  datatype JobStatus = RUNNING | COMPLETE | FAILED

  /** An update of an expired job row makes a row without status, hence the option. */
  datatype Job = Job(status: Option<JobStatus>, rolesProcessed: nat, pageCount: nat)

  /** The marker names the page to resume from; the first message carries none, which is page 0. */
  datatype Message = Message(job: JobId, page: nat)

  datatype World = World(cache: map<Role, Team>, jobs: map<JobId, Job>, queue: set<Message>)

  /** How far the handling of a message gets before it is over, by success, error or crash. */
  datatype Reached =
    | Partway(written: set<Role>)
    | PageSwept
    | CountsWritten
    | NextSent

  function PageOf(iam: Iam, page: nat): seq<Role> {
    if page < |iam.pages| then iam.pages[page] else []
  }

  function JobOf(w: World, id: JobId): Job {
    if id in w.jobs then w.jobs[id] else Job(None, 0, 0)
  }

  /** The counters of the page are added; on the last page the job becomes complete in the same write. */
  function Counted(job: Job, iam: Iam, page: nat): Job {
    Job(if page + 1 >= |iam.pages| then Some(COMPLETE) else job.status,
        job.rolesProcessed + |Mapped(iam, PageOf(iam, page))|, job.pageCount + 1)
  }

  datatype Step =
    /** The administrator's request: a job row, and the first message unless sending it fails. */
    | Start(id: JobId, sent: bool)
    /** A delivery; afterwards the job may be marked failed, and the message may leave the queue. */
    | Deliver(msg: Message, reached: Reached, marked: bool, removed: bool)

  ghost predicate Possible(w: World, iam: Iam, step: Step) {
    match step
    case Start(_, _) => true
    case Deliver(msg, reached, _, _) =>
      && msg in w.queue && msg.page < |iam.pages|
      && (reached.Partway? ==> reached.written <= ToSet(PageOf(iam, msg.page)))
      && (reached.NextSent? ==> msg.page + 1 < |iam.pages|)
  }

  /** The roles of the page whose entries have been written. */
  function Written(iam: Iam, msg: Message, reached: Reached): set<Role> {
    if reached.Partway? then reached.written else ToSet(PageOf(iam, msg.page))
  }

  function JobAfter(w: World, iam: Iam, msg: Message, reached: Reached): Job {
    if reached.CountsWritten? || reached.NextSent? then Counted(JobOf(w, msg.job), iam, msg.page) else JobOf(w, msg.job)
  }

  /** What the handling of a message leaves: the sweep, then the counters, then the next message, then the mark. */
  function Handle(w: World, iam: Iam, msg: Message, reached: Reached, marked: bool): World {
    World(
      Swept(w.cache, iam, Written(iam, msg, reached)),
      if marked then w.jobs[msg.job := JobAfter(w, iam, msg, reached).(status := Some(FAILED))]
      else if reached.CountsWritten? || reached.NextSent? then w.jobs[msg.job := JobAfter(w, iam, msg, reached)]
      else w.jobs,
      if reached.NextSent? then w.queue + {Message(msg.job, msg.page + 1)} else w.queue)
  }

  function Apply(w: World, iam: Iam, step: Step): World {
    match step
    case Start(id, sent) =>
      w.(jobs := w.jobs[id := Job(Some(RUNNING), 0, 0)],
         queue := if sent then w.queue + {Message(id, 0)} else w.queue)
    case Deliver(msg, reached, marked, removed) =>
      var w' := Handle(w, iam, msg, reached, marked);
      if removed then w'.(queue := w'.queue - {msg}) else w'
  }

  function Run(w: World, iam: Iam, steps: seq<Step>): World
    decreases |steps|
  {
    if steps == [] then w else Run(Apply(w, iam, steps[0]), iam, steps[1..])
  }

  ghost predicate PossibleRun(w: World, iam: Iam, steps: seq<Step>)
    decreases |steps|
  {
    steps != [] ==> Possible(w, iam, steps[0]) && PossibleRun(Apply(w, iam, steps[0]), iam, steps[1..])
  }

  // ---------- safety under at-least-once delivery ----------

  ghost predicate SettledBefore(cache: map<Role, Team>, iam: Iam, page: nat) {
    forall i :: 0 <= i < page && i < |iam.pages| ==> forall r :: r in iam.pages[i] ==> Settled(cache, iam, r)
  }

  predicate IsListed(iam: Iam, r: Role) {
    exists i :: 0 <= i < |iam.pages| && r in iam.pages[i]
  }

  ghost predicate Safe(cache0: map<Role, Team>, w: World, iam: Iam) {
    && (forall m :: m in w.queue ==> m.page < |iam.pages| && SettledBefore(w.cache, iam, m.page))
    && (forall id :: id in w.jobs && w.jobs[id].status == Some(COMPLETE) ==> SettledBefore(w.cache, iam, |iam.pages|))
    && (forall r :: !IsListed(iam, r) ==> (r in w.cache <==> r in cache0) && (r in w.cache ==> w.cache[r] == cache0[r]))
  }

  /** Sweeping more roles unsettles none. */
  lemma SweepingKeepsSettled(cache: map<Role, Team>, iam: Iam, rs: set<Role>, page: nat)
    requires SettledBefore(cache, iam, page)
    ensures SettledBefore(Swept(cache, iam, rs), iam, page)
  {
    forall i, r | 0 <= i < page && i < |iam.pages| && r in iam.pages[i] ensures Settled(Swept(cache, iam, rs), iam, r) {
      assert Settled(cache, iam, r);
    }
  }

  lemma SweepingSettlesPage(cache: map<Role, Team>, iam: Iam, page: nat)
    requires page < |iam.pages| && SettledBefore(cache, iam, page)
    ensures SettledBefore(Swept(cache, iam, ToSet(iam.pages[page])), iam, page + 1)
  {
    var rs := ToSet(iam.pages[page]);
    SweepingKeepsSettled(cache, iam, rs, page);
    forall r | r in iam.pages[page] ensures Settled(Swept(cache, iam, rs), iam, r) {
      assert r in rs;
    }
  }

  lemma HandlingSettles(w: World, iam: Iam, msg: Message, reached: Reached, page: nat)
    requires msg.page < |iam.pages|
    requires SettledBefore(w.cache, iam, page) ||
               (!reached.Partway? && page == msg.page + 1 && SettledBefore(w.cache, iam, msg.page))
    ensures SettledBefore(Swept(w.cache, iam, Written(iam, msg, reached)), iam, page)
  {
    if SettledBefore(w.cache, iam, page) {
      SweepingKeepsSettled(w.cache, iam, Written(iam, msg, reached), page);
    } else {
      SweepingSettlesPage(w.cache, iam, msg.page);
    }
  }

  lemma HandlingKeepsSafe(cache0: map<Role, Team>, w: World, iam: Iam, msg: Message, reached: Reached, marked: bool)
    requires Safe(cache0, w, iam) && Possible(w, iam, Deliver(msg, reached, marked, false))
    ensures Safe(cache0, Handle(w, iam, msg, reached, marked), iam)
  {
    var w' := Handle(w, iam, msg, reached, marked);
    forall m | m in w'.queue ensures m.page < |iam.pages| && SettledBefore(w'.cache, iam, m.page) {
      HandlingSettles(w, iam, msg, reached, m.page);
    }
    forall id | id in w'.jobs && w'.jobs[id].status == Some(COMPLETE)
      ensures SettledBefore(w'.cache, iam, |iam.pages|) {
      HandlingSettles(w, iam, msg, reached, |iam.pages|);
    }
    forall r | !IsListed(iam, r) ensures r !in Written(iam, msg, reached) {
      assert r !in iam.pages[msg.page];
    }
  }

  lemma StepKeepsSafe(cache0: map<Role, Team>, w: World, iam: Iam, step: Step)
    requires iam.pages != [] && Safe(cache0, w, iam) && Possible(w, iam, step)
    ensures Safe(cache0, Apply(w, iam, step), iam)
  {
    if step.Deliver? {
      HandlingKeepsSafe(cache0, w, iam, step.msg, step.reached, step.marked);
    }
  }

  lemma {:induction false} RunKeepsSafe(cache0: map<Role, Team>, w: World, iam: Iam, steps: seq<Step>)
    requires iam.pages != [] && Safe(cache0, w, iam) && PossibleRun(w, iam, steps)
    ensures Safe(cache0, Run(w, iam, steps), iam)
    decreases |steps|
  {
    if steps == [] {
    } else {
      StepKeepsSafe(cache0, w, iam, steps[0]);
      RunKeepsSafe(cache0, Apply(w, iam, steps[0]), iam, steps[1..]);
    }
  }

  /**
   While the tags stand still: whatever is delivered twice, cut off half-way or lost, a job is complete only
   when the cache entry of every listed role is what its tag says, and entries of other roles are untouched.
   */
  lemma CompleteMeansSettled(cache: map<Role, Team>, iam: Iam, steps: seq<Step>, id: JobId)
    requires iam.pages != [] && PossibleRun(World(cache, map[], {}), iam, steps)
    ensures var w := Run(World(cache, map[], {}), iam, steps);
            && (id in w.jobs && w.jobs[id].status == Some(COMPLETE) ==>
                  forall r :: (exists i :: 0 <= i < |iam.pages| && r in iam.pages[i]) ==>
                    if r in iam.tags && iam.tags[r] != Unmapped then r in w.cache && w.cache[r] == iam.tags[r]
                    else r !in w.cache)
            && (forall r :: !IsListed(iam, r) ==>
                (r in w.cache <==> r in cache) && (r in w.cache ==> w.cache[r] == cache[r]))
  {
    RunKeepsSafe(cache, World(cache, map[], {}), iam, steps);
    assert forall i, r :: 0 <= i < |iam.pages| && r in iam.pages[i] ==> IsListed(iam, r);
  }

  // ---------- the chain without failures ----------

  /** The message is handled to the end and then removed from the queue. */
  function FullDelivery(iam: Iam, msg: Message): Step {
    Deliver(msg, if msg.page + 1 < |iam.pages| then NextSent else CountsWritten, false, true)
  }

  /** The world when `n` pages of the only job are done. */
  function AfterPages(cache: map<Role, Team>, iam: Iam, id: JobId, n: nat): World
    requires n <= |iam.pages|
  {
    World(
      Swept(cache, iam, ToSet(Listed(iam, 0, n))),
      map[id := Job(Some(if n == |iam.pages| then COMPLETE else RUNNING), |Mapped(iam, Listed(iam, 0, n))|, n)],
      if n == |iam.pages| then {} else {Message(id, n)})
  }

  lemma NextPageCache(cache: map<Role, Team>, iam: Iam, n: nat)
    requires n < |iam.pages|
    ensures Swept(Swept(cache, iam, ToSet(Listed(iam, 0, n))), iam, ToSet(iam.pages[n]))
              == Swept(cache, iam, ToSet(Listed(iam, 0, n + 1)))
  {
    SweptTwice(cache, iam, ToSet(Listed(iam, 0, n)), ToSet(iam.pages[n]));
    assert ToSet(Listed(iam, 0, n + 1)) == ToSet(Listed(iam, 0, n)) + ToSet(iam.pages[n]);
  }

  lemma NextPageJob(cache: map<Role, Team>, iam: Iam, id: JobId, n: nat)
    requires n < |iam.pages|
    ensures Counted(AfterPages(cache, iam, id, n).jobs[id], iam, n) == AfterPages(cache, iam, id, n + 1).jobs[id]
  {
    MappedConcat(iam, Listed(iam, 0, n), iam.pages[n]);
  }

  lemma NextPageQueue(iam: Iam, id: JobId, n: nat, before: World, goal: World)
    requires n < |iam.pages| && before.queue == {Message(id, n)}
    requires goal.queue == if n + 1 == |iam.pages| then {} else {Message(id, n + 1)}
    ensures Apply(before, iam, FullDelivery(iam, Message(id, n))).queue == goal.queue
  {
  }

  lemma NextPageJobs(iam: Iam, id: JobId, n: nat, before: World, job: Job)
    requires n < |iam.pages| && before.jobs == map[id := job]
    ensures Apply(before, iam, FullDelivery(iam, Message(id, n))).jobs == map[id := Counted(job, iam, n)]
  {
  }

  lemma NextPage(cache: map<Role, Team>, iam: Iam, id: JobId, n: nat)
    requires n < |iam.pages|
    ensures Apply(AfterPages(cache, iam, id, n), iam, FullDelivery(iam, Message(id, n)))
              == AfterPages(cache, iam, id, n + 1)
  {
    var before, goal := AfterPages(cache, iam, id, n), AfterPages(cache, iam, id, n + 1);
    NextPageCache(cache, iam, n);
    NextPageJob(cache, iam, id, n);
    NextPageJobs(iam, id, n, before, before.jobs[id]);
    NextPageQueue(iam, id, n, before, goal);
  }

  ghost predicate IsFull(iam: Iam, step: Step) {
    step.Deliver? && step == FullDelivery(iam, step.msg)
  }

  /** Only one message is in flight, and delivering it does its page. */
  lemma OnlyStepIsNextPage(cache: map<Role, Team>, iam: Iam, id: JobId, n: nat, step: Step)
    requires n <= |iam.pages| && IsFull(iam, step) && Possible(AfterPages(cache, iam, id, n), iam, step)
    ensures n < |iam.pages| && step == FullDelivery(iam, Message(id, n))
    ensures Apply(AfterPages(cache, iam, id, n), iam, step) == AfterPages(cache, iam, id, n + 1)
  {
    assert step.msg in AfterPages(cache, iam, id, n).queue;
    NextPage(cache, iam, id, n);
  }

  /** The deliveries of the pages from `start` up to `end`, in order. */
  function Chain(iam: Iam, id: JobId, start: nat, end: nat): seq<Step>
    requires start <= end
    decreases end - start
  {
    if start == end then [] else [FullDelivery(iam, Message(id, start))] + Chain(iam, id, start + 1, end)
  }

  ghost predicate AllFull(iam: Iam, steps: seq<Step>) {
    forall i :: 0 <= i < |steps| ==> IsFull(iam, steps[i])
  }

  /** In the n-th of these worlds the n-th page can be delivered in full, and nothing else can. */
  ghost predicate Leads(iam: Iam, id: JobId, worlds: nat -> World) {
    forall n: nat, step :: n <= |iam.pages| && IsFull(iam, step) && Possible(worlds(n), iam, step) ==>
                             && n < |iam.pages| && step == FullDelivery(iam, Message(id, n))
                             && Apply(worlds(n), iam, step) == worlds(n + 1)
  }

  /** A run of full deliveries begins with the next page and goes on from the next world. */
  lemma NextInOrder(iam: Iam, id: JobId, worlds: nat -> World, n: nat, steps: seq<Step>)
    requires Leads(iam, id, worlds) && n <= |iam.pages| && steps != []
    requires PossibleRun(worlds(n), iam, steps) && AllFull(iam, steps)
    ensures n < |iam.pages| && steps[0] == FullDelivery(iam, Message(id, n))
    ensures Run(worlds(n), iam, steps) == Run(worlds(n + 1), iam, steps[1..])
    ensures PossibleRun(worlds(n + 1), iam, steps[1..]) && AllFull(iam, steps[1..])
  {
    assert IsFull(iam, steps[0]) && Possible(worlds(n), iam, steps[0]);
  }

  /** A run of full deliveries is over after the last page. */
  lemma {:induction false} ChainEnds(iam: Iam, id: JobId, worlds: nat -> World, n: nat, steps: seq<Step>, end: nat)
    requires Leads(iam, id, worlds) && end == n + |steps|
    requires n <= |iam.pages| && PossibleRun(worlds(n), iam, steps) && AllFull(iam, steps)
    ensures end <= |iam.pages| && Run(worlds(n), iam, steps) == worlds(end)
    decreases |steps|
  {
    if steps == [] {
    } else {
      NextInOrder(iam, id, worlds, n, steps);
      ChainEnds(iam, id, worlds, n + 1, steps[1..], end);
    }
  }

  /** It visits each page once, in order. */
  lemma {:induction false} ChainInOrder(iam: Iam, id: JobId, worlds: nat -> World, n: nat, steps: seq<Step>, end: nat)
    requires Leads(iam, id, worlds) && end == n + |steps|
    requires n <= |iam.pages| && PossibleRun(worlds(n), iam, steps) && AllFull(iam, steps)
    ensures steps == Chain(iam, id, n, end)
    decreases |steps|
  {
    if steps == [] {
    } else {
      NextInOrder(iam, id, worlds, n, steps);
      ChainInOrder(iam, id, worlds, n + 1, steps[1..], end);
      assert steps == [steps[0]] + steps[1..];
    }
  }

  function Worlds(cache: map<Role, Team>, iam: Iam, id: JobId): nat -> World {
    (n: nat) => AfterPages(cache, iam, id, if n <= |iam.pages| then n else |iam.pages|)
  }

  lemma PagesLead(cache: map<Role, Team>, iam: Iam, id: JobId)
    ensures Leads(iam, id, Worlds(cache, iam, id))
  {
    var worlds := Worlds(cache, iam, id);
    forall n: nat, step | n <= |iam.pages| && IsFull(iam, step) && Possible(worlds(n), iam, step)
      ensures n < |iam.pages| && step == FullDelivery(iam, Message(id, n)) &&
                Apply(worlds(n), iam, step) == worlds(n + 1)
    {
      OnlyStepIsNextPage(cache, iam, id, n, step);
    }
  }

  /** One message is in flight until all pages are done; then the world is that of one unbounded sweep. */
  ghost predicate InFlightUntilSwept(cache: map<Role, Team>, iam: Iam, id: JobId, delivered: nat, w: World) {
    if delivered < |iam.pages| then w.queue == {Message(id, delivered)}
    else
      var all := Listed(iam, 0, |iam.pages|);
      && w == World(Swept(cache, iam, ToSet(all)), map[id := Job(Some(COMPLETE), Tagged(all, iam.tags), |iam.pages|)],
          {})
      && FollowsTags(cache, w.cache, iam, ToSet(all))
  }

  /**
   Without failures the chain refines one unbounded sweep. Any run of full deliveries after the start visits the
   pages once, in order; it is over when the queue is empty, and exactly then all pages are done: the cache is the
   unbounded sweep's, every page has been counted once, and every role with a team as often as it is listed.
   */
  lemma ChainRefinesSingleSweep(cache: map<Role, Team>, iam: Iam, id: JobId, steps: seq<Step>)
    requires iam.pages != []
    requires PossibleRun(Apply(World(cache, map[], {}), iam, Start(id, true)), iam, steps) && AllFull(iam, steps)
    ensures |steps| <= |iam.pages| && steps == Chain(iam, id, 0, |steps|)
    ensures InFlightUntilSwept(cache, iam, id, |steps|,
              Run(Apply(World(cache, map[], {}), iam, Start(id, true)), iam, steps))
  {
    var started := Apply(World(cache, map[], {}), iam, Start(id, true));
    StarterBeginsChain(cache, iam, id);
    ChainFromStart(cache, iam, id, started, steps);
    AfterPagesInFlight(cache, iam, id, |steps|);
  }

  lemma ChainFromStart(cache: map<Role, Team>, iam: Iam, id: JobId, start: World, steps: seq<Step>)
    requires start == Worlds(cache, iam, id)(0) && PossibleRun(start, iam, steps) && AllFull(iam, steps)
    ensures |steps| <= |iam.pages| && steps == Chain(iam, id, 0, |steps|)
    ensures Run(start, iam, steps) == AfterPages(cache, iam, id, |steps|)
  {
    var worlds := Worlds(cache, iam, id);
    PagesLead(cache, iam, id);
    ChainEnds(iam, id, worlds, 0, steps, |steps|);
    ChainInOrder(iam, id, worlds, 0, steps, |steps|);
  }

  lemma AfterPagesInFlight(cache: map<Role, Team>, iam: Iam, id: JobId, n: nat)
    requires n <= |iam.pages|
    ensures InFlightUntilSwept(cache, iam, id, n, AfterPages(cache, iam, id, n))
  {
    ReportCountsTagged(iam, Listed(iam, 0, n));
    SweptFollowsTags(cache, iam, ToSet(Listed(iam, 0, n)));
  }

  /** The starter puts the world where the chain begins. */
  lemma StarterBeginsChain(cache: map<Role, Team>, iam: Iam, id: JobId)
    requires iam.pages != []
    ensures Apply(World(cache, map[], {}), iam, Start(id, true)) == AfterPages(cache, iam, id, 0)
  {
    var w, goal := Apply(World(cache, map[], {}), iam, Start(id, true)), AfterPages(cache, iam, id, 0);
    assert w.cache == goal.cache && w.jobs == goal.jobs && w.queue == goal.queue;
  }
}
