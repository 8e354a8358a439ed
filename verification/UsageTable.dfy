/** The running totals of teams, written by two pipelines: per-request additions and absolute daily values. */
module UsageTable {
  import opened Domain

  datatype UsageKey = UsageKey(team: Team, model: Model, day: Day)

  /** The counters of a row. */
  datatype Field = RunningTotal | Input | Output | CacheRead | CacheWrite

  datatype Totals = Totals(running: int, input: int, output: int, cacheRead: int, cacheWrite: int, endpoint: Endpoint)
  {
    function Get(f: Field): int {
      match f
      case RunningTotal => running
      case Input => input
      case Output => output
      case CacheRead => cacheRead
      case CacheWrite => cacheWrite
    }
  }

  /** A parsed log entry; `day` is None when its timestamp is not a date. */
  datatype Entry = Entry(id: string, role: Role, model: Model, input: int, output: int, cacheRead: int,
      cacheWrite: int, day: Option<Day>)

  /** An entry with the team its role resolves to at that moment. */
  datatype Delivery = Delivery(entry: Entry, team: Team)

  /** A day's total of one team and model, as the metrics give it. */
  datatype DayTotal = DayTotal(team: Team, model: Model, day: Day, input: int, output: int)

  datatype Usage = Usage(rows: map<UsageKey, Totals>, processed: set<string>)

  function TotalsOf(rows: map<UsageKey, Totals>, k: UsageKey): Totals {
    if k in rows then rows[k] else Totals(0, 0, 0, 0, 0, BedrockRuntime)
  }

  predicate Dated(d: Delivery) {
    d.entry.day.Some?
  }

  function KeyOf(d: Delivery): UsageKey
    requires Dated(d)
  {
    UsageKey(d.team, d.entry.model, d.entry.day.value)
  }

  function Plus(t: Totals, e: Entry): Totals {
    Totals(t.running + (e.input + e.output), t.input + e.input, t.output + e.output,
           t.cacheRead + e.cacheRead, t.cacheWrite + e.cacheWrite, BedrockRuntime)
  }

  /** The dedup record and the addition are one transaction; a known request changes nothing, an undated one fails. */
  function Add(u: Usage, d: Delivery): Usage {
    if !Dated(d) || d.entry.id in u.processed then u
    else Usage(u.rows[KeyOf(d) := Plus(TotalsOf(u.rows, KeyOf(d)), d.entry)], u.processed + {d.entry.id})
  }

  /** The row with these amounts more, of the per-request endpoint; a row that is not there counts as zeros. */
  ghost predicate Grows(rows: map<UsageKey, Totals>, rows': map<UsageKey, Totals>, k: UsageKey, input: int, output: int,
      cacheRead: int, cacheWrite: int)
  {
    && k in rows' && rows'[k].endpoint == BedrockRuntime
    && rows'[k].running == (if k in rows then rows[k].running else 0) + input + output
    && rows'[k].input == (if k in rows then rows[k].input else 0) + input
    && rows'[k].output == (if k in rows then rows[k].output else 0) + output
    && rows'[k].cacheRead == (if k in rows then rows[k].cacheRead else 0) + cacheRead
    && rows'[k].cacheWrite == (if k in rows then rows[k].cacheWrite else 0) + cacheWrite
  }

  ghost predicate OthersStay(rows: map<UsageKey, Totals>, rows': map<UsageKey, Totals>, k: UsageKey) {
    forall x :: x != k ==> (x in rows' <==> x in rows) && (x in rows' ==> rows'[x] == rows[x])
  }

  /** A new dated request is booked on its team, its model and its day, and nowhere else. */
  lemma BookedOnItsTeam(u: Usage, e: Entry, team: Team)
    requires e.day.Some? && e.id !in u.processed
    ensures var (k, u') := (UsageKey(team, e.model, e.day.value), Add(u, Delivery(e, team)));
      && Grows(u.rows, u'.rows, k, e.input, e.output, e.cacheRead, e.cacheWrite) && OthersStay(u.rows, u'.rows, k)
      && u'.processed == u.processed + {e.id}
  {
  }

  /** An undated or known request is not booked. */
  lemma NotBooked(u: Usage, e: Entry, team: Team)
    requires e.day.None? || e.id in u.processed
    ensures Add(u, Delivery(e, team)) == u
  {
  }

  function KeyOfDay(r: DayTotal): UsageKey {
    UsageKey(r.team, r.model, r.day)
  }

  /** The absolute write overwrites the token counters but leaves the cache counters. */
  function Set(rows: map<UsageKey, Totals>, r: DayTotal): map<UsageKey, Totals> {
    var t := TotalsOf(rows, KeyOfDay(r));
    rows[KeyOfDay(r) := Totals(r.input + r.output, r.input, r.output, t.cacheRead, t.cacheWrite, BedrockMantle)]
  }

  datatype Step = Converse(d: Delivery) | Mantle(r: DayTotal)

  function Apply(u: Usage, step: Step): Usage {
    match step
    case Converse(d) => Add(u, d)
    case Mantle(r) => u.(rows := Set(u.rows, r))
  }

  function Run(u: Usage, steps: seq<Step>): Usage {
    if steps == [] then u else Apply(Run(u, steps[..|steps| - 1]), steps[|steps| - 1])
  }

  lemma {:induction false} RunConcat(u: Usage, a: seq<Step>, b: seq<Step>)
    ensures Run(u, a + b) == Run(Run(u, a), b)
    decreases |b|
  {
    if b == [] {
      assert a + b == a;
    } else {
      assert (a + b)[..|a + b| - 1] == a + b[..|b| - 1];
      RunConcat(u, a, b[..|b| - 1]);
    }
  }

  ghost predicate Balanced(rows: map<UsageKey, Totals>) {
    forall k :: k in rows ==> rows[k].running == rows[k].input + rows[k].output
  }

  /** In every row the running total is input plus output, however the two pipelines interleave. */
  lemma {:induction false} RunningTotalIsInputPlusOutput(u: Usage, steps: seq<Step>)
    requires Balanced(u.rows)
    ensures Balanced(Run(u, steps).rows)
  {
    if steps == [] {
    } else {
      RunningTotalIsInputPlusOutput(u, steps[..|steps| - 1]);
    }
  }
}

/** Exactly-once accounting of the per-request pipeline. */
module ConverseAccounting {
  import opened Domain
  import opened UsageTable
  import opened Sums

  // ---------- the deliveries that count ----------

  /** The request was processed before the steps, or one of them delivers it. */
  predicate Seen(seen: set<string>, steps: seq<Step>, id: string) {
    id in seen || exists i :: 0 <= i < |steps| && steps[i].Converse? && Dated(steps[i].d) && steps[i].d.entry.id == id
  }

  /** The first dated delivery of each request not seen before. */
  function Firsts(steps: seq<Step>, seen: set<string>): seq<Delivery> {
    if steps == [] then []
    else
      var n := |steps| - 1;
      var before := Firsts(steps[..n], seen);
      if steps[n].Converse? && Dated(steps[n].d) &&
          !Seen(seen, steps[..n], steps[n].d.entry.id) then before + [steps[n].d] else before
  }

  lemma {:induction false} ProcessedIsSeen(u: Usage, steps: seq<Step>)
    ensures forall id :: id in Run(u, steps).processed <==> Seen(u.processed, steps, id)
  {
    if steps == [] {
    } else {
      var n := |steps| - 1;
      ProcessedIsSeen(u, steps[..n]);
      assert steps == steps[..n] + [steps[n]];
      forall id ensures id in Run(u, steps).processed <==> Seen(u.processed, steps, id) {
        SeenGrows(u.processed, steps, id);
      }
    }
  }

  lemma SeenGrows(seen: set<string>, steps: seq<Step>, id: string)
    requires steps != []
    ensures var last := steps[|steps| - 1];
            Seen(seen, steps, id) <==>
                Seen(seen, steps[..|steps| - 1], id) || (last.Converse? && Dated(last.d) && last.d.entry.id == id)
  {
    var n := |steps| - 1;
    if Seen(seen, steps[..n], id) && id !in seen {
      var i :| 0 <= i < n && steps[..n][i].Converse? && Dated(steps[..n][i].d) && steps[..n][i].d.entry.id == id;
      assert steps[i] == steps[..n][i];
    }
    if Seen(seen, steps, id) && id !in seen {
      var i :| 0 <= i < |steps| && steps[i].Converse? && Dated(steps[i].d) && steps[i].d.entry.id == id;
      if i < n {
        assert steps[..n][i] == steps[i];
      }
    }
  }

  lemma {:induction false} FirstsAreDelivered(steps: seq<Step>, seen: set<string>)
    ensures forall d :: d in Firsts(steps, seen) ==> Dated(d) && d.entry.id !in seen && Converse(d) in steps
  {
    if steps == [] {
    } else {
      FirstsAreDelivered(steps[..|steps| - 1], seen);
    }
  }

  lemma SeenIfDelivered(steps: seq<Step>, seen: set<string>, d: Delivery)
    requires Converse(d) in steps && Dated(d)
    ensures Seen(seen, steps, d.entry.id)
  {
    var j :| 0 <= j < |steps| && steps[j] == Converse(d);
  }

  ghost predicate DistinctRequests(ds: seq<Delivery>) {
    forall i, j :: 0 <= i < j < |ds| ==> ds[i].entry.id != ds[j].entry.id
  }

  lemma NewRequest(ds: seq<Delivery>, d: Delivery)
    requires DistinctRequests(ds) && forall x :: x in ds ==> x.entry.id != d.entry.id
    ensures DistinctRequests(ds + [d])
  {
    assert forall i :: 0 <= i < |ds| ==> ds[i] in ds;
  }

  lemma {:induction false} FirstsDiffer(steps: seq<Step>, seen: set<string>)
    ensures DistinctRequests(Firsts(steps, seen))
  {
    if steps == [] {
    } else {
      var n := |steps| - 1;
      FirstsDiffer(steps[..n], seen);
      if Firsts(steps, seen) != Firsts(steps[..n], seen) {
        FirstsAreDelivered(steps[..n], seen);
        forall d | d in Firsts(steps[..n], seen) ensures d.entry.id != steps[n].d.entry.id {
          SeenIfDelivered(steps[..n], seen, d);
        }
        NewRequest(Firsts(steps[..n], seen), steps[n].d);
      }
    }
  }

  lemma {:induction false} SeenHasFirst(steps: seq<Step>, seen: set<string>, id: string)
    requires id !in seen && Seen(seen, steps, id)
    ensures exists d :: d in Firsts(steps, seen) && d.entry.id == id
  {
    var n := |steps| - 1;
    SeenGrows(seen, steps, id);
    if Seen(seen, steps[..n], id) {
      SeenHasFirst(steps[..n], seen, id);
      var d :| d in Firsts(steps[..n], seen) && d.entry.id == id;
      assert d in Firsts(steps, seen);
    } else {
      assert steps[n].d in Firsts(steps, seen);
    }
  }

  /** Each new request counts once, and it is one of the deliveries. */
  lemma FirstsAreDistinct(steps: seq<Step>, seen: set<string>)
    ensures var firsts := Firsts(steps, seen);
      && DistinctRequests(firsts)
      && (forall d :: d in firsts ==> Dated(d) && d.entry.id !in seen && Converse(d) in steps)
      && (forall id :: id !in seen && Seen(seen, steps, id) ==> exists d :: d in firsts && d.entry.id == id)
  {
    FirstsDiffer(steps, seen);
    FirstsAreDelivered(steps, seen);
    forall id | id !in seen && Seen(seen, steps, id) ensures exists d :: d in Firsts(steps, seen) && d.entry.id == id {
      SeenHasFirst(steps, seen, id);
    }
  }

  // ---------- rows ----------

  /** What an entry brings to a counter. */
  function Brought(e: Entry, f: Field): int {
    match f
    case RunningTotal => e.input + e.output
    case Input => e.input
    case Output => e.output
    case CacheRead => e.cacheRead
    case CacheWrite => e.cacheWrite
  }

  /** What the delivery adds to a counter of the row of `k`. */
  function Amount(d: Delivery, k: UsageKey, f: Field): int {
    if d.entry.day.Some? && k == UsageKey(d.team, d.entry.model, d.entry.day.value) then Brought(d.entry, f) else 0
  }

  function Amounts(ds: seq<Delivery>, k: UsageKey, f: Field): int {
    if ds == [] then 0 else Amounts(ds[..|ds| - 1], k, f) + Amount(ds[|ds| - 1], k, f)
  }

  ghost predicate NotSet(steps: seq<Step>, k: UsageKey) {
    forall i :: 0 <= i < |steps| && steps[i].Mantle? ==>
                  k != UsageKey(steps[i].r.team, steps[i].r.model, steps[i].r.day)
  }

  /**
   Exactly once: whatever is delivered, in which order and how often, each counter of a row grows by what the first
   deliveries of the distinct new requests bring to it, as long as no absolute write overwrites it; the cache
   counters never are.
   */
  lemma {:induction false} ExactlyOnce(u: Usage, steps: seq<Step>, k: UsageKey, f: Field)
    requires NotSet(steps, k) || IsCache(f)
    ensures TotalsOf(Run(u, steps).rows, k).Get(f)
              == TotalsOf(u.rows, k).Get(f) + Amounts(Firsts(steps, u.processed), k, f)
  {
    if steps == [] {
    } else {
      var n := |steps| - 1;
      ExactlyOnce(u, steps[..n], k, f);
      ProcessedIsSeen(u, steps[..n]);
      if steps[n].Converse? {
        AddedAmount(Run(u, steps[..n]), steps[n].d, k, f);
        AmountsAppend(Firsts(steps[..n], u.processed), steps[n].d, k, f);
      }
    }
  }

  predicate IsCache(f: Field) {
    f.CacheRead? || f.CacheWrite?
  }

  /** What an absolute write sets a counter to. */
  function SetTo(r: DayTotal, f: Field): int
    requires !IsCache(f)
  {
    match f
    case RunningTotal => r.input + r.output
    case Input => r.input
    case Output => r.output
  }

  /** The last absolute write to the row, if there is one. */
  lemma {:induction false} LastSet(steps: seq<Step>, k: UsageKey) returns (n: nat)
    ensures n <= |steps| && NotSet(steps[n..], k)
    ensures n == 0 || (steps[n - 1].Mantle? && KeyOfDay(steps[n - 1].r) == k)
  {
    if steps == [] {
      n := 0;
    } else {
      var m := |steps| - 1;
      if steps[m].Mantle? && KeyOfDay(steps[m].r) == k {
        n := |steps|;
      } else {
        n := LastSet(steps[..m], k);
        assert forall i :: 0 <= i < |steps[n..]| - 1 ==> steps[n..][i] == steps[..m][n..][i];
      }
    }
  }

  /**
   A row that both pipelines write: a token counter is what the last absolute write set it to, and what the first
   deliveries after it bring of the requests that are new by then.
   */
  lemma SetAndThenOnce(u: Usage, steps: seq<Step>, n: nat, k: UsageKey, f: Field)
    requires 0 < n <= |steps| && steps[n - 1].Mantle? && KeyOfDay(steps[n - 1].r) == k && NotSet(steps[n..], k)
    requires !IsCache(f)
    ensures TotalsOf(Run(u, steps).rows, k).Get(f)
         == SetTo(steps[n - 1].r, f) + Amounts(Firsts(steps[n..], Run(u, steps[..n - 1]).processed), k, f)
  {
    var before, r := steps[..n - 1], steps[n - 1].r;
    assert steps[..n][..n - 1] == before && steps == steps[..n] + steps[n..];
    var written := Run(u, steps[..n]);
    assert written == Apply(Run(u, before), Mantle(r)) && written.processed == Run(u, before).processed;
    RunConcat(u, steps[..n], steps[n..]);
    ExactlyOnce(written, steps[n..], k, f);
  }

  /** What one delivery adds to a counter. */
  lemma AddedAmount(u: Usage, d: Delivery, k: UsageKey, f: Field)
    ensures TotalsOf(Add(u, d).rows, k).Get(f)
         == TotalsOf(u.rows, k).Get(f) + if Dated(d) && d.entry.id !in u.processed then Amount(d, k, f) else 0
  {
  }

  lemma AmountsAppend(ds: seq<Delivery>, d: Delivery, k: UsageKey, f: Field)
    ensures Amounts(ds + [d], k, f) == Amounts(ds, k, f) + Amount(d, k, f)
  {
    assert (ds + [d])[..|ds|] == ds;
  }

  // ---------- conservation ----------

  ghost function GrandTotal(rows: map<UsageKey, Totals>): int {
    SumOver(rows.Keys, k => if k in rows then rows[k].running else 0)
  }

  lemma GrandTotalAfterWrite(rows: map<UsageKey, Totals>, k: UsageKey, t: Totals)
    ensures GrandTotal(rows[k := t]) == GrandTotal(rows) - TotalsOf(rows, k).running + t.running
  {
    var f := (x: UsageKey) => if x in rows then rows[x].running else 0;
    var rows' := rows[k := t];
    var f' := (x: UsageKey) => if x in rows' then rows'[x].running else 0;
    assert rows'.Keys == rows.Keys + {k};
    SumChange(rows.Keys, f, f', k);
  }

  function Tokens(ds: seq<Delivery>): int {
    if ds == [] then 0 else Tokens(ds[..|ds| - 1]) + ds[|ds| - 1].entry.input + ds[|ds| - 1].entry.output
  }

  /** Over all teams together, Unmapped included, the totals grow by the tokens of the distinct new requests. */
  lemma {:induction false} TotalsAreConserved(u: Usage, steps: seq<Step>)
    requires forall i :: 0 <= i < |steps| ==> steps[i].Converse?
    ensures GrandTotal(Run(u, steps).rows) == GrandTotal(u.rows) + Tokens(Firsts(steps, u.processed))
  {
    if steps == [] {
    } else {
      var n := |steps| - 1;
      var before, d := Firsts(steps[..n], u.processed), steps[n].d;
      TotalsAreConserved(u, steps[..n]);
      ProcessedIsSeen(u, steps[..n]);
      if Dated(d) && !Seen(u.processed, steps[..n], d.entry.id) {
        var rows := Run(u, steps[..n]).rows;
        GrandTotalAfterWrite(rows, KeyOf(d), Plus(TotalsOf(rows, KeyOf(d)), d.entry));
        assert (before + [d])[..|before|] == before;
      }
    }
  }

  /** Deliveries of one request agree in their content, whatever team each is attributed to. */
  ghost predicate SameContent(steps: seq<Step>) {
    forall a, b :: Converse(a) in steps && Converse(b) in steps && a.entry.id == b.entry.id ==> a.entry == b.entry
  }

  ghost function NewEntries(steps: seq<Step>, seen: set<string>): set<Entry> {
    set s | s in steps && s.Converse? && Dated(s.d) && s.d.entry.id !in seen :: s.d.entry
  }

  function EntriesOf(ds: seq<Delivery>): set<Entry> {
    set d | d in ds :: d.entry
  }

  function TokensOfEntry(): Entry -> int {
    (e: Entry) => e.input + e.output
  }

  lemma {:induction false} TokensAsSet(ds: seq<Delivery>)
    requires DistinctRequests(ds)
    ensures Tokens(ds) == SumOver(EntriesOf(ds), TokensOfEntry())
  {
    if ds == [] {
    } else {
      var n := |ds| - 1;
      TokensAsSet(ds[..n]);
      assert ds == ds[..n] + [ds[n]];
      assert ds[n].entry !in EntriesOf(ds[..n]);
      SumAdd(EntriesOf(ds[..n]), TokensOfEntry(), ds[n].entry);
      assert EntriesOf(ds) == EntriesOf(ds[..n]) + {ds[n].entry};
    }
  }

  lemma FirstEntries(steps: seq<Step>, seen: set<string>)
    requires SameContent(steps)
    ensures EntriesOf(Firsts(steps, seen)) == NewEntries(steps, seen)
  {
    var firsts := Firsts(steps, seen);
    FirstsAreDistinct(steps, seen);
    forall e | e in NewEntries(steps, seen) ensures e in EntriesOf(firsts) {
      var s :| s in steps && s.Converse? && Dated(s.d) && s.d.entry.id !in seen && s.d.entry == e;
      var j :| 0 <= j < |steps| && steps[j] == s;
      assert Seen(seen, steps, e.id);
      var d :| d in firsts && d.entry.id == e.id;
      assert Converse(d) in steps && Converse(s.d) in steps;
    }
    forall e | e in EntriesOf(firsts) ensures e in NewEntries(steps, seen) {
      var d :| d in firsts && d.entry == e;
      assert Converse(d) in steps;
    }
  }

  /**
   The grand total depends only on which requests are delivered: not on the order, the repetitions, or the teams that
   the deliveries of a request are attributed to.
   */
  lemma TotalOfRequests(u: Usage, steps: seq<Step>)
    requires SameContent(steps) && forall i :: 0 <= i < |steps| ==> steps[i].Converse?
    ensures GrandTotal(Run(u, steps).rows) == GrandTotal(u.rows) +
              SumOver(NewEntries(steps, u.processed), TokensOfEntry())
  {
    TotalsAreConserved(u, steps);
    FirstsAreDistinct(steps, u.processed);
    TokensAsSet(Firsts(steps, u.processed));
    FirstEntries(steps, u.processed);
  }

  // ---------- order does not matter ----------

  /** Deliveries of one request agree, in content and in the team they are attributed to. */
  ghost predicate Consistent(steps: seq<Step>) {
    forall a, b :: Converse(a) in steps && Converse(b) in steps && a.entry.id == b.entry.id ==> a == b
  }

  ghost function NewRequests(steps: seq<Step>, seen: set<string>): set<Delivery> {
    set s | s in steps && s.Converse? && Dated(s.d) && s.d.entry.id !in seen :: s.d
  }

  function Elems(ds: seq<Delivery>): set<Delivery> {
    set d | d in ds
  }

  function AmountIn(k: UsageKey, f: Field): Delivery -> int {
    d => Amount(d, k, f)
  }

  lemma {:induction false} AmountsAsSet(ds: seq<Delivery>, k: UsageKey, f: Field)
    requires forall i, j :: 0 <= i < j < |ds| ==> ds[i] != ds[j]
    ensures Amounts(ds, k, f) == SumOver(Elems(ds), AmountIn(k, f))
  {
    if ds == [] {
    } else {
      var n := |ds| - 1;
      AmountsAsSet(ds[..n], k, f);
      assert ds == ds[..n] + [ds[n]];
      SumAdd(Elems(ds[..n]), AmountIn(k, f), ds[n]);
      assert Elems(ds) == Elems(ds[..n]) + {ds[n]};
    }
  }

  lemma FirstsAsSet(steps: seq<Step>, seen: set<string>)
    requires Consistent(steps)
    ensures Elems(Firsts(steps, seen)) == NewRequests(steps, seen)
  {
    FirstsAreDistinct(steps, seen);
    forall d | d in NewRequests(steps, seen) ensures d in Firsts(steps, seen) {
      SeenIfDelivered(steps, seen, d);
      var first :| first in Firsts(steps, seen) && first.entry.id == d.entry.id;
      assert Converse(first) in steps;
    }
  }

  lemma RowFromSet(u: Usage, steps: seq<Step>, k: UsageKey, f: Field)
    requires Consistent(steps) && NotSet(steps, k)
    ensures TotalsOf(Run(u, steps).rows, k).Get(f)
         == TotalsOf(u.rows, k).Get(f) + SumOver(NewRequests(steps, u.processed), AmountIn(k, f))
  {
    ExactlyOnce(u, steps, k, f);
    FirstsAreDistinct(steps, u.processed);
    AmountsAsSet(Firsts(steps, u.processed), k, f);
    FirstsAsSet(steps, u.processed);
  }

  predicate Touches(ds: set<Delivery>, k: UsageKey) {
    exists d :: d in ds && d.entry.day.Some? && k == UsageKey(d.team, d.entry.model, d.entry.day.value)
  }

  /** A row exists, and belongs to the per-request endpoint, as soon as a new request is attributed to it. */
  lemma {:induction false} RowPresence(u: Usage, steps: seq<Step>, k: UsageKey)
    requires NotSet(steps, k)
    ensures if Touches(Elems(Firsts(steps, u.processed)), k)
            then k in Run(u, steps).rows && Run(u, steps).rows[k].endpoint == BedrockRuntime
            else (k in Run(u, steps).rows <==> k in u.rows) && (k in u.rows ==> Run(u, steps).rows[k] == u.rows[k])
  {
    if steps == [] {
    } else {
      var n := |steps| - 1;
      var before, after := Firsts(steps[..n], u.processed), Firsts(steps, u.processed);
      RowPresence(u, steps[..n], k);
      ProcessedIsSeen(u, steps[..n]);
      assert forall d :: d in before ==> d in after;
      assert forall d :: d in after ==> d in before || (steps[n].Converse? && d == steps[n].d);
      if after != before {
        assert steps[n].d in after;
      }
    }
  }

  /** All steps are deliveries, and those of one request agree. */
  ghost predicate AgreeingDeliveries(steps: seq<Step>) {
    Consistent(steps) && forall i :: 0 <= i < |steps| ==> steps[i].Converse?
  }

  ghost predicate SameElements(a: seq<Step>, b: seq<Step>) {
    forall s :: s in a <==> s in b
  }

  lemma SameRow(u: Usage, a: seq<Step>, b: seq<Step>, k: UsageKey)
    requires AgreeingDeliveries(a) && AgreeingDeliveries(b) && SameElements(a, b)
    ensures k in Run(u, a).rows <==> k in Run(u, b).rows
    ensures k in Run(u, a).rows ==> Run(u, a).rows[k] == Run(u, b).rows[k]
  {
    FirstsAsSet(a, u.processed);
    FirstsAsSet(b, u.processed);
    assert NewRequests(a, u.processed) == NewRequests(b, u.processed);
    RowPresence(u, a, k);
    RowPresence(u, b, k);
    forall f ensures TotalsOf(Run(u, a).rows, k).Get(f) == TotalsOf(Run(u, b).rows, k).Get(f) {
      RowFromSet(u, a, k, f);
      RowFromSet(u, b, k, f);
    }
    SameFieldsSameCounters(TotalsOf(Run(u, a).rows, k), TotalsOf(Run(u, b).rows, k));
  }

  lemma SameProcessed(u: Usage, a: seq<Step>, b: seq<Step>, id: string)
    requires SameElements(a, b) && id in Run(u, a).processed
    ensures id in Run(u, b).processed
  {
    ProcessedIsSeen(u, a);
    ProcessedIsSeen(u, b);
    SeenInSet(u.processed, a, b, id);
  }

  /**
   When deliveries of one request agree, the table depends only on which requests are delivered: any two ways of
   delivering the same set, in any order and with any repetitions, end in the same table.
   */
  lemma OnlyTheSetMatters(u: Usage, a: seq<Step>, b: seq<Step>)
    requires AgreeingDeliveries(a) && AgreeingDeliveries(b) && SameElements(a, b)
    ensures Run(u, a) == Run(u, b)
  {
    forall k
      ensures k in Run(u, a).rows <==> k in Run(u, b).rows
      ensures k in Run(u, a).rows ==> Run(u, a).rows[k] == Run(u, b).rows[k]
    {
      SameRow(u, a, b, k);
    }
    forall id ensures id in Run(u, a).processed <==> id in Run(u, b).processed {
      if id in Run(u, a).processed {
        SameProcessed(u, a, b, id);
      }
      if id in Run(u, b).processed {
        SameProcessed(u, b, a, id);
      }
    }
  }

  lemma SameFieldsSameCounters(t: Totals, t': Totals)
    requires forall f :: t.Get(f) == t'.Get(f)
    ensures t == t'.(endpoint := t.endpoint)
  {
    assert t.Get(RunningTotal) == t'.Get(RunningTotal) && t.Get(Input) == t'.Get(Input) &&
        t.Get(Output) == t'.Get(Output);
    assert t.Get(CacheRead) == t'.Get(CacheRead) && t.Get(CacheWrite) == t'.Get(CacheWrite);
  }

  lemma SeenInSet(seen: set<string>, a: seq<Step>, b: seq<Step>, id: string)
    requires Seen(seen, a, id) && forall s :: s in a ==> s in b
    ensures Seen(seen, b, id)
  {
    if id !in seen {
      var i :| 0 <= i < |a| && a[i].Converse? && Dated(a[i].d) && a[i].d.entry.id == id;
      assert a[i] in b;
      var j :| 0 <= j < |b| && b[j] == a[i];
    }
  }
}
