/** Pulling metrics: queries for every project and model, chunked and paged calls, and re-assembly. */
module MantleMetrics {
  import opened Domain
  import opened MantleUsage
  import opened Registry
  import opened Sequences
  import opened Sums

  datatype Spec = Spec(project: Project, model: Model)

  datatype TokenType = InputTokens | OutputTokens

  datatype Query = Query(id: string, spec: Spec, tokens: TokenType)

  /** What the index of the built queries says of an id. */
  datatype IndexEntry = IndexEntry(spec: Spec, tokens: TokenType)

  /** A result carries some datapoints of one query; an id may be missing. */
  datatype Result = Result(id: Option<string>, values: seq<int>)

  const CHUNK: nat := 450

  // ---------- specs ----------

  /** The registry's models on the metrics endpoint. */
  method MantleModelIds(registry: ModelRegistry) returns (models: seq<Model>)
    requires registry.Valid()
    ensures Distinct(models) && forall m :: m in models <==> registry.IsMantle(m)
  {
    var all := registry.List();
    models := [];
    for i := 0 to |all|
      invariant Distinct(models)
      invariant forall m :: m in models <==> exists j :: 0 <= j < i && KeyOf(all[j]) == RegistryKey(m, BedrockMantle)
    {
      if all[i].endpoint == BedrockMantle {
        models := models + [all[i].model];
      }
    }
    MantleModels(registry, models);
  }

  /** One spec for each project and model. */
  method BuildSpecs(projects: seq<Project>, models: seq<Model>) returns (specs: seq<Spec>)
    requires Distinct(projects) && Distinct(models)
    ensures Distinct(specs) && forall s :: s in specs <==> s.project in projects && s.model in models
  {
    specs := [];
    for i := 0 to |projects|
      invariant Distinct(specs)
      invariant forall s :: s in specs <==> s.project in projects[..i] && s.model in models
    {
      assert projects[..i + 1] == projects[..i] + [projects[i]];
      assert projects[i] !in projects[..i];
      for j := 0 to |models|
        invariant Distinct(specs)
        invariant forall s :: s in specs <==>
                    || (s.project in projects[..i] && s.model in models)
                    || (s.project == projects[i] && s.model in models[..j])
      {
        assert models[..j + 1] == models[..j] + [models[j]];
        assert models[j] !in models[..j];
        specs := specs + [Spec(projects[i], models[j])];
      }
      assert models[..|models|] == models;
    }
    assert projects[..|projects|] == projects;
  }

  lemma MantleModels(registry: ModelRegistry, models: seq<Model>)
    requires registry.Valid()
    requires forall m :: m in models <==>
               exists j :: 0 <= j < |registry.List()| && KeyOf(registry.List()[j]) == RegistryKey(m, BedrockMantle)
    ensures forall m :: m in models <==> registry.IsMantle(m)
  {
    forall m ensures m in models <==> registry.IsMantle(m) {
      if m in models {
        var j :| 0 <= j < |registry.List()| && KeyOf(registry.List()[j]) == RegistryKey(m, BedrockMantle);
        assert registry.List()[j] in registry.List();
      }
      if registry.IsMantle(m) {
        LastEntryHasKey(registry.source, RegistryKey(m, BedrockMantle));
        var e := LastEntry(registry.source, RegistryKey(m, BedrockMantle)).value;
        var j :| 0 <= j < |registry.List()| && registry.List()[j] == e;
      }
    }
  }

  // ---------- query ids ----------

  function Decimal(n: nat): string {
    if n < 10 then [DigitChar(n)] else Decimal(n / 10) + [DigitChar(n % 10)]
  }

  function ValueOf(s: string): int {
    if s == [] then 0 else 10 * ValueOf(s[..|s| - 1]) + (s[|s| - 1] as int - '0' as int)
  }

  lemma {:induction false} DecimalReadsBack(n: nat)
    ensures ValueOf(Decimal(n)) == n
  {
    if n < 10 {
      assert Decimal(n)[..0] == [];
    } else {
      DecimalReadsBack(n / 10);
      assert Decimal(n)[..|Decimal(n)| - 1] == Decimal(n / 10);
    }
  }

  /** Ids are `m0i`, `m0o`, `m1i` and so on. */
  function IdOf(i: nat, tokens: TokenType): string {
    "m" + Decimal(i) + (if tokens == InputTokens then "i" else "o")
  }

  lemma IdsAreUnique(i: nat, a: TokenType, j: nat, b: TokenType)
    requires IdOf(i, a) == IdOf(j, b)
    ensures i == j && a == b
  {
    DecimalReadsBack(i);
    DecimalReadsBack(j);
    var x, y := IdOf(i, a), IdOf(j, b);
    assert x[|x| - 1] == y[|y| - 1];
    assert Decimal(i) == x[1..|x| - 1] == y[1..|y| - 1] == Decimal(j);
  }

  // ---------- building the queries ----------

  /** The queries of the first `n` specs. */
  function QueriesOf(specs: seq<Spec>, n: nat): seq<Query>
    requires n <= |specs|
  {
    if n == 0 then []
    else QueriesOf(specs, n - 1) + [QueryAt(specs, n - 1, InputTokens), QueryAt(specs, n - 1, OutputTokens)]
  }

  function QueryAt(specs: seq<Spec>, i: nat, tokens: TokenType): Query
    requires i < |specs|
  {
    Query(IdOf(i, tokens), specs[i], tokens)
  }

  /** The index sends the id of each of the first `n` specs' queries back to the spec, and knows no other id. */
  ghost predicate IndexAgrees(index: map<string, IndexEntry>, specs: seq<Spec>, n: nat)
    requires n <= |specs|
  {
    && (forall i, tokens :: 0 <= i < n ==> IndexHas(index, i, tokens, specs[i]))
    && (forall id :: id in index ==> KnownId(id, n))
  }

  predicate IndexHas(index: map<string, IndexEntry>, i: nat, tokens: TokenType, spec: Spec) {
    IdOf(i, tokens) in index && index[IdOf(i, tokens)] == IndexEntry(spec, tokens)
  }

  ghost predicate KnownId(id: string, n: nat) {
    exists i, tokens :: 0 <= i < n && id == IdOf(i, tokens)
  }

  method BuildMantleMetricQueries(specs: seq<Spec>) returns (queries: seq<Query>, index: map<string, IndexEntry>)
    ensures queries == QueriesOf(specs, |specs|)
    ensures IndexAgrees(index, specs, |specs|)
    ensures forall q :: q in queries ==> q.id in index && index[q.id] == IndexEntry(q.spec, q.tokens)
    ensures forall i, tokens :: 0 <= i < |specs| ==> Query(IdOf(i, tokens), specs[i], tokens) in queries
    ensures |queries| == 2 * |specs|
  {
    queries, index := [], map[];
    for i := 0 to |specs|
      invariant queries == QueriesOf(specs, i)
      invariant IndexAgrees(index, specs, i)
    {
      IndexGrows(index, specs, i);
      index := index[IdOf(i, InputTokens) := IndexEntry(specs[i], InputTokens)];
      index := index[IdOf(i, OutputTokens) := IndexEntry(specs[i], OutputTokens)];
      queries := queries + [QueryAt(specs, i, InputTokens), QueryAt(specs, i, OutputTokens)];
    }
    QueriesAskForSpecs(specs, index);
  }

  /** Each query asks for the metric that the index books its id under, and each metric of each spec is asked for. */
  lemma QueriesAskForSpecs(specs: seq<Spec>, index: map<string, IndexEntry>)
    requires IndexAgrees(index, specs, |specs|)
    ensures var queries := QueriesOf(specs, |specs|);
      && (forall q :: q in queries ==> q.id in index && index[q.id] == IndexEntry(q.spec, q.tokens))
      && (forall i, tokens :: 0 <= i < |specs| ==> Query(IdOf(i, tokens), specs[i], tokens) in queries)
      && |queries| == 2 * |specs|
  {
    var queries := QueriesOf(specs, |specs|);
    QueryCount(specs, |specs|);
    forall q | q in queries ensures q.id in index && index[q.id] == IndexEntry(q.spec, q.tokens) {
      var p :| 0 <= p < |queries| && queries[p] == q;
      QueryOfPosition(specs, p);
      assert IndexHas(index, p / 2, q.tokens, q.spec);
    }
    forall i, tokens | 0 <= i < |specs| ensures Query(IdOf(i, tokens), specs[i], tokens) in queries {
      QueriesAreSpecs(specs, |specs|, i);
      assert queries[2 * i] in queries && queries[2 * i + 1] in queries;
    }
  }

  lemma QueryOfPosition(specs: seq<Spec>, p: nat)
    requires p < |QueriesOf(specs, |specs|)|
    ensures p / 2 < |specs|
    ensures var tokens := if p % 2 == 0 then InputTokens else OutputTokens;
            QueriesOf(specs, |specs|)[p] == Query(IdOf(p / 2, tokens), specs[p / 2], tokens)
  {
    QueryCount(specs, |specs|);
    QueriesAreSpecs(specs, |specs|, p / 2);
    assert p == 2 * (p / 2) + p % 2;
  }

  lemma IndexGrows(index: map<string, IndexEntry>, specs: seq<Spec>, i: nat)
    requires i < |specs| && IndexAgrees(index, specs, i)
    ensures IndexAgrees(index[IdOf(i, InputTokens) := IndexEntry(specs[i], InputTokens)][IdOf(i,
              OutputTokens) := IndexEntry(specs[i], OutputTokens)],
                        specs, i + 1)
  {
    var index' := index[IdOf(i, InputTokens) := IndexEntry(specs[i], InputTokens)][IdOf(i,
        OutputTokens) := IndexEntry(specs[i], OutputTokens)];
    forall j, tokens | 0 <= j < i + 1 ensures IndexHas(index', j, tokens, specs[j]) {
      forall other | IdOf(i, other) == IdOf(j, tokens) ensures i == j && other == tokens {
        IdsAreUnique(i, other, j, tokens);
      }
      if j < i {
        assert IndexHas(index, j, tokens, specs[j]);
      }
    }
    forall id | id in index' ensures KnownId(id, i + 1) {
      if id in index {
        assert KnownId(id, i);
      }
    }
  }

  lemma {:induction false} QueriesAreSpecs(specs: seq<Spec>, n: nat, i: nat)
    requires i < n <= |specs|
    ensures |QueriesOf(specs, n - 1)| == 2 * (n - 1) && |QueriesOf(specs, n)| == 2 * n
    ensures QueriesOf(specs, n)[2 * i] == Query(IdOf(i, InputTokens), specs[i], InputTokens)
    ensures QueriesOf(specs, n)[2 * i + 1] == Query(IdOf(i, OutputTokens), specs[i], OutputTokens)
  {
    if n == 1 {
    } else {
      QueriesAreSpecs(specs, n - 1, if i < n - 1 then i else 0);
    }
  }

  lemma {:induction false} QueryCount(specs: seq<Spec>, n: nat)
    requires n <= |specs|
    ensures |QueriesOf(specs, n)| == 2 * n
  {
    if n == 0 {
    } else {
      QueriesAreSpecs(specs, n, 0);
    }
  }

  lemma QueryIdsAreUnique(specs: seq<Spec>, p: nat, q: nat)
    requires p < q < |QueriesOf(specs, |specs|)|
    ensures QueriesOf(specs, |specs|)[p].id != QueriesOf(specs, |specs|)[q].id
  {
    QueryOfPosition(specs, p);
    QueryOfPosition(specs, q);
    var a, b := if p % 2 == 0 then InputTokens else OutputTokens, if q % 2 == 0 then InputTokens else OutputTokens;
    if IdOf(p / 2, a) == IdOf(q / 2, b) {
      IdsAreUnique(p / 2, a, q / 2, b);
    }
  }

  // ---------- chunks and pages ----------

  /** The datapoints recorded for each metric of a spec. */
  type Recording = (Spec, TokenType) -> multiset<int>

  /** The datapoints that the results bring for an id. */
  function Bag(results: seq<Result>, id: string): multiset<int> {
    if results == [] then multiset{}
    else
      var last := results[|results| - 1];
      Bag(results[..|results| - 1], id) + if last.id == Some(id) then multiset(last.values) else multiset{}
  }

  lemma {:induction false} BagConcat(a: seq<Result>, b: seq<Result>, id: string)
    ensures Bag(a + b, id) == Bag(a, id) + Bag(b, id)
  {
    if b == [] {
      assert a + b == a;
    } else {
      assert (a + b)[..|a + b| - 1] == a + b[..|b| - 1];
      BagConcat(a, b[..|b| - 1], id);
    }
  }

  /**
   The pages answer a chunk: the datapoints recorded for the metric that a query asks for come under its id, however
   they are split over results and pages, all of them, once; and no result is about a query outside the chunk.
   */
  ghost predicate AnswersChunk(pages: seq<seq<Result>>, chunk: seq<Query>, recorded: Recording) {
    && (forall q :: q in chunk ==> Bag(Flatten(pages), q.id) == recorded(q.spec, q.tokens))
    && (forall r :: r in Flatten(pages) && r.id.Some? ==> exists q :: q in chunk && q.id == r.id.value)
  }

  ghost predicate UniqueIds(queries: seq<Query>) {
    forall i, j :: 0 <= i < j < |queries| ==> queries[i].id != queries[j].id
  }

  /** A chunk has 450 queries, or all that are left. */
  function ChunkEnd(i: nat, n: nat): (end: nat)
    ensures i <= n ==> end == n || end == i + 450
    ensures i <= n ==> i <= end <= n && end - i <= 450
  {
    if i + CHUNK < n then i + CHUNK else n
  }

  /** The inner loop of a chunk: one call for each page, until no token comes back. */
  method DrainPages(before: seq<Result>, pages: seq<seq<Result>>) returns (results: seq<Result>)
    ensures results == before + Flatten(pages)
  {
    results := before;
    for p := 0 to |pages|
      invariant results == before + Flatten(pages[..p])
    {
      assert pages[..p + 1][..p] == pages[..p];
      results := results + pages[p];
    }
    assert pages[..|pages|] == pages;
  }

  /**
   The loop over chunks of at most 450 queries, and over the pages of each; `answer(i)` are the pages for the
   chunk at `i`.
   */
  method CollectResults(queries: seq<Query>, answer: nat -> seq<seq<Result>>, ghost recorded: Recording)
    returns (results: seq<Result>)
    requires UniqueIds(queries)
    requires forall i: nat :: i < |queries| && i % CHUNK == 0 ==>
               AnswersChunk(answer(i), queries[i..ChunkEnd(i, |queries|)], recorded)
    ensures AnswersPrefix(results, queries, |queries|, recorded)
  {
    results := [];
    var i := 0;
    while i < |queries|
      invariant 0 <= i <= |queries| && (i == |queries| || i % CHUNK == 0)
      invariant AnswersPrefix(results, queries, i, recorded)
      decreases |queries| - i
    {
      var end := ChunkEnd(i, |queries|);
      var pages := answer(i);
      ChunkAnswered(results, pages, queries, i, end, recorded);
      results := DrainPages(results, pages);
      i := end;
    }
  }

  /** The results bring the datapoints of the first `n` queries, and nothing for the others. */
  ghost predicate AnswersPrefix(results: seq<Result>, queries: seq<Query>, n: nat, recorded: Recording) {
    forall j :: 0 <= j < |queries| ==>
        var q := queries[j]; Bag(results, q.id) == if j < n then recorded(q.spec, q.tokens) else multiset{}
  }

  lemma {:induction false} NoResultNoBag(results: seq<Result>, id: string)
    requires forall r :: r in results ==> r.id != Some(id)
    ensures Bag(results, id) == multiset{}
  {
    if results == [] {
    } else {
      NoResultNoBag(results[..|results| - 1], id);
    }
  }

  lemma OtherChunk(pages: seq<seq<Result>>, queries: seq<Query>, i: nat, end: nat, j: nat,
      recorded: Recording)
    requires i <= end <= |queries| && UniqueIds(queries) && j < |queries| && !(i <= j < end)
    requires AnswersChunk(pages, queries[i..end], recorded)
    ensures Bag(Flatten(pages), queries[j].id) == multiset{}
  {
    var id := queries[j].id;
    forall q | q in queries[i..end] ensures q.id != id {
      var k :| 0 <= k < end - i && queries[i..end][k] == q;
      assert queries[i + k] == q;
    }
    NoResultNoBag(Flatten(pages), id);
  }

  lemma ChunkAnswered(before: seq<Result>, pages: seq<seq<Result>>, queries: seq<Query>, i: nat, end: nat,
      recorded: Recording)
    requires i <= end <= |queries| && UniqueIds(queries)
    requires AnswersPrefix(before, queries, i, recorded) && AnswersChunk(pages, queries[i..end], recorded)
    ensures AnswersPrefix(before + Flatten(pages), queries, end, recorded)
  {
    forall j | 0 <= j < |queries|
      ensures Bag(before + Flatten(pages), queries[j].id)
                == if j < end then recorded(queries[j].spec, queries[j].tokens) else multiset{}
    {
      var id := queries[j].id;
      BagConcat(before, Flatten(pages), id);
      if i <= j < end {
        assert queries[i..end][j - i] == queries[j];
      } else {
        OtherChunk(pages, queries, i, end, j, recorded);
      }
    }
  }

  // ---------- re-assembly ----------

  /** What one result adds to the total of a spec. */
  function Share(r: Result, index: map<string, IndexEntry>, spec: Spec, tokens: TokenType): int {
    if r.id.Some? && r.id.value in index && index[r.id.value] == IndexEntry(spec, tokens) then SumSeq(r.values) else 0
  }

  function Total(results: seq<Result>, index: map<string, IndexEntry>, spec: Spec, tokens: TokenType): int {
    if results == [] then 0
    else Total(results[..|results| - 1], index, spec, tokens) + Share(results[|results| - 1], index, spec, tokens)
  }

  function PointFor(results: seq<Result>, index: map<string, IndexEntry>, spec: Spec, day: Day): Point {
    Point(spec.project, spec.model, day, Total(results, index, spec, InputTokens),
        Total(results, index, spec, OutputTokens))
  }

  /** The loop over the results; the keys keep the order of their first insertion. */
  method Accumulate(results: seq<Result>, index: map<string, IndexEntry>, day: Day)
    returns (byKey: map<Spec, Point>, order: seq<Spec>)
    ensures Distinct(order) && forall s :: s in order <==> s in byKey
    ensures forall s :: PointFor(results, index, s, day) == PointIn(byKey, s, day)
  {
    byKey, order := map[], [];
    for i := 0 to |results|
      invariant Distinct(order) && forall s :: s in order <==> s in byKey
      invariant forall s :: PointFor(results[..i], index, s, day) == PointIn(byKey, s, day)
    {
      forall s ensures PointFor(results[..i + 1], index, s, day)
          == Added(PointFor(results[..i], index, s, day), results[i], index, s) {
        assert results[..i + 1][..i] == results[..i];
      }
      var r := results[i];
      ghost var was := byKey;
      if r.id.None? || r.id.value !in index {
        assert forall s :: PointIn(byKey, s, day) == Added(PointIn(was, s, day), r, index, s);
        continue;
      }
      var entry := index[r.id.value];
      var total := SumSeq(r.values);
      var point := PointIn(byKey, entry.spec, day);
      if entry.spec !in byKey {
        order := order + [entry.spec];
      }
      byKey := byKey[entry.spec :=
        if entry.tokens == InputTokens then point.(input := point.input + total)
            else point.(output := point.output + total)];
      assert forall s :: PointIn(byKey, s, day) == Added(PointIn(was, s, day), r, index, s);
    }
    assert results[..|results|] == results;
  }

  function PointIn(byKey: map<Spec, Point>, s: Spec, day: Day): Point {
    if s in byKey then byKey[s] else Point(s.project, s.model, day, 0, 0)
  }

  function Added(p: Point, r: Result, index: map<string, IndexEntry>, s: Spec): Point {
    p.(input := p.input + Share(r, index, s, InputTokens), output := p.output + Share(r, index, s, OutputTokens))
  }

  predicate Active(p: Point) {
    p.input > 0 || p.output > 0
  }

  function SpecOf(p: Point): Spec {
    Spec(p.project, p.model)
  }

  /** Accumulates the results by project and model, and drops the points without activity. */
  method ParseMantleMetricResults(results: seq<Result>, index: map<string, IndexEntry>, day: Day)
    returns (points: seq<Point>)
    ensures forall p: Point :: p in points <==>
              p == PointFor(results, index, SpecOf(p), day) && (p.input > 0 || p.output > 0)
    ensures forall i, j :: 0 <= i < j < |points| ==> SpecOf(points[i]) != SpecOf(points[j])
  {
    var byKey, order := Accumulate(results, index, day);
    points := [];
    for i := 0 to |order|
      invariant forall p: Point :: p in points <==>
                  SpecOf(p) in order[..i] && p == PointFor(results, index, SpecOf(p), day) && Active(p)
      invariant forall a, b :: 0 <= a < b < |points| ==> SpecOf(points[a]) != SpecOf(points[b])
    {
      assert order[..i + 1] == order[..i] + [order[i]] && order[i] in order && order[i] !in order[..i];
      var p := byKey[order[i]];
      assert p == PointFor(results, index, order[i], day);
      if Active(p) {
        points := points + [p];
      }
    }
    assert order[..|order|] == order;
  }

  /** The total of a spec is the sum of the results for its one id. */
  lemma {:induction false} TotalIsBag(results: seq<Result>, index: map<string, IndexEntry>, specs: seq<Spec>, i: nat,
      tokens: TokenType)
    requires IndexAgrees(index, specs, |specs|) && Distinct(specs) && i < |specs|
    ensures Total(results, index, specs[i], tokens) == SumBag(Bag(results, IdOf(i, tokens)))
  {
    if results == [] {
    } else {
      var n := |results| - 1;
      var last, id := results[n], IdOf(i, tokens);
      TotalIsBag(results[..n], index, specs, i, tokens);
      OnlyItsId(index, specs, i, tokens, last);
      if last.id == Some(id) {
        BagUnion(Bag(results[..n], id), multiset(last.values));
        SeqIsBag(last.values);
      } else {
        assert Bag(results, id) == Bag(results[..n], id);
      }
    }
  }

  lemma OnlyItsId(index: map<string, IndexEntry>, specs: seq<Spec>, i: nat, tokens: TokenType, r: Result)
    requires IndexAgrees(index, specs, |specs|) && Distinct(specs) && i < |specs|
    ensures Share(r, index, specs[i], tokens) == if r.id == Some(IdOf(i, tokens)) then SumSeq(r.values) else 0
  {
    assert IndexHas(index, i, tokens, specs[i]);
    if r.id.Some? && r.id.value in index && index[r.id.value] == IndexEntry(specs[i], tokens) {
      assert KnownId(r.id.value, |specs|);
      var j, other :| 0 <= j < |specs| && r.id.value == IdOf(j, other);
      assert IndexHas(index, j, other, specs[j]);
    }
  }

  /**
   From results that bring every query its datapoints, split and ordered in any way, each spec's totals are the
   exact sums of its datapoints.
   */
  lemma TotalsAreExact(results: seq<Result>, index: map<string, IndexEntry>, specs: seq<Spec>,
      recorded: Recording, i: nat)
    requires IndexAgrees(index, specs, |specs|) && Distinct(specs) && i < |specs|
    requires forall q :: q in QueriesOf(specs, |specs|) ==> Bag(results, q.id) == recorded(q.spec, q.tokens)
    ensures Total(results, index, specs[i], InputTokens) == SumBag(recorded(specs[i], InputTokens))
    ensures Total(results, index, specs[i], OutputTokens) == SumBag(recorded(specs[i], OutputTokens))
  {
    QueriesAreSpecs(specs, |specs|, i);
    var queries := QueriesOf(specs, |specs|);
    assert queries[2 * i] in queries && queries[2 * i + 1] in queries;
    TotalIsBag(results, index, specs, i, InputTokens);
    TotalIsBag(results, index, specs, i, OutputTokens);
  }

  /** A pair that is not a spec gets no point. */
  lemma {:induction false} NoSpecNoTotal(results: seq<Result>, index: map<string, IndexEntry>, specs: seq<Spec>,
      spec: Spec, tokens: TokenType)
    requires IndexAgrees(index, specs, |specs|) && spec !in specs
    ensures Total(results, index, spec, tokens) == 0
  {
    if results == [] {
    } else {
      NoSpecNoTotal(results[..|results| - 1], index, specs, spec, tokens);
      var r := results[|results| - 1];
      if r.id.Some? && r.id.value in index {
        assert KnownId(r.id.value, |specs|);
        var j, other :| 0 <= j < |specs| && r.id.value == IdOf(j, other);
        assert IndexHas(index, j, other, specs[j]) && specs[j] in specs;
      }
    }
  }

  /** The exact point of a spec, given the datapoints recorded for each of its two metrics. */
  ghost function ExactPoint(s: Spec, day: Day, recorded: Recording): Point {
    Point(s.project, s.model, day, SumBag(recorded(s, InputTokens)), SumBag(recorded(s, OutputTokens)))
  }

  lemma PointIsExact(results: seq<Result>, index: map<string, IndexEntry>, specs: seq<Spec>,
      recorded: Recording, s: Spec, day: Day)
    requires IndexAgrees(index, specs, |specs|) && Distinct(specs)
    requires forall q :: q in QueriesOf(specs, |specs|) ==> Bag(results, q.id) == recorded(q.spec, q.tokens)
    ensures PointFor(results, index, s, day) == if s in specs then ExactPoint(s, day, recorded)
              else Point(s.project, s.model, day, 0, 0)
  {
    if s in specs {
      var i :| 0 <= i < |specs| && specs[i] == s;
      TotalsAreExact(results, index, specs, recorded, i);
    } else {
      NoSpecNoTotal(results, index, specs, s, InputTokens);
      NoSpecNoTotal(results, index, specs, s, OutputTokens);
    }
  }

  lemma AllAnswered(results: seq<Result>, queries: seq<Query>, recorded: Recording)
    requires AnswersPrefix(results, queries, |queries|, recorded)
    ensures forall q :: q in queries ==> Bag(results, q.id) == recorded(q.spec, q.tokens)
  {
    forall q | q in queries ensures Bag(results, q.id) == recorded(q.spec, q.tokens) {
      var j :| 0 <= j < |queries| && queries[j] == q;
    }
  }

  /**
   One day of the scheduled run, end to end: whatever the chunks, pages, splits and order of the results, the points
   are exactly the specs with activity, each with the sums of its recorded datapoints.
   */
  method PointsOfDay(specs: seq<Spec>, day: Day, answer: nat -> seq<seq<Result>>, ghost recorded: Recording)
    returns (points: seq<Point>)
    requires Distinct(specs)
    requires forall i: nat :: i < |QueriesOf(specs, |specs|)| && i % CHUNK == 0 ==>
               AnswersChunk(answer(i), QueriesOf(specs, |specs|)[i..ChunkEnd(i, |QueriesOf(specs, |specs|)|)], recorded)
    ensures forall p: Point :: p in points <==>
              SpecOf(p) in specs && p == ExactPoint(SpecOf(p), day, recorded) && (p.input > 0 || p.output > 0)
    ensures forall i, j :: 0 <= i < j < |points| ==> SpecOf(points[i]) != SpecOf(points[j])
  {
    var queries, index := BuildMantleMetricQueries(specs);
    forall p, q | 0 <= p < q < |queries| ensures queries[p].id != queries[q].id {
      QueryIdsAreUnique(specs, p, q);
    }
    var results := CollectResults(queries, answer, recorded);
    AllAnswered(results, queries, recorded);
    forall s ensures PointFor(results, index, s, day) == if s in specs then ExactPoint(s, day, recorded)
        else Point(s.project, s.model, day, 0, 0) {
      PointIsExact(results, index, specs, recorded, s, day);
    }
    points := ParseMantleMetricResults(results, index, day);
  }
}
