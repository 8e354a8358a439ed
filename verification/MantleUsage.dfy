/** The absolute writes of the metrics pipeline: attribution to teams, overwriting, and what overwriting loses. */
module MantleUsage {
  import opened Domain
  import opened UsageTable
  import opened Sums

  type Project = string

  /** A day's tokens of one project and model. */
  datatype Point = Point(project: Project, model: Model, day: Day, input: int, output: int)

  function Attribute(p: Point, teamOf: map<Project, Team>): DayTotal {
    DayTotal(if p.project in teamOf then teamOf[p.project] else Unmapped, p.model, p.day, p.input, p.output)
  }

  function AttributeAll(points: seq<Point>, teamOf: map<Project, Team>): seq<DayTotal> {
    seq(|points|, i requires 0 <= i < |points| => Attribute(points[i], teamOf))
  }

  function Write(rows: map<UsageKey, Totals>, rs: seq<DayTotal>): map<UsageKey, Totals> {
    if rs == [] then rows else Set(Write(rows, rs[..|rs| - 1]), rs[|rs| - 1])
  }

  // ---------- each row equals its last point ----------

  /** The last record for the row of `k`. */
  function LastFor(rs: seq<DayTotal>, k: UsageKey): (r: Option<DayTotal>)
    ensures r.Some? <==> exists i :: 0 <= i < |rs| && KeyOfDay(rs[i]) == k
    ensures r.Some? ==> exists i :: 0 <= i < |rs| && rs[i] == r.value && KeyOfDay(rs[i]) == k &&
                                    forall j :: i < j < |rs| ==> KeyOfDay(rs[j]) != k
  {
    if rs == [] then None
    else if KeyOfDay(rs[|rs| - 1]) == k then Some(rs[|rs| - 1])
    else LastFor(rs[..|rs| - 1], k)
  }

  lemma {:induction false} EachRowIsItsLastPoint(rows: map<UsageKey, Totals>, rs: seq<DayTotal>, k: UsageKey)
    ensures match LastFor(rs, k)
            case None => (k in Write(rows, rs) <==> k in rows) && (k in rows ==> Write(rows, rs)[k] == rows[k])
            case Some(r) =>
              && k in Write(rows, rs)
              && Write(rows, rs)[k] == Totals(r.input + r.output, r.input, r.output,
                                              TotalsOf(rows, k).cacheRead, TotalsOf(rows, k).cacheWrite, BedrockMantle)
  {
    if rs == [] {
    } else {
      EachRowIsItsLastPoint(rows, rs[..|rs| - 1], k);
    }
  }

  /** Collecting the same points again changes nothing. */
  lemma WritesAreIdempotent(rows: map<UsageKey, Totals>, rs: seq<DayTotal>)
    ensures Write(Write(rows, rs), rs) == Write(rows, rs)
  {
    var once := Write(rows, rs);
    forall k
      ensures k in Write(once, rs) <==> k in once
      ensures k in once ==> Write(once, rs)[k] == once[k]
    {
      EachRowIsItsLastPoint(rows, rs, k);
      EachRowIsItsLastPoint(once, rs, k);
    }
  }

  ghost predicate DistinctRows(rs: seq<DayTotal>) {
    forall i, j :: 0 <= i < j < |rs| ==> KeyOfDay(rs[i]) != KeyOfDay(rs[j])
  }

  lemma SameLast(a: seq<DayTotal>, b: seq<DayTotal>, k: UsageKey)
    requires DistinctRows(a) && DistinctRows(b) && forall r :: r in a <==> r in b
    ensures LastFor(a, k) == LastFor(b, k)
  {
    if LastFor(a, k).Some? {
      assert LastFor(a, k).value in a;
      var j :| 0 <= j < |b| && b[j] == LastFor(a, k).value;
    }
    if LastFor(b, k).Some? {
      assert LastFor(b, k).value in b;
      var j :| 0 <= j < |a| && a[j] == LastFor(b, k).value;
    }
  }

  /** Records of distinct rows may be written in any order. */
  lemma OrderDoesNotMatter(rows: map<UsageKey, Totals>, a: seq<DayTotal>, b: seq<DayTotal>)
    requires DistinctRows(a) && DistinctRows(b) && forall r :: r in a <==> r in b
    ensures Write(rows, a) == Write(rows, b)
  {
    forall k
      ensures k in Write(rows, a) <==> k in Write(rows, b)
      ensures k in Write(rows, a) ==> Write(rows, a)[k] == Write(rows, b)[k]
    {
      EachRowIsItsLastPoint(rows, a, k);
      EachRowIsItsLastPoint(rows, b, k);
      SameLast(a, b, k);
    }
  }

  // ---------- when nothing is lost ----------

  function RowsOf(rs: seq<DayTotal>): set<UsageKey> {
    set r | r in rs :: KeyOfDay(r)
  }

  function TokensOf(r: DayTotal): int {
    r.input + r.output
  }

  function Collected(rs: seq<DayTotal>): int {
    if rs == [] then 0 else Collected(rs[..|rs| - 1]) + TokensOf(rs[|rs| - 1])
  }

  ghost function Recorded(rows: map<UsageKey, Totals>, rs: seq<DayTotal>): int {
    SumOver(RowsOf(rs), RunningAfter(rows, rs))
  }

  function RunningAfter(rows: map<UsageKey, Totals>, rs: seq<DayTotal>): UsageKey -> int {
    k => TotalsOf(Write(rows, rs), k).running
  }

  lemma OnlyItsRowChanges(rows: map<UsageKey, Totals>, rs: seq<DayTotal>, n: nat)
    requires n + 1 == |rs|
    ensures RowsOf(rs) == RowsOf(rs[..n]) + {KeyOfDay(rs[n])}
    ensures RunningAfter(rows, rs)(KeyOfDay(rs[n])) == TokensOf(rs[n])
    ensures forall x :: x != KeyOfDay(rs[n]) ==> RunningAfter(rows, rs[..n])(x) == RunningAfter(rows, rs)(x)
  {
    assert rs == rs[..n] + [rs[n]];
  }

  /** The tokens that a later record for the same row writes over. */
  function Lost(rs: seq<DayTotal>): int {
    if rs == [] then 0
    else
      var n := |rs| - 1;
      var over := LastFor(rs[..n], KeyOfDay(rs[n]));
      Lost(rs[..n]) + if over.Some? then TokensOf(over.value) else 0
  }

  lemma {:induction false} RecordedPlusLost(rows: map<UsageKey, Totals>, rs: seq<DayTotal>)
    ensures Recorded(rows, rs) + Lost(rs) == Collected(rs)
  {
    if rs == [] {
    } else {
      var n := |rs| - 1;
      var k, before := KeyOfDay(rs[n]), rs[..n];
      RecordedPlusLost(rows, before);
      EachRowIsItsLastPoint(rows, before, k);
      OnlyItsRowChanges(rows, rs, n);
      SumChange(RowsOf(before), RunningAfter(rows, before), RunningAfter(rows, rs), k);
    }
  }

  lemma {:induction false} LostIffShared(rs: seq<DayTotal>)
    requires forall i :: 0 <= i < |rs| ==> TokensOf(rs[i]) > 0
    ensures Lost(rs) >= 0 && (Lost(rs) == 0 <==> DistinctRows(rs))
  {
    if rs == [] {
    } else {
      var n := |rs| - 1;
      LostIffShared(rs[..n]);
      LastIsShared(rs);
    }
  }

  /** The last record shares its row if and only if it writes over one; and then it writes over tokens. */
  lemma LastIsShared(rs: seq<DayTotal>)
    requires rs != [] && forall i :: 0 <= i < |rs| ==> TokensOf(rs[i]) > 0
    ensures var n := |rs| - 1; var over := LastFor(rs[..n], KeyOfDay(rs[n]));
      && (over.Some? ==> TokensOf(over.value) > 0)
      && (DistinctRows(rs) <==> DistinctRows(rs[..n]) && over.None?)
  {
    var n := |rs| - 1;
    var over := LastFor(rs[..n], KeyOfDay(rs[n]));
    assert forall i :: 0 <= i < n ==> rs[..n][i] == rs[i];
    if over.None? {
      forall i | 0 <= i < n ensures KeyOfDay(rs[i]) != KeyOfDay(rs[n]) {
        assert KeyOfDay(rs[..n][i]) != KeyOfDay(rs[n]);
      }
    }
  }

  function PointTokens(points: seq<Point>): int {
    if points == [] then 0
    else PointTokens(points[..|points| - 1]) + points[|points| - 1].input + points[|points| - 1].output
  }

  /** Attribution drops nothing: points of unmapped projects are kept under the unmapped team. */
  lemma {:induction false} AttributionKeepsTokens(points: seq<Point>, teamOf: map<Project, Team>)
    ensures Collected(AttributeAll(points, teamOf)) == PointTokens(points)
    ensures forall i :: 0 <= i < |points| && points[i].project !in teamOf ==>
              AttributeAll(points, teamOf)[i].team == Unmapped
  {
    if points == [] {
    } else {
      var n := |points| - 1;
      AttributionKeepsTokens(points[..n], teamOf);
      assert AttributeAll(points, teamOf)[..n] == AttributeAll(points[..n], teamOf);
    }
  }

  /** Two projects resolve to one team, so that their points of one model and day share a row. */
  predicate Shared(p: Point, q: Point, teamOf: map<Project, Team>) {
    && p.model == q.model && p.day == q.day
    && (if p.project in teamOf then teamOf[p.project] else Unmapped)
       == (if q.project in teamOf then teamOf[q.project] else Unmapped)
  }

  /**
   The last point for a row stands in it: input and output as collected, the running total as their sum, and the
   cache counters as before. The row is that of the project's team, or of the unmapped team.
   */
  lemma LastPointStands(rows: map<UsageKey, Totals>, points: seq<Point>, teamOf: map<Project, Team>, i: nat)
    requires i < |points| && forall j :: i < j < |points| ==> !Shared(points[i], points[j], teamOf)
    ensures var p := points[i];
            var k := UsageKey(if p.project in teamOf then teamOf[p.project] else Unmapped, p.model, p.day);
            var rows' := Write(rows, AttributeAll(points, teamOf));
      && k in rows'
      && rows'[k] == Totals(p.input + p.output, p.input, p.output, if k in rows then rows[k].cacheRead else 0,
                            if k in rows then rows[k].cacheWrite else 0, BedrockMantle)
  {
    var rs := AttributeAll(points, teamOf);
    var k := KeyOfDay(rs[i]);
    EachRowIsItsLastPoint(rows, rs, k);
    assert rs[i] in rs;
    var last :| 0 <= last < |rs| && rs[last] == LastFor(rs, k).value && KeyOfDay(rs[last]) == k &&
        forall j :: last < j < |rs| ==> KeyOfDay(rs[j]) != k;
    assert last == i;
  }

  /** A row for which there is no point stays as it is. */
  lemma OtherRowsStay(rows: map<UsageKey, Totals>, points: seq<Point>, teamOf: map<Project, Team>, k: UsageKey)
    requires forall p :: p in points ==>
               k != UsageKey(if p.project in teamOf then teamOf[p.project] else Unmapped, p.model, p.day)
    ensures var rows' := Write(rows, AttributeAll(points, teamOf));
      (k in rows' <==> k in rows) && (k in rows ==> rows'[k] == rows[k])
  {
    var rs := AttributeAll(points, teamOf);
    forall i | 0 <= i < |rs| ensures KeyOfDay(rs[i]) != k {
      assert points[i] in points;
    }
    EachRowIsItsLastPoint(rows, rs, k);
  }

  /**
   The rows add up to the points, unmapped projects included, exactly when no two points share a row. (Points
   without tokens are dropped before.)
   */
  lemma {:induction false} RowsAddUpIffNoneShared(rows: map<UsageKey, Totals>, points: seq<Point>, teamOf: map<Project,
      Team>)
    requires forall i :: 0 <= i < |points| ==> points[i].input + points[i].output > 0
    ensures Recorded(rows, AttributeAll(points, teamOf)) == PointTokens(points) <==>
            forall i, j :: 0 <= i < j < |points| ==> !Shared(points[i], points[j], teamOf)
  {
    var rs := AttributeAll(points, teamOf);
    AttributionKeepsTokens(points, teamOf);
    RecordedPlusLost(rows, rs);
    LostIffShared(rs);
    DistinctIffNoneShared(points, teamOf);
  }

  lemma DistinctIffNoneShared(points: seq<Point>, teamOf: map<Project, Team>)
    ensures DistinctRows(AttributeAll(points, teamOf)) <==>
            forall i, j :: 0 <= i < j < |points| ==> !Shared(points[i], points[j], teamOf)
  {
    var rs := AttributeAll(points, teamOf);
    forall i, j | 0 <= i < j < |points|
      ensures KeyOfDay(rs[i]) == KeyOfDay(rs[j]) <==> Shared(points[i], points[j], teamOf)
    {
    }
  }

  /** Two projects of one team: the later point replaces the earlier one. */
  lemma SharedRowLosesTokens(p: Project, q: Project, team: Team, model: Model, day: Day)
    requires p != q
    ensures var points := [Point(p, model, day, 1, 0), Point(q, model, day, 2, 0)];
            var rows := Write(map[], AttributeAll(points, map[p := team, q := team]));
      PointTokens(points) == 3 && rows.Keys == {UsageKey(team, model, day)} &&
          rows[UsageKey(team, model, day)].running == 2
  {
    var points := [Point(p, model, day, 1, 0), Point(q, model, day, 2, 0)];
    var rs := AttributeAll(points, map[p := team, q := team]);
    assert rs == [DayTotal(team, model, day, 1, 0), DayTotal(team, model, day, 2, 0)];
    assert rs[..1] == [rs[0]] && rs[..1][..0] == [];
    assert Write(map[], rs[..1]) == Set(map[], rs[0]);
    assert points[..1] == [points[0]] && points[..1][..0] == [];
    assert PointTokens(points[..1]) == 1;
  }

  // ---------- the writer as it runs ----------

  class MantleUsageWriter {
    var rows: map<UsageKey, Totals>

    constructor (rows: map<UsageKey, Totals>)
      ensures this.rows == rows
    {
      this.rows := rows;
    }

    method WriteMantleUsage(r: DayTotal)
      modifies this
      ensures rows == Set(old(rows), r)
    {
      var k := UsageKey(r.team, r.model, r.day);
      var t := if k in rows then rows[k] else Totals(0, 0, 0, 0, 0, BedrockRuntime);
      rows := rows[k := t.(running := r.input + r.output, input := r.input, output := r.output,
          endpoint := BedrockMantle)];
    }

    method CollectMantleUsage(points: seq<Point>, teamOf: map<Project, Team>) returns (records: seq<DayTotal>)
      modifies this
      ensures records == AttributeAll(points, teamOf)
      ensures rows == Write(old(rows), records)
    {
      records := AttributeAll(points, teamOf);
      for i := 0 to |records|
        invariant rows == Write(old(rows), records[..i])
      {
        assert records[..i + 1][..i] == records[..i];
        WriteMantleUsage(records[i]);
      }
      assert records[..|records|] == records;
    }
  }
}
