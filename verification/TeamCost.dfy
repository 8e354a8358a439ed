/** Billed cost by team, model and endpoint: parsing rows, summing them under a joined key, and sorting. */
module TeamCost {
  import opened Domain
  import opened Sequences
  import Cur = CurUsageType

  /** A row of the cost report; `tokens` is the usage amount after the conversion of its unit. */
  datatype CurRow = CurRow(team: Option<string>, usageType: Option<string>, cost: real, tokens: int)

  datatype CostRow = CostRow(team: string, model: string, endpoint: Endpoint, cost: real, tokens: int)

  const UNTAGGED: string := "UNTAGGED"

  function TeamName(team: Option<string>): string {
    match team
    case Some(name) => if name == "" then UNTAGGED else name
    case None => UNTAGGED
  }

  function UsageTypeOf(r: CurRow): string {
    match r.usageType
    case Some(u) => u
    case None => ""
  }

  function TotalCost(rows: seq<CostRow>): real {
    if rows == [] then 0.0 else TotalCost(rows[..|rows| - 1]) + rows[|rows| - 1].cost
  }

  function TotalTokens(rows: seq<CostRow>): int {
    if rows == [] then 0 else TotalTokens(rows[..|rows| - 1]) + rows[|rows| - 1].tokens
  }

  /** A report row under the names that its usage type and its team tag give it; none for an unknown usage type. */
  function Named(r: CurRow): Option<CostRow> {
    NamedAs(r, Cur.ParseUsageType(UsageTypeOf(r)))
  }

  function NamedAs(r: CurRow, parsed: Option<Cur.Parsed>): Option<CostRow> {
    match parsed
    case Some(p) => Some(CostRow(TeamName(r.team), p.model, p.endpoint, r.cost, r.tokens))
    case None => None
  }

  /** Cost and tokens of the report rows that have a name. */
  function CostWhere(rows: seq<CurRow>, named: CurRow -> Option<CostRow>): real {
    if rows == [] then 0.0
    else CostWhere(rows[..|rows| - 1], named) + if named(rows[|rows| - 1]).Some? then rows[|rows| - 1].cost else 0.0
  }

  function TokensWhere(rows: seq<CurRow>, named: CurRow -> Option<CostRow>): int {
    if rows == [] then 0
    else TokensWhere(rows[..|rows| - 1], named) + if named(rows[|rows| - 1]).Some? then rows[|rows| - 1].tokens else 0
  }

  ghost predicate KeepsAmounts(named: CurRow -> Option<CostRow>) {
    forall r :: named(r).Some? ==> named(r).value.cost == r.cost && named(r).value.tokens == r.tokens
  }

  /** The totals of the picked rows are those of the report rows that have a name. */
  lemma {:induction false} PickedTotals(parsed: seq<CostRow>, rows: seq<CurRow>, named: CurRow -> Option<CostRow>,
      from: seq<nat>)
    requires KeepsAmounts(named) && Picks(parsed, rows, named, from)
    ensures TotalCost(parsed) == CostWhere(rows, named) && TotalTokens(parsed) == TokensWhere(rows, named)
  {
    if rows == [] {
    } else {
      var n, m := |rows| - 1, |parsed| - 1;
      PicksPrevious(parsed, rows, named, from);
      if named(rows[n]).None? {
        PickedTotals(parsed, rows[..n], named, from);
      } else {
        PickedTotals(parsed[..m], rows[..n], named, from[..m]);
      }
    }
  }

  lemma NamedKeepsAmounts()
    ensures KeepsAmounts(Named)
  {
  }

  /**
   The parsed rows are the report rows at these positions: those whose usage type is known, in order, each under its
   tag, or as untagged without one, and under the parsed model and endpoint, with its cost and tokens.
   */
  ghost predicate Lists(parsed: seq<CostRow>, rows: seq<CurRow>, from: seq<nat>) {
    && |from| == |parsed|
    && (forall j, k :: 0 <= j < k < |from| ==> from[j] < from[k])
    && (forall j :: 0 <= j < |from| ==> from[j] < |rows| && IsParsed(parsed[j], rows[from[j]]))
    && (forall i :: 0 <= i < |rows| && rows[i].usageType.Some? && Cur.ParseUsageType(rows[i].usageType.value).Some? ==>
          i in from)
  }

  predicate IsParsed(p: CostRow, r: CurRow) {
    && r.usageType.Some? && Cur.ParseUsageType(r.usageType.value).Some?
    && Carries(p, r, Cur.ParseUsageType(r.usageType.value).value)
  }

  predicate Carries(p: CostRow, r: CurRow, parsed: Cur.Parsed) {
    && p.team == (if r.team.Some? && r.team.value != "" then r.team.value else "UNTAGGED")
    && p.model == parsed.model && p.endpoint == parsed.endpoint
    && p.cost == r.cost && p.tokens == r.tokens
  }

  lemma NamedCarries(r: CurRow, parsed: Option<Cur.Parsed>)
    ensures NamedAs(r, parsed).Some? <==> parsed.Some?
    ensures parsed.Some? ==> Carries(NamedAs(r, parsed).value, r, parsed.value)
  {
  }

  lemma NamedIsParsed(r: CurRow)
    ensures Named(r).Some? <==> r.usageType.Some? && Cur.ParseUsageType(r.usageType.value).Some?
    ensures Named(r).Some? ==> IsParsed(Named(r).value, r)
  {
    assert Cur.ParseUsageType("").None?;
    NamedCarries(r, Cur.ParseUsageType(UsageTypeOf(r)));
  }

  lemma PickedAreListed(parsed: seq<CostRow>, rows: seq<CurRow>, from: seq<nat>)
    requires Picks(parsed, rows, Named, from)
    ensures Lists(parsed, rows, from)
  {
    forall r ensures Named(r).Some? <==> r.usageType.Some? && Cur.ParseUsageType(r.usageType.value).Some? {
      NamedIsParsed(r);
    }
    forall j | 0 <= j < |from| ensures from[j] < |rows| && IsParsed(parsed[j], rows[from[j]]) {
      NamedIsParsed(rows[from[j]]);
    }
  }

  /** Rows of unknown usage types are skipped. */
  method ParsePerTeamRows(rows: seq<CurRow>) returns (parsed: seq<CostRow>)
    ensures exists from :: Picks(parsed, rows, Named, from) && Lists(parsed, rows, from)
    ensures TotalCost(parsed) == CostWhere(rows, Named) && TotalTokens(parsed) == TokensWhere(rows, Named)
  {
    parsed := [];
    ghost var from: seq<nat> := [];
    for i := 0 to |rows|
      invariant Picks(parsed, rows[..i], Named, from)
    {
      var row := Named(rows[i]);
      PicksNext(parsed, rows, Named, from, i);
      if row.None? {
        continue;
      }
      parsed := parsed + [row.value];
      from := from + [i];
    }
    assert rows[..|rows|] == rows;
    NamedKeepsAmounts();
    PickedTotals(parsed, rows, Named, from);
    PickedAreListed(parsed, rows, from);
  }

  // ---------- keys ----------

  function EndpointName(e: Endpoint): string {
    if e == BedrockRuntime then "bedrock-runtime" else "bedrock-mantle"
  }

  function Key(r: CostRow): string {
    r.team + "|" + r.model + "|" + EndpointName(r.endpoint)
  }

  predicate NoBar(s: string) {
    '|' !in s
  }

  predicate SameNames(a: CostRow, b: CostRow) {
    a.team == b.team && a.model == b.model && a.endpoint == b.endpoint
  }

  /** The parts around a bar are unique when the bar is the first one. */
  lemma FirstBar(a: string, x: string, b: string, y: string)
    requires NoBar(a) && NoBar(b) && a + "|" + x == b + "|" + y
    ensures a == b && x == y
  {
    var s := a + "|" + x;
    assert s[|a|] == '|' && s[|b|] == '|';
    assert forall i :: 0 <= i < |a| ==> s[i] == a[i];
    assert forall i :: 0 <= i < |b| ==> s[i] == b[i];
    assert |a| == |b|;
    assert a == s[..|a|] && b == s[..|b|] && x == s[|a| + 1..] && y == s[|b| + 1..];
  }

  /** The parts around a bar are unique when the bar is the last one. */
  lemma LastBar(a: string, x: string, b: string, y: string)
    requires NoBar(x) && NoBar(y) && a + "|" + x == b + "|" + y
    ensures a == b && x == y
  {
    var s := a + "|" + x;
    assert s[|a|] == '|' && s[|b|] == '|';
    assert forall i :: |a| < i < |s| ==> s[i] == x[i - |a| - 1];
    assert forall i :: |b| < i < |s| ==> s[i] == y[i - |b| - 1];
    assert |a| == |b|;
    assert a == s[..|a|] && b == s[..|b|] && x == s[|a| + 1..] && y == s[|b| + 1..];
  }

  lemma EndpointNames(d: Endpoint, e: Endpoint)
    ensures NoBar(EndpointName(d)) && (EndpointName(d) == EndpointName(e) ==> d == e)
  {
    assert |EndpointName(BedrockRuntime)| == 15 && |EndpointName(BedrockMantle)| == 14;
  }

  /** A key tells the names apart as soon as the team names, or the model names, have no bar. */
  lemma KeyTellsApart(a: CostRow, b: CostRow)
    requires Key(a) == Key(b)
    requires (NoBar(a.team) && NoBar(b.team)) || (NoBar(a.model) && NoBar(b.model))
    ensures SameNames(a, b)
  {
    EndpointNames(a.endpoint, b.endpoint);
    EndpointNames(b.endpoint, a.endpoint);
    LastBar(a.team + "|" + a.model, EndpointName(a.endpoint), b.team + "|" + b.model, EndpointName(b.endpoint));
    if NoBar(a.team) && NoBar(b.team) {
      FirstBar(a.team, a.model, b.team, b.model);
    } else {
      LastBar(a.team, a.model, b.team, b.model);
    }
  }

  /**
   A bar in the team name of `b`, and one in the model name of `a`, so that the shorter team's key runs on into
   its model.
   */
  predicate RunsOn(a: CostRow, b: CostRow) {
    |a.team| < |b.team| && b.team[..|a.team|] == a.team && b.team[|a.team|] == '|'
    && a.model == b.team[|a.team| + 1..] + "|" + b.model
  }

  lemma RunsOnShares(a: CostRow, b: CostRow)
    ensures RunsOn(a, b) <==> exists s :: b.team == a.team + "|" + s && a.model == s + "|" + b.model
  {
    if RunsOn(a, b) {
      var s := b.team[|a.team| + 1..];
      assert b.team == a.team + "|" + s;
    }
    if s :| b.team == a.team + "|" + s && a.model == s + "|" + b.model {
      assert b.team[|a.team| + 1..] == s && b.team[..|a.team|] == a.team;
    }
  }

  lemma SharedHeads(a: CostRow, b: CostRow)
    requires |a.team| < |b.team| && a.team + "|" + a.model == b.team + "|" + b.model
    ensures RunsOn(a, b)
  {
    var s := a.team + "|" + a.model;
    assert b.team == s[..|b.team|];
    assert s[|a.team|] == '|';
    assert b.team[..|a.team|] == s[..|a.team|] == a.team;
    assert a.model == s[|a.team| + 1..];
    assert s == b.team + "|" + b.model;
    assert s[|a.team| + 1..] == b.team[|a.team| + 1..] + "|" + b.model;
  }

  lemma RunsOnSameHead(a: CostRow, b: CostRow)
    requires RunsOn(a, b)
    ensures a.team + "|" + a.model == b.team + "|" + b.model
  {
    var s := b.team[|a.team| + 1..];
    assert b.team == a.team + "|" + s;
    assert a.team + "|" + (s + "|" + b.model) == (a.team + "|" + s) + "|" + b.model;
  }

  /** Different names share a key if and only if the endpoints agree and one team's key runs on into its model. */
  lemma CollideIff(a: CostRow, b: CostRow)
    requires !SameNames(a, b)
    ensures Key(a) == Key(b) <==> a.endpoint == b.endpoint && (RunsOn(a, b) || RunsOn(b, a))
  {
    if Key(a) == Key(b) {
      SharedKey(a, b);
    } else if a.endpoint == b.endpoint {
      if RunsOn(a, b) { RunsOnSameHead(a, b); }
      if RunsOn(b, a) { RunsOnSameHead(b, a); }
    }
  }

  lemma SharedKey(a: CostRow, b: CostRow)
    requires !SameNames(a, b) && Key(a) == Key(b)
    ensures a.endpoint == b.endpoint && (RunsOn(a, b) || RunsOn(b, a))
  {
    EndpointNames(a.endpoint, b.endpoint);
    EndpointNames(b.endpoint, a.endpoint);
    LastBar(a.team + "|" + a.model, EndpointName(a.endpoint), b.team + "|" + b.model, EndpointName(b.endpoint));
    if |a.team| < |b.team| {
      SharedHeads(a, b);
    } else if |b.team| < |a.team| {
      SharedHeads(b, a);
    } else {
      SameHeads(a.team, a.model, b.team, b.model);
    }
  }

  lemma SameHeads(a: string, x: string, b: string, y: string)
    requires |a| == |b| && a + "|" + x == b + "|" + y
    ensures a == b && x == y
  {
    var s := a + "|" + x;
    assert a == s[..|a|] && b == s[..|b|] && x == s[|a| + 1..] && y == s[|b| + 1..];
  }

  // ---------- aggregation ----------

  /** Cost and tokens of the rows under a key. */
  function CostUnder(rows: seq<CostRow>, key: string): real {
    if rows == [] then 0.0
    else
      var n := |rows| - 1;
      CostUnder(rows[..n], key) + if Key(rows[n]) == key then rows[n].cost else 0.0
  }

  function TokensUnder(rows: seq<CostRow>, key: string): int {
    if rows == [] then 0
    else
      var n := |rows| - 1;
      TokensUnder(rows[..n], key) + if Key(rows[n]) == key then rows[n].tokens else 0
  }

  predicate HasKey(rows: seq<CostRow>, key: string) {
    exists i :: 0 <= i < |rows| && Key(rows[i]) == key
  }

  predicate DistinctKeys(rows: seq<CostRow>) {
    forall i, j :: 0 <= i < j < |rows| ==> Key(rows[i]) != Key(rows[j])
  }

  /** The first row under a key, whose names the key's row takes. */
  function FirstUnder(rows: seq<CostRow>, key: string): Option<CostRow> {
    if rows == [] then None
    else
      var n := |rows| - 1;
      match FirstUnder(rows[..n], key)
      case Some(r) => Some(r)
      case None => if Key(rows[n]) == key then Some(rows[n]) else None
  }

  /** The row for a key has the names of its first row, and its sums. */
  predicate Sums(r: CostRow, rows: seq<CostRow>, key: string) {
    && Key(r) == key
    && FirstUnder(rows, key).Some? && SameNames(r, FirstUnder(rows, key).value)
    && r.cost == CostUnder(rows, key) && r.tokens == TokensUnder(rows, key)
  }

  /** `out` has one row for each key of `rows`. */
  ghost predicate Groups(out: seq<CostRow>, rows: seq<CostRow>) {
    && DistinctKeys(out)
    && (forall i :: 0 <= i < |out| ==> Sums(out[i], rows, Key(out[i])))
    && (forall k :: FirstUnder(rows, k).Some? ==> HasKey(out, k))
  }

  function Plus(a: CostRow, b: CostRow): CostRow {
    a.(cost := a.cost + b.cost, tokens := a.tokens + b.tokens)
  }

  /** The map after some rows: a row of sums for each of their keys. */
  ghost predicate Summed(byKey: map<string, CostRow>, rows: seq<CostRow>) {
    && (forall k :: k in byKey <==> FirstUnder(rows, k).Some?)
    && (forall k :: k in byKey ==> Sums(byKey[k], rows, k))
  }

  lemma SummedGrows(byKey: map<string, CostRow>, rows: seq<CostRow>, n: nat)
    requires n < |rows| && Summed(byKey, rows[..n])
    ensures var (r, key) := (rows[n], Key(rows[n]));
            Summed(byKey[key := if key in byKey then Plus(byKey[key], r) else r], rows[..n + 1])
  {
    var r, key := rows[n], Key(rows[n]);
    var byKey' := byKey[key := if key in byKey then Plus(byKey[key], r) else r];
    assert rows[..n + 1] == rows[..n] + [r];
    forall k
      ensures k in byKey' <==> FirstUnder(rows[..n + 1], k).Some?
      ensures k in byKey' ==> Sums(byKey'[k], rows[..n + 1], k)
    {
      SumsNext(rows[..n], r, k, if k in byKey then Some(byKey[k]) else None);
    }
  }

  /** The sums under one key after one more row. */
  lemma SumsNext(rows: seq<CostRow>, r: CostRow, k: string, sums: Option<CostRow>)
    requires sums.Some? <==> FirstUnder(rows, k).Some?
    requires sums.Some? ==> Sums(sums.value, rows, k)
    ensures FirstUnder(rows + [r], k).Some? <==> sums.Some? || Key(r) == k
    ensures sums.Some? ==> Sums(if Key(r) == k then Plus(sums.value, r) else sums.value, rows + [r], k)
    ensures sums.None? && Key(r) == k ==> Sums(r, rows + [r], k)
  {
    NothingUnder(rows, k);
    UnderAppend(rows, r, k);
  }

  /** The loop over the rows: a map from keys to rows, and the order of insertion. */
  method Group(rows: seq<CostRow>) returns (out: seq<CostRow>)
    ensures Groups(out, rows)
  {
    var byKey: map<string, CostRow>, order: seq<string> := map[], [];
    for n := 0 to |rows|
      invariant Summed(byKey, rows[..n])
      invariant Distinct(order) && forall k :: k in order <==> k in byKey
    {
      SummedGrows(byKey, rows, n);
      var r, key := rows[n], Key(rows[n]);
      if key in byKey {
        byKey := byKey[key := Plus(byKey[key], r)];
      } else {
        byKey := byKey[key := r];
        order := order + [key];
      }
    }
    assert rows[..|rows|] == rows;
    out := Rows(byKey, order);
    ListedRows(byKey, order, rows);
  }

  lemma ListedRows(byKey: map<string, CostRow>, order: seq<string>, rows: seq<CostRow>)
    requires Summed(byKey, rows) && Distinct(order) && forall k :: k in order <==> k in byKey
    ensures Groups(Rows(byKey, order), rows)
  {
    var out := Rows(byKey, order);
    forall i | 0 <= i < |order| ensures Key(out[i]) == order[i] && Sums(out[i], rows, order[i]) {
      assert order[i] in order;
    }
    forall k | FirstUnder(rows, k).Some? ensures HasKey(out, k) {
      assert k in order;
      KeyIsListed(out, order, k);
    }
  }

  lemma KeyIsListed(out: seq<CostRow>, order: seq<string>, k: string)
    requires |out| == |order| && (forall i :: 0 <= i < |order| ==> Key(out[i]) == order[i]) && k in order
    ensures HasKey(out, k)
  {
    var i :| 0 <= i < |order| && order[i] == k;
    assert Key(out[i]) == k;
  }

  function Rows(byKey: map<string, CostRow>, order: seq<string>): seq<CostRow>
    requires forall k :: k in order ==> k in byKey
  {
    seq(|order|, i requires 0 <= i < |order| => byKey[order[i]])
  }

  lemma {:induction false} NothingUnder(rows: seq<CostRow>, key: string)
    ensures FirstUnder(rows, key).None? ==> CostUnder(rows, key) == 0.0 && TokensUnder(rows, key) == 0
  {
    if rows == [] {
    } else {
      NothingUnder(rows[..|rows| - 1], key);
    }
  }

  // ---------- conservation ----------

  function Without(rows: seq<CostRow>, key: string): seq<CostRow> {
    if rows == [] then []
    else
      var n := |rows| - 1;
      if Key(rows[n]) == key then Without(rows[..n], key) else Without(rows[..n], key) + [rows[n]]
  }

  lemma {:induction false} WithoutTotals(rows: seq<CostRow>, key: string)
    ensures TotalCost(rows) == CostUnder(rows, key) + TotalCost(Without(rows, key))
    ensures TotalTokens(rows) == TokensUnder(rows, key) + TotalTokens(Without(rows, key))
  {
    if rows == [] {
    } else {
      var n := |rows| - 1;
      WithoutTotals(rows[..n], key);
      var rest := Without(rows[..n], key);
      assert (rest + [rows[n]])[..|rest|] == rest;
    }
  }

  lemma UnderAppend(rows: seq<CostRow>, r: CostRow, key: string)
    ensures CostUnder(rows + [r], key) == CostUnder(rows, key) + if Key(r) == key then r.cost else 0.0
    ensures TokensUnder(rows + [r], key) == TokensUnder(rows, key) + if Key(r) == key then r.tokens else 0
    ensures FirstUnder(rows + [r], key) == if FirstUnder(rows, key).None? && Key(r) == key then Some(r)
              else FirstUnder(rows, key)
  {
    assert (rows + [r])[..|rows|] == rows;
  }

  lemma {:induction false} WithoutUnder(rows: seq<CostRow>, key: string, other: string)
    ensures other != key ==> CostUnder(Without(rows, key), other) == CostUnder(rows, other)
    ensures other != key ==> TokensUnder(Without(rows, key), other) == TokensUnder(rows, other)
    ensures FirstUnder(Without(rows, key), other) == if other == key then None else FirstUnder(rows, other)
  {
    if rows == [] {
    } else {
      var n := |rows| - 1;
      WithoutUnder(rows[..n], key, other);
      UnderAppend(Without(rows[..n], key), rows[n], other);
    }
  }

  lemma NothingFound(rows: seq<CostRow>)
    ensures rows == [] || exists k :: FirstUnder(rows, k).Some?
  {
    if rows != [] {
      assert FirstUnder(rows, Key(rows[|rows| - 1])).Some?;
    }
  }

  lemma EmptyGroups(rows: seq<CostRow>)
    requires Groups([], rows)
    ensures rows == []
  {
    forall k ensures !HasKey([], k) { }
    NothingFound(rows);
  }

  /** Nothing is lost and nothing counted twice, even where keys collide: the grand totals are those of the input. */
  lemma {:induction false} GroupsConserve(out: seq<CostRow>, rows: seq<CostRow>)
    requires Groups(out, rows)
    ensures TotalCost(out) == TotalCost(rows) && TotalTokens(out) == TotalTokens(rows)
    decreases |out|
  {
    if out == [] {
      EmptyGroups(rows);
    } else {
      GroupsWithout(out, rows);
      TotalsWithout(out, rows);
      GroupsConserve(out[..|out| - 1], Without(rows, Key(out[|out| - 1])));
    }
  }

  lemma TotalsWithout(out: seq<CostRow>, rows: seq<CostRow>)
    requires out != [] && Groups(out, rows)
    ensures var (shorter, rest) := (out[..|out| - 1], Without(rows, Key(out[|out| - 1])));
      && TotalCost(out) - TotalCost(shorter) == TotalCost(rows) - TotalCost(rest)
      && TotalTokens(out) - TotalTokens(shorter) == TotalTokens(rows) - TotalTokens(rest)
  {
    WithoutTotals(rows, Key(out[|out| - 1]));
    assert Sums(out[|out| - 1], rows, Key(out[|out| - 1]));
  }

  lemma GroupsWithout(out: seq<CostRow>, rows: seq<CostRow>)
    requires out != [] && Groups(out, rows)
    ensures Groups(out[..|out| - 1], Without(rows, Key(out[|out| - 1])))
  {
    var n := |out| - 1;
    forall i | 0 <= i < n ensures Sums(out[i], Without(rows, Key(out[n])), Key(out[i])) {
      SumsWithout(out[i], rows, Key(out[i]), Key(out[n]));
    }
    forall k | FirstUnder(Without(rows, Key(out[n])), k).Some? ensures HasKey(out[..n], k) {
      WithoutUnder(rows, Key(out[n]), k);
      assert HasKey(out, k);
      KeyBefore(out, k);
    }
  }

  lemma SumsWithout(r: CostRow, rows: seq<CostRow>, key: string, other: string)
    requires Sums(r, rows, key) && key != other
    ensures Sums(r, Without(rows, other), key)
  {
    WithoutUnder(rows, other, key);
  }

  lemma KeyBefore(out: seq<CostRow>, k: string)
    requires out != [] && HasKey(out, k) && k != Key(out[|out| - 1])
    ensures HasKey(out[..|out| - 1], k)
  {
    var n := |out| - 1;
    var i :| 0 <= i < |out| && Key(out[i]) == k;
    assert out[..n][i] == out[i];
  }

  // ---------- when the rows are the sums of their names ----------

  predicate Collision(a: CostRow, b: CostRow) {
    Key(a) == Key(b) && !SameNames(a, b)
  }

  function CostOf(rows: seq<CostRow>, r: CostRow): real {
    if rows == [] then 0.0
    else
      var n := |rows| - 1;
      CostOf(rows[..n], r) + if SameNames(rows[n], r) then rows[n].cost else 0.0
  }

  function TokensOf(rows: seq<CostRow>, r: CostRow): int {
    if rows == [] then 0
    else
      var n := |rows| - 1;
      TokensOf(rows[..n], r) + if SameNames(rows[n], r) then rows[n].tokens else 0
  }

  lemma {:induction false} NamesAreKeys(rows: seq<CostRow>, r: CostRow)
    requires forall s :: s in rows ==> !Collision(s, r)
    ensures CostUnder(rows, Key(r)) == CostOf(rows, r) && TokensUnder(rows, Key(r)) == TokensOf(rows, r)
  {
    if rows == [] {
    } else {
      var n := |rows| - 1;
      assert rows[n] in rows && !Collision(rows[n], r);
      NamesAreKeys(rows[..n], r);
    }
  }

  /** Every team, model and endpoint of the input has a row of its own. */
  ghost predicate EachHasItsRow(out: seq<CostRow>, rows: seq<CostRow>) {
    forall r :: r in rows ==> exists i :: 0 <= i < |out| && SameNames(out[i], r)
  }

  ghost predicate NoCollisions(rows: seq<CostRow>) {
    forall a, b :: a in rows && b in rows ==> !Collision(a, b)
  }

  lemma {:induction false} FirstIsARow(rows: seq<CostRow>, key: string)
    ensures FirstUnder(rows, key).Some? ==>
              FirstUnder(rows, key).value in rows && Key(FirstUnder(rows, key).value) == key
    ensures FirstUnder(rows, key).None? ==> forall r :: r in rows ==> Key(r) != key
  {
    if rows == [] {
    } else {
      FirstIsARow(rows[..|rows| - 1], key);
    }
  }

  /** The keys separate the names of the input exactly when every triple of names has its own row. */
  lemma OwnRowsIffNoCollisions(out: seq<CostRow>, rows: seq<CostRow>)
    requires Groups(out, rows)
    ensures EachHasItsRow(out, rows) <==> NoCollisions(rows)
  {
    if NoCollisions(rows) {
      forall r | r in rows ensures exists i :: 0 <= i < |out| && SameNames(out[i], r) {
        FirstIsARow(rows, Key(r));
        var i :| 0 <= i < |out| && Key(out[i]) == Key(r);
        assert !Collision(FirstUnder(rows, Key(r)).value, r);
      }
    }
    if EachHasItsRow(out, rows) {
      forall a, b | a in rows && b in rows ensures !Collision(a, b) {
        var i :| 0 <= i < |out| && SameNames(out[i], a);
        var j :| 0 <= j < |out| && SameNames(out[j], b);
        assert Key(out[i]) == Key(a) && Key(out[j]) == Key(b);
      }
    }
  }

  /** Without collisions, each row is the sum of the input rows with its names. */
  lemma RowsAreExact(out: seq<CostRow>, rows: seq<CostRow>, i: nat)
    requires Groups(out, rows) && NoCollisions(rows) && i < |out|
    ensures out[i].cost == CostOf(rows, out[i]) && out[i].tokens == TokensOf(rows, out[i])
  {
    FirstIsARow(rows, Key(out[i]));
    var first := FirstUnder(rows, Key(out[i])).value;
    forall s | s in rows ensures !Collision(s, out[i]) {
      assert !Collision(s, first);
    }
    NamesAreKeys(rows, out[i]);
  }

  /** Names without bars never collide. */
  lemma NoBarsNoCollisions(rows: seq<CostRow>)
    requires (forall r :: r in rows ==> NoBar(r.team)) || (forall r :: r in rows ==> NoBar(r.model))
    ensures NoCollisions(rows)
  {
    forall a, b | a in rows && b in rows ensures !Collision(a, b) {
      if Key(a) == Key(b) {
        KeyTellsApart(a, b);
      }
    }
  }

  /** Every triple has its own key if and only if no team's key runs on into its model. */
  lemma NoCollisionsIff(rows: seq<CostRow>)
    ensures NoCollisions(rows) <==> forall a, b :: a in rows && b in rows && a.endpoint == b.endpoint ==> !RunsOn(a, b)
  {
    forall a, b | a in rows && b in rows
      ensures Collision(a, b) <==> a.endpoint == b.endpoint && (RunsOn(a, b) || RunsOn(b, a))
    {
      if !SameNames(a, b) {
        CollideIff(a, b);
      }
    }
    if NoCollisions(rows) {
      forall a, b | a in rows && b in rows && a.endpoint == b.endpoint ensures !RunsOn(a, b) {
        assert !Collision(a, b);
      }
    }
  }

  /** With bars in both, they can: the second row is added to the first one's names. */
  lemma BarsCollide(cost: real, tokens: int)
    ensures Collision(CostRow("a|b", "c", BedrockRuntime, cost, tokens),
              CostRow("a", "b|c", BedrockRuntime, cost, tokens))
  {
    var x, y := CostRow("a|b", "c", BedrockRuntime, cost, tokens), CostRow("a", "b|c", BedrockRuntime, cost, tokens);
    assert x.team + "|" + x.model == "a|b|c" == y.team + "|" + y.model;
    assert x.team[1..] != y.team[1..];
  }

  // ---------- order ----------

  /** A row comes strictly before another by team, then by model; `rank` stands for the locale's order of strings. */
  predicate Before(a: CostRow, b: CostRow, rank: string -> real) {
    rank(a.team) < rank(b.team) || (rank(a.team) == rank(b.team) && rank(a.model) < rank(b.model))
  }

  predicate Ordered(rows: seq<CostRow>, rank: string -> real) {
    forall i, j :: 0 <= i < j < |rows| ==> !Before(rows[j], rows[i], rank)
  }

  function Insert(r: CostRow, sorted: seq<CostRow>, rank: string -> real): seq<CostRow> {
    if sorted == [] then [r]
    else if Before(r, sorted[0], rank) then [r] + sorted
    else [sorted[0]] + Insert(r, sorted[1..], rank)
  }

  /** A stable sort. */
  function Sorted(rows: seq<CostRow>, rank: string -> real): seq<CostRow> {
    if rows == [] then [] else Insert(rows[|rows| - 1], Sorted(rows[..|rows| - 1], rank), rank)
  }

  lemma {:induction false} InsertKeepsMembers(r: CostRow, sorted: seq<CostRow>, rank: string -> real)
    ensures forall x :: x in Insert(r, sorted, rank) <==> x == r || x in sorted
  {
    if sorted == [] || Before(r, sorted[0], rank) {
    } else {
      InsertKeepsMembers(r, sorted[1..], rank);
      assert sorted == [sorted[0]] + sorted[1..];
    }
  }

  lemma {:induction false} InsertKeepsOrder(r: CostRow, sorted: seq<CostRow>, rank: string -> real)
    requires Ordered(sorted, rank)
    ensures Ordered(Insert(r, sorted, rank), rank)
  {
    if sorted == [] || Before(r, sorted[0], rank) {
    } else {
      var rest := Insert(r, sorted[1..], rank);
      InsertKeepsOrder(r, sorted[1..], rank);
      InsertKeepsMembers(r, sorted[1..], rank);
      forall j | 0 <= j < |rest| ensures !Before(rest[j], sorted[0], rank) {
        assert rest[j] in rest;
      }
    }
  }

  lemma {:induction false} SortedIsOrdered(rows: seq<CostRow>, rank: string -> real)
    ensures Ordered(Sorted(rows, rank), rank)
  {
    if rows == [] {
    } else {
      SortedIsOrdered(rows[..|rows| - 1], rank);
      InsertKeepsOrder(rows[|rows| - 1], Sorted(rows[..|rows| - 1], rank), rank);
    }
  }

  /** The rows that tie with `r`, in their order. */
  function Ties(rows: seq<CostRow>, r: CostRow, rank: string -> real): seq<CostRow> {
    if rows == [] then []
    else if rank(rows[0].team) == rank(r.team) &&
        rank(rows[0].model) == rank(r.model) then [rows[0]] + Ties(rows[1..], r, rank)
    else Ties(rows[1..], r, rank)
  }

  lemma {:induction false} TiesAppend(a: seq<CostRow>, b: CostRow, r: CostRow, rank: string -> real)
    ensures Ties(a + [b], r, rank) == Ties(a, r, rank) + Ties([b], r, rank)
  {
    if a == [] {
      assert a + [b] == [b];
    } else {
      assert (a + [b])[1..] == a[1..] + [b];
      TiesAppend(a[1..], b, r, rank);
    }
  }

  lemma {:induction false} NoTies(rows: seq<CostRow>, r: CostRow, rank: string -> real)
    requires forall x :: x in rows ==> Before(r, x, rank)
    ensures Ties(rows, r, rank) == []
  {
    if rows == [] {
    } else {
      assert rows[0] in rows;
      NoTies(rows[1..], r, rank);
    }
  }

  lemma {:induction false} InsertIsStable(x: CostRow, sorted: seq<CostRow>, r: CostRow, rank: string -> real)
    requires Ordered(sorted, rank)
    ensures Ties(Insert(x, sorted, rank), r, rank) == Ties(sorted, r, rank) + Ties([x], r, rank)
  {
    if sorted == [] {
    } else if Before(x, sorted[0], rank) {
      assert ([x] + sorted)[1..] == sorted;
      if rank(x.team) == rank(r.team) && rank(x.model) == rank(r.model) {
        NoTies(sorted, r, rank);
      }
    } else {
      InsertIsStable(x, sorted[1..], r, rank);
    }
  }

  /** Sorting keeps the rows of each team and model, in the order in which they were inserted. */
  lemma {:induction false} SortedIsStable(rows: seq<CostRow>, r: CostRow, rank: string -> real)
    ensures Ties(Sorted(rows, rank), r, rank) == Ties(rows, r, rank)
  {
    if rows == [] {
    } else {
      var n := |rows| - 1;
      SortedIsStable(rows[..n], r, rank);
      SortedIsOrdered(rows[..n], rank);
      InsertIsStable(rows[n], Sorted(rows[..n], rank), r, rank);
      TiesAppend(rows[..n], rows[n], r, rank);
      assert rows[..n] + [rows[n]] == rows;
    }
  }

  lemma {:induction false} InsertKeepsKeys(r: CostRow, sorted: seq<CostRow>, rank: string -> real)
    requires DistinctKeys(sorted) && !HasKey(sorted, Key(r))
    ensures DistinctKeys(Insert(r, sorted, rank))
  {
    if sorted == [] {
    } else {
      if Before(r, sorted[0], rank) {
        assert forall i :: 0 < i < |sorted| + 1 ==> ([r] + sorted)[i] == sorted[i - 1];
      } else {
        forall i | 0 <= i < |sorted[1..]| ensures Key(sorted[1..][i]) != Key(r) &&
            Key(sorted[1..][i]) != Key(sorted[0]) {
          assert sorted[1..][i] == sorted[i + 1];
        }
        InsertKeepsKeys(r, sorted[1..], rank);
        InsertKeepsMembers(r, sorted[1..], rank);
        var rest := Insert(r, sorted[1..], rank);
        forall j | 0 <= j < |rest| ensures Key(rest[j]) != Key(sorted[0]) {
          assert rest[j] in rest;
        }
      }
    }
  }

  lemma {:induction false} SortedKeepsRows(rows: seq<CostRow>, rank: string -> real)
    requires DistinctKeys(rows)
    ensures DistinctKeys(Sorted(rows, rank)) && forall x :: x in Sorted(rows, rank) <==> x in rows
  {
    if rows == [] {
    } else {
      var n := |rows| - 1;
      SortedKeepsRows(rows[..n], rank);
      InsertKeepsMembers(rows[n], Sorted(rows[..n], rank), rank);
      forall i | 0 <= i < |Sorted(rows[..n], rank)| ensures Key(Sorted(rows[..n], rank)[i]) != Key(rows[n]) {
        assert Sorted(rows[..n], rank)[i] in rows[..n];
      }
      InsertKeepsKeys(rows[n], Sorted(rows[..n], rank), rank);
      assert rows == rows[..n] + [rows[n]];
    }
  }

  lemma GroupsAfterSort(out: seq<CostRow>, rows: seq<CostRow>, rank: string -> real)
    requires Groups(out, rows)
    ensures Groups(Sorted(out, rank), rows)
  {
    SortedKeepsRows(out, rank);
    var sorted := Sorted(out, rank);
    forall i | 0 <= i < |sorted| ensures Sums(sorted[i], rows, Key(sorted[i])) {
      assert sorted[i] in out;
    }
    forall k | FirstUnder(rows, k).Some? ensures HasKey(sorted, k) {
      var i :| 0 <= i < |out| && Key(out[i]) == k;
      assert out[i] in sorted;
      var j :| 0 <= j < |sorted| && sorted[j] == out[i];
      assert Key(sorted[j]) == k;
    }
  }

  /** By team, and within a team by model. */
  predicate InOrder(out: seq<CostRow>, rank: string -> real) {
    forall i, j :: 0 <= i < j < |out| ==>
      || rank(out[i].team) < rank(out[j].team)
      || (rank(out[i].team) == rank(out[j].team) && rank(out[i].model) <= rank(out[j].model))
  }

  lemma OrderedIsInOrder(out: seq<CostRow>, rank: string -> real)
    requires Ordered(out, rank)
    ensures InOrder(out, rank)
  {
    assert forall i, j :: 0 <= i < j < |out| ==> !Before(out[j], out[i], rank);
  }

  /** The whole aggregation: one exact row for each key, grand totals kept, in order of team and model. */
  method AggregatePerTeamCost(rows: seq<CostRow>, rank: string -> real) returns (out: seq<CostRow>)
    ensures Groups(out, rows) && InOrder(out, rank)
    ensures TotalCost(out) == TotalCost(rows) && TotalTokens(out) == TotalTokens(rows)
  {
    var grouped := Group(rows);
    out := Sorted(grouped, rank);
    GroupsAfterSort(grouped, rows, rank);
    SortedIsOrdered(grouped, rank);
    OrderedIsInOrder(out, rank);
    GroupsConserve(out, rows);
  }

  /** From the report to the export: the grand totals are those of the report rows with a known usage type. */
  method PerTeamCost(rows: seq<CurRow>, rank: string -> real) returns (out: seq<CostRow>, ghost parsed: seq<CostRow>)
    ensures TotalCost(out) == CostWhere(rows, Named) && TotalTokens(out) == TokensWhere(rows, Named)
    ensures (exists from :: Lists(parsed, rows, from)) && Groups(out, parsed)
    ensures InOrder(out, rank)
  {
    var recognised := ParsePerTeamRows(rows);
    out := AggregatePerTeamCost(recognised, rank);
    parsed := recognised;
  }
}
