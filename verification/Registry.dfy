/** The model registry: two indexes built from one list of entries. */
module Registry {
  import opened Domain
  import opened Sequences

  datatype Entry = Entry(model: Model, endpoint: Endpoint, provider: string, region: Option<string>)

  datatype RegistryKey = RegistryKey(model: Model, endpoint: Endpoint)

  function KeyOf(e: Entry): RegistryKey {
    RegistryKey(e.model, e.endpoint)
  }

  /** The entry at this position is of the model and the endpoint, and no later one is. */
  predicate IsLast(entries: seq<Entry>, i: nat, k: RegistryKey) {
    && i < |entries| && entries[i].model == k.model && entries[i].endpoint == k.endpoint
    && forall j :: i < j < |entries| ==> entries[j].model != k.model || entries[j].endpoint != k.endpoint
  }

  /** The last entry of the list for a model on an endpoint: what both indexes are about. */
  function LastEntry(entries: seq<Entry>, k: RegistryKey): Option<Entry> {
    if entries == [] then None
    else if KeyOf(entries[|entries| - 1]) == k then Some(entries[|entries| - 1])
    else LastEntry(entries[..|entries| - 1], k)
  }

  lemma StaysLast(entries: seq<Entry>, i: nat, k: RegistryKey)
    requires entries != [] && IsLast(entries[..|entries| - 1], i, k) && KeyOf(entries[|entries| - 1]) != k
    ensures IsLast(entries, i, k)
  {
    var n := |entries| - 1;
    assert forall j :: 0 <= j < n ==> entries[..n][j] == entries[j];
  }

  lemma {:induction false} LastEntryIsLast(entries: seq<Entry>, k: RegistryKey)
    ensures match LastEntry(entries, k)
            case Some(e) => exists i :: 0 <= i < |entries| && entries[i] == e && IsLast(entries, i, k)
            case None => forall e :: e in entries ==> e.model != k.model || e.endpoint != k.endpoint
  {
    if entries == [] {
    } else {
      var n := |entries| - 1;
      LastEntryIsLast(entries[..n], k);
      assert entries == entries[..n] + [entries[n]];
      if KeyOf(entries[n]) == k {
        assert IsLast(entries, n, k);
      } else if LastEntry(entries[..n], k).Some? {
        var shorter := entries[..n];
        var i :| 0 <= i < n && shorter[i] == LastEntry(shorter, k).value && IsLast(shorter, i, k);
        StaysLast(entries, i, k);
      }
    }
  }

  /** The index by model and endpoint holds the last entries; `order` are its keys, each once. */
  ghost predicate KeyIndexAgrees(byKey: map<RegistryKey, Entry>, order: seq<RegistryKey>, entries: seq<Entry>) {
    && (forall k :: LastEntry(entries, k) == if k in byKey then Some(byKey[k]) else None)
    && Distinct(order) && (forall k :: k in order <==> k in byKey)
  }

  /** The list of a model holds its last entry on each endpoint, each once. */
  ghost predicate ListAgrees(list: seq<Entry>, model: Model, entries: seq<Entry>) {
    && (forall i, j :: 0 <= i < j < |list| ==> list[i].endpoint != list[j].endpoint)
    && (forall i :: 0 <= i < |list| ==> LastEntry(entries, RegistryKey(model, list[i].endpoint)) == Some(list[i]))
    && (forall e :: LastEntry(entries, RegistryKey(model, e)).Some? ==>
        exists i :: 0 <= i < |list| && list[i].endpoint == e)
  }

  ghost predicate ModelIndexAgrees(byModel: map<Model, seq<Entry>>, entries: seq<Entry>) {
    forall m :: ListAgrees(if m in byModel then byModel[m] else [], m, entries)
  }

  lemma {:induction false} LastEntryHasKey(entries: seq<Entry>, k: RegistryKey)
    ensures LastEntry(entries, k).Some? ==>
              KeyOf(LastEntry(entries, k).value) == k && LastEntry(entries, k).value in entries
    ensures LastEntry(entries, k).None? ==> forall e :: e in entries ==> KeyOf(e) != k
  {
    if entries == [] {
    } else {
      LastEntryHasKey(entries[..|entries| - 1], k);
      assert entries == entries[..|entries| - 1] + [entries[|entries| - 1]];
    }
  }

  /** Overwrites the element for the endpoint of `e` in place, or appends `e`. */
  method ReplaceOrAppend(list: seq<Entry>, e: Entry, ghost entries: seq<Entry>) returns (list': seq<Entry>)
    requires ListAgrees(list, e.model, entries)
    ensures ListAgrees(list', e.model, entries + [e])
  {
    var i := 0;
    while i < |list| && list[i].endpoint != e.endpoint
      invariant 0 <= i <= |list|
      invariant forall j :: 0 <= j < i ==> list[j].endpoint != e.endpoint
    {
      i := i + 1;
    }
    assert (entries + [e])[..|entries|] == entries;
    assert forall x :: LastEntry(entries + [e], RegistryKey(e.model, x))
                    == if x == e.endpoint then Some(e) else LastEntry(entries, RegistryKey(e.model, x));
    list' := if i < |list| then list[i := e] else list + [e];
    forall x | LastEntry(entries + [e], RegistryKey(e.model, x)).Some?
      ensures exists j :: 0 <= j < |list'| && list'[j].endpoint == x
    {
      if x == e.endpoint {
        assert list'[i].endpoint == x;
      } else {
        var j :| 0 <= j < |list| && list[j].endpoint == x;
        assert list'[j].endpoint == x;
      }
    }
  }

  lemma KeyIndexGrows(byKey: map<RegistryKey, Entry>, order: seq<RegistryKey>, entries: seq<Entry>, e: Entry)
    requires KeyIndexAgrees(byKey, order, entries)
    ensures KeyIndexAgrees(byKey[KeyOf(e) := e], if KeyOf(e) in byKey then order else order + [KeyOf(e)], entries + [e])
  {
    assert (entries + [e])[..|entries|] == entries;
    assert forall k :: LastEntry(entries + [e], k) == if k == KeyOf(e) then Some(e) else LastEntry(entries, k);
  }

  lemma ModelIndexGrows(byModel: map<Model, seq<Entry>>, entries: seq<Entry>, e: Entry, list: seq<Entry>)
    requires ModelIndexAgrees(byModel, entries) && ListAgrees(list, e.model, entries + [e])
    ensures ModelIndexAgrees(byModel[e.model := list], entries + [e])
  {
    assert (entries + [e])[..|entries|] == entries;
    var byModel' := byModel[e.model := list];
    forall m ensures ListAgrees(if m in byModel' then byModel'[m] else [], m, entries + [e]) {
      if m != e.model {
        assert ListAgrees(if m in byModel then byModel[m] else [], m, entries);
        assert forall x :: LastEntry(entries + [e], RegistryKey(m, x)) == LastEntry(entries, RegistryKey(m, x));
      }
    }
  }

  class ModelRegistry {
    ghost const source: seq<Entry>
    const byKey: map<RegistryKey, Entry>
    /** The keys of `byKey` in the order of their insertion. */
    const keyOrder: seq<RegistryKey>
    const byModel: map<Model, seq<Entry>>

    ghost predicate Valid() {
      KeyIndexAgrees(byKey, keyOrder, source) && ModelIndexAgrees(byModel, source)
    }

    constructor FromList(entries: seq<Entry>)
      ensures Valid() && source == entries
    {
      var keyed: map<RegistryKey, Entry>, order: seq<RegistryKey>, listed: map<Model, seq<Entry>> := map[], [], map[];
      for i := 0 to |entries|
        invariant KeyIndexAgrees(keyed, order, entries[..i])
        invariant ModelIndexAgrees(listed, entries[..i])
      {
        var e := entries[i];
        assert entries[..i + 1] == entries[..i] + [e];
        KeyIndexGrows(keyed, order, entries[..i], e);
        assert ListAgrees(if e.model in listed then listed[e.model] else [], e.model, entries[..i]);
        var list := ReplaceOrAppend(if e.model in listed then listed[e.model] else [], e, entries[..i]);
        ModelIndexGrows(listed, entries[..i], e, list);
        order := if KeyOf(e) in keyed then order else order + [KeyOf(e)];
        keyed := keyed[KeyOf(e) := e];
        listed := listed[e.model := list];
      }
      assert entries[..|entries|] == entries;
      byKey, keyOrder, byModel := keyed, order, listed;
      source := entries;
    }

    function GetFor(model: Model, endpoint: Endpoint): (r: Option<Entry>)
      requires Valid()
      ensures r == LastEntry(source, RegistryKey(model, endpoint))
    {
      var k := RegistryKey(model, endpoint);
      if k in byKey then Some(byKey[k]) else None
    }

    function ListOf(model: Model): seq<Entry> {
      if model in byModel then byModel[model] else []
    }

    function EndpointsFor(model: Model): (r: seq<Endpoint>)
      requires Valid()
      ensures Distinct(r) && forall e :: e in r <==> LastEntry(source, RegistryKey(model, e)).Some?
    {
      var list := ListOf(model);
      assert ListAgrees(list, model, source);
      var r := seq(|list|, i requires 0 <= i < |list| => list[i].endpoint);
      assert forall i :: 0 <= i < |list| ==> r[i] == list[i].endpoint;
      r
    }

    function IndexOnRuntime(list: seq<Entry>): (i: nat)
      ensures i <= |list| && forall j :: 0 <= j < i ==> list[j].endpoint != BedrockRuntime
      ensures i < |list| ==> list[i].endpoint == BedrockRuntime
    {
      if list == [] || list[0].endpoint == BedrockRuntime then 0 else 1 + IndexOnRuntime(list[1..])
    }

    /** Prefers the runtime endpoint when the model is on both. */
    function Get(model: Model): (r: Option<Entry>)
      requires Valid()
      ensures var onRuntime := LastEntry(source, RegistryKey(model, BedrockRuntime));
              r == if onRuntime.Some? then onRuntime else LastEntry(source, RegistryKey(model, BedrockMantle))
    {
      var list := ListOf(model);
      assert ListAgrees(list, model, source);
      var i := IndexOnRuntime(list);
      LastEntryHasKey(source, RegistryKey(model, BedrockMantle));
      if list == [] then None else if i < |list| then Some(list[i]) else Some(list[0])
    }

    function EndpointFor(model: Model): (r: Option<Endpoint>)
      requires Valid()
      ensures r.Some? <==> exists e :: LastEntry(source, RegistryKey(model, e)).Some?
      ensures r.Some? ==> LastEntry(source, RegistryKey(model, r.value)).Some?
      ensures LastEntry(source, RegistryKey(model, BedrockRuntime)).Some? ==> r == Some(BedrockRuntime)
    {
      LastEntryHasKey(source, RegistryKey(model, BedrockRuntime));
      LastEntryHasKey(source, RegistryKey(model, BedrockMantle));
      var e := Get(model);
      if e.Some? then Some(e.value.endpoint) else None
    }

    predicate IsMantle(model: Model)
      requires Valid()
      ensures IsMantle(model) <==> exists e :: e in source && e.model == model && e.endpoint == BedrockMantle
    {
      LastEntryHasKey(source, RegistryKey(model, BedrockMantle));
      BedrockMantle in EndpointsFor(model)
    }

    predicate IsConverse(model: Model)
      requires Valid()
      ensures IsConverse(model) <==> exists e :: e in source && e.model == model && e.endpoint == BedrockRuntime
    {
      LastEntryHasKey(source, RegistryKey(model, BedrockRuntime));
      BedrockRuntime in EndpointsFor(model)
    }

    /** All registered entries: one for each model and endpoint of the source, the last one. */
    function List(): (r: seq<Entry>)
      requires Valid()
      ensures forall e :: e in r <==> e in source && LastEntry(source, KeyOf(e)) == Some(e)
      ensures forall i, j :: 0 <= i < j < |r| ==> KeyOf(r[i]) != KeyOf(r[j])
    {
      var r := seq(|keyOrder|, i requires 0 <= i < |keyOrder| => assert keyOrder[i] in keyOrder; byKey[keyOrder[i]]);
      ListIsLast(r);
      r
    }

    lemma ListIsLast(r: seq<Entry>)
      requires Valid() && |r| == |keyOrder|
      requires forall i :: 0 <= i < |r| ==> keyOrder[i] in byKey && r[i] == byKey[keyOrder[i]]
      ensures forall e :: e in r <==> e in source && LastEntry(source, KeyOf(e)) == Some(e)
      ensures forall i, j :: 0 <= i < j < |r| ==> KeyOf(r[i]) != KeyOf(r[j])
    {
      forall k ensures k in byKey ==> KeyOf(byKey[k]) == k && byKey[k] in source {
        LastEntryHasKey(source, k);
      }
      forall e ensures e in r <==> e in source && LastEntry(source, KeyOf(e)) == Some(e) {
        if e in r {
          var i :| 0 <= i < |r| && r[i] == e;
          assert KeyOf(e) == keyOrder[i];
        }
        if e in source && LastEntry(source, KeyOf(e)) == Some(e) {
          var i :| 0 <= i < |keyOrder| && keyOrder[i] == KeyOf(e);
          assert r[i] == e;
        }
      }
    }
  }
}
