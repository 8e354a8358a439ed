/** The audit log's keys: a range over sort keys, read page by page, is exactly a range of days. */
module AuditLog {
  import opened Domain
  import opened Sequences

  // ---------- the order of strings ----------

  /** The order of sort keys: by the first character in which they differ, a prefix first. */
  predicate LessEq(a: string, b: string) {
    if a == "" then true
    else if b == "" then false
    else if a[0] != b[0] then a[0] < b[0]
    else LessEq(a[1..], b[1..])
  }

  lemma {:induction false} SamePrefix(p: string, a: string, b: string)
    ensures LessEq(p + a, p + b) <==> LessEq(a, b)
  {
    if p == "" {
      assert p + a == a && p + b == b;
    } else {
      assert (p + a)[1..] == p[1..] + a && (p + b)[1..] == p[1..] + b;
      SamePrefix(p[1..], a, b);
    }
  }

  /** Heads of one length decide, unless they are equal. */
  lemma {:induction false} HeadsDecide(a: string, x: string, b: string, y: string)
    requires |a| == |b|
    ensures LessEq(a + x, b + y) <==> if a == b then LessEq(x, y) else LessEq(a, b)
  {
    if a == "" {
      assert a + x == x && b + y == y;
    } else {
      assert (a + x)[1..] == a[1..] + x && (b + y)[1..] == b[1..] + y;
      HeadsDecide(a[1..], x, b[1..], y);
      assert a == [a[0]] + a[1..] && b == [b[0]] + b[1..];
    }
  }

  // ---------- days ----------

  datatype Date = Date(year: nat, month: nat, day: nat) {
    predicate Valid() {
      year <= 9999 && 1 <= month <= 12 && 1 <= day <= 31
    }

    /** Not later than. */
    predicate NotAfter(other: Date) {
      year < other.year || (year == other.year && (month < other.month || (month == other.month && day <= other.day)))
    }
  }

  /** `n` in decimal, padded with zeros to `width` characters. */
  function Padded(n: nat, width: nat): (s: string)
    ensures |s| == width
  {
    if width == 0 then "" else Padded(n / 10, width - 1) + [DigitChar(n % 10)]
  }

  function Power(width: nat): (p: nat)
    ensures p > 0
  {
    if width == 0 then 1 else 10 * Power(width - 1)
  }

  lemma {:induction false} PaddedIsInjective(a: nat, b: nat, width: nat)
    requires a < Power(width) && b < Power(width) && Padded(a, width) == Padded(b, width)
    ensures a == b
  {
    if width == 0 {
    } else {
      var s, t := Padded(a, width), Padded(b, width);
      assert s[width - 1] == t[width - 1];
      assert Padded(a / 10, width - 1) == s[..width - 1] == t[..width - 1] == Padded(b / 10, width - 1);
      PaddedIsInjective(a / 10, b / 10, width - 1);
    }
  }

  /** The order of padded numbers is that of the numbers. */
  lemma {:induction false} PaddedKeepsOrder(a: nat, b: nat, width: nat)
    requires a < Power(width) && b < Power(width)
    ensures LessEq(Padded(a, width), Padded(b, width)) <==> a <= b
  {
    if width == 0 {
    } else {
      PaddedKeepsOrder(a / 10, b / 10, width - 1);
      HeadsDecide(Padded(a / 10, width - 1), [DigitChar(a % 10)], Padded(b / 10, width - 1), [DigitChar(b % 10)]);
      if Padded(a / 10, width - 1) == Padded(b / 10, width - 1) {
        PaddedIsInjective(a / 10, b / 10, width - 1);
      }
    }
  }

  /** `YYYY-MM-DD`. */
  function DayString(d: Date): (s: string)
    ensures |s| == 10
  {
    Padded(d.year, 4) + ("-" + (Padded(d.month, 2) + ("-" + Padded(d.day, 2))))
  }

  lemma Powers()
    ensures Power(2) == 100 && Power(4) == 10000
  {
    assert Power(1) == 10;
    assert Power(3) == 1000;
  }

  /** Days compare as their strings do. */
  lemma DaysKeepOrder(a: Date, b: Date)
    requires a.Valid() && b.Valid()
    ensures LessEq(DayString(a), DayString(b)) <==> a.NotAfter(b)
  {
    Powers();
    var md, md' := Padded(a.month, 2) + ("-" + Padded(a.day, 2)), Padded(b.month, 2) + ("-" + Padded(b.day, 2));
    PaddedKeepsOrder(a.year, b.year, 4);
    HeadsDecide(Padded(a.year, 4), "-" + md, Padded(b.year, 4), "-" + md');
    if Padded(a.year, 4) == Padded(b.year, 4) {
      PaddedIsInjective(a.year, b.year, 4);
    }
    SamePrefix("-", md, md');
    PaddedKeepsOrder(a.month, b.month, 2);
    HeadsDecide(Padded(a.month, 2), "-" + Padded(a.day, 2), Padded(b.month, 2), "-" + Padded(b.day, 2));
    if Padded(a.month, 2) == Padded(b.month, 2) {
      PaddedIsInjective(a.month, b.month, 2);
    }
    SamePrefix("-", Padded(a.day, 2), Padded(b.day, 2));
    PaddedKeepsOrder(a.day, b.day, 2);
  }

  // ---------- keys and the range ----------

  /** An instant: its day and, behind the `T`, its time of day. */
  datatype Stamp = Stamp(date: Date, time: string)

  function Timestamp(at: Stamp): string {
    DayString(at.date) + ("T" + at.time)
  }

  function PartitionKey(team: string): string {
    "TEAM#" + team
  }

  /** Different teams have different partitions. */
  lemma PartitionsDiffer(a: string, b: string)
    requires PartitionKey(a) == PartitionKey(b)
    ensures a == b
  {
    assert a == PartitionKey(a)[5..] && b == PartitionKey(b)[5..];
  }

  function SortKey(timestamp: string, id: string): string {
    "TS#" + (timestamp + ("#" + id))
  }

  const LAST: string := "\U{FFFF}"

  function LowerBound(start: string): string {
    "TS#" + start
  }

  function UpperBound(end: string): string {
    "TS#" + (end + LAST)
  }

  predicate Between(sk: string, lower: string, upper: string) {
    LessEq(lower, sk) && LessEq(sk, upper)
  }

  predicate Within(d: Date, start: Date, end: Date) {
    start.NotAfter(d) && d.NotAfter(end)
  }

  /** The string is at most `end`, or goes on from it with a character below the last one. */
  predicate UptoEnd(s: string, end: string) {
    LessEq(s, end) || s == end + LAST || (|end| < |s| && s[..|end|] == end && s[|end|] < LAST[0])
  }

  /** What the suffix of the upper bound lets in, for any bound: whatever begins with it. */
  lemma {:induction false} SuffixIncludes(s: string, end: string)
    ensures LessEq(s, end + LAST) <==> UptoEnd(s, end)
  {
    if end == "" {
      assert end + LAST == LAST;
      if s != "" {
        assert LAST[1..] == "";
        assert s[0] == LAST[0] && s[1..] == "" <==> s == LAST;
        assert s[..0] == "";
      }
    } else if s != "" {
      assert (end + LAST)[1..] == end[1..] + LAST;
      SuffixIncludes(s[1..], end[1..]);
      if s[0] == end[0] {
        SameHead(s, end);
      }
    }
  }

  lemma SameHead(s: string, end: string)
    requires s != "" && end != "" && s[0] == end[0]
    ensures UptoEnd(s, end) <==> UptoEnd(s[1..], end[1..])
  {
    assert s == [s[0]] + s[1..] && end == [end[0]] + end[1..];
    assert end + LAST == [end[0]] + (end[1..] + LAST);
    if |end| < |s| {
      assert s[..|end|] == [s[0]] + s[1..][..|end| - 1];
      assert s[|end|] == s[1..][|end| - 1];
    }
  }

  /**
   For any bounds whatever, a key is in the range if and only if its timestamp and id are between them in this
   sense.
   */
  lemma RangeIsBetween(timestamp: string, id: string, start: string, end: string)
    ensures Between(SortKey(timestamp, id), LowerBound(start), UpperBound(end)) <==>
            LessEq(start, timestamp + ("#" + id)) && UptoEnd(timestamp + ("#" + id), end)
  {
    SamePrefix("TS#", start, timestamp + ("#" + id));
    SamePrefix("TS#", timestamp + ("#" + id), end + LAST);
    SuffixIncludes(timestamp + ("#" + id), end);
  }

  /**
   A key is in the range of two dates exactly when its day is, whatever the time of day and the id; the last day
   is included.
   */
  lemma RangeIsDays(at: Stamp, id: string, start: Date, end: Date)
    requires at.date.Valid() && start.Valid() && end.Valid()
    ensures Between(SortKey(Timestamp(at), id), LowerBound(DayString(start)), UpperBound(DayString(end))) <==>
              Within(at.date, start, end)
  {
    var day, rest := DayString(at.date), "T" + at.time + ("#" + id);
    assert Timestamp(at) + ("#" + id) == day + rest;
    SamePrefix("TS#", DayString(start), day + rest);
    SamePrefix("TS#", day + rest, DayString(end) + LAST);
    assert DayString(start) == DayString(start) + "";
    HeadsDecide(DayString(start), "", day, rest);
    HeadsDecide(day, rest, DayString(end), LAST);
    assert LessEq(rest, LAST) by { assert rest[0] == 'T'; }
    DaysKeepOrder(start, at.date);
    DaysKeepOrder(at.date, end);
    if DayString(start) == day { SelfNotAfter(start, at.date); }
    if DayString(end) == day { SelfNotAfter(at.date, end); }
  }

  lemma {:induction false} Reflexive(s: string)
    ensures LessEq(s, s)
  {
    if s == "" {
    } else {
      Reflexive(s[1..]);
    }
  }

  lemma SelfNotAfter(a: Date, b: Date)
    requires a.Valid() && b.Valid() && DayString(a) == DayString(b)
    ensures a.NotAfter(b)
  {
    Reflexive(DayString(a));
    DaysKeepOrder(a, b);
  }

  /** Without the suffix, the range would lose its whole last day. */
  lemma BareBoundLosesLastDay(at: Stamp, id: string)
    ensures !LessEq(SortKey(Timestamp(at), id), "TS#" + DayString(at.date))
  {
    var day, rest := DayString(at.date), "T" + at.time + ("#" + id);
    assert Timestamp(at) + ("#" + id) == day + rest;
    SamePrefix("TS#", day + rest, day);
    assert day == day + "";
    HeadsDecide(day, rest, day, "");
  }

  // ---------- the table ----------

  datatype Item = Item(model: Model, role: Role, action: Action, total: int, quota: Option<int>, timestamp: string)

  datatype Entry = Entry(team: string, item: Item)

  datatype Key = Key(pk: string, sk: string)

  datatype Origin = Origin(team: string, id: string, at: Stamp)

  /** The partition is the team's; the sort key is the timestamp, on a valid day, and the id. */
  predicate IsKeyOf(k: Key, item: Item, o: Origin) {
    && k.pk == PartitionKey(o.team) && k.sk == SortKey(item.timestamp, o.id)
    && o.at.date.Valid() && item.timestamp == Timestamp(o.at)
  }

  class AuditTable {
    var items: map<Key, Item>
    /** What each entry was written with. */
    ghost var origins: map<Key, Origin>

    ghost predicate Valid()
      reads this
    {
      origins.Keys == items.Keys && forall k :: k in items ==> IsKeyOf(k, items[k], origins[k])
    }

    constructor ()
      ensures Valid() && items == map[]
    {
      items, origins := map[], map[];
    }

    method WriteAuditEntry(team: string, item: Item, id: string, ghost at: Stamp)
      requires Valid() && at.date.Valid() && item.timestamp == Timestamp(at)
      modifies this
      ensures Valid()
      ensures items == old(items)[Key(PartitionKey(team), SortKey(item.timestamp, id)) := item]
      ensures origins == old(origins)[Key(PartitionKey(team), SortKey(item.timestamp, id)) := Origin(team, id, at)]
    {
      var key := Key(PartitionKey(team), SortKey(item.timestamp, id));
      items := items[key := item];
      origins := origins[key := Origin(team, id, at)];
    }

    /** The pages of a query answer it: together they list each key of the partition and the range once. */
    ghost predicate Answers(pages: seq<seq<Key>>, pk: string, lower: string, upper: string)
      reads this
    {
      && Distinct(Flatten(pages))
      && (forall k :: k in Flatten(pages) <==> k in items && k.pk == pk && Between(k.sk, lower, upper))
    }

    /** The entries are those of the keys, in their order. */
    ghost predicate Copied(entries: seq<Entry>, listed: seq<Key>, team: string)
      reads this
    {
      |entries| == |listed| && forall i :: 0 <= i < |entries| ==>
          listed[i] in items && entries[i] == Entry(team, items[listed[i]])
    }

    /** The inner loop over the items of a page. */
    method CopyPage(before: seq<Entry>, ghost listed: seq<Key>, page: seq<Key>, team: string)
      returns (entries: seq<Entry>)
      requires Copied(before, listed, team) && forall k :: k in page ==> k in items
      ensures Copied(entries, listed + page, team)
    {
      entries := before;
      for i := 0 to |page|
        invariant Copied(entries, listed + page[..i], team)
      {
        entries := entries + [Entry(team, items[page[i]])];
      }
      assert page[..|page|] == page;
    }

    /** Follows the pages until there is no further key to start from. */
    method CopyPages(pages: seq<seq<Key>>, team: string) returns (entries: seq<Entry>)
      requires forall k :: k in Flatten(pages) ==> k in items
      ensures Copied(entries, Flatten(pages), team)
    {
      entries := [];
      for p := 0 to |pages|
        invariant Copied(entries, Flatten(pages[..p]), team)
      {
        PageIsFlattened(pages, p);
        FlattenNext(pages, p);
        entries := CopyPage(entries, Flatten(pages[..p]), pages[p], team);
      }
      FlattenAll(pages);
    }

    /** The entry lies between the bounds, whatever strings they are. */
    predicate InBounds(item: Item, id: string, start: string, end: string) {
      LessEq(start, item.timestamp + ("#" + id)) && UptoEnd(item.timestamp + ("#" + id), end)
    }

    /** All entries of the team between the bounds, whatever the pages; `Flatten(pages)` are their keys. */
    method ListAuditEntries(team: string, start: string, end: string, pages: seq<seq<Key>>)
      returns (entries: seq<Entry>)
      requires Valid() && Answers(pages, PartitionKey(team), LowerBound(start), UpperBound(end))
      ensures Copied(entries, Flatten(pages), team) && Distinct(Flatten(pages))
      ensures forall k :: k in Flatten(pages) <==>
                k in items && origins[k].team == team && InBounds(items[k], origins[k].id, start, end)
      ensures forall s: Date, e: Date :: s.Valid() && e.Valid() && start == DayString(s) && end == DayString(e) ==>
                forall k :: k in Flatten(pages) <==>
                    k in items && origins[k].team == team && Within(origins[k].at.date, s, e)
    {
      entries := CopyPages(pages, team);
      forall k | k in items ensures k.pk == PartitionKey(team) <==> origins[k].team == team {
        if k.pk == PartitionKey(team) {
          PartitionsDiffer(origins[k].team, team);
        }
      }
      forall k | k in items
        ensures Between(k.sk, LowerBound(start), UpperBound(end)) <==> InBounds(items[k], origins[k].id, start, end)
      {
        RangeIsBetween(items[k].timestamp, origins[k].id, start, end);
      }
      forall s: Date, e: Date | s.Valid() && e.Valid() && start == DayString(s) && end == DayString(e)
        ensures forall k :: k in Flatten(pages) <==>
                  k in items && origins[k].team == team && Within(origins[k].at.date, s, e)
      {
        KeysInRange(s, e);
      }
    }

    lemma KeysInRange(start: Date, end: Date)
      requires Valid() && start.Valid() && end.Valid()
      ensures forall k :: k in items ==>
                (Between(k.sk, LowerBound(DayString(start)), UpperBound(DayString(end))) <==>
                    Within(origins[k].at.date, start, end))
    {
      forall k | k in items
        ensures Between(k.sk, LowerBound(DayString(start)), UpperBound(DayString(end))) <==>
                  Within(origins[k].at.date, start, end)
      {
        RangeIsDays(origins[k].at, origins[k].id, start, end);
      }
    }
  }
}
