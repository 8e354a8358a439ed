/** The per-request collector as it runs over the lines of delivered log objects. */
module UsageCollector {
  import opened Domain
  import opened Sequences
  import opened Sums
  import opened UsageTable
  import opened ConverseAccounting

  /**
   A line of a log object: an entry with the team its role resolves to at that moment; None is no billable
   invocation.
   */
  type Line = Option<Delivery>

  predicate Readable(line: Line) {
    line.Some? ==> Dated(line.value)
  }

  predicate AllReadable(lines: seq<Line>) {
    forall i :: 0 <= i < |lines| ==> Readable(lines[i])
  }

  /** The deliveries made of the lines: malformed lines are skipped, and an entry without a date ends the handling. */
  function Handled(lines: seq<Line>): seq<Step> {
    if lines == [] || !Readable(lines[0]) then []
    else if lines[0].None? then Handled(lines[1..])
    else [Converse(lines[0].value)] + Handled(lines[1..])
  }

  lemma ReadableSplits(a: seq<Line>, b: seq<Line>)
    ensures AllReadable(a + b) <==> AllReadable(a) && AllReadable(b)
  {
    if AllReadable(a + b) {
      assert forall i :: 0 <= i < |a| ==> (a + b)[i] == a[i];
      assert forall i :: 0 <= i < |b| ==> (a + b)[|a| + i] == b[i];
    }
  }

  lemma ReadableHead(lines: seq<Line>)
    requires lines != []
    ensures AllReadable(lines) <==> Readable(lines[0]) && AllReadable(lines[1..])
  {
    assert lines == lines[..1] + lines[1..];
    ReadableSplits(lines[..1], lines[1..]);
  }

  lemma {:induction false} HandledSplits(a: seq<Line>, b: seq<Line>)
    ensures Handled(a + b) == Handled(a) + if AllReadable(a) then Handled(b) else []
  {
    if a == [] {
      assert a + b == b;
    } else {
      assert (a + b)[1..] == a[1..] + b;
      if Readable(a[0]) {
        HandledSplits(a[1..], b);
        ReadableHead(a);
      }
    }
  }

  class UsageCollector {
    var rows: map<UsageKey, Totals>
    var processed: set<string>

    ghost function State(): Usage
      reads this
    {
      Usage(rows, processed)
    }

    constructor ()
      ensures State() == Usage(map[], {})
    {
      rows, processed := map[], {};
    }

    /** One entry; the result is false when its timestamp is no date and the handler throws. */
    method ProcessInvocationLogEntry(e: Entry, team: Team) returns (ok: bool, duplicate: bool)
      modifies this
      ensures State() == Add(old(State()), Delivery(e, team))
      ensures ok == e.day.Some?
      ensures ok ==> duplicate == (e.id in old(processed))
      ensures ok && !duplicate ==>
                var k := UsageKey(team, e.model, e.day.value);
                && Grows(old(rows), rows, k, e.input, e.output, e.cacheRead, e.cacheWrite)
                && OthersStay(old(rows), rows, k)
    {
      duplicate := e.id in processed;
      ok := e.day.Some?;
      if ok && !duplicate {
        var k := UsageKey(team, e.model, e.day.value);
        rows := rows[k := Plus(TotalsOf(rows, k), e)];
        processed := processed + {e.id};
      }
    }

    /** The lines of one object. */
    method HandleObject(lines: seq<Line>) returns (ok: bool)
      modifies this
      ensures State() == Run(old(State()), Handled(lines))
      ensures ok == AllReadable(lines)
    {
      for i := 0 to |lines|
        invariant AllReadable(lines[..i]) && State() == Run(old(State()), Handled(lines[..i]))
      {
        assert lines[..i + 1] == lines[..i] + [lines[i]];
        LineHandled(old(State()), lines[..i], lines[i]);
        if lines[i].Some? {
          var good, _ := ProcessInvocationLogEntry(lines[i].value.entry, lines[i].value.team);
          if !good {
            assert lines == lines[..i] + lines[i..];
            HandledSplits(lines[..i], lines[i..]);
            assert lines[i..][0] == lines[i] && Handled(lines[i..]) == [];
            assert Handled(lines) == Handled(lines[..i]);
            return false;
          }
        }
      }
      assert lines[..|lines|] == lines;
      ok := true;
    }

    /** All objects of one event; the first unreadable line ends the handler with an error. */
    method HandleEvent(objects: seq<seq<Line>>) returns (ok: bool)
      modifies this
      ensures State() == Run(old(State()), Handled(Flatten(objects)))
      ensures ok == AllReadable(Flatten(objects))
    {
      for i := 0 to |objects|
        invariant AllReadable(Flatten(objects[..i])) && State() == Run(old(State()), Handled(Flatten(objects[..i])))
      {
        ghost var done := Flatten(objects[..i]);
        FlattenNext(objects, i);
        HandledSplits(done, objects[i]);
        RunConcat(old(State()), Handled(done), Handled(objects[i]));
        var good := HandleObject(objects[i]);
        ReadableSplits(done, objects[i]);
        if !good {
          StopsAtUnreadable(objects, i + 1);
          return false;
        }
      }
      FlattenAll(objects);
      ok := true;
    }
  }

  lemma HandledOfOne(line: Line)
    ensures Handled([line]) == if line.Some? && Readable(line) then [Converse(line.value)] else []
  {
    assert [line][1..] == [] && Handled([]) == [];
  }

  lemma RunOfOne(u: Usage, step: Step)
    ensures Run(u, [step]) == Apply(u, step)
  {
    assert [step][..0] == [] && Run(u, []) == u;
  }

  /** What one more line does. */
  lemma LineHandled(u: Usage, done: seq<Line>, line: Line)
    requires AllReadable(done)
    ensures Readable(line) ==> AllReadable(done + [line])
    ensures Run(u, Handled(done + [line])) ==
            if line.Some? then Add(Run(u, Handled(done)), line.value) else Run(u, Handled(done))
  {
    var reached := Run(u, Handled(done));
    HandledSplits(done, [line]);
    HandledOfOne(line);
    RunConcat(u, Handled(done), Handled([line]));
    if line.Some? && Readable(line) {
      RunOfOne(reached, Converse(line.value));
    } else {
      assert Run(reached, []) == reached;
    }
  }

  /** Objects after an unreadable line change nothing. */
  lemma {:induction false} StopsAtUnreadable(objects: seq<seq<Line>>, i: nat)
    requires i <= |objects| && !AllReadable(Flatten(objects[..i]))
    ensures Handled(Flatten(objects)) == Handled(Flatten(objects[..i])) && !AllReadable(Flatten(objects))
    decreases |objects|
  {
    var n := |objects| - 1;
    if i == |objects| {
      assert objects[..i] == objects;
    } else {
      assert objects[..n][..i] == objects[..i];
      StopsAtUnreadable(objects[..n], i);
      HandledSplits(Flatten(objects[..n]), objects[n]);
      var j :| 0 <= j < |Flatten(objects[..n])| && !Readable(Flatten(objects[..n])[j]);
      assert !Readable(Flatten(objects)[j]);
    }
  }

  /** An entry without a date in one object, and a good one in the next: the event adds nothing, and never will. */
  lemma UndatedEntryHidesTheRest(bad: Delivery, good: Delivery)
    requires !Dated(bad) && Dated(good)
    ensures var objects := [[Some(bad)], [Some(good)]];
            var none := Usage(map[], {});
      && Run(none, Handled(Flatten(objects))) == none && !AllReadable(Flatten(objects))
      && good.entry.id in Run(none, Handled(objects[1])).processed
  {
    var objects: seq<seq<Line>> := [[Some(bad)], [Some(good)]];
    FlattenNext(objects, 0);
    assert objects[..1] == [[Some(bad)]] && objects[..0] == [];
    assert Flatten(objects[..1]) == [] + [Some(bad)];
    assert !AllReadable(Flatten(objects[..1])) by { assert !Readable(Flatten(objects[..1])[0]); }
    StopsAtUnreadable(objects, 1);
    assert Handled(Flatten(objects[..1])) == [];
    assert AllReadable([]) && Handled([]) == [];
    LineHandled(Usage(map[], {}), [], Some(good));
    assert [] + [Some(good)] == objects[1];
  }

  // ---------- whole-object re-runs ----------

  /** An attempt at an object: the teams its lines resolve to this time, and the line after which it dies. */
  datatype Attempt = Attempt(lines: seq<Line>, stop: nat)

  function FirstLines(lines: seq<Line>, stop: nat): seq<Line> {
    if stop <= |lines| then lines[..stop] else lines
  }

  function AfterAttempts(u: Usage, attempts: seq<Attempt>): Usage {
    if attempts == [] then u
    else
      var last := attempts[|attempts| - 1];
      Run(AfterAttempts(u, attempts[..|attempts| - 1]), Handled(FirstLines(last.lines, last.stop)))
  }

  function AttemptSteps(attempts: seq<Attempt>): seq<Step> {
    if attempts == [] then []
    else
      var last := attempts[|attempts| - 1];
      AttemptSteps(attempts[..|attempts| - 1]) + Handled(FirstLines(last.lines, last.stop))
  }

  lemma HandledPrefix(lines: seq<Line>, stop: nat)
    ensures forall s :: s in Handled(FirstLines(lines, stop)) ==> s in Handled(lines)
  {
    if stop <= |lines| {
      assert lines == lines[..stop] + lines[stop..];
      HandledSplits(lines[..stop], lines[stop..]);
    }
  }

  lemma {:induction false} AttemptsAreSteps(u: Usage, attempts: seq<Attempt>)
    ensures AfterAttempts(u, attempts) == Run(u, AttemptSteps(attempts))
  {
    if attempts == [] {
    } else {
      var n := |attempts| - 1;
      AttemptsAreSteps(u, attempts[..n]);
      RunConcat(u, AttemptSteps(attempts[..n]), Handled(FirstLines(attempts[n].lines, attempts[n].stop)));
    }
  }

  lemma {:induction false} StepHasAttempt(attempts: seq<Attempt>, s: Step)
    requires s in AttemptSteps(attempts)
    ensures exists a :: a in attempts && s in Handled(a.lines)
  {
    var n := |attempts| - 1;
    if s in AttemptSteps(attempts[..n]) {
      StepHasAttempt(attempts[..n], s);
      var a :| a in attempts[..n] && s in Handled(a.lines);
      assert a in attempts;
    } else {
      HandledPrefix(attempts[n].lines, attempts[n].stop);
      assert attempts[n] in attempts;
    }
  }

  lemma {:induction false} HandledAreEntries(lines: seq<Line>)
    ensures forall s :: s in Handled(lines) ==> s.Converse? && Dated(s.d) && Some(s.d) in lines
  {
    if lines == [] {
    } else {
      HandledAreEntries(lines[1..]);
    }
  }

  /** The attempt reads the same entries, line by line; only the teams may differ. */
  ghost predicate SameEntries(lines: seq<Line>, others: seq<Line>) {
    && |lines| == |others|
    && forall i :: 0 <= i < |lines| ==>
         (lines[i].Some? <==> others[i].Some?) && (lines[i].Some? ==> lines[i].value.entry == others[i].value.entry)
  }

  /** Lines that carry the same request carry the same entry. */
  ghost predicate OneEntryPerRequest(lines: seq<Line>) {
    forall a: Delivery, b: Delivery :: Some(a) in lines && Some(b) in lines && a.entry.id == b.entry.id ==>
        a.entry == b.entry
  }

  lemma {:induction false} HandledEntryByEntry(lines: seq<Line>, others: seq<Line>)
    requires SameEntries(lines, others)
    ensures |Handled(lines)| == |Handled(others)|
    ensures forall i :: 0 <= i < |Handled(lines)| ==>
              Handled(lines)[i].Converse? && Handled(others)[i].Converse? &&
                  Handled(lines)[i].d.entry == Handled(others)[i].d.entry
  {
    if lines == [] {
    } else {
      assert SameEntries(lines[1..], others[1..]);
      HandledEntryByEntry(lines[1..], others[1..]);
    }
  }

  /** Every step of an attempt has a step of the complete run with the same entry. */
  lemma AttemptsBringNothingNew(attempts: seq<Attempt>, lines: seq<Line>, s: Step)
    requires forall a :: a in attempts ==> SameEntries(a.lines, lines)
    requires s in AttemptSteps(attempts)
    ensures s.Converse? && exists w :: w in Handled(lines) && w.Converse? && w.d.entry == s.d.entry
  {
    StepHasAttempt(attempts, s);
    var a :| a in attempts && s in Handled(a.lines);
    HandledEntryByEntry(a.lines, lines);
    var i :| 0 <= i < |Handled(a.lines)| && Handled(a.lines)[i] == s;
    assert Handled(lines)[i] in Handled(lines);
  }

  /** Every step has one with the same entry among the others. */
  ghost predicate Echo(steps: seq<Step>, others: seq<Step>) {
    forall s :: s in steps ==> s.Converse? && exists w :: w in others && w.Converse? && w.d.entry == s.d.entry
  }

  lemma EchoesAgree(steps: seq<Step>, whole: seq<Step>)
    requires Echo(steps, whole) && SameContent(whole)
    ensures SameContent(steps)
  {
    forall a, b | Converse(a) in steps && Converse(b) in steps && a.entry.id == b.entry.id ensures a.entry == b.entry {
      var v :| v in whole && v.Converse? && v.d.entry == Converse(a).d.entry;
      var w :| w in whole && w.Converse? && w.d.entry == Converse(b).d.entry;
      assert v == Converse(v.d) && w == Converse(w.d);
    }
  }

  lemma EchoesBringNothing(steps: seq<Step>, whole: seq<Step>, seen: set<string>)
    requires Echo(steps, whole)
    ensures NewEntries(steps, seen) <= NewEntries(whole, seen)
  {
    forall e | e in NewEntries(steps, seen) ensures e in NewEntries(whole, seen) {
      var s :| s in steps && s.Converse? && Dated(s.d) && s.d.entry.id !in seen && s.d.entry == e;
      var w :| w in whole && w.Converse? && w.d.entry == s.d.entry;
      assert w.d.entry == e;
    }
  }

  lemma HandledAgree(lines: seq<Line>)
    requires OneEntryPerRequest(lines)
    ensures SameContent(Handled(lines))
  {
    HandledAreEntries(lines);
    forall a, b | Converse(a) in Handled(lines) && Converse(b) in Handled(lines) && a.entry.id == b.entry.id
      ensures a.entry == b.entry
    {
      assert Some(Converse(a).d) in lines && Some(Converse(b).d) in lines;
    }
  }

  lemma AttemptsEcho(attempts: seq<Attempt>, lines: seq<Line>)
    requires forall a :: a in attempts ==> SameEntries(a.lines, lines)
    ensures Echo(AttemptSteps(attempts) + Handled(lines), Handled(lines))
  {
    HandledAreEntries(lines);
    forall s | s in AttemptSteps(attempts) + Handled(lines)
      ensures s.Converse? && exists w :: w in Handled(lines) && w.Converse? && w.d.entry == s.d.entry
    {
      if s in AttemptSteps(attempts) {
        AttemptsBringNothingNew(attempts, lines, s);
      }
    }
  }

  /** Steps that hold all of `whole` and nothing but echoes of it end in its grand total. */
  lemma EchoesConserveTotals(u: Usage, before: seq<Step>, whole: seq<Step>)
    requires Echo(before + whole, whole) && SameContent(whole)
    ensures GrandTotal(Run(u, before + whole).rows) == GrandTotal(Run(u, whole).rows)
  {
    var all := before + whole;
    forall s | s in whole ensures s in all { }
    assert Echo(whole, whole);
    EchoesAgree(all, whole);
    EchoesBringNothing(all, whole, u.processed);
    assert NewEntries(all, u.processed) == NewEntries(whole, u.processed);
    EchoTotal(u, all, whole);
    EchoTotal(u, whole, whole);
  }

  lemma EchoTotal(u: Usage, steps: seq<Step>, whole: seq<Step>)
    requires Echo(steps, whole) && SameContent(steps)
    ensures GrandTotal(Run(u, steps).rows) == GrandTotal(u.rows) +
              SumOver(NewEntries(steps, u.processed), TokensOfEntry())
  {
    forall i | 0 <= i < |steps| ensures steps[i].Converse? {
      assert steps[i] in steps;
    }
    TotalOfRequests(u, steps);
  }

  /**
   Attempts that die after any number of lines, each followed by a re-run from the first line, and roles resolved anew
   each time: the grand total is that of one complete run.
   */
  lemma RerunsConserveTotals(u: Usage, attempts: seq<Attempt>, lines: seq<Line>)
    requires OneEntryPerRequest(lines) && forall a :: a in attempts ==> SameEntries(a.lines, lines)
    ensures GrandTotal(Run(AfterAttempts(u, attempts), Handled(lines)).rows) == GrandTotal(Run(u, Handled(lines)).rows)
  {
    AttemptsAreSteps(u, attempts);
    RunConcat(u, AttemptSteps(attempts), Handled(lines));
    AttemptsEcho(attempts, lines);
    HandledAgree(lines);
    EchoesConserveTotals(u, AttemptSteps(attempts), Handled(lines));
  }

  lemma AgreeingSteps(steps: seq<Step>, lines: seq<Line>)
    requires forall a: Delivery, b: Delivery :: Some(a) in lines && Some(b) in lines && a.entry.id == b.entry.id ==>
               a == b
    requires forall s :: s in steps ==> s.Converse? && Some(s.d) in lines
    ensures AgreeingDeliveries(steps)
  {
    forall i | 0 <= i < |steps| ensures steps[i].Converse? {
      assert steps[i] in steps;
    }
    forall a, b | Converse(a) in steps && Converse(b) in steps && a.entry.id == b.entry.id ensures a == b {
      assert Some(Converse(a).d) in lines && Some(Converse(b).d) in lines;
    }
  }

  /**
   If moreover the deliveries of one request agree in their team, in all attempts, the table is that of one
   complete run.
   */
  lemma RerunsCountOnce(u: Usage, attempts: seq<Attempt>, lines: seq<Line>)
    requires forall a: Delivery, b: Delivery :: Some(a) in lines && Some(b) in lines && a.entry.id == b.entry.id ==>
               a == b
    requires forall a :: a in attempts ==> a.lines == lines
    ensures Run(AfterAttempts(u, attempts), Handled(lines)) == Run(u, Handled(lines))
  {
    var before, whole := AttemptSteps(attempts), Handled(lines);
    AttemptsAreSteps(u, attempts);
    RunConcat(u, before, whole);
    HandledAreEntries(lines);
    forall s ensures s in before + whole <==> s in whole {
      if s in before {
        StepHasAttempt(attempts, s);
        var a :| a in attempts && s in Handled(a.lines);
        assert a.lines == lines;
      }
    }
    AgreeingSteps(before + whole, lines);
    AgreeingSteps(whole, lines);
    OnlyTheSetMatters(u, before + whole, whole);
  }
}
