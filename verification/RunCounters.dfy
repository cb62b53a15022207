/** How far the run counters get: with every increment stored, each run's total ends as the number of its items added. */
module RunCounters {
  import opened Options
  import opened BatchAccumulator

  /** Items of a nonzero run are counted. */
  predicate Counts(x: Item) {
    x.run.Some? && x.run.value != 0
  }

  /** No increment failed. */
  ghost predicate AllStored(events: seq<Event>) {
    forall k :: 0 <= k < |events| && events[k].CountRun? ==> events[k].stored
  }

  /** A flight past its cleanup still has to count its items' runs, or has counted them. */
  ghost predicate Owes(f: Flight, counted: set<Item>) {
    f.stage.Counting? ==> forall x :: x in f.items && Counts(x) ==> x.run.value in f.stage.pending || x in counted
  }

  ghost predicate CountingOk(s: State) {
    && (forall i :: 0 <= i < |s.flights| ==> Owes(s.flights[i], s.counted))
    && (forall x :: x in s.done && Counts(x) ==> x in s.counted)
  }

  lemma RunsOfItems(items: seq<Item>)
    ensures forall run :: run in RunsOf(items) <==> run != 0 && exists x :: x in items && x.run == Some(run)
  {
    forall run | run != 0 && exists x :: x in items && x.run == Some(run) ensures run in RunsOf(items) {
      var x :| x in items && x.run == Some(run);
      var i :| 0 <= i < |items| && items[i] == x;
    }
  }

  lemma {:induction false} DrainKeepsCounting(s: State)
    requires CountingOk(s)
    ensures CountingOk(Drained(s))
    decreases |s.buffer|
  {
    if CanStart(s) {
      DrainKeepsCounting(StartFlush(s));
    }
  }

  lemma CountingStep(s: State, i: nat, run: nat)
    requires CountingOk(s) && Enabled(s, CountRun(i, run, true))
    ensures CountingOk(Next(s, CountRun(i, run, true)))
  {
    var t := Next(s, CountRun(i, run, true));
    var items := s.flights[i].items;
    forall x | x in items && x.run == Some(run) ensures x in t.counted {
      var j :| 0 <= j < |items| && items[j] == x;
    }
    forall j | 0 <= j < |t.flights| ensures Owes(t.flights[j], t.counted) {
      assert Owes(s.flights[j], s.counted);
    }
  }

  lemma CleanupStep(s: State, i: nat)
    requires CountingOk(s) && Enabled(s, CleanupSucceeds(i))
    ensures CountingOk(Next(s, CleanupSucceeds(i)))
  {
    RunsOfItems(s.flights[i].items);
  }

  lemma StepKeepsCounting(s: State, e: Event)
    requires CountingOk(s) && Enabled(s, e) && (e.CountRun? ==> e.stored)
    ensures CountingOk(Next(s, e))
  {
    match e {
      case Add(items) => DrainKeepsCounting(s.(buffer := s.buffer + items, added := s.added + AllOf(items)));
      case Tick => DrainKeepsCounting(s);
      case CleanupSucceeds(i) => CleanupStep(s, i);
      case CountRun(i, run, _) => CountingStep(s, i, run);
      case CountsDone(i) => assert Owes(s.flights[i], s.counted);
      case _ =>
    }
  }

  lemma {:induction false} CountingHolds(states: seq<State>, events: seq<Event>, k: nat)
    requires IsTrace(states, events) && AllStored(events) && k <= |events|
    ensures CountingOk(states[k])
  {
    if k > 0 {
      CountingHolds(states, events, k - 1);
      StepKeepsCounting(states[k - 1], events[k - 1]);
    }
  }

  /** Once drained with every increment stored, each run's total is the number of its items ever added, failed attempts or not. */
  lemma DrainedTotalsAreComplete(states: seq<State>, events: seq<Event>, k: nat, run: nat)
    requires IsTrace(states, events) && AllStored(events) && k <= |events| && run != 0
    requires !(|states[k].buffer| > 0 || states[k].activeFlushes > 0)
    ensures TotalOf(states[k].totals, run) == |set x | x in states[k].added && x.run == Some(run)|
  {
    var s := states[k];
    CountingHolds(states, events, k);
    EveryStateIsGood(states, events, k);
    DrainReturnsWithEverythingUpserted(states, events, k);
    forall x | x in s.added && x.run == Some(run) ensures x in s.counted {
      assert Occurs(s.done, x) == 1;
      assert x in s.done;
    }
    assert CountedFor(s.counted, run) == set x | x in s.added && x.run == Some(run);
  }
}
