/** A discovery run without throttles, failures or deaths finishes within a bounded number of steps. */
module StorefrontTermination {
  import opened Options
  import opened Sequences
  import opened YearlyBuckets
  import opened StorefrontDiscovery
  import opened StorefrontCoverage

  /** `(2 * width - 1) * (K + 1) - pagesDone`, with K pages below the depth limit. */
  function Potential(j: Job): int {
    (2 * j.range.Width() - 1) * (MAX_PAGES + 1) - PagesDone(j)
  }

  function PagesDone(j: Job): nat {
    j.cursor.GetOr(0) / PAGE_SIZE
  }

  lemma PagesDoneStaysWithinTheLimit(run: Run, j: Job)
    requires GoodJob(run, j)
    ensures PagesDone(j) <= MAX_PAGES
  {
  }

  function Total(jobs: seq<Job>): int {
    if jobs == [] then 0 else Total(jobs[..|jobs| - 1]) + Potential(jobs[|jobs| - 1])
  }

  /** Three points of potential per pending job, plus one while it still waits for a worker. */
  function Weight(s: State): int {
    3 * (Total(s.waiting) + Total(s.active)) + |s.waiting|
  }

  lemma {:induction false} TotalAppend(a: seq<Job>, b: seq<Job>)
    ensures Total(a + b) == Total(a) + Total(b)
  {
    if b == [] {
      assert a + b == a;
    } else {
      assert (a + b)[..|a + b| - 1] == a + b[..|b| - 1];
      TotalAppend(a, b[..|b| - 1]);
    }
  }

  lemma TotalOne(j: Job)
    ensures Total([j]) == Potential(j)
  {
    assert [j][..0] == [];
  }

  lemma TotalMiddle(a: seq<Job>, x: Job, b: seq<Job>)
    ensures Total(a + [x] + b) == Total(a + b) + Potential(x)
  {
    TotalAppend(a + [x], b);
    TotalAppend(a, [x]);
    TotalAppend(a, b);
    TotalOne(x);
  }

  lemma SplitAt<T>(s: seq<T>, i: nat)
    requires i < |s|
    ensures s == s[..i] + [s[i]] + s[i + 1..]
  {
  }

  lemma TotalRemove(s: seq<Job>, i: nat)
    requires i < |s|
    ensures Total(s) == Total(Remove(s, i)) + Potential(s[i])
  {
    SplitAt(s, i);
    TotalMiddle(s[..i], s[i], s[i + 1..]);
  }

  lemma PotentialIsPositive(run: Run, j: Job)
    requires GoodJob(run, j)
    ensures Potential(j) >= 1
  {
    PagesDoneStaysWithinTheLimit(run, j);
  }

  lemma {:induction false} TotalIsNonNegative(run: Run, jobs: seq<Job>)
    requires forall j :: j in jobs ==> GoodJob(run, j)
    ensures Total(jobs) >= |jobs|
  {
    if jobs != [] {
      TotalIsNonNegative(run, jobs[..|jobs| - 1]);
      PotentialIsPositive(run, jobs[|jobs| - 1]);
    }
  }

  function NewJobs(effects: seq<Effect>): seq<Job> {
    if effects == [] then []
    else
      var last := effects[|effects| - 1];
      NewJobs(effects[..|effects| - 1]) + (if last.Enqueue? then [last.job] else [])
  }

  lemma {:induction false} ApplyAllAppends(s: State, effects: seq<Effect>)
    ensures ApplyAll(s, effects).waiting == s.waiting + NewJobs(effects)
    ensures ApplyAll(s, effects).active == s.active
  {
    if effects != [] {
      ApplyAllAppends(s, effects[..|effects| - 1]);
    }
  }

  lemma TwoNewJobs(a: Job, b: Job)
    ensures NewJobs([Enqueue(a), Enqueue(b)]) == [a, b]
    ensures Total([a, b]) == Potential(a) + Potential(b)
  {
    assert [Enqueue(a), Enqueue(b)][..1] == [Enqueue(a)] && [Enqueue(a)][..0] == [];
    assert NewJobs([Enqueue(a)]) == [a];
    assert [a, b][..1] == [a];
    TotalOne(a);
  }

  lemma OneNewJob(products: seq<Product>, j: Job)
    ensures NewJobs([Process(products)]) == []
    ensures NewJobs([Process(products)] + [Enqueue(j)]) == [j]
  {
    assert [Process(products)][..0] == [];
    assert NewJobs([Process(products)]) == [];
    assert ([Process(products)] + [Enqueue(j)])[..1] == [Process(products)];
  }

  lemma LastAttempt(range: Range)
    ensures NewJobs([Recover(range)]) == []
  {
    assert [Recover(range)][..0] == [];
  }

  lemma SplitCosts(run: Run, j: Job)
    requires GoodJob(run, j) && CanSplitDateRange(j.range)
    ensures var (left, right) := HalveDateRange(j.range);
            var born := [Job(left, None, j.depth + 1, 0), Job(right, None, j.depth + 1, 0)];
            3 * Total(born) + 2 < 3 * Potential(j)
  {
    var (left, right) := HalveDateRange(j.range);
    TwoNewJobs(Job(left, None, j.depth + 1, 0), Job(right, None, j.depth + 1, 0));
    PagesDoneStaysWithinTheLimit(run, j);
    assert left.Width() + right.Width() == j.range.Width();
  }

  lemma PageCosts(j: Job, next: nat)
    requires next == j.cursor.GetOr(0) + PAGE_SIZE
    ensures var born := [Job(j.range, Some(next), j.depth, 0)];
            3 * Total(born) + 1 < 3 * Potential(j)
  {
    TotalOne(Job(j.range, Some(next), j.depth, 0));
    assert (j.cursor.GetOr(0) + PAGE_SIZE) / PAGE_SIZE == j.cursor.GetOr(0) / PAGE_SIZE + 1;
  }

  /** What one attempt enqueues weighs less than the job it replaces. */
  lemma AttemptCosts(run: Run, j: Job)
    requires GoodJob(run, j)
    ensures var born := NewJobs(Effects(run.catalogue, j));
            3 * Total(born) + |born| < 3 * Potential(j)
  {
    PotentialIsPositive(run, j);
    match FetchPageByCursor(run.catalogue, j.range, j.cursor) {
      case LimitError =>
        if CanSplitDateRange(j.range) {
          var (left, right) := HalveDateRange(j.range);
          TwoNewJobs(Job(left, None, j.depth + 1, 0), Job(right, None, j.depth + 1, 0));
          SplitCosts(run, j);
        } else {
          LastAttempt(j.range);
        }
      case Page(products, next) =>
        OneNewJob(products, Job(j.range, next, j.depth, 0));
        if next.None? {
          assert Effects(run.catalogue, j) == [Process(products)];
        } else {
          PageCosts(j, next.value);
        }
    }
  }

  predicate Smooth(e: Event) {
    e.Start? || e.Work?
  }

  /** Taking a job, and every page, split or recovery, strictly lowers the weight. */
  lemma SmoothStepsDescend(run: Run, s: State, e: Event)
    requires Inv(run, s) && Enabled(run, s, e) && Smooth(e)
    ensures Weight(Next(run, s, e)) < Weight(s)
  {
    match e {
      case Start(i) =>
        TotalRemove(s.waiting, i);
        TotalAppend(s.active, [s.waiting[i]]);
        TotalOne(s.waiting[i]);
      case Work(i) =>
        var j := s.active[i];
        assert InQueue(s, j);
        var rest := s.(active := Remove(s.active, i));
        ApplyAllAppends(rest, Effects(run.catalogue, j));
        TotalRemove(s.active, i);
        TotalAppend(s.waiting, NewJobs(Effects(run.catalogue, j)));
        AttemptCosts(run, j);
    }
  }

  lemma WeightIsNonNegative(run: Run, s: State)
    requires Inv(run, s)
    ensures Weight(s) >= |s.waiting| + |s.active|
  {
    forall j | j in s.waiting || j in s.active ensures GoodJob(run, j) {
      assert InQueue(s, j);
    }
    TotalIsNonNegative(run, s.waiting);
    TotalIsNonNegative(run, s.active);
  }

  lemma TraceStepDescends(run: Run, states: seq<State>, events: seq<Event>, k: nat)
    requires run.Valid() && run.min <= run.max && IsTrace(run, states, events) && k < |events| && Smooth(events[k])
    ensures Weight(states[k + 1]) < Weight(states[k])
  {
    TraceKeepsInv(run, states, events, k);
    SmoothStepsDescend(run, states[k], events[k]);
  }

  /** The k-th state of a smooth run has lost at least k points of weight. */
  lemma {:induction false} WeightPaysForSteps(run: Run, states: seq<State>, events: seq<Event>, k: nat)
    requires run.Valid() && run.min <= run.max && IsTrace(run, states, events) && k <= |events|
    requires forall i :: 0 <= i < |events| ==> Smooth(events[i])
    ensures Weight(states[k]) + k <= Weight(Planned(run))
  {
    if k > 0 {
      WeightPaysForSteps(run, states, events, k - 1);
      TraceStepDescends(run, states, events, k - 1);
    }
  }

  /** No smooth run is longer than the planned weight; one that cannot go on has covered everything. */
  lemma SmoothRunsFinish(run: Run, states: seq<State>, events: seq<Event>)
    requires run.Valid() && run.min <= run.max && IsTrace(run, states, events)
    requires forall i :: 0 <= i < |events| ==> Smooth(events[i])
    ensures |events| <= Weight(Planned(run))
    ensures (forall e :: Smooth(e) ==> !Enabled(run, states[|events|], e)) ==>
              states[|events|].waiting == [] && states[|events|].active == []
  {
    WeightPaysForSteps(run, states, events, |events|);
    TraceKeepsInv(run, states, events, |events|);
    WeightIsNonNegative(run, states[|events|]);
    var s := states[|events|];
    if forall e :: Smooth(e) ==> !Enabled(run, s, e) {
      assert !Enabled(run, s, Start(0)) && !Enabled(run, s, Work(0));
    }
  }

  lemma {:induction false} SmoothRunsNeverFail(run: Run, states: seq<State>, events: seq<Event>, k: nat)
    requires IsTrace(run, states, events) && k <= |events|
    requires forall i :: 0 <= i < |events| ==> Smooth(events[i])
    ensures states[k].failed == []
  {
    if k > 0 {
      SmoothRunsNeverFail(run, states, events, k - 1);
      var s, e := states[k - 1], events[k - 1];
      if e.Work? {
        ApplyAllAdds(s.(active := Remove(s.active, e.i)), Effects(run.catalogue, s.active[e.i]));
      }
    }
  }

  /** A smooth run that cannot go on has processed every product outside irreducibly dense milliseconds. */
  lemma StuckSmoothRunsAreComplete(run: Run, states: seq<State>, events: seq<Event>, p: Product)
    requires run.Valid() && run.min <= run.max && IsTrace(run, states, events)
    requires forall i :: 0 <= i < |events| ==> Smooth(events[i])
    requires forall e :: Smooth(e) ==> !Enabled(run, states[|events|], e)
    requires p in run.catalogue
    ensures p in states[|events|].processed || |InRange(run.catalogue, Range(p.createdAt, p.createdAt + 1))| > DEPTH_LIMIT
  {
    SmoothRunsFinish(run, states, events);
    SmoothRunsNeverFail(run, states, events, |events|);
    FinishedRunsAreComplete(run, states[|events|], p);
  }
}
