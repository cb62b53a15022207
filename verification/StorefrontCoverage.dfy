/**
 * Safety over whole discovery runs: nothing in the planned range is ever lost, whatever
 * the order of pages, splits, throttles, retries, deaths, failures and sweeps.
 */
module StorefrontCoverage {
  import opened Numbers
  import opened Options
  import opened Sequences
  import opened YearlyBuckets
  import opened StorefrontDiscovery

  /** The job is waiting, active or failed. */
  ghost predicate InQueue(s: State, j: Job) {
    j in s.waiting || j in s.active || exists f :: f in s.failed && f.job == j
  }

  /** The product lies in the job's range, at or past its cursor. */
  ghost predicate Holds(run: Run, j: Job, p: Product) {
    var all := InRange(run.catalogue, j.range);
    j.cursor.GetOr(0) <= |all| && p in all[j.cursor.GetOr(0)..]
  }

  ghost predicate Covered(run: Run, s: State, p: Product) {
    || p in s.processed
    || (exists j :: InQueue(s, j) && Holds(run, j, p))
    || (exists r :: r in s.recoveries && r.Contains(p.createdAt))
  }

  ghost predicate GoodCursor(run: Run, j: Job) {
    j.cursor.Some? ==>
      0 < j.cursor.value < |InRange(run.catalogue, j.range)| && j.cursor.value % PAGE_SIZE == 0 && j.cursor.value <= DEPTH_LIMIT
  }

  ghost predicate GoodDepth(run: Run, j: Job) {
    !CrossesTwoDigitYear(run.min, run.max) ==> WithinHalvings(j.range.Width(), MAX_BUCKET_MS, j.depth) && j.depth <= 35
  }

  ghost predicate GoodJob(run: Run, j: Job) {
    j.range.start < j.range.end && GoodCursor(run, j) && GoodDepth(run, j) && j.sweeps <= SWEEPER_MAX_ATTEMPTS
  }

  /** A recovery range cannot be split further and holds more products than pagination can reach. */
  ghost predicate Irreducible(run: Run, r: Range) {
    r.Width() == 1 && |InRange(run.catalogue, r)| > DEPTH_LIMIT
  }

  ghost predicate Inv(run: Run, s: State) {
    && (forall p :: p in run.catalogue ==> Covered(run, s, p))
    && (forall j :: InQueue(s, j) ==> GoodJob(run, j))
    && (forall r :: r in s.recoveries ==> Irreducible(run, r))
    && (forall p :: p in s.processed ==> p in run.catalogue)
  }

  // ----- What one attempt hands over -----

  ghost predicate GoodEffect(run: Run, e: Effect) {
    match e
    case Process(products) => forall p :: p in products ==> p in run.catalogue
    case Enqueue(j) => GoodJob(run, j)
    case Recover(r) => Irreducible(run, r)
  }

  ghost predicate EffectCovers(run: Run, e: Effect, p: Product) {
    match e
    case Process(products) => p in products
    case Enqueue(j) => Holds(run, j, p)
    case Recover(r) => r.Contains(p.createdAt)
  }

  /** A good job only reaches the depth limit past 25000 products. */
  lemma LimitMeansDense(run: Run, j: Job)
    requires GoodJob(run, j) && FetchPageByCursor(run.catalogue, j.range, j.cursor).LimitError?
    ensures j.cursor == Some(DEPTH_LIMIT) && |InRange(run.catalogue, j.range)| > DEPTH_LIMIT
  {
  }

  lemma ChildrenAreGood(run: Run, j: Job)
    requires GoodJob(run, j) && CanSplitDateRange(j.range)
    ensures var (left, right) := HalveDateRange(j.range);
            GoodJob(run, Job(left, None, j.depth + 1, 0)) && GoodJob(run, Job(right, None, j.depth + 1, 0))
  {
    if !CrossesTwoDigitYear(run.min, run.max) {
      HalvingKeepsTheBound(j.range, MAX_BUCKET_MS, j.depth);
      SplitDepth(j.range.Width(), j.depth);
    }
  }

  lemma AttemptEffectsAreGood(run: Run, j: Job)
    requires GoodJob(run, j)
    ensures forall e :: e in Effects(run.catalogue, j) ==> GoodEffect(run, e)
  {
    var page := FetchPageByCursor(run.catalogue, j.range, j.cursor);
    var all := InRange(run.catalogue, j.range);
    match page {
      case LimitError =>
        LimitMeansDense(run, j);
        if CanSplitDateRange(j.range) {
          ChildrenAreGood(run, j);
        }
      case Page(products, next) =>
        var from := j.cursor.GetOr(0);
        forall p | p in products ensures p in run.catalogue {
          assert p in all;
        }
        if next.Some? {
          assert next.value == from + PAGE_SIZE;
          assert (from + PAGE_SIZE) % PAGE_SIZE == 0;
        }
    }
  }

  /** Whatever a job holds, one of its effects takes over. */
  lemma AttemptHandsOver(run: Run, j: Job, p: Product) returns (e: Effect)
    requires GoodJob(run, j) && Holds(run, j, p)
    ensures e in Effects(run.catalogue, j) && EffectCovers(run, e, p)
  {
    var all, from := InRange(run.catalogue, j.range), j.cursor.GetOr(0);
    assert p in all;
    var effects := Effects(run.catalogue, j);
    match FetchPageByCursor(run.catalogue, j.range, j.cursor) {
      case LimitError =>
        if !CanSplitDateRange(j.range) {
          e := effects[0];
        } else {
          var (left, right) := HalveDateRange(j.range);
          e := if left.Contains(p.createdAt) then effects[0] else effects[1];
          var half := if left.Contains(p.createdAt) then left else right;
          assert InRange(run.catalogue, half)[0..] == InRange(run.catalogue, half);
        }
      case Page(products, next) =>
        var k :| 0 <= k < |all[from..]| && all[from..][k] == p;
        if k < |products| {
          e := effects[0];
          assert products[k] == p;
        } else {
          e := effects[1];
          var to := next.value;
          assert all[to..][k - (to - from)] == p;
        }
    }
  }

  lemma {:induction false} ApplyAllAdds(s: State, effects: seq<Effect>)
    ensures var t := ApplyAll(s, effects);
            && t.active == s.active && t.failed == s.failed
            && (forall j :: j in t.waiting <==> j in s.waiting || Enqueue(j) in effects)
            && (forall r :: r in t.recoveries <==> r in s.recoveries || Recover(r) in effects)
            && (forall p :: p in t.processed <==> p in s.processed || exists e :: e in effects && e.Process? && p in e.products)
  {
    if effects != [] {
      var init, last := effects[..|effects| - 1], effects[|effects| - 1];
      assert effects == init + [last];
      ApplyAllAdds(s, init);
    }
  }

  lemma ApplyingGoodEffects(run: Run, s: State, effects: seq<Effect>)
    requires forall e :: e in effects ==> GoodEffect(run, e)
    requires forall j :: InQueue(s, j) ==> GoodJob(run, j)
    requires forall r :: r in s.recoveries ==> Irreducible(run, r)
    requires forall p :: p in s.processed ==> p in run.catalogue
    ensures var t := ApplyAll(s, effects);
            && (forall j :: InQueue(t, j) ==> GoodJob(run, j))
            && (forall r :: r in t.recoveries ==> Irreducible(run, r))
            && (forall p :: p in t.processed ==> p in run.catalogue)
  {
    ApplyAllAdds(s, effects);
    var t := ApplyAll(s, effects);
    forall j | InQueue(t, j) ensures GoodJob(run, j) {
      if Enqueue(j) in effects {
        assert GoodEffect(run, Enqueue(j));
      } else {
        assert InQueue(s, j);
      }
    }
    forall r | r in t.recoveries ensures Irreducible(run, r) {
      if Recover(r) in effects {
        assert GoodEffect(run, Recover(r));
      }
    }
  }

  lemma AppliedEffectsCover(run: Run, s: State, effects: seq<Effect>, e: Effect, p: Product)
    requires e in effects && EffectCovers(run, e, p)
    ensures Covered(run, ApplyAll(s, effects), p)
  {
    ApplyAllAdds(s, effects);
    match e {
      case Process(products) =>
      case Enqueue(j) => assert InQueue(ApplyAll(s, effects), j);
      case Recover(r) =>
    }
  }

  /** Nothing is forgotten when the queue, the processed set and the recoveries only grow. */
  ghost predicate Grows(s: State, t: State) {
    && (forall j :: InQueue(s, j) ==> InQueue(t, j))
    && s.processed <= t.processed
    && (forall r :: r in s.recoveries ==> r in t.recoveries)
  }

  lemma GrowingKeepsCoverage(run: Run, s: State, t: State, p: Product)
    requires Covered(run, s, p) && Grows(s, t)
    ensures Covered(run, t, p)
  {
  }

  lemma ApplyAllGrows(s: State, effects: seq<Effect>)
    ensures Grows(s, ApplyAll(s, effects))
  {
    ApplyAllAdds(s, effects);
  }

  lemma RemoveMembers<T>(s: seq<T>, i: nat)
    requires i < |s|
    ensures forall x :: x in Remove(s, i) ==> x in s
    ensures forall x :: x in s && x != s[i] ==> x in Remove(s, i)
  {
    forall x | x in s && x != s[i] ensures x in Remove(s, i) {
      var k :| 0 <= k < |s| && s[k] == x;
      assert k < i ==> Remove(s, i)[k] == x;
      assert k > i ==> Remove(s, i)[k - 1] == x;
    }
  }

  // ----- Every step keeps the invariant -----

  lemma WorkKeeps(run: Run, s: State, i: nat)
    requires Inv(run, s) && Enabled(run, s, Work(i))
    ensures Inv(run, Next(run, s, Work(i)))
  {
    var job := s.active[i];
    var rest := s.(active := Remove(s.active, i));
    var effects := Effects(run.catalogue, job);
    var t := ApplyAll(rest, effects);
    RemoveMembers(s.active, i);
    assert InQueue(s, job);
    AttemptEffectsAreGood(run, job);
    assert forall j :: InQueue(rest, j) ==> InQueue(s, j);
    ApplyingGoodEffects(run, rest, effects);
    ApplyAllGrows(rest, effects);
    forall p | p in run.catalogue ensures Covered(run, t, p) {
      if Holds(run, job, p) {
        var e := AttemptHandsOver(run, job, p);
        AppliedEffectsCover(run, rest, effects, e, p);
      } else {
        assert Covered(run, s, p);
        assert Covered(run, rest, p) by {
          if j :| InQueue(s, j) && Holds(run, j, p) {
            assert InQueue(rest, j);
          }
        }
        GrowingKeepsCoverage(run, rest, t, p);
      }
    }
  }

  lemma DieKeeps(run: Run, s: State, i: nat, done: seq<Effect>)
    requires Inv(run, s) && Enabled(run, s, Die(i, done))
    ensures Inv(run, Next(run, s, Die(i, done)))
  {
    assert InQueue(s, s.active[i]);
    AttemptEffectsAreGood(run, s.active[i]);
    ApplyingGoodEffects(run, s, done);
    ApplyAllGrows(s, done);
    forall p | p in run.catalogue ensures Covered(run, ApplyAll(s, done), p) {
      GrowingKeepsCoverage(run, s, ApplyAll(s, done), p);
    }
  }

  /** Steps that move, copy or add good jobs. */
  lemma AddingGoodJobsKeeps(run: Run, s: State, t: State)
    requires Inv(run, s) && Grows(s, t) && t.processed == s.processed && t.recoveries == s.recoveries
    requires forall j :: InQueue(t, j) && !InQueue(s, j) ==> GoodJob(run, j)
    ensures Inv(run, t)
  {
    forall p | p in run.catalogue ensures Covered(run, t, p) {
      GrowingKeepsCoverage(run, s, t, p);
    }
  }

  lemma MoveKeeps(run: Run, s: State, e: Event)
    requires Inv(run, s) && Enabled(run, s, e) && (e.Start? || e.Throttle? || e.Retry? || e.Fail?)
    ensures Inv(run, Next(run, s, e))
  {
    var t := Next(run, s, e);
    if e.Start? {
      RemoveMembers(s.waiting, e.i);
    } else {
      RemoveMembers(s.active, e.i);
    }
    forall j ensures InQueue(s, j) <==> InQueue(t, j) {
      if InQueue(s, j) && e.Fail? && j == s.active[e.i] {
        assert FailedJob(j, e.finishedOn, e.hasReason) in t.failed;
      }
    }
    AddingGoodJobsKeeps(run, s, t);
  }

  lemma {:induction false} SweepMembers(failed: seq<FailedJob>, cutoff: int)
    ensures forall f :: f in failed <==> f in Kept(failed, cutoff) || (f in failed && Sweepable(f, cutoff))
    ensures forall f :: f in failed && Sweepable(f, cutoff) ==> Swept(f.job) in Requeued(failed, cutoff)
    ensures forall j :: j in Requeued(failed, cutoff) ==> exists f :: f in failed && Sweepable(f, cutoff) && j == Swept(f.job)
  {
    if failed != [] {
      var init, last := failed[..|failed| - 1], failed[|failed| - 1];
      assert failed == init + [last];
      SweepMembers(init, cutoff);
      assert Requeued(failed, cutoff) == Requeued(init, cutoff) + (if Sweepable(last, cutoff) then [Swept(last.job)] else []);
      assert Kept(failed, cutoff) == Kept(init, cutoff) + (if Sweepable(last, cutoff) then [] else [last]);
      forall j | j in Requeued(failed, cutoff)
        ensures exists f :: f in failed && Sweepable(f, cutoff) && j == Swept(f.job)
      {
        if j in Requeued(init, cutoff) {
          var f :| f in init && Sweepable(f, cutoff) && j == Swept(f.job);
          assert f in failed;
        } else {
          assert last in failed;
        }
      }
    }
  }

  /** A swept job restarts from its first page, so it holds whatever it held before. */
  lemma SweptHoldsMore(run: Run, j: Job, p: Product)
    requires Holds(run, j, p)
    ensures Holds(run, Swept(j), p)
  {
    var all := InRange(run.catalogue, j.range);
    assert p in all;
    assert all[0..] == all;
  }

  lemma SweepKeeps(run: Run, s: State, cutoff: int)
    requires Inv(run, s)
    ensures Inv(run, SweepStep(s, cutoff))
  {
    var t := SweepStep(s, cutoff);
    var n := Min(|s.failed|, SWEEP_WINDOW);
    var window := s.failed[..n];
    SweepMembers(window, cutoff);
    assert s.failed == window + s.failed[n..];
    forall j | InQueue(t, j) ensures GoodJob(run, j) {
      if j in Requeued(window, cutoff) {
        var f :| f in window && Sweepable(f, cutoff) && j == Swept(f.job);
        assert InQueue(s, f.job);
      } else {
        assert InQueue(s, j);
      }
    }
    forall p | p in run.catalogue ensures Covered(run, t, p) {
      assert Covered(run, s, p);
      if j :| InQueue(s, j) && Holds(run, j, p) {
        if !InQueue(t, j) {
          var f :| f in s.failed && f.job == j;
          assert f in window && Sweepable(f, cutoff);
          assert InQueue(t, Swept(j));
          SweptHoldsMore(run, j, p);
        }
      }
    }
  }

  lemma PlannedJobsAreGood(run: Run, again: seq<Range>)
    requires run.min <= run.max
    requires forall r :: r in again ==> r in BucketsFrom(run.min, run.max)
    ensures forall j :: j in FirstJobs(again) ==> GoodJob(run, j)
  {
    BucketsTile(run.min, run.max);
    if !CrossesTwoDigitYear(run.min, run.max) {
      BucketsAreAtMostAYear(run.min, run.max);
    }
    assert Pow2(0) == 1;
    forall j | j in FirstJobs(again) ensures GoodJob(run, j) {
      var i :| 0 <= i < |again| && FirstJobs(again)[i] == j;
      assert again[i] in again;
    }
  }

  lemma SweepDiesKeeps(run: Run, s: State, i: nat)
    requires Inv(run, s) && Enabled(run, s, SweepDies(i))
    ensures Inv(run, Next(run, s, SweepDies(i)))
  {
    var t := Next(run, s, SweepDies(i));
    assert InQueue(s, s.failed[i].job);
    assert forall j :: InQueue(t, j) ==> InQueue(s, j) || j == Swept(s.failed[i].job);
    AddingGoodJobsKeeps(run, s, t);
  }

  lemma ReplanKeeps(run: Run, s: State, again: seq<Range>)
    requires Inv(run, s) && Enabled(run, s, Replan(again)) && run.min <= run.max
    ensures Inv(run, Next(run, s, Replan(again)))
  {
    PlannedJobsAreGood(run, again);
    AddingGoodJobsKeeps(run, s, Next(run, s, Replan(again)));
  }

  /** The invariant survives every step. */
  lemma StepKeepsInv(run: Run, s: State, e: Event)
    requires Inv(run, s) && Enabled(run, s, e) && run.min <= run.max
    ensures Inv(run, Next(run, s, e))
  {
    match e {
      case Work(i) => WorkKeeps(run, s, i);
      case Die(i, done) => DieKeeps(run, s, i, done);
      case Sweep(cutoff) => SweepKeeps(run, s, cutoff);
      case SweepDies(i) => SweepDiesKeeps(run, s, i);
      case Replan(again) => ReplanKeeps(run, s, again);
      case _ => MoveKeeps(run, s, e);
    }
  }

  lemma PlanEstablishesInv(run: Run)
    requires run.Valid() && run.min <= run.max
    ensures Inv(run, Planned(run))
  {
    var s := Planned(run);
    var buckets := BucketsFrom(run.min, run.max);
    PlannedJobsAreGood(run, buckets);
    BucketsTile(run.min, run.max);
    forall p | p in run.catalogue ensures Covered(run, s, p) {
      var i := TilesCover(buckets, run.min, run.max + 1000, p.createdAt);
      var j := FirstJobs(buckets)[i];
      assert j in s.waiting;
      assert InQueue(s, j);
      assert InRange(run.catalogue, buckets[i])[0..] == InRange(run.catalogue, buckets[i]);
    }
  }

  lemma {:induction false} TraceKeepsInv(run: Run, states: seq<State>, events: seq<Event>, k: nat)
    requires run.Valid() && run.min <= run.max && IsTrace(run, states, events) && k <= |events|
    ensures Inv(run, states[k])
  {
    if k == 0 {
      PlanEstablishesInv(run);
    } else {
      TraceKeepsInv(run, states, events, k - 1);
      StepKeepsInv(run, states[k - 1], events[k - 1]);
    }
  }

  /** In every reachable state every product is processed, queued at or past a cursor, or irreducibly dense. */
  lemma NothingIsEverLost(run: Run, s: State, p: Product)
    requires run.Valid() && run.min <= run.max && Reachable(run, s) && p in run.catalogue
    ensures || p in s.processed
            || (exists j :: InQueue(s, j) && Holds(run, j, p))
            || (exists r :: r in s.recoveries && r.Contains(p.createdAt) && Irreducible(run, r))
  {
    var states, events :| IsTrace(run, states, events) && states[|events|] == s;
    TraceKeepsInv(run, states, events, |events|);
    assert Covered(run, s, p);
  }

  /** Once the queue is empty, the only products unprocessed share their millisecond with 25000 others. */
  lemma FinishedRunsAreComplete(run: Run, s: State, p: Product)
    requires run.Valid() && run.min <= run.max && Reachable(run, s) && p in run.catalogue
    requires s.waiting == [] && s.active == [] && s.failed == []
    ensures p in s.processed || |InRange(run.catalogue, Range(p.createdAt, p.createdAt + 1))| > DEPTH_LIMIT
  {
    NothingIsEverLost(run, s, p);
    if r :| r in s.recoveries && r.Contains(p.createdAt) && Irreducible(run, r) {
      assert r == Range(p.createdAt, p.createdAt + 1);
    }
  }

  /** Bucket depth and sweep counters stay bounded in every reachable state. */
  lemma DepthAndSweepsAreBounded(run: Run, s: State, j: Job)
    requires run.Valid() && run.min <= run.max && Reachable(run, s) && InQueue(s, j)
    ensures !CrossesTwoDigitYear(run.min, run.max) ==> j.depth <= 35
    ensures j.sweeps <= SWEEPER_MAX_ATTEMPTS
  {
    var states, events :| IsTrace(run, states, events) && states[|events|] == s;
    TraceKeepsInv(run, states, events, |events|);
  }
}
