/** What a plan, an attempt and a sweep leave on the queue, in the jobs' own fields. */
module StorefrontJobs {
  import opened Numbers
  import opened Options
  import opened Sequences
  import opened YearlyBuckets
  import opened StorefrontDiscovery

  // ----- Sweeps -----

  /** How a sweep divides the failed jobs it was handed: those it re-enqueues, those it leaves, and those of them it gives up. */
  datatype Division = Division(swept: seq<nat>, stayed: seq<nat>, abandoned: seq<nat>)

  /** A job that failed for a reason, long enough ago, goes back to the queue at most five times. */
  ghost predicate AreSwept(failed: seq<FailedJob>, cutoff: int, at: seq<nat>) {
    && Rising(at, |failed|)
    && forall p :: 0 <= p < |failed| ==>
         (p in at <==> failed[p].hasReason && failed[p].finishedOn <= cutoff && failed[p].job.sweeps < 5)
  }

  ghost predicate AreLeft(failed: seq<FailedJob>, cutoff: int, at: seq<nat>) {
    && Rising(at, |failed|)
    && forall p :: 0 <= p < |failed| ==>
         (p in at <==> !(failed[p].hasReason && failed[p].finishedOn <= cutoff && failed[p].job.sweeps < 5))
  }

  ghost predicate AreAbandoned(failed: seq<FailedJob>, cutoff: int, at: seq<nat>) {
    && Rising(at, |failed|)
    && forall p :: 0 <= p < |failed| ==>
         (p in at <==> failed[p].hasReason && failed[p].finishedOn <= cutoff && failed[p].job.sweeps >= 5)
  }

  ghost predicate Divides(failed: seq<FailedJob>, cutoff: int, d: Division) {
    AreSwept(failed, cutoff, d.swept) && AreLeft(failed, cutoff, d.stayed) && AreAbandoned(failed, cutoff, d.abandoned)
  }

  /** Such a job starts again from its first page, with one more sweep behind it; the others stay as they are. */
  ghost predicate Restarts(failed: seq<FailedJob>, requeued: seq<Job>, at: seq<nat>)
    requires Rising(at, |failed|)
  {
    |requeued| == |at| && forall k :: 0 <= k < |requeued| ==>
      requeued[k] == Job(failed[at[k]].job.range, None, failed[at[k]].job.depth, failed[at[k]].job.sweeps + 1)
  }

  ghost predicate Keeps(failed: seq<FailedJob>, kept: seq<FailedJob>, at: seq<nat>)
    requires Rising(at, |failed|)
  {
    |kept| == |at| && forall k :: 0 <= k < |kept| ==> kept[k] == failed[at[k]]
  }

  lemma Extended(failed: seq<FailedJob>, f: FailedJob)
    ensures forall p :: 0 <= p < |failed| ==> (failed + [f])[p] == failed[p]
    ensures (failed + [f])[|failed|] == f
  {
  }

  lemma SweptOneMore(failed: seq<FailedJob>, f: FailedJob, cutoff: int, requeued: seq<Job>, at: seq<nat>)
    requires AreSwept(failed, cutoff, at) && Restarts(failed, requeued, at)
    ensures if f.hasReason && f.finishedOn <= cutoff && f.job.sweeps < 5 then
              AreSwept(failed + [f], cutoff, at + [|failed|])
              && Restarts(failed + [f], requeued + [Job(f.job.range, None, f.job.depth, f.job.sweeps + 1)], at + [|failed|])
            else AreSwept(failed + [f], cutoff, at) && Restarts(failed + [f], requeued, at)
  {
    RisingWithLast(at, |failed|);
    Extended(failed, f);
  }

  lemma LeftOneMore(failed: seq<FailedJob>, f: FailedJob, cutoff: int, kept: seq<FailedJob>, at: seq<nat>)
    requires AreLeft(failed, cutoff, at) && Keeps(failed, kept, at)
    ensures if f.hasReason && f.finishedOn <= cutoff && f.job.sweeps < 5 then
              AreLeft(failed + [f], cutoff, at) && Keeps(failed + [f], kept, at)
            else AreLeft(failed + [f], cutoff, at + [|failed|]) && Keeps(failed + [f], kept + [f], at + [|failed|])
  {
    RisingWithLast(at, |failed|);
    Extended(failed, f);
  }

  lemma AbandonedOneMore(failed: seq<FailedJob>, f: FailedJob, cutoff: int, at: seq<nat>)
    requires AreAbandoned(failed, cutoff, at)
    ensures if f.hasReason && f.finishedOn <= cutoff && f.job.sweeps >= 5 then AreAbandoned(failed + [f], cutoff, at + [|failed|])
            else AreAbandoned(failed + [f], cutoff, at)
  {
    RisingWithLast(at, |failed|);
    Extended(failed, f);
  }

  lemma SweepUnfolds(failed: seq<FailedJob>, cutoff: int, n: nat)
    requires n < |failed|
    ensures Kept(failed[..n + 1], cutoff) == Kept(failed[..n], cutoff) + if Sweepable(failed[n], cutoff) then [] else [failed[n]]
    ensures Requeued(failed[..n + 1], cutoff)
            == Requeued(failed[..n], cutoff) + if Sweepable(failed[n], cutoff) then [Swept(failed[n].job)] else []
    ensures AbandonedCount(failed[..n + 1], cutoff)
            == AbandonedCount(failed[..n], cutoff) + if Abandoned(failed[n], cutoff) then 1 else 0
  {
    assert failed[..n + 1][..n] == failed[..n];
  }

  lemma SweepGrows(init: seq<FailedJob>, last: FailedJob, cutoff: int)
    ensures Kept(init + [last], cutoff) == Kept(init, cutoff) + if Sweepable(last, cutoff) then [] else [last]
    ensures Requeued(init + [last], cutoff) == Requeued(init, cutoff) + if Sweepable(last, cutoff) then [Swept(last.job)] else []
    ensures AbandonedCount(init + [last], cutoff) == AbandonedCount(init, cutoff) + if Abandoned(last, cutoff) then 1 else 0
  {
    assert (init + [last])[..|init|] == init && (init + [last])[..|init| + 1] == init + [last];
    SweepUnfolds(init + [last], cutoff, |init|);
  }

  lemma SweptGrows(init: seq<FailedJob>, last: FailedJob, cutoff: int, before: seq<nat>) returns (at: seq<nat>)
    requires AreSwept(init, cutoff, before) && Restarts(init, Requeued(init, cutoff), before)
    ensures AreSwept(init + [last], cutoff, at) && Restarts(init + [last], Requeued(init + [last], cutoff), at)
  {
    SweptOneMore(init, last, cutoff, Requeued(init, cutoff), before);
    SweepGrows(init, last, cutoff);
    if last.hasReason && last.finishedOn <= cutoff && last.job.sweeps < 5 {
      at := before + [|init|];
    } else {
      at := before;
      assert Requeued(init, cutoff) + [] == Requeued(init, cutoff);
    }
  }

  lemma {:induction false} SweptExactly(failed: seq<FailedJob>, cutoff: int) returns (at: seq<nat>)
    ensures AreSwept(failed, cutoff, at) && Restarts(failed, Requeued(failed, cutoff), at)
  {
    if failed == [] {
      at := [];
    } else {
      at := SweptExactly(failed[..|failed| - 1], cutoff);
      at := SweptGrows(failed[..|failed| - 1], failed[|failed| - 1], cutoff, at);
      assert failed[..|failed| - 1] + [failed[|failed| - 1]] == failed;
    }
  }

  lemma LeftGrows(init: seq<FailedJob>, last: FailedJob, cutoff: int, before: seq<nat>) returns (at: seq<nat>)
    requires AreLeft(init, cutoff, before) && Keeps(init, Kept(init, cutoff), before)
    ensures AreLeft(init + [last], cutoff, at) && Keeps(init + [last], Kept(init + [last], cutoff), at)
  {
    LeftOneMore(init, last, cutoff, Kept(init, cutoff), before);
    SweepGrows(init, last, cutoff);
    if last.hasReason && last.finishedOn <= cutoff && last.job.sweeps < 5 {
      at := before;
      assert Kept(init, cutoff) + [] == Kept(init, cutoff);
    } else {
      at := before + [|init|];
    }
  }

  lemma {:induction false} LeftExactly(failed: seq<FailedJob>, cutoff: int) returns (at: seq<nat>)
    ensures AreLeft(failed, cutoff, at) && Keeps(failed, Kept(failed, cutoff), at)
  {
    if failed == [] {
      at := [];
    } else {
      at := LeftExactly(failed[..|failed| - 1], cutoff);
      at := LeftGrows(failed[..|failed| - 1], failed[|failed| - 1], cutoff, at);
      assert failed[..|failed| - 1] + [failed[|failed| - 1]] == failed;
    }
  }

  lemma AbandonedGrows(init: seq<FailedJob>, last: FailedJob, cutoff: int, before: seq<nat>) returns (at: seq<nat>)
    requires AreAbandoned(init, cutoff, before) && AbandonedCount(init, cutoff) == |before|
    ensures AreAbandoned(init + [last], cutoff, at) && AbandonedCount(init + [last], cutoff) == |at|
  {
    AbandonedOneMore(init, last, cutoff, before);
    SweepGrows(init, last, cutoff);
    at := if last.hasReason && last.finishedOn <= cutoff && last.job.sweeps >= 5 then before + [|init|] else before;
  }

  lemma {:induction false} AbandonedExactly(failed: seq<FailedJob>, cutoff: int) returns (at: seq<nat>)
    ensures AreAbandoned(failed, cutoff, at) && AbandonedCount(failed, cutoff) == |at|
  {
    if failed == [] {
      at := [];
    } else {
      at := AbandonedExactly(failed[..|failed| - 1], cutoff);
      at := AbandonedGrows(failed[..|failed| - 1], failed[|failed| - 1], cutoff, at);
      assert failed[..|failed| - 1] + [failed[|failed| - 1]] == failed;
    }
  }

  /** A sweep of the first 1001 failed jobs. */
  ghost predicate SweptBetween(before: State, after: State, cutoff: int, d: Division) {
    var window := before.failed[..Min(|before.failed|, 1001)];
    && Divides(window, cutoff, d)
    && |before.waiting| <= |after.waiting| && after.waiting[..|before.waiting|] == before.waiting
    && |d.stayed| <= |after.failed| && after.failed[|d.stayed|..] == before.failed[|window|..]
    && Restarts(window, after.waiting[|before.waiting|..], d.swept) && Keeps(window, after.failed[..|d.stayed|], d.stayed)
    && after.active == before.active && after.processed == before.processed && after.recoveries == before.recoveries
  }

  lemma SweepExactly(s: State, cutoff: int) returns (d: Division)
    ensures SweptBetween(s, SweepStep(s, cutoff), cutoff, d)
    ensures AbandonedCount(s.failed[..Min(|s.failed|, SWEEP_WINDOW)], cutoff) == |d.abandoned|
  {
    var n := Min(|s.failed|, SWEEP_WINDOW);
    var swept := SweptExactly(s.failed[..n], cutoff);
    var stayed := LeftExactly(s.failed[..n], cutoff);
    var abandoned := AbandonedExactly(s.failed[..n], cutoff);
    d := Division(swept, stayed, abandoned);
    var after := SweepStep(s, cutoff);
    assert after.waiting[..|s.waiting|] == s.waiting && after.waiting[|s.waiting|..] == Requeued(s.failed[..n], cutoff);
    assert after.failed[..|d.stayed|] == Kept(s.failed[..n], cutoff) && after.failed[|d.stayed|..] == s.failed[n..];
  }

  // ----- Attempts -----

  /** `found` lists, in the catalogue's order, exactly the products created in the range, its end excluded. */
  ghost predicate ListsRange(catalogue: seq<Product>, r: Range, found: seq<Product>, positions: seq<nat>) {
    && |positions| == |found| && Rising(positions, |catalogue|)
    && (forall k :: 0 <= k < |positions| ==> found[k] == catalogue[positions[k]])
    && (forall p :: 0 <= p < |catalogue| ==> (p in positions <==> r.start <= catalogue[p].createdAt < r.end))
  }

  lemma ListsOneMore(catalogue: seq<Product>, r: Range, found: seq<Product>, before: seq<nat>, p: Product)
    requires ListsRange(catalogue, r, found, before)
    ensures if r.start <= p.createdAt < r.end then ListsRange(catalogue + [p], r, found + [p], before + [|catalogue|])
            else ListsRange(catalogue + [p], r, found, before)
  {
    RisingWithLast(before, |catalogue|);
    forall k | 0 <= k < |before| ensures before[k] < |catalogue| && found[k] == (catalogue + [p])[before[k]] {
    }
    forall i | 0 <= i < |catalogue| + 1 ensures (catalogue + [p])[i] == if i < |catalogue| then catalogue[i] else p {
    }
  }

  lemma InRangeUnfolds(init: seq<Product>, last: Product, r: Range)
    ensures InRange(init + [last], r) == InRange(init, r) + if r.start <= last.createdAt < r.end then [last] else []
  {
    assert (init + [last])[..|init|] == init;
  }

  lemma RangeGrows(init: seq<Product>, last: Product, r: Range, before: seq<nat>) returns (positions: seq<nat>)
    requires ListsRange(init, r, InRange(init, r), before)
    ensures ListsRange(init + [last], r, InRange(init + [last], r), positions)
  {
    ListsOneMore(init, r, InRange(init, r), before, last);
    InRangeUnfolds(init, last, r);
    if r.start <= last.createdAt < r.end {
      positions := before + [|init|];
    } else {
      positions := before;
      assert InRange(init + [last], r) == InRange(init, r);
    }
  }

  lemma {:induction false} RangeExactly(catalogue: seq<Product>, r: Range) returns (positions: seq<nat>)
    ensures ListsRange(catalogue, r, InRange(catalogue, r), positions)
  {
    if catalogue == [] {
      positions := [];
    } else {
      var before := RangeExactly(catalogue[..|catalogue| - 1], r);
      positions := RangeGrows(catalogue[..|catalogue| - 1], catalogue[|catalogue| - 1], r, before);
      assert catalogue[..|catalogue| - 1] + [catalogue[|catalogue| - 1]] == catalogue;
    }
  }

  function Set(products: seq<Product>): set<Product> {
    set p | p in products
  }

  /** What an attempt that reaches the platform does with the `found` products of its job's range. */
  ghost predicate Attempted(before: State, after: State, job: Job, found: seq<Product>) {
    var from := if job.cursor.Some? then job.cursor.value else 0;
    var mid := job.range.start + (job.range.end - job.range.start) / 2;
    if from + 250 > 25000 || from > |found| then
      if job.range.end - job.range.start <= 1 then after == before.(recoveries := before.recoveries + [job.range])
      else after == before.(waiting := before.waiting + [Job(Range(job.range.start, mid), None, job.depth + 1, 0),
                                                         Job(Range(mid, job.range.end), None, job.depth + 1, 0)])
    else if from + 250 < |found| then
      after == before.(processed := before.processed + Set(found[from..from + 250]),
                       waiting := before.waiting + [Job(job.range, Some(from + 250), job.depth, 0)])
    else after == before.(processed := before.processed + Set(found[from..]))
  }

  lemma OneEffect(s: State, e: Effect)
    ensures ApplyAll(s, [e]) == Apply(s, e)
  {
    assert [e][..0] == [];
  }

  lemma TwoEffects(s: State, e: Effect, f: Effect)
    ensures ApplyAll(s, [e, f]) == Apply(Apply(s, e), f)
  {
    assert [e, f][..1] == [e];
    OneEffect(s, e);
  }

  lemma LastPageExactly(s: State, catalogue: seq<Product>, job: Job)
    requires FetchPageByCursor(catalogue, job.range, job.cursor).Page? && FetchPageByCursor(catalogue, job.range, job.cursor).nextCursor.None?
    ensures Attempted(s, ApplyAll(s, Effects(catalogue, job)), job, InRange(catalogue, job.range))
  {
    var products := FetchPageByCursor(catalogue, job.range, job.cursor).products;
    assert [Process(products)] + [] == [Process(products)];
    OneEffect(s, Process(products));
  }

  lemma PageExactly(s: State, catalogue: seq<Product>, job: Job)
    requires FetchPageByCursor(catalogue, job.range, job.cursor).Page? && FetchPageByCursor(catalogue, job.range, job.cursor).nextCursor.Some?
    ensures Attempted(s, ApplyAll(s, Effects(catalogue, job)), job, InRange(catalogue, job.range))
  {
    var page := FetchPageByCursor(catalogue, job.range, job.cursor);
    var more := AddJob(job.range, page.nextCursor, job.depth);
    assert Effects(catalogue, job) == [Process(page.products), more];
    TwoEffects(s, Process(page.products), more);
  }

  lemma LimitExactly(s: State, catalogue: seq<Product>, job: Job)
    requires FetchPageByCursor(catalogue, job.range, job.cursor).LimitError?
    ensures Attempted(s, ApplyAll(s, Effects(catalogue, job)), job, InRange(catalogue, job.range))
  {
    if CanSplitDateRange(job.range) {
      var (left, right) := HalveDateRange(job.range);
      TwoEffects(s, AddJob(left, None, job.depth + 1), AddJob(right, None, job.depth + 1));
      assert s.waiting + [Job(left, None, job.depth + 1, 0)] + [Job(right, None, job.depth + 1, 0)]
          == s.waiting + [Job(left, None, job.depth + 1, 0), Job(right, None, job.depth + 1, 0)];
    } else {
      OneEffect(s, Recover(job.range));
    }
  }

  lemma AttemptExactly(s: State, catalogue: seq<Product>, job: Job) returns (positions: seq<nat>)
    ensures ListsRange(catalogue, job.range, InRange(catalogue, job.range), positions)
    ensures Attempted(s, ApplyAll(s, Effects(catalogue, job)), job, InRange(catalogue, job.range))
  {
    positions := RangeExactly(catalogue, job.range);
    var page := FetchPageByCursor(catalogue, job.range, job.cursor);
    if page.LimitError? {
      LimitExactly(s, catalogue, job);
    } else if page.nextCursor.Some? {
      PageExactly(s, catalogue, job);
    } else {
      LastPageExactly(s, catalogue, job);
    }
  }

  datatype BucketResult = BucketResult(productsProcessed: nat, isBucketComplete: bool, wasSplit: bool)

  /** What is answered for an attempt of a job with these products in its range. */
  function ResultOf(job: Job, found: seq<Product>): BucketResult {
    var from := job.cursor.GetOr(0);
    if from + 250 > 25000 || from > |found| then BucketResult(0, false, job.range.end - job.range.start > 1)
    else BucketResult(Min(250, |found| - from), from + 250 >= |found|, false)
  }

  /** An attempt took what its job's range holds, left the queue accordingly and answered so. */
  ghost predicate AttemptAnswered(catalogue: seq<Product>, before: State, after: State, job: Job, r: Option<BucketResult>) {
    exists found, positions :: ListsRange(catalogue, job.range, found, positions)
                               && Attempted(before, after, job, found) && r == Some(ResultOf(job, found))
  }

  lemma AnswerExactly(catalogue: seq<Product>, job: Job)
    ensures ResultOf(job, InRange(catalogue, job.range))
            == match FetchPageByCursor(catalogue, job.range, job.cursor)
               case LimitError => BucketResult(0, false, CanSplitDateRange(job.range))
               case Page(products, next) => BucketResult(|products|, next.None?, false)
  {
  }

  lemma AnsweredExactly(before: State, catalogue: seq<Product>, job: Job)
    ensures AttemptAnswered(catalogue, before, ApplyAll(before, Effects(catalogue, job)), job,
                            Some(ResultOf(job, InRange(catalogue, job.range))))
  {
    var positions := AttemptExactly(before, catalogue, job);
  }

  // ----- Moves -----

  function FailedJobs(failed: seq<FailedJob>): seq<Job> {
    seq(|failed|, i requires 0 <= i < |failed| => failed[i].job)
  }

  /** How often the queue holds a job. */
  function Copies(s: State, job: Job): nat {
    multiset(s.waiting)[job] + multiset(s.active)[job] + multiset(FailedJobs(s.failed))[job]
  }

  lemma MovingKeeps(from: seq<Job>, to: seq<Job>, i: nat, job: Job)
    requires i < |from|
    ensures multiset(Remove(from, i))[job] + multiset(to + [from[i]])[job] == multiset(from)[job] + multiset(to)[job]
    ensures |Remove(from, i)| == |from| - 1
  {
    assert from == from[..i] + [from[i]] + from[i + 1..];
  }

  /** Starting, throttling, retrying and failing move one job from one list to another and lose or repeat none. */
  lemma MovesKeepJobs(run: Run, s: State, e: Event, job: Job)
    requires Enabled(run, s, e) && (e.Start? || e.Throttle? || e.Retry? || e.Fail?)
    ensures Copies(Next(run, s, e), job) == Copies(s, job)
    ensures if e.Start? then |Next(run, s, e).waiting| == |s.waiting| - 1 else |Next(run, s, e).active| == |s.active| - 1
  {
    if e.Start? {
      MovingKeeps(s.waiting, s.active, e.i, job);
    } else if e.Fail? {
      MovingKeeps(s.active, FailedJobs(s.failed), e.i, job);
      assert FailedJobs(Next(run, s, e).failed) == FailedJobs(s.failed) + [s.active[e.i]];
    } else {
      MovingKeeps(s.active, s.waiting, e.i, job);
    }
  }
}
