/**
 * The processor and the sweeper as code that updates the queue in place; each method is
 * proved to take exactly the step the run model gives it.
 */
module StorefrontProcessor {
  import opened Numbers
  import opened Options
  import opened Sequences
  import opened YearlyBuckets
  import opened StorefrontDiscovery
  import opened StorefrontJobs

  /** How a request to the platform ends, apart from the page or limit error itself. */
  datatype Answer = Reached | HttpError(retryAfter: Option<real>) | OtherError

  class Processor {
    const catalogue: seq<Product>
    var waiting: seq<Job>
    var active: seq<Job>
    var failed: seq<FailedJob>
    var processed: set<Product>
    var recoveries: seq<Range>

    constructor (catalogue: seq<Product>)
      ensures this.catalogue == catalogue && Now() == State([], [], [], {}, [])
    {
      this.catalogue := catalogue;
      waiting, active, failed, processed, recoveries := [], [], [], {}, [];
    }

    ghost function Now(): State
      reads this
    {
      State(waiting, active, failed, processed, recoveries)
    }

    /** One bucket job per year between the probed ends; none when the scope matches no products. */
    method Plan(minCreatedAt: Option<int>, maxCreatedAt: Option<int>) returns (bucketsEnqueued: nat)
      modifies this`waiting
      ensures minCreatedAt.Some? && maxCreatedAt.Some? ==>
        var buckets := BucketsFrom(minCreatedAt.value, maxCreatedAt.value);
        && bucketsEnqueued == |buckets| && waiting == old(waiting) + FirstJobs(buckets)
        && forall n :: 0 <= n < |buckets| ==> waiting[|old(waiting)| + n] == Job(buckets[n], None, 0, 0)
      ensures minCreatedAt.None? || maxCreatedAt.None? ==> bucketsEnqueued == 0 && waiting == old(waiting)
    {
      if minCreatedAt.None? || maxCreatedAt.None? {
        return 0;
      }
      var buckets := GenerateYearlyBuckets(minCreatedAt.value, maxCreatedAt.value);
      for n := 0 to |buckets|
        invariant waiting == old(waiting) + FirstJobs(buckets)[..n]
      {
        waiting := waiting + [Job(buckets[n], None, 0, 0)];
      }
      return |buckets|;
    }

    /** One attempt of active job i. `None` means the attempt threw and the queue decides what happens next. */
    method Bucket(i: nat, answer: Answer) returns (r: Option<BucketResult>)
      requires i < |active|
      modifies this
      ensures answer.Reached? ==>
        Now() == ApplyAll(old(Now()).(active := Remove(old(active), i)), Effects(catalogue, old(active)[i]))
      ensures answer.Reached? ==>
        AttemptAnswered(catalogue, old(Now()).(active := Remove(old(active), i)), Now(), old(active)[i], r)
      ensures r.Some? && !answer.Reached? ==> r.value == BucketResult(0, false, false)
      ensures r.Some? && !answer.Reached? ==>
        Now() == old(Now()).(active := Remove(old(active), i), waiting := old(waiting) + [old(active)[i]])
      ensures r.None? <==> answer.OtherError? || (answer.HttpError? && (answer.retryAfter.None? || answer.retryAfter.value <= 0.0))
      ensures r.None? ==> Now() == old(Now())
    {
      var job := active[i];
      ghost var before := Now().(active := Remove(active, i));
      AnswerExactly(catalogue, job);
      AnsweredExactly(before, catalogue, job);
      if !answer.Reached? {
        var rescheduled := answer.HttpError? && answer.retryAfter.Some? && answer.retryAfter.value > 0.0;
        if rescheduled {
          waiting := waiting + [job];
          active := Remove(active, i);
          return Some(BucketResult(0, false, false));
        }
        return None;
      }
      active := Remove(active, i);
      match FetchPageByCursor(catalogue, job.range, job.cursor) {
        case LimitError =>
          if !CanSplitDateRange(job.range) {
            recoveries := recoveries + [job.range];
            OneEffect(before, Recover(job.range));
            return Some(BucketResult(0, false, false));
          }
          var (left, right) := HalveDateRange(job.range);
          waiting := waiting + [Job(left, None, job.depth + 1, 0)];
          waiting := waiting + [Job(right, None, job.depth + 1, 0)];
          TwoEffects(before, AddJob(left, None, job.depth + 1), AddJob(right, None, job.depth + 1));
          return Some(BucketResult(0, false, true));
        case Page(products, nextCursor) =>
          processed := processed + set p | p in products;
          if nextCursor.Some? {
            waiting := waiting + [Job(job.range, nextCursor, job.depth, 0)];
            TwoEffects(before, Process(products), AddJob(job.range, nextCursor, job.depth));
            assert [Process(products)] + [AddJob(job.range, nextCursor, job.depth)]
                == [Process(products), AddJob(job.range, nextCursor, job.depth)];
          } else {
            OneEffect(before, Process(products));
            assert [Process(products)] + [] == [Process(products)];
          }
          return Some(BucketResult(|products|, nextCursor.None?, false));
      }
    }

    /** Re-enqueues old failed buckets from their first page and removes them from the failed list. */
    method SweepFailedJobs(cutoff: int) returns (reenqueued: nat, abandoned: nat)
      modifies this`waiting, this`failed
      ensures Now() == SweepStep(old(Now()), cutoff)
      ensures exists d :: SweptBetween(old(Now()), Now(), cutoff, d) && reenqueued == |d.swept| && abandoned == |d.abandoned|
      ensures reenqueued == |waiting| - |old(waiting)| == |old(failed)| - |failed|
      ensures abandoned == AbandonedCount(old(failed)[..Min(|old(failed)|, SWEEP_WINDOW)], cutoff)
    {
      var n := Min(|failed|, SWEEP_WINDOW);
      var kept, requeued;
      kept, requeued, abandoned := SweepWindow(failed[..n], cutoff);
      waiting, failed := waiting + requeued, kept + failed[n..];
      reenqueued := |requeued|;
      ghost var d := SweepExactly(old(Now()), cutoff);
    }
  }

  /** The sweep loop over the failed jobs it was handed. */
  method SweepWindow(failed: seq<FailedJob>, cutoff: int)
    returns (kept: seq<FailedJob>, requeued: seq<Job>, abandoned: nat)
    ensures kept == Kept(failed, cutoff) && requeued == Requeued(failed, cutoff)
    ensures abandoned == AbandonedCount(failed, cutoff)
    ensures |kept| + |requeued| == |failed|
  {
    kept, requeued, abandoned := [], [], 0;
    for n := 0 to |failed|
      invariant kept == Kept(failed[..n], cutoff) && requeued == Requeued(failed[..n], cutoff)
      invariant abandoned == AbandonedCount(failed[..n], cutoff)
      invariant |kept| + |requeued| == n
    {
      var f := failed[n];
      SweepUnfolds(failed, cutoff, n);
      if !f.hasReason || f.finishedOn > cutoff {
        kept := kept + [f];
        continue;
      }
      if f.job.sweeps >= SWEEPER_MAX_ATTEMPTS {
        abandoned := abandoned + 1;
        kept := kept + [f];
        continue;
      }
      requeued := requeued + [Swept(f.job)];
    }
    assert failed[..|failed|] == failed;
  }
}
