/**
 * Storefront discovery as a queue of bucket jobs. A plan fans out yearly buckets; a bucket
 * job takes a page, splits at the pagination limit, falls back to known-offer recovery, is
 * throttled and re-enqueued, retried, or fails and is swept.
 */
module StorefrontDiscovery {
  import opened Numbers
  import opened Options
  import opened Sequences
  import opened YearlyBuckets

  // ----- The catalogue behind the adapter -----

  datatype Product = Product(id: int, createdAt: int)

  const PAGE_SIZE := 250
  const DEPTH_LIMIT := 25000
  const MAX_PAGES := 100
  const SWEEPER_MAX_ATTEMPTS := 5

  /** The products of a range in the order its cursors walk them. */
  function InRange(catalogue: seq<Product>, r: Range): (s: seq<Product>)
    ensures forall p :: p in s <==> p in catalogue && r.Contains(p.createdAt)
  {
    if catalogue == [] then []
    else
      var init, last := catalogue[..|catalogue| - 1], catalogue[|catalogue| - 1];
      assert catalogue == init + [last];
      InRange(init, r) + (if r.Contains(last.createdAt) then [last] else [])
  }

  datatype Page = LimitError | Page(products: seq<Product>, nextCursor: Option<nat>)

  /** Cursor pagination, exhaustive within a range up to the platform's depth limit. */
  function FetchPageByCursor(catalogue: seq<Product>, r: Range, cursor: Option<nat>): Page {
    var all, from := InRange(catalogue, r), cursor.GetOr(0);
    if from + PAGE_SIZE > DEPTH_LIMIT || from > |all| then LimitError
    else
      var to := Min(from + PAGE_SIZE, |all|);
      Page(all[from..to], if to < |all| then Some(to) else None)
  }

  // ----- Queue state -----

  datatype Job = Job(range: Range, cursor: Option<nat>, depth: nat, sweeps: nat)

  datatype FailedJob = FailedJob(job: Job, finishedOn: int, hasReason: bool)

  datatype State = State(
    waiting: seq<Job>, active: seq<Job>, failed: seq<FailedJob>,
    processed: set<Product>, recoveries: seq<Range>)

  /** What one bucket attempt does to the outside. */
  datatype Effect = Process(products: seq<Product>) | Enqueue(job: Job) | Recover(range: Range)

  function AddJob(r: Range, cursor: Option<nat>, depth: nat): Effect {
    Enqueue(Job(r, cursor, depth, 0))
  }

  /** The effects of a `bucket` call whose request reaches the platform. */
  function Effects(catalogue: seq<Product>, job: Job): seq<Effect> {
    match FetchPageByCursor(catalogue, job.range, job.cursor)
    case LimitError =>
      if !CanSplitDateRange(job.range) then [Recover(job.range)]
      else
        var (left, right) := HalveDateRange(job.range);
        [AddJob(left, None, job.depth + 1), AddJob(right, None, job.depth + 1)]
    case Page(products, next) =>
      [Process(products)] + (if next.Some? then [AddJob(job.range, next, job.depth)] else [])
  }

  function Apply(s: State, e: Effect): State {
    match e
    case Process(products) => s.(processed := s.processed + set p | p in products)
    case Enqueue(job) => s.(waiting := s.waiting + [job])
    case Recover(range) => s.(recoveries := s.recoveries + [range])
  }

  function ApplyAll(s: State, effects: seq<Effect>): State {
    if effects == [] then s else Apply(ApplyAll(s, effects[..|effects| - 1]), effects[|effects| - 1])
  }

  // ----- The sweeper -----

  predicate Sweepable(f: FailedJob, cutoff: int) {
    f.hasReason && f.finishedOn <= cutoff && f.job.sweeps < SWEEPER_MAX_ATTEMPTS
  }

  predicate Abandoned(f: FailedJob, cutoff: int) {
    f.hasReason && f.finishedOn <= cutoff && f.job.sweeps >= SWEEPER_MAX_ATTEMPTS
  }

  function Swept(job: Job): Job {
    job.(cursor := None, sweeps := job.sweeps + 1)
  }

  function Requeued(failed: seq<FailedJob>, cutoff: int): seq<Job> {
    if failed == [] then []
    else
      var last := failed[|failed| - 1];
      Requeued(failed[..|failed| - 1], cutoff) + (if Sweepable(last, cutoff) then [Swept(last.job)] else [])
  }

  function Kept(failed: seq<FailedJob>, cutoff: int): seq<FailedJob> {
    if failed == [] then []
    else
      var last := failed[|failed| - 1];
      Kept(failed[..|failed| - 1], cutoff) + (if Sweepable(last, cutoff) then [] else [last])
  }

  function AbandonedCount(failed: seq<FailedJob>, cutoff: int): nat {
    if failed == [] then 0
    else AbandonedCount(failed[..|failed| - 1], cutoff) + if Abandoned(failed[|failed| - 1], cutoff) then 1 else 0
  }

  /** `getFailed(0, 1000)` returns at most 1001 jobs. */
  const SWEEP_WINDOW := 1001

  function SweepStep(s: State, cutoff: int): State {
    var n := Min(|s.failed|, SWEEP_WINDOW);
    s.(failed := Kept(s.failed[..n], cutoff) + s.failed[n..],
       waiting := s.waiting + Requeued(s.failed[..n], cutoff))
  }

  // ----- Steps of a run -----

  /** One store's run: its catalogue, which the buckets of the probed `created_at` range cover. */
  datatype Run = Run(catalogue: seq<Product>, min: int, max: int) {
    ghost predicate Valid() {
      forall p :: p in catalogue ==> min <= p.createdAt < max + 1000
    }
  }

  datatype Event =
    | Start(i: nat)                                    // a worker takes a waiting job
    | Work(i: nat)                                     // a whole successful attempt
    | Die(i: nat, done: seq<Effect>)                   // an attempt cut short after some of its effects
    | Throttle(i: nat)                                 // re-enqueued with a delay, attempt completes
    | Retry(i: nat)                                    // attempt threw, attempts remain
    | Fail(i: nat, finishedOn: int, hasReason: bool)   // attempt threw, attempts exhausted
    | Sweep(cutoff: int)
    | SweepDies(i: nat)                                // swept job added but not yet removed
    | Replan(again: seq<Range>)                        // a retried plan adds some buckets again

  ghost predicate Enabled(run: Run, s: State, e: Event) {
    match e
    case Start(i) => i < |s.waiting|
    case Work(i) => i < |s.active|
    case Die(i, done) => i < |s.active| && forall x :: x in done ==> x in Effects(run.catalogue, s.active[i])
    case Throttle(i) => i < |s.active|
    case Retry(i) => i < |s.active|
    case Fail(i, _, _) => i < |s.active|
    case Sweep(_) => true
    case SweepDies(i) => i < |s.failed| && s.failed[i].job.sweeps < SWEEPER_MAX_ATTEMPTS
    case Replan(again) => forall r :: r in again ==> r in BucketsFrom(run.min, run.max)
  }

  function FirstJobs(buckets: seq<Range>): seq<Job> {
    seq(|buckets|, i requires 0 <= i < |buckets| => Job(buckets[i], None, 0, 0))
  }

  ghost function Next(run: Run, s: State, e: Event): State
    requires Enabled(run, s, e)
  {
    match e
    case Start(i) => s.(waiting := Remove(s.waiting, i), active := s.active + [s.waiting[i]])
    case Work(i) => ApplyAll(s.(active := Remove(s.active, i)), Effects(run.catalogue, s.active[i]))
    case Die(i, done) => ApplyAll(s, done)
    case Throttle(i) => s.(active := Remove(s.active, i), waiting := s.waiting + [s.active[i]])
    case Retry(i) => s.(active := Remove(s.active, i), waiting := s.waiting + [s.active[i]])
    case Fail(i, t, why) => s.(active := Remove(s.active, i), failed := s.failed + [FailedJob(s.active[i], t, why)])
    case Sweep(cutoff) => SweepStep(s, cutoff)
    case SweepDies(i) => s.(waiting := s.waiting + [Swept(s.failed[i].job)])
    case Replan(again) => s.(waiting := s.waiting + FirstJobs(again))
  }

  function Planned(run: Run): State {
    State(FirstJobs(BucketsFrom(run.min, run.max)), [], [], {}, [])
  }

  /** The states a run passes through, one more than its events. */
  ghost predicate IsTrace(run: Run, states: seq<State>, events: seq<Event>) {
    && |states| == |events| + 1 && states[0] == Planned(run)
    && forall k :: 0 <= k < |events| ==>
         Enabled(run, states[k], events[k]) && states[k + 1] == Next(run, states[k], events[k])
  }

  ghost predicate Reachable(run: Run, s: State) {
    exists states, events :: IsTrace(run, states, events) && states[|events|] == s
  }
}
