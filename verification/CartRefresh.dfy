/**
 * Running a refresh job: exact-ID batches proceed in parallel, and whatever their order, the
 * outcome map ends the same and each verdict rests on its own batch's replies.
 */
module CartRefresh {
  import opened Numbers
  import opened Options
  import opened ListRefresh

  const NODES_BATCH_SIZE := 250

  datatype Outcome = Refreshed | PriceChanged | Unavailable | Unsupported | Unconfirmed

  datatype ItemResult = ItemResult(
    variantId: nat, title: string, cardKey: string, previousPrice: real,
    outcome: Outcome, price: Option<real>, message: Option<string>)

  type Outcomes = map<nat, ItemResult>

  /** A variant row as read back after the batch was processed. */
  datatype Row = Row(price: real, inStock: bool)

  /** What the platform and the database answer to one batch, up to the first failure. */
  datatype Reply =
    | FetchFails(message: string)
    | UpdateFails(returned: set<string>, message: string)  // marking the missing products' rows
    | ProcessFails(returned: set<string>, message: string)
    | ExtractionErrors(returned: set<string>)
    | ReadFails(returned: set<string>, message: string)
    | Complete(returned: set<string>, rows: map<nat, Row>)

  /** A target's store lookup and its batches' replies. */
  datatype Answers = Answers(lookupError: Option<string>, replies: seq<Reply>)

  // ----- Batches -----

  function BatchCount(target: Target): nat {
    (|target.products| + NODES_BATCH_SIZE - 1) / NODES_BATCH_SIZE
  }

  function BatchEnd(target: Target, b: nat): nat {
    if (b + 1) * NODES_BATCH_SIZE < |target.products| then (b + 1) * NODES_BATCH_SIZE else |target.products|
  }

  predicate HasProduct(products: seq<ProductTarget>, lo: nat, hi: nat, product: string)
    requires lo <= hi <= |products|
  {
    exists p :: lo <= p < hi && products[p].productId == product
  }

  /** Falsy fields count as absent. */
  predicate Refreshable(item: Item) {
    item.storeId.Some? && item.storeId.value != 0 && item.shopifyProductId.Some? && item.shopifyProductId.value != ""
  }

  predicate InStore(item: Item, target: Target) {
    item.storeId == Some(target.storeId) && item.shopifyProductId.Some? && item.shopifyProductId.value != ""
  }

  /** The snapshot items batch b of a target answers for. */
  predicate InBatch(item: Item, target: Target, b: nat)
    requires b < BatchCount(target)
  {
    InStore(item, target) && HasProduct(target.products, b * NODES_BATCH_SIZE, BatchEnd(target, b), item.shopifyProductId.value)
  }

  // ----- What each synchronous stretch writes -----

  datatype Stage = Fetching | Updating | Processing | Reading | Ended

  function Initial(item: Item): ItemResult {
    ItemResult(item.variantId, item.title, item.cardKey, item.previousPrice,
               if Refreshable(item) then Unconfirmed else Unsupported, None, None)
  }

  function Verdict(item: Item, outcome: Outcome): ItemResult {
    Initial(item).(outcome := outcome)
  }

  function Failure(item: Item, message: string): ItemResult {
    Verdict(item, Unconfirmed).(message := Some(message))
  }

  function ReadBack(item: Item, rows: map<nat, Row>): ItemResult {
    if item.variantId !in rows || !rows[item.variantId].inStock then Verdict(item, Unavailable)
    else
      var price := rows[item.variantId].price;
      Verdict(item, if price != item.previousPrice then PriceChanged else Refreshed).(price := Some(price))
  }

  function After(stage: Stage, reply: Reply): Stage {
    match stage
    case Fetching => if reply.FetchFails? then Ended else Updating
    case Updating => if reply.UpdateFails? then Ended else Processing
    case Processing => if reply.ProcessFails? || reply.ExtractionErrors? then Ended else Reading
    case _ => Ended
  }

  /** What leaving a stage writes for an item of the batch. */
  function Mark(stage: Stage, reply: Reply, item: Item): Option<ItemResult>
    requires item.shopifyProductId.Some?
  {
    var product := item.shopifyProductId.value;
    match stage
    case Fetching => if reply.FetchFails? then Some(Failure(item, reply.message)) else None
    case Updating =>
      if reply.UpdateFails? then Some(Failure(item, reply.message))
      else if !reply.FetchFails? && product !in reply.returned then Some(Verdict(item, Unavailable)) else None
    case Processing =>
      if reply.ProcessFails? then Some(Failure(item, reply.message))
      else if reply.ExtractionErrors? && product in reply.returned then Some(Failure(item, "Listing extraction did not complete"))
      else None
    case Reading =>
      if reply.ReadFails? then Some(Failure(item, reply.message))
      else if reply.Complete? && product in reply.returned then Some(ReadBack(item, reply.rows)) else None
    case Ended => None
  }

  /** One stretch of code between two awaits. */
  datatype Segment =
    | BatchSegment(target: Target, b: nat, stage: Stage, reply: Reply)
    | StoreFailure(target: Target, message: string)

  predicate Runs(segment: Segment) {
    segment.BatchSegment? ==> segment.b < BatchCount(segment.target)
  }

  function SegmentMark(segment: Segment, item: Item): Option<ItemResult>
    requires Runs(segment)
  {
    match segment
    case BatchSegment(target, b, stage, reply) => if InBatch(item, target, b) then Mark(stage, reply, item) else None
    case StoreFailure(target, message) => if InStore(item, target) then Some(Failure(item, message)) else None
  }

  /** The loops over the snapshot: every marked item's entry is replaced. */
  function Write(outcomes: Outcomes, items: seq<Item>, segment: Segment): Outcomes
    requires Runs(segment)
  {
    if items == [] then outcomes
    else
      var last := items[|items| - 1];
      var written := Write(outcomes, items[..|items| - 1], segment);
      match SegmentMark(segment, last)
      case Some(r) => written[last.variantId := r]
      case None => written
  }

  function Begin(items: seq<Item>): Outcomes {
    if items == [] then map[]
    else Begin(items[..|items| - 1])[items[|items| - 1].variantId := Initial(items[|items| - 1])]
  }

  function Ids(items: seq<Item>): set<nat> {
    if items == [] then {} else Ids(items[..|items| - 1]) + {items[|items| - 1].variantId}
  }

  lemma {:induction false} IdsMembers(items: seq<Item>, id: nat)
    ensures id in Ids(items) <==> exists i :: 0 <= i < |items| && items[i].variantId == id
  {
    if items != [] {
      var n := |items| - 1;
      IdsMembers(items[..n], id);
      assert forall i :: 0 <= i < n ==> items[..n][i] == items[i];
    }
  }

  function Read(outcomes: Outcomes, id: nat): Option<ItemResult> {
    if id in outcomes then Some(outcomes[id]) else None
  }

  lemma {:induction false} BeginReads(items: seq<Item>, i: nat)
    requires DistinctIds(items) && i < |items|
    ensures Read(Begin(items), items[i].variantId) == Some(Initial(items[i]))
  {
    var n := |items| - 1;
    if i < n {
      assert items[..n][i] == items[i];
      assert forall j :: 0 <= j < n ==> items[..n][j] == items[j];
      BeginReads(items[..n], i);
    }
  }

  lemma {:induction false} BeginKeys(items: seq<Item>)
    ensures Begin(items).Keys == Ids(items)
  {
    if items != [] { BeginKeys(items[..|items| - 1]); }
  }

  lemma {:induction false} WriteKeys(outcomes: Outcomes, items: seq<Item>, segment: Segment)
    requires Runs(segment) && Ids(items) <= outcomes.Keys
    ensures Write(outcomes, items, segment).Keys == outcomes.Keys
  {
    if items != [] { WriteKeys(outcomes, items[..|items| - 1], segment); }
  }

  lemma {:induction false} WriteSkips(outcomes: Outcomes, items: seq<Item>, segment: Segment, id: nat)
    requires Runs(segment) && forall i :: 0 <= i < |items| ==> items[i].variantId != id
    ensures Read(Write(outcomes, items, segment), id) == Read(outcomes, id)
  {
    if items != [] {
      var n := |items| - 1;
      assert forall i :: 0 <= i < n ==> items[..n][i] == items[i];
      WriteSkips(outcomes, items[..n], segment, id);
    }
  }

  lemma {:induction false} WriteReads(outcomes: Outcomes, items: seq<Item>, segment: Segment, i: nat)
    requires Runs(segment) && DistinctIds(items) && i < |items|
    ensures Read(Write(outcomes, items, segment), items[i].variantId)
            == (if SegmentMark(segment, items[i]).Some? then SegmentMark(segment, items[i]) else Read(outcomes, items[i].variantId))
  {
    var n := |items| - 1;
    assert forall j :: 0 <= j < n ==> items[..n][j] == items[j];
    if i < n {
      WriteReads(outcomes, items[..n], segment, i);
    } else {
      WriteSkips(outcomes, items[..n], segment, items[n].variantId);
    }
  }

  // ----- Interleavings -----

  datatype Progress = Looking | StoreFailed | Running(stages: seq<Stage>)

  datatype State = State(outcomes: Outcomes, targets: seq<Progress>)

  datatype Event = Lookup(t: nat) | Advance(t: nat, b: nat)

  ghost predicate Answered(job: Job, answers: seq<Answers>) {
    |answers| == |job.targets| && forall t :: 0 <= t < |answers| ==> |answers[t].replies| == BatchCount(job.targets[t])
  }

  function Start(job: Job): State {
    State(Begin(job.snapshot), seq(|job.targets|, t => Looking))
  }

  ghost predicate Shape(job: Job, s: State) {
    |s.targets| == |job.targets|
    && forall t :: 0 <= t < |s.targets| && s.targets[t].Running? ==> |s.targets[t].stages| == BatchCount(job.targets[t])
  }

  ghost predicate Enabled(job: Job, s: State, e: Event) {
    match e
    case Lookup(t) => t < |s.targets| && s.targets[t].Looking?
    case Advance(t, b) => t < |s.targets| && s.targets[t].Running? && b < |s.targets[t].stages| && !s.targets[t].stages[b].Ended?
  }

  ghost function Next(job: Job, answers: seq<Answers>, s: State, e: Event): State
    requires Answered(job, answers) && Shape(job, s) && Enabled(job, s, e)
    ensures Shape(job, Next(job, answers, s, e))
  {
    var target := job.targets[e.t];
    match e
    case Lookup(t) =>
      if answers[t].lookupError.Some? then
        State(Write(s.outcomes, job.snapshot, StoreFailure(target, answers[t].lookupError.value)), s.targets[t := StoreFailed])
      else s.(targets := s.targets[t := Running(seq(BatchCount(target), b => Fetching))])
    case Advance(t, b) =>
      var stages := s.targets[t].stages;
      var reply := answers[t].replies[b];
      State(Write(s.outcomes, job.snapshot, BatchSegment(target, b, stages[b], reply)),
            s.targets[t := Running(stages[b := After(stages[b], reply)])])
  }

  ghost predicate IsRun(job: Job, answers: seq<Answers>, states: seq<State>, events: seq<Event>)
    requires Answered(job, answers)
  {
    && |states| == |events| + 1 && states[0] == Start(job)
    && forall k :: 0 <= k < |events| ==>
         Shape(job, states[k]) && Enabled(job, states[k], events[k]) && states[k + 1] == Next(job, answers, states[k], events[k])
  }

  /** `Promise.all` resolves: every batch has ended and every store was looked up. */
  ghost predicate Finished(s: State) {
    forall t :: 0 <= t < |s.targets| ==>
      match s.targets[t]
      case Looking => false
      case StoreFailed => true
      case Running(stages) => forall b :: 0 <= b < |stages| ==> stages[b].Ended?
  }

  /** What the request service promises of a job. */
  ghost predicate WellFormed(job: Job) {
    Clean(job.targets) && DistinctIds(job.snapshot)
  }

  // ----- Each item's one place -----

  lemma BatchesTile(target: Target, p: nat)
    requires p < |target.products|
    ensures p / NODES_BATCH_SIZE < BatchCount(target)
    ensures forall b: nat :: b < BatchCount(target) && b * NODES_BATCH_SIZE <= p < BatchEnd(target, b) <==> b == p / NODES_BATCH_SIZE
  {
  }

  /** The target of an item's store. */
  function TargetOf(targets: seq<Target>, item: Item): (t: Option<nat>)
    ensures t.Some? ==> t.value < |targets| && InStore(item, targets[t.value])
    ensures t.None? ==> forall u :: 0 <= u < |targets| ==> !InStore(item, targets[u])
  {
    if targets == [] then None
    else if InStore(item, targets[|targets| - 1]) then Some(|targets| - 1)
    else
      var t := TargetOf(targets[..|targets| - 1], item);
      assert forall u :: 0 <= u < |targets| - 1 ==> targets[..|targets| - 1][u] == targets[u];
      t
  }

  function IndexOf(products: seq<ProductTarget>, product: string): (p: Option<nat>)
    ensures p.Some? ==> p.value < |products| && products[p.value].productId == product
    ensures p.None? ==> forall q :: 0 <= q < |products| ==> products[q].productId != product
  {
    if products == [] then None
    else if products[|products| - 1].productId == product then Some(|products| - 1)
    else
      var p := IndexOf(products[..|products| - 1], product);
      assert forall q :: 0 <= q < |products| - 1 ==> products[..|products| - 1][q] == products[q];
      p
  }

  function BatchOf(target: Target, item: Item): (b: Option<nat>)
    requires item.shopifyProductId.Some?
    ensures b.Some? ==> b.value < BatchCount(target)
  {
    match IndexOf(target.products, item.shopifyProductId.value)
    case None => None
    case Some(p) =>
      BatchesTile(target, p);
      Some(p / NODES_BATCH_SIZE)
  }

  /** With distinct stores and products, membership in a batch pins the target and the batch. */
  lemma PlaceIsUnique(job: Job, item: Item, t: nat, b: nat)
    requires WellFormed(job) && t < |job.targets| && b < BatchCount(job.targets[t])
    ensures InStore(item, job.targets[t]) <==> TargetOf(job.targets, item) == Some(t)
    ensures InBatch(item, job.targets[t], b) <==> InStore(item, job.targets[t]) && BatchOf(job.targets[t], item) == Some(b)
  {
    StoreIsUnique(job, item, t);
    var target := job.targets[t];
    assert ProductsClean(target.products);
    if InStore(item, target) {
      var found := IndexOf(target.products, item.shopifyProductId.value);
      if found.Some? {
        BatchesTile(target, found.value);
      }
    }
  }

  lemma StoreIsUnique(job: Job, item: Item, t: nat)
    requires WellFormed(job) && t < |job.targets|
    ensures InStore(item, job.targets[t]) <==> TargetOf(job.targets, item) == Some(t)
  {
  }

  /** A requested job puts every supported item in exactly one batch, and no batch exceeds 250 products. */
  lemma EveryItemHasItsBatch(job: Job, listings: seq<Listing>, products: map<nat, Product>, item: Item)
    requires WellFormed(job) && GroupsExactly(job.targets, listings, products) && job.snapshot == Snapshot(listings, products)
    requires item in job.snapshot
    ensures Refreshable(item) ==>
              exists t, b :: 0 <= t < |job.targets| && 0 <= b < BatchCount(job.targets[t]) && InBatch(item, job.targets[t], b)
    ensures forall t, b, u, c ::
              (0 <= t < |job.targets| && 0 <= b < BatchCount(job.targets[t]) && InBatch(item, job.targets[t], b)
               && 0 <= u < |job.targets| && 0 <= c < BatchCount(job.targets[u]) && InBatch(item, job.targets[u], c)) ==>
              t == u && b == c
    ensures forall t, b :: 0 <= t < |job.targets| && 0 <= b < BatchCount(job.targets[t]) ==>
              0 < BatchEnd(job.targets[t], b) - b * NODES_BATCH_SIZE <= NODES_BATCH_SIZE
  {
    if Refreshable(item) {
      TargetsCoverSnapshot(job.targets, listings, products, item);
      var t, p :| 0 <= t < |job.targets| && 0 <= p < |job.targets[t].products|
                  && job.targets[t].storeId == item.storeId.value && job.targets[t].products[p].productId == item.shopifyProductId.value;
      BatchesTile(job.targets[t], p);
      assert InBatch(item, job.targets[t], p / NODES_BATCH_SIZE);
    }
    forall t, b, u, c | 0 <= t < |job.targets| && 0 <= b < BatchCount(job.targets[t]) && InBatch(item, job.targets[t], b)
                        && 0 <= u < |job.targets| && 0 <= c < BatchCount(job.targets[u]) && InBatch(item, job.targets[u], c)
      ensures t == u && b == c
    {
      PlaceIsUnique(job, item, t, b);
      PlaceIsUnique(job, item, u, c);
    }
  }

  // ----- The invariant: each entry is a function of its own batch's stage -----

  function StageValue(stage: Stage, reply: Reply, item: Item): ItemResult
    requires item.shopifyProductId.Some?
  {
    match stage
    case Fetching => Initial(item)
    case Updating => Initial(item)
    case Ended => FinalValue(reply, item)
    case _ => if !reply.FetchFails? && item.shopifyProductId.value !in reply.returned then Verdict(item, Unavailable) else Initial(item)
  }

  /** The verdict once the batch has ended. */
  function FinalValue(reply: Reply, item: Item): ItemResult
    requires item.shopifyProductId.Some?
  {
    match reply
    case ExtractionErrors(returned) =>
      if item.shopifyProductId.value !in returned then Verdict(item, Unavailable)
      else Failure(item, "Listing extraction did not complete")
    case Complete(returned, rows) =>
      if item.shopifyProductId.value !in returned then Verdict(item, Unavailable) else ReadBack(item, rows)
    case _ => Failure(item, reply.message)
  }

  /** The stages a batch can be in, given how its replies end. */
  predicate StageFits(stage: Stage, reply: Reply) {
    match stage
    case Fetching => true
    case Updating => !reply.FetchFails?
    case Processing => !reply.FetchFails? && !reply.UpdateFails?
    case Reading => reply.ReadFails? || reply.Complete?
    case Ended => true
  }

  lemma MarkAdvances(stage: Stage, reply: Reply, item: Item)
    requires item.shopifyProductId.Some? && StageFits(stage, reply) && !stage.Ended?
    ensures StageFits(After(stage, reply), reply)
    ensures StageValue(After(stage, reply), reply, item) == Mark(stage, reply, item).GetOr(StageValue(stage, reply, item))
  {
  }

  /** An item's entry, from how far its own target has come. */
  function ValueIn(target: Target, answer: Answers, progress: Progress, item: Item): ItemResult
    requires item.shopifyProductId.Some? && |answer.replies| == BatchCount(target)
    requires progress.Running? ==> |progress.stages| == BatchCount(target)
  {
    match progress
    case Looking => Initial(item)
    case StoreFailed => Failure(item, answer.lookupError.GetOr(""))
    case Running(stages) =>
      match BatchOf(target, item)
      case None => Initial(item)
      case Some(b) => StageValue(stages[b], answer.replies[b], item)
  }

  ghost function ValueOf(job: Job, answers: seq<Answers>, s: State, item: Item): ItemResult
    requires Answered(job, answers) && Shape(job, s)
  {
    match TargetOf(job.targets, item)
    case None => Initial(item)
    case Some(t) => ValueIn(job.targets[t], answers[t], s.targets[t], item)
  }

  ghost predicate ProgressFits(target: Target, answer: Answers, progress: Progress)
    requires |answer.replies| == BatchCount(target)
    requires progress.Running? ==> |progress.stages| == BatchCount(target)
  {
    match progress
    case Looking => true
    case StoreFailed => answer.lookupError.Some?
    case Running(stages) => answer.lookupError.None? && forall b :: 0 <= b < |stages| ==> StageFits(stages[b], answer.replies[b])
  }

  ghost predicate Inv(job: Job, answers: seq<Answers>, s: State)
    requires Answered(job, answers)
  {
    && Shape(job, s) && s.outcomes.Keys == Ids(job.snapshot)
    && (forall t :: 0 <= t < |job.targets| ==> ProgressFits(job.targets[t], answers[t], s.targets[t]))
    && (forall i :: 0 <= i < |job.snapshot| ==>
          Read(s.outcomes, job.snapshot[i].variantId) == Some(ValueOf(job, answers, s, job.snapshot[i])))
  }

  lemma StartIsGood(job: Job, answers: seq<Answers>)
    requires Answered(job, answers) && WellFormed(job)
    ensures Inv(job, answers, Start(job))
  {
    BeginKeys(job.snapshot);
    forall i | 0 <= i < |job.snapshot|
      ensures Read(Begin(job.snapshot), job.snapshot[i].variantId) == Some(Initial(job.snapshot[i]))
    {
      BeginReads(job.snapshot, i);
    }
  }

  lemma LookupKeepsEntry(job: Job, answers: seq<Answers>, s: State, t: nat, i: nat)
    requires Answered(job, answers) && WellFormed(job) && Inv(job, answers, s) && Enabled(job, s, Lookup(t)) && i < |job.snapshot|
    ensures var n := Next(job, answers, s, Lookup(t));
            Read(n.outcomes, job.snapshot[i].variantId) == Some(ValueOf(job, answers, n, job.snapshot[i]))
  {
    var item := job.snapshot[i];
    StoreIsUnique(job, item, t);
    if answers[t].lookupError.Some? {
      WriteReads(s.outcomes, job.snapshot, StoreFailure(job.targets[t], answers[t].lookupError.value), i);
    }
  }

  lemma AdvanceKeepsEntry(job: Job, answers: seq<Answers>, s: State, t: nat, b: nat, i: nat)
    requires Answered(job, answers) && WellFormed(job) && Inv(job, answers, s) && Enabled(job, s, Advance(t, b)) && i < |job.snapshot|
    ensures var n := Next(job, answers, s, Advance(t, b));
            Read(n.outcomes, job.snapshot[i].variantId) == Some(ValueOf(job, answers, n, job.snapshot[i]))
  {
    var item, target, reply, stage := job.snapshot[i], job.targets[t], answers[t].replies[b], s.targets[t].stages[b];
    WriteReads(s.outcomes, job.snapshot, BatchSegment(target, b, stage, reply), i);
    PlaceIsUnique(job, item, t, b);
    if InBatch(item, target, b) {
      assert ProgressFits(target, answers[t], s.targets[t]);
      MarkAdvances(stage, reply, item);
    }
  }

  lemma StepKeepsFit(job: Job, answers: seq<Answers>, s: State, e: Event)
    requires Answered(job, answers) && WellFormed(job) && Inv(job, answers, s) && Enabled(job, s, e)
    ensures var n := Next(job, answers, s, e);
            n.outcomes.Keys == Ids(job.snapshot)
            && forall t :: 0 <= t < |job.targets| ==> ProgressFits(job.targets[t], answers[t], n.targets[t])
  {
    match e {
      case Lookup(t) =>
        if answers[t].lookupError.Some? {
          WriteKeys(s.outcomes, job.snapshot, StoreFailure(job.targets[t], answers[t].lookupError.value));
        }
      case Advance(t, b) =>
        assert ProgressFits(job.targets[t], answers[t], s.targets[t]);
        WriteKeys(s.outcomes, job.snapshot, BatchSegment(job.targets[t], b, s.targets[t].stages[b], answers[t].replies[b]));
    }
  }

  lemma StepKeepsInv(job: Job, answers: seq<Answers>, s: State, e: Event)
    requires Answered(job, answers) && WellFormed(job) && Inv(job, answers, s) && Enabled(job, s, e)
    ensures Inv(job, answers, Next(job, answers, s, e))
  {
    StepKeepsFit(job, answers, s, e);
    var n := Next(job, answers, s, e);
    forall i | 0 <= i < |job.snapshot|
      ensures Read(n.outcomes, job.snapshot[i].variantId) == Some(ValueOf(job, answers, n, job.snapshot[i]))
    {
      match e {
        case Lookup(t) => LookupKeepsEntry(job, answers, s, t, i);
        case Advance(t, b) => AdvanceKeepsEntry(job, answers, s, t, b, i);
      }
    }
  }

  lemma {:induction false} RunKeepsInv(job: Job, answers: seq<Answers>, states: seq<State>, events: seq<Event>, k: nat)
    requires Answered(job, answers) && WellFormed(job) && IsRun(job, answers, states, events) && k <= |events|
    ensures Inv(job, answers, states[k])
  {
    if k == 0 {
      StartIsGood(job, answers);
    } else {
      RunKeepsInv(job, answers, states, events, k - 1);
      StepKeepsInv(job, answers, states[k - 1], events[k - 1]);
    }
  }

  // ----- Main results -----

  /** The verdict the replies alone decide. */
  function Decided(job: Job, answers: seq<Answers>, item: Item): ItemResult
    requires Answered(job, answers)
  {
    match TargetOf(job.targets, item)
    case None => Initial(item)
    case Some(t) =>
      if answers[t].lookupError.Some? then Failure(item, answers[t].lookupError.value)
      else match BatchOf(job.targets[t], item)
        case None => Initial(item)
        case Some(b) => FinalValue(answers[t].replies[b], item)
  }

  lemma FinishedIsDecided(job: Job, answers: seq<Answers>, s: State, i: nat)
    requires Answered(job, answers) && Inv(job, answers, s) && Finished(s) && i < |job.snapshot|
    ensures Read(s.outcomes, job.snapshot[i].variantId) == Some(Decided(job, answers, job.snapshot[i]))
  {
    var item := job.snapshot[i];
    var t := TargetOf(job.targets, item);
    if t.Some? {
      assert ProgressFits(job.targets[t.value], answers[t.value], s.targets[t.value]);
      var b := BatchOf(job.targets[t.value], item);
      assert b.Some? && s.targets[t.value].Running? ==> s.targets[t.value].stages[b.value].Ended?;
    }
  }

  /** Whatever the interleaving, finished runs of one job with the same replies end with the same outcome map. */
  lemma OrderDoesNotMatter(job: Job, answers: seq<Answers>, states: seq<State>, events: seq<Event>,
                           states': seq<State>, events': seq<Event>)
    requires Answered(job, answers) && WellFormed(job)
    requires IsRun(job, answers, states, events) && Finished(states[|events|])
    requires IsRun(job, answers, states', events') && Finished(states'[|events'|])
    ensures states[|events|].outcomes == states'[|events'|].outcomes
    ensures states[|events|].outcomes.Keys == Ids(job.snapshot)
  {
    var s, s' := states[|events|], states'[|events'|];
    RunKeepsInv(job, answers, states, events, |events|);
    RunKeepsInv(job, answers, states', events', |events'|);
    forall id | id in Ids(job.snapshot) ensures s.outcomes[id] == s'.outcomes[id] {
      IdsMembers(job.snapshot, id);
      var i :| 0 <= i < |job.snapshot| && job.snapshot[i].variantId == id;
      FinishedIsDecided(job, answers, s, i);
      FinishedIsDecided(job, answers, s', i);
    }
  }

  /** Batch (t, b) has had its successful fetch, and it speaks against the item. */
  ghost predicate FetchedWithout(job: Job, answers: seq<Answers>, s: State, item: Item, t: nat, b: nat)
    requires Answered(job, answers) && Shape(job, s) && item.shopifyProductId.Some?
  {
    && t < |job.targets| && b < BatchCount(job.targets[t]) && InBatch(item, job.targets[t], b)
    && s.targets[t].Running? && !s.targets[t].stages[b].Fetching? && !answers[t].replies[b].FetchFails?
    && (item.shopifyProductId.value in answers[t].replies[b].returned ==>
          var reply := answers[t].replies[b];
          reply.Complete? && (item.variantId !in reply.rows || !reply.rows[item.variantId].inStock))
  }

  /** In every state passed, the keys are the snapshot's, and "unavailable" rests on the item's own successful fetch. */
  lemma UnavailableNeedsAFetch(job: Job, answers: seq<Answers>, states: seq<State>, events: seq<Event>, k: nat, i: nat)
    requires Answered(job, answers) && WellFormed(job) && IsRun(job, answers, states, events) && k <= |events|
    requires i < |job.snapshot|
    ensures Shape(job, states[k]) && states[k].outcomes.Keys == Ids(job.snapshot)
    ensures job.snapshot[i].variantId in states[k].outcomes
    ensures states[k].outcomes[job.snapshot[i].variantId].outcome == Unavailable ==>
              job.snapshot[i].shopifyProductId.Some?
              && exists t, b :: FetchedWithout(job, answers, states[k], job.snapshot[i], t, b)
  {
    RunKeepsInv(job, answers, states, events, k);
    var s, item := states[k], job.snapshot[i];
    assert Read(s.outcomes, item.variantId) == Some(ValueOf(job, answers, s, item));
    if ValueOf(job, answers, s, item).outcome == Unavailable {
      UnavailableValue(job, answers, s, item);
    }
  }

  lemma UnavailableValue(job: Job, answers: seq<Answers>, s: State, item: Item)
    requires Answered(job, answers) && WellFormed(job) && Inv(job, answers, s)
    requires ValueOf(job, answers, s, item).outcome == Unavailable
    ensures item.shopifyProductId.Some? && exists t, b :: FetchedWithout(job, answers, s, item, t, b)
  {
    var t := TargetOf(job.targets, item).value;
    var b := BatchOf(job.targets[t], item).value;
    assert ProgressFits(job.targets[t], answers[t], s.targets[t]);
    PlaceIsUnique(job, item, t, b);
    assert FetchedWithout(job, answers, s, item, t, b);
  }

  /** The result is the item's own. */
  predicate IsFor(r: ItemResult, item: Item) {
    r.variantId == item.variantId && r.title == item.title && r.cardKey == item.cardKey && r.previousPrice == item.previousPrice
  }

  /** A batch item's final result, clause by clause, from what was answered about it. */
  ghost predicate Explains(r: ItemResult, item: Item, lookup: Option<string>, reply: Reply)
    requires item.shopifyProductId.Some?
  {
    var answered := lookup.None? && (reply.Complete? || reply.ExtractionErrors?);
    var present := answered && item.shopifyProductId.value in reply.returned;
    var stocked := present && reply.Complete? && item.variantId in reply.rows && reply.rows[item.variantId].inStock;
    && IsFor(r, item)
    && (r.outcome == Unconfirmed <==> !answered || (present && reply.ExtractionErrors?))
    && (r.outcome == Unavailable <==> answered && (!present || (reply.Complete? && !stocked)))
    && (r.outcome == Refreshed <==> stocked && reply.rows[item.variantId].price == item.previousPrice)
    && (r.outcome == PriceChanged <==> stocked && reply.rows[item.variantId].price != item.previousPrice)
    && (r.price == if stocked then Some(reply.rows[item.variantId].price) else None)
    && (r.message == if lookup.Some? then lookup
                     else if !answered then Some(reply.message)
                     else if present && reply.ExtractionErrors? then Some("Listing extraction did not complete") else None)
  }

  lemma FinalValueExplained(item: Item, reply: Reply)
    requires item.shopifyProductId.Some?
    ensures Explains(FinalValue(reply, item), item, None, reply)
  {
  }

  lemma PlaceInBatch(job: Job, item: Item, t: nat, p: nat)
    requires WellFormed(job) && t < |job.targets| && p < |job.targets[t].products|
    requires item.storeId == Some(job.targets[t].storeId)
    requires item.shopifyProductId == Some(job.targets[t].products[p].productId) && job.targets[t].products[p].productId != ""
    ensures p / 250 < BatchCount(job.targets[t]) && InBatch(item, job.targets[t], p / 250)
  {
    BatchesTile(job.targets[t], p);
  }

  /** The final verdict of an item whose product is number p of its store's target: what batch p / 250 was answered decides it. */
  lemma FinishedVerdicts(job: Job, answers: seq<Answers>, states: seq<State>, events: seq<Event>, i: nat, t: nat, p: nat)
    requires Answered(job, answers) && WellFormed(job) && IsRun(job, answers, states, events) && Finished(states[|events|])
    requires i < |job.snapshot| && t < |job.targets| && p < |job.targets[t].products|
    requires job.snapshot[i].storeId == Some(job.targets[t].storeId)
    requires job.snapshot[i].shopifyProductId == Some(job.targets[t].products[p].productId) && job.targets[t].products[p].productId != ""
    ensures job.snapshot[i].variantId in states[|events|].outcomes && p / 250 < |answers[t].replies|
    ensures Explains(states[|events|].outcomes[job.snapshot[i].variantId], job.snapshot[i], answers[t].lookupError, answers[t].replies[p / 250])
  {
    RunKeepsInv(job, answers, states, events, |events|);
    FinishedIsDecided(job, answers, states[|events|], i);
    PlaceInBatch(job, job.snapshot[i], t, p);
    PlaceIsUnique(job, job.snapshot[i], t, p / 250);
    FinalValueExplained(job.snapshot[i], answers[t].replies[p / 250]);
  }

  /** An item of no target stays as it began: unsupported if it lacks a store or a product, unconfirmed otherwise. */
  lemma UntargetedVerdicts(job: Job, answers: seq<Answers>, states: seq<State>, events: seq<Event>, i: nat)
    requires Answered(job, answers) && WellFormed(job) && IsRun(job, answers, states, events) && Finished(states[|events|])
    requires i < |job.snapshot|
    requires job.snapshot[i].shopifyProductId.GetOr("") == "" || forall t :: 0 <= t < |job.targets| ==> job.snapshot[i].storeId != Some(job.targets[t].storeId)
    ensures job.snapshot[i].variantId in states[|events|].outcomes
    ensures var item, r := job.snapshot[i], states[|events|].outcomes[job.snapshot[i].variantId];
            && IsFor(r, item) && r.price == None && r.message == None
            && r.outcome == if item.storeId.GetOr(0) == 0 || item.shopifyProductId.GetOr("") == "" then Unsupported else Unconfirmed
  {
    RunKeepsInv(job, answers, states, events, |events|);
    FinishedIsDecided(job, answers, states[|events|], i);
  }

  // ----- The loops that update the map -----

  /** Completed share as a percentage, rounded down to a multiple of five, at most 95. */
  function Percent(completed: nat, total: nat): (p: nat)
    ensures p <= 95 && p % 5 == 0 && (total == 0 ==> p == 95)
    ensures total > 0 ==> p * total <= 100 * completed
    ensures p < 95 ==> 100 * completed < (p + 5) * total
  {
    if total == 0 then 95
    else
      var fives := completed * 20 / total;
      QuotientBounds(completed * 20, total);
      TimesFive(fives, total);
      TimesFive(fives + 1, total);
      if fives < 19 then fives * 5
      else
        Monotone(19, fives, total);
        TimesFive(19, total);
        95
  }

  lemma QuotientBounds(n: nat, d: nat)
    requires d > 0
    ensures n / d * d <= n < (n / d + 1) * d
  {
  }

  lemma TimesFive(q: nat, total: nat)
    ensures (q * 5) * total == 5 * (q * total)
  {
  }

  class RefreshRun {
    const job: Job
    var outcomes: Outcomes
    var completedProducts: nat
    var lastPublishedProgress: nat
    var published: seq<nat>

    ghost predicate Valid()
      reads this
    {
      && lastPublishedProgress <= 95 && lastPublishedProgress % 5 == 0
      && (forall i :: 0 <= i < |published| ==> 0 < published[i] <= lastPublishedProgress && published[i] % 5 == 0)
      && (forall i, j :: 0 <= i < j < |published| ==> published[i] < published[j])
    }

    constructor (job: Job)
      ensures this.job == job && outcomes == Begin(job.snapshot) && published == [] && completedProducts == 0 && Valid()
    {
      this.job := job;
      completedProducts, lastPublishedProgress, published := 0, 0, [];
      var initial: Outcomes := map[];
      for n := 0 to |job.snapshot|
        invariant initial == Begin(job.snapshot[..n])
      {
        assert job.snapshot[..n + 1][..n] == job.snapshot[..n];
        initial := initial[job.snapshot[n].variantId := Initial(job.snapshot[n])];
      }
      assert job.snapshot[..|job.snapshot|] == job.snapshot;
      outcomes := initial;
    }

    /** `for (const item of targetItems) outcomes.set(...)`, for whatever the segment marks. */
    method Record(segment: Segment)
      requires Runs(segment)
      modifies this`outcomes
      ensures outcomes == Write(old(outcomes), job.snapshot, segment)
    {
      var items, written := job.snapshot, outcomes;
      for n := 0 to |items|
        invariant written == Write(old(outcomes), items[..n], segment)
      {
        assert items[..n + 1][..n] == items[..n];
        var mark := SegmentMark(segment, items[n]);
        if mark.Some? {
          written := written[items[n].variantId := mark.value];
        }
      }
      assert items[..|items|] == items;
      outcomes := written;
    }

    /** Published percentages are distinct multiples of five, rising, at most 95, and never ahead of the work. */
    method ReportProgress(count: nat)
      requires Valid()
      modifies this`completedProducts, this`lastPublishedProgress, this`published
      ensures Valid() && completedProducts == old(completedProducts) + count
      ensures var p := Percent(completedProducts, job.totalProducts);
              if p <= old(lastPublishedProgress) then
                published == old(published) && lastPublishedProgress == old(lastPublishedProgress)
              else published == old(published) + [p] && lastPublishedProgress == p
    {
      completedProducts := completedProducts + count;
      var progress := Percent(completedProducts, job.totalProducts);
      if progress <= lastPublishedProgress {
        return;
      }
      lastPublishedProgress := progress;
      published := published + [progress];
    }
  }
}
