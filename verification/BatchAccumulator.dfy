/**
 * The batch accumulator over all interleavings of adds, drains, flush successes and flush
 * failures: nothing is lost, nothing is counted twice, and the limits hold throughout.
 */
module BatchAccumulator {
  import opened Numbers
  import opened Options

  const BATCH_SIZE := 500
  const MAX_CONCURRENT_FLUSHES := 3

  /** A buffered item; `id` stands for the object's identity. Run 0 or none is not counted. */
  datatype Item = Item(id: nat, run: Option<nat>)

  /** Where the promise chain of one flush stands. */
  datatype Stage =
    | Writing                     // upsertBatch pending
    | Cleaning                    // upsert done, per-item cleanup pending
    | Counting(pending: set<nat>) // run counters still to increment
    | Settling                    // then or catch ran, finally pending

  datatype Flight = Flight(items: seq<Item>, stage: Stage)

  datatype State = State(
    buffer: seq<Item>, flights: seq<Flight>, activeFlushes: int,
    done: seq<Item>, upserted: set<Item>, counted: set<Item>, totals: map<nat, nat>, added: set<Item>)

  const EMPTY := State([], [], 0, [], {}, {}, map[], {})

  // ----- Steps -----

  predicate CanStart(s: State) {
    |s.buffer| > 0 && s.activeFlushes < MAX_CONCURRENT_FLUSHES
  }

  /** One turn of the drain loop: splice a batch off the front and start its flush. */
  function StartFlush(s: State): State
    requires CanStart(s)
  {
    var n := Min(|s.buffer|, BATCH_SIZE);
    s.(buffer := s.buffer[n..], flights := s.flights + [Flight(s.buffer[..n], Writing)], activeFlushes := s.activeFlushes + 1)
  }

  function Drained(s: State): State
    decreases |s.buffer|
  {
    if CanStart(s) then Drained(StartFlush(s)) else s
  }

  function AllOf(items: seq<Item>): set<Item> {
    set x | x in items
  }

  function Occurs(items: seq<Item>, x: Item): nat { multiset(items)[x] }

  function WithAdded(s: State, items: seq<Item>): State {
    var t := s.(buffer := s.buffer + items, added := s.added + AllOf(items));
    if |t.buffer| >= BATCH_SIZE then Drained(t) else t
  }

  function RunsOf(items: seq<Item>): set<nat> {
    set i | 0 <= i < |items| && items[i].run.Some? && items[i].run.value != 0 :: items[i].run.value
  }

  function OfRun(items: seq<Item>, run: nat): set<Item> {
    set i | 0 <= i < |items| && items[i].run == Some(run) :: items[i]
  }

  function CountOfRun(items: seq<Item>, run: nat): nat {
    if items == [] then 0
    else CountOfRun(items[..|items| - 1], run) + if items[|items| - 1].run == Some(run) then 1 else 0
  }

  function TotalOf(totals: map<nat, nat>, run: nat): nat {
    if run in totals then totals[run] else 0
  }

  datatype Event =
    | Add(items: seq<Item>)
    | Tick                                    // the interval, or a turn of drain's loop
    | UpsertSucceeds(i: nat)
    | UpsertFails(i: nat)
    | CleanupSucceeds(i: nat)
    | CleanupFails(i: nat)
    | CountRun(i: nat, run: nat, stored: bool) // a failed increment is logged and skipped
    | CountsDone(i: nat)
    | Finally(i: nat)

  /** Each object is added once; the rest is the promise chain's own order. */
  predicate Enabled(s: State, e: Event) {
    match e
    case Add(items) => forall x :: x in items ==> Occurs(items, x) == 1 && x !in s.added
    case Tick => true
    case UpsertSucceeds(i) => i < |s.flights| && s.flights[i].stage.Writing?
    case UpsertFails(i) => i < |s.flights| && s.flights[i].stage.Writing?
    case CleanupSucceeds(i) => i < |s.flights| && s.flights[i].stage.Cleaning?
    case CleanupFails(i) => i < |s.flights| && s.flights[i].stage.Cleaning?
    case CountRun(i, run, _) => i < |s.flights| && s.flights[i].stage.Counting? && run in s.flights[i].stage.pending
    case CountsDone(i) => i < |s.flights| && s.flights[i].stage.Counting? && s.flights[i].stage.pending == {}
    case Finally(i) => i < |s.flights| && s.flights[i].stage.Settling?
  }

  function SetStage(s: State, i: nat, stage: Stage): State
    requires i < |s.flights|
  {
    s.(flights := s.flights[i := s.flights[i].(stage := stage)])
  }

  function Settle(s: State, i: nat): State
    requires i < |s.flights|
  {
    s.(flights := s.flights[i := Flight([], Settling)])
  }

  function Next(s: State, e: Event): State
    requires Enabled(s, e)
  {
    match e
    case Add(items) => WithAdded(s, items)
    case Tick => Drained(s)
    case UpsertSucceeds(i) => SetStage(s, i, Cleaning).(upserted := s.upserted + AllOf(s.flights[i].items))
    case UpsertFails(i) => Settle(s, i).(buffer := s.flights[i].items + s.buffer)
    case CleanupSucceeds(i) => SetStage(s, i, Counting(RunsOf(s.flights[i].items)))
    case CleanupFails(i) => Settle(s, i).(buffer := s.flights[i].items + s.buffer)
    case CountRun(i, run, stored) =>
      var items := s.flights[i].items;
      var t := SetStage(s, i, Counting(s.flights[i].stage.pending - {run}));
      if stored then t.(counted := s.counted + OfRun(items, run), totals := s.totals[run := TotalOf(s.totals, run) + CountOfRun(items, run)])
      else t
    case CountsDone(i) => Settle(s, i).(done := s.done + s.flights[i].items)
    case Finally(i) => s.(flights := s.flights[..i] + s.flights[i + 1..], activeFlushes := s.activeFlushes - 1)
  }

  ghost predicate IsTrace(states: seq<State>, events: seq<Event>) {
    && |states| == |events| + 1 && states[0] == EMPTY
    && forall k :: 0 <= k < |events| ==> Enabled(states[k], events[k]) && states[k + 1] == Next(states[k], events[k])
  }

  // ----- Invariant -----

  /** How often an item is in flight, over all flights. */
  function Flying(flights: seq<Flight>, x: Item): nat {
    if flights == [] then 0 else Flying(flights[..|flights| - 1], x) + Occurs(flights[|flights| - 1].items, x)
  }

  function Held(s: State, x: Item): nat {
    Occurs(s.buffer, x) + Flying(s.flights, x) + Occurs(s.done, x)
  }

  /** Every added item is in exactly one place: buffered, in flight, or finished. */
  ghost predicate Conserved(s: State) {
    forall x :: Held(s, x) == if x in s.added then 1 else 0
  }

  function CountedFor(counted: set<Item>, run: nat): set<Item> {
    set x | x in counted && x.run == Some(run)
  }

  ghost predicate FlightOk(upserted: set<Item>, counted: set<Item>, f: Flight) {
    && |f.items| <= BATCH_SIZE
    && (f.stage.Cleaning? || f.stage.Counting? ==> forall x :: x in f.items ==> x in upserted)
    && (f.stage.Settling? ==> f.items == [])
    && (forall x :: x in f.items && x in counted ==>
          f.stage.Counting? && x.run.Some? && x.run.value !in f.stage.pending)
  }

  ghost predicate FlightsOk(s: State) {
    forall i :: 0 <= i < |s.flights| ==> FlightOk(s.upserted, s.counted, s.flights[i])
  }

  /** Every run's stored total is the number of its items counted so far. */
  ghost predicate TalliesOk(totals: map<nat, nat>, counted: set<Item>) {
    forall run: nat :: TotalOf(totals, run) == |CountedFor(counted, run)|
  }

  ghost predicate Inv(s: State) {
    && s.activeFlushes == |s.flights| <= MAX_CONCURRENT_FLUSHES
    && Conserved(s) && FlightsOk(s) && TalliesOk(s.totals, s.counted)
    && (forall x :: x in s.buffer ==> x !in s.counted)
    && (forall x :: x in s.counted ==> x in s.added)
    && (forall x :: x in s.done ==> x in s.upserted)
  }

  lemma {:induction false} FlyingReplace(flights: seq<Flight>, i: nat, f: Flight, x: Item)
    requires i < |flights|
    ensures Flying(flights[i := f], x) == Flying(flights, x) - Occurs(flights[i].items, x) + Occurs(f.items, x)
  {
    var n := |flights| - 1;
    if i == n {
      assert flights[i := f][..n] == flights[..n];
    } else {
      assert flights[i := f][..n] == flights[..n][i := f];
      FlyingReplace(flights[..n], i, f, x);
    }
  }

  lemma {:induction false} FlyingDrop(flights: seq<Flight>, i: nat, x: Item)
    requires i < |flights|
    ensures Flying(flights[..i] + flights[i + 1..], x) == Flying(flights, x) - Occurs(flights[i].items, x)
  {
    var n := |flights| - 1;
    var rest := flights[..i] + flights[i + 1..];
    if i == n {
      assert rest == flights[..n];
    } else {
      assert rest[..n - 1] == flights[..n][..i] + flights[..n][i + 1..];
      FlyingDrop(flights[..n], i, x);
    }
  }

  lemma {:induction false} FlyingSomewhere(flights: seq<Flight>, x: Item)
    ensures Flying(flights, x) > 0 <==> exists i :: 0 <= i < |flights| && x in flights[i].items
  {
    if flights != [] {
      var init, last := flights[..|flights| - 1], flights[|flights| - 1];
      FlyingSomewhere(init, x);
      assert x in last.items <==> Occurs(last.items, x) > 0;
      assert forall i :: 0 <= i < |init| ==> init[i] == flights[i];
    }
  }

  /** An item of one flight occurs there once and is nowhere else. */
  lemma FlightsAreExclusive(s: State, i: nat, x: Item)
    requires Conserved(s) && i < |s.flights| && x in s.flights[i].items
    ensures x in s.added && x !in s.buffer && x !in s.done
    ensures forall j :: 0 <= j < |s.flights| && j != i ==> x !in s.flights[j].items
    ensures Occurs(s.flights[i].items, x) == 1
  {
    var others := s.flights[i := Flight([], Settling)];
    FlyingReplace(s.flights, i, Flight([], Settling), x);
    FlyingSomewhere(others, x);
    assert Held(s, x) <= 1;
    assert Occurs(s.flights[i].items, x) >= 1;
    forall j | 0 <= j < |s.flights| && j != i ensures x !in s.flights[j].items {
      assert others[j] == s.flights[j];
    }
  }

  // ----- Every step keeps the invariant -----

  lemma StartFlushKeeps(s: State)
    requires Inv(s) && CanStart(s)
    ensures Inv(StartFlush(s))
  {
    var n := Min(|s.buffer|, BATCH_SIZE);
    var t := StartFlush(s);
    assert s.buffer == s.buffer[..n] + s.buffer[n..];
    assert t.flights[..|s.flights|] == s.flights;
    forall x ensures Held(t, x) == Held(s, x) {
      assert Occurs(s.buffer, x) == Occurs(s.buffer[..n], x) + Occurs(s.buffer[n..], x);
    }
  }

  lemma {:induction false} DrainKeeps(s: State)
    requires Inv(s)
    ensures Inv(Drained(s))
    decreases |s.buffer|
  {
    if CanStart(s) {
      StartFlushKeeps(s);
      DrainKeeps(StartFlush(s));
    }
  }

  lemma AddKeeps(s: State, items: seq<Item>)
    requires Inv(s) && Enabled(s, Add(items))
    ensures Inv(WithAdded(s, items))
  {
    var t := s.(buffer := s.buffer + items, added := s.added + AllOf(items));
    forall x ensures Held(t, x) == if x in t.added then 1 else 0 {
      assert Occurs(t.buffer, x) == Occurs(s.buffer, x) + Occurs(items, x);
      assert Held(s, x) == if x in s.added then 1 else 0;
      assert x in items <==> Occurs(items, x) > 0;
    }
    assert Inv(t);
    DrainKeeps(t);
  }

  /** A flight moving to its next stage with its items. */
  lemma StageKeepsConserved(s: State, i: nat, stage: Stage)
    requires Conserved(s) && i < |s.flights|
    ensures Conserved(SetStage(s, i, stage))
  {
    var t := SetStage(s, i, stage);
    forall x ensures Held(t, x) == Held(s, x) {
      FlyingReplace(s.flights, i, t.flights[i], x);
    }
  }

  lemma StageKeeps(s: State, e: Event)
    requires Inv(s) && Enabled(s, e) && (e.UpsertSucceeds? || e.CleanupSucceeds?)
    ensures Inv(Next(s, e))
  {
    var t := Next(s, e);
    StageKeepsConserved(s, e.i, t.flights[e.i].stage);
    forall x ensures Held(t, x) == Held(SetStage(s, e.i, t.flights[e.i].stage), x) {}
    forall j | 0 <= j < |t.flights| ensures FlightOk(t.upserted, t.counted, t.flights[j]) {
      assert FlightOk(s.upserted, s.counted, s.flights[j]);
    }
  }

  /** A settled flight hands its items to the buffer or to the finished ones. */
  lemma SettleKeepsConserved(s: State, i: nat, t: State)
    requires Conserved(s) && i < |s.flights| && t.flights == Settle(s, i).flights && t.added == s.added
    requires || (t.buffer == s.flights[i].items + s.buffer && t.done == s.done)
             || (t.buffer == s.buffer && t.done == s.done + s.flights[i].items)
    ensures Conserved(t)
  {
    forall x ensures Held(t, x) == Held(s, x) {
      FlyingReplace(s.flights, i, Flight([], Settling), x);
    }
  }

  lemma SettleKeeps(s: State, e: Event)
    requires Inv(s) && Enabled(s, e) && (e.UpsertFails? || e.CleanupFails? || e.CountsDone?)
    ensures Inv(Next(s, e))
  {
    var t := Next(s, e);
    SettleKeepsConserved(s, e.i, t);
    assert FlightOk(s.upserted, s.counted, s.flights[e.i]);
  }

  lemma FinallyKeeps(s: State, i: nat)
    requires Inv(s) && Enabled(s, Finally(i))
    ensures Inv(Next(s, Finally(i)))
  {
    var t := Next(s, Finally(i));
    assert FlightOk(s.upserted, s.counted, s.flights[i]);
    forall x ensures Held(t, x) == Held(s, x) {
      FlyingDrop(s.flights, i, x);
    }
  }

  lemma {:induction false} CountIsSetSize(items: seq<Item>, run: nat)
    requires forall x :: Occurs(items, x) <= 1
    ensures CountOfRun(items, run) == |OfRun(items, run)|
  {
    if items == [] {
      assert OfRun(items, run) == {};
    } else {
      var init, last := items[..|items| - 1], items[|items| - 1];
      assert items == init + [last];
      forall x ensures Occurs(items, x) == Occurs(init, x) + Occurs([last], x) {}
      assert Occurs(items, last) <= 1 && Occurs([last], last) == 1;
      assert last !in init;
      CountIsSetSize(init, run);
      assert OfRun(items, run) == OfRun(init, run) + (if last.run == Some(run) then {last} else {});
    }
  }

  /** The items a stored increment covers: none counted before, none held elsewhere. */
  lemma NewlyCounted(s: State, i: nat, run: nat)
    requires Inv(s) && i < |s.flights| && s.flights[i].stage.Counting? && run in s.flights[i].stage.pending
    ensures CountOfRun(s.flights[i].items, run) == |OfRun(s.flights[i].items, run)|
    ensures forall x :: x in OfRun(s.flights[i].items, run) ==>
              x in s.flights[i].items && x.run == Some(run) && x !in s.counted && x in s.added && x !in s.buffer
    ensures forall x, j :: x in OfRun(s.flights[i].items, run) && 0 <= j < |s.flights| && j != i ==> x !in s.flights[j].items
  {
    var items := s.flights[i].items;
    assert FlightOk(s.upserted, s.counted, s.flights[i]);
    forall x ensures Occurs(items, x) <= 1 {
      if x in items { FlightsAreExclusive(s, i, x); }
    }
    CountIsSetSize(items, run);
    forall x | x in OfRun(items, run)
      ensures x in s.added && x !in s.buffer
      ensures forall j :: 0 <= j < |s.flights| && j != i ==> x !in s.flights[j].items
    {
      FlightsAreExclusive(s, i, x);
    }
  }

  lemma CountedForGrows(counted: set<Item>, run: nat, newly: set<Item>, r: nat)
    requires newly !! counted && forall x :: x in newly ==> x.run == Some(run)
    ensures |CountedFor(counted + newly, r)| == |CountedFor(counted, r)| + if r == run then |newly| else 0
  {
    var before, after := CountedFor(counted, r), CountedFor(counted + newly, r);
    if r == run {
      assert after == before + newly;
      assert before !! newly;
    } else {
      assert after == before;
    }
  }

  lemma TalliesGrow(totals: map<nat, nat>, counted: set<Item>, run: nat, newly: set<Item>)
    requires TalliesOk(totals, counted) && newly !! counted && forall x :: x in newly ==> x.run == Some(run)
    ensures TalliesOk(totals[run := TotalOf(totals, run) + |newly|], counted + newly)
  {
    var after := totals[run := TotalOf(totals, run) + |newly|];
    forall r: nat ensures TotalOf(after, r) == |CountedFor(counted + newly, r)| {
      CountedForGrows(counted, run, newly, r);
      assert TotalOf(totals, r) == |CountedFor(counted, r)|;
    }
  }

  /** A stored run counter grows by exactly the flight's items of that run, none of them counted before. */
  lemma CountKeeps(s: State, i: nat, run: nat, stored: bool)
    requires Inv(s) && Enabled(s, CountRun(i, run, stored))
    ensures Inv(Next(s, CountRun(i, run, stored)))
  {
    var t := Next(s, CountRun(i, run, stored));
    StageKeepsConserved(s, i, t.flights[i].stage);
    forall x ensures Held(t, x) == Held(SetStage(s, i, t.flights[i].stage), x) {}
    NewlyCounted(s, i, run);
    if stored { TalliesGrow(s.totals, s.counted, run, OfRun(s.flights[i].items, run)); }
    forall j | 0 <= j < |t.flights| ensures FlightOk(t.upserted, t.counted, t.flights[j]) {
      assert FlightOk(s.upserted, s.counted, s.flights[j]);
    }
  }

  lemma EmptyIsGood()
    ensures Inv(EMPTY)
  {
    forall run: nat ensures TotalOf(EMPTY.totals, run) == |CountedFor(EMPTY.counted, run)| {
      assert CountedFor(EMPTY.counted, run) == {};
    }
  }

  lemma StepKeepsInv(s: State, e: Event)
    requires Inv(s) && Enabled(s, e)
    ensures Inv(Next(s, e))
  {
    match e {
      case Add(items) => AddKeeps(s, items);
      case Tick => DrainKeeps(s);
      case UpsertSucceeds(_) => StageKeeps(s, e);
      case CleanupSucceeds(_) => StageKeeps(s, e);
      case CountRun(i, run, stored) => CountKeeps(s, i, run, stored);
      case Finally(i) => FinallyKeeps(s, i);
      case _ => SettleKeeps(s, e);
    }
  }

  /** Over every interleaving: limits, conservation and counting hold in each state passed. */
  lemma {:induction false} EveryStateIsGood(states: seq<State>, events: seq<Event>, k: nat)
    requires IsTrace(states, events) && k <= |events|
    ensures Inv(states[k])
  {
    if k == 0 {
      EmptyIsGood();
    } else {
      EveryStateIsGood(states, events, k - 1);
      StepKeepsInv(states[k - 1], events[k - 1]);
    }
  }

  /** Every added item is buffered, in flight, or was upserted; three flights of 500 at most. */
  lemma NothingIsDropped(states: seq<State>, events: seq<Event>, k: nat, x: Item)
    requires IsTrace(states, events) && k <= |events| && x in states[k].added
    ensures var s := states[k];
            || x in s.buffer || x in s.upserted
            || exists i :: 0 <= i < |s.flights| && x in s.flights[i].items
    ensures |states[k].flights| == states[k].activeFlushes <= MAX_CONCURRENT_FLUSHES
    ensures forall i :: 0 <= i < |states[k].flights| ==> |states[k].flights[i].items| <= BATCH_SIZE
  {
    EveryStateIsGood(states, events, k);
    var s := states[k];
    FlyingSomewhere(s.flights, x);
    assert Held(s, x) == 1;
    assert x in s.done <==> Occurs(s.done, x) > 0;
    assert x in s.buffer <==> Occurs(s.buffer, x) > 0;
    assert forall i :: 0 <= i < |s.flights| ==> FlightOk(s.upserted, s.counted, s.flights[i]);
  }

  function AddedFor(s: State, run: nat): set<Item> {
    set x | x in s.added && x.run == Some(run)
  }

  lemma {:induction false} SubsetSize(a: set<Item>, b: set<Item>)
    requires a <= b
    ensures |a| <= |b|
  {
    if x :| x in a {
      SubsetSize(a - {x}, b - {x});
    }
  }

  /** A stored increment covers only items never counted before, so a run's total never passes its items added. */
  lemma CountedAtMostOnce(states: seq<State>, events: seq<Event>, k: nat, run: nat)
    requires IsTrace(states, events) && k <= |events|
    ensures TotalOf(states[k].totals, run) <= |AddedFor(states[k], run)|
    ensures k < |events| && events[k].CountRun? && events[k].stored && events[k].run == run ==>
              forall x :: x in OfRun(states[k].flights[events[k].i].items, run) ==> x !in states[k].counted
  {
    EveryStateIsGood(states, events, k);
    var s := states[k];
    if k < |events| && events[k].CountRun? && events[k].run == run {
      NewlyCounted(s, events[k].i, run);
    }
    SubsetSize(CountedFor(s.counted, run), AddedFor(s, run));
  }

  /** `drain` returns when its loop condition is false; by then everything added has been upserted and finished once. */
  lemma DrainReturnsWithEverythingUpserted(states: seq<State>, events: seq<Event>, k: nat)
    requires IsTrace(states, events) && k <= |events|
    requires !(|states[k].buffer| > 0 || states[k].activeFlushes > 0)
    ensures forall x :: Occurs(states[k].done, x) == if x in states[k].added then 1 else 0
    ensures forall x :: x in states[k].added ==> x in states[k].upserted
  {
    EveryStateIsGood(states, events, k);
    var s := states[k];
    assert s.flights == [];
    forall x ensures Occurs(s.done, x) == if x in s.added then 1 else 0 {
      assert Held(s, x) == if x in s.added then 1 else 0;
    }
    forall x | x in s.added ensures x in s.upserted {
      assert Occurs(s.done, x) == 1;
      assert x in s.done;
    }
  }

  /** One more item: its run joins, and only its run's count grows. A run not seen so far counts zero. */
  lemma RunsGrow(items: seq<Item>, i: nat)
    requires i < |items|
    ensures RunsOf(items[..i + 1]) ==
            RunsOf(items[..i]) + if items[i].run.Some? && items[i].run.value != 0 then {items[i].run.value} else {}
    ensures forall run: nat :: CountOfRun(items[..i + 1], run) == CountOfRun(items[..i], run) + if items[i].run == Some(run) then 1 else 0
    ensures forall run: nat :: run != 0 && run !in RunsOf(items[..i]) ==> CountOfRun(items[..i], run) == 0
  {
    assert items[..i + 1][..i] == items[..i];
    forall run: nat | run != 0 && run !in RunsOf(items[..i]) ensures CountOfRun(items[..i], run) == 0 {
      UnseenRunCountsZero(items[..i], run);
    }
    var a, b := items[..i], items[..i + 1];
    assert forall k :: 0 <= k < i ==> a[k] == b[k];
    assert b[i] == items[i];
    assert forall run: nat :: run in RunsOf(a) ==> run in RunsOf(b);
  }

  lemma {:induction false} UnseenRunCountsZero(items: seq<Item>, run: nat)
    requires run != 0 && run !in RunsOf(items)
    ensures CountOfRun(items, run) == 0
  {
    if items != [] {
      var init := items[..|items| - 1];
      assert forall k :: 0 <= k < |init| ==> init[k] == items[k];
      UnseenRunCountsZero(init, run);
    }
  }

  // ----- Batches -----

  /** The flight took batch j of a buffer cut into 500 items each, the last one perhaps shorter. */
  predicate TookBatch(f: Flight, buffer: seq<Item>, j: nat) {
    500 * j < |buffer| && f == Flight(buffer[500 * j..Min(500 * j + 500, |buffer|)], Writing)
  }

  /** The buffer's first batches took off, in order, while fewer than three flights were active. */
  ghost predicate DrainedInto(s: State, t: State, started: seq<Flight>) {
    && t == s.(buffer := s.buffer[Min(500 * |started|, |s.buffer|)..], flights := s.flights + started,
               activeFlushes := s.activeFlushes + |started|)
    && (forall j :: 0 <= j < |started| ==> TookBatch(started[j], s.buffer, j))
    && (started != [] ==> t.activeFlushes <= 3) && (t.buffer == [] || t.activeFlushes >= 3)
  }

  ghost predicate DrainedFrom(s: State, t: State) {
    exists started :: DrainedInto(s, t, started)
  }

  lemma SliceOfRest(buffer: seq<Item>, n: nat, lo: nat, hi: nat)
    requires lo <= hi && n + hi <= |buffer|
    ensures buffer[n..][lo..hi] == buffer[n + lo..n + hi]
  {
  }

  lemma LaterBatch(f: Flight, buffer: seq<Item>, j: nat)
    requires TookBatch(f, buffer[Min(500, |buffer|)..], j)
    ensures TookBatch(f, buffer, j + 1)
  {
    SliceOfRest(buffer, 500, 500 * j, Min(500 * j + 500, |buffer| - 500));
  }

  lemma OneMoreBatch(s: State, t: State, later: seq<Flight>)
    requires CanStart(s) && DrainedInto(StartFlush(s), t, later)
    ensures DrainedFrom(s, t)
  {
    var rest := StartFlush(s).buffer;
    var first := Flight(s.buffer[..Min(500, |s.buffer|)], Writing);
    var started := [first] + later;
    assert TookBatch(first, s.buffer, 0);
    forall j | 0 <= j < |started| ensures TookBatch(started[j], s.buffer, j) {
      if j > 0 {
        assert TookBatch(later[j - 1], rest, j - 1);
        LaterBatch(started[j], s.buffer, j - 1);
      }
    }
    assert rest[Min(500 * |later|, |rest|)..] == s.buffer[Min(500 * |started|, |s.buffer|)..];
    assert s.flights + started == StartFlush(s).flights + later;
    assert DrainedInto(s, t, started);
  }

  lemma {:induction false} DrainExactly(s: State)
    ensures DrainedFrom(s, Drained(s))
    decreases |s.buffer|
  {
    if CanStart(s) {
      DrainExactly(StartFlush(s));
      var later :| DrainedInto(StartFlush(s), Drained(s), later);
      OneMoreBatch(s, Drained(s), later);
    } else {
      assert s.buffer[0..] == s.buffer && s.flights + [] == s.flights;
      assert DrainedInto(s, s, []);
    }
  }

  /** The items queued up behind the others; from 500 on the buffer was drained. */
  ghost predicate AddedInto(s: State, t: State, items: seq<Item>) {
    var queued := s.(buffer := s.buffer + items, added := t.added);
    && (forall x :: x in t.added <==> x in s.added || x in items)
    && if |s.buffer| + |items| >= 500 then DrainedFrom(queued, t) else t == queued
  }

  lemma AddExactly(s: State, items: seq<Item>)
    ensures AddedInto(s, WithAdded(s, items), items)
  {
    var queued := s.(buffer := s.buffer + items, added := s.added + AllOf(items));
    DrainExactly(queued);
    assert WithAdded(s, items).added == queued.added;
  }

  // ----- The service's own fields -----

  class BatchAccumulatorService {
    var buffer: seq<Item>
    var activeFlushes: int
    var flights: seq<Flight>
    ghost var history: State

    /** The fields agree with the modelled state, which also remembers what was added and written. */
    ghost predicate Valid()
      reads this
    {
      history.buffer == buffer && history.activeFlushes == activeFlushes && history.flights == flights
    }

    constructor ()
      ensures Valid() && history == EMPTY
    {
      buffer, activeFlushes, flights, history := [], 0, [], EMPTY;
    }

    method AddMany(items: seq<Item>)
      requires Valid()
      modifies this
      ensures Valid() && history == WithAdded(old(history), items) && AddedInto(old(history), history, items)
    {
      AddExactly(history, items);
      buffer := buffer + items;
      history := history.(buffer := buffer, added := history.added + AllOf(items));
      if |buffer| >= BATCH_SIZE {
        DrainBuffer();
      }
    }

    method DrainBuffer()
      requires Valid()
      modifies this
      ensures Valid() && history == Drained(old(history)) && DrainedFrom(old(history), history)
    {
      ghost var before := history;
      while |buffer| > 0 && activeFlushes < MAX_CONCURRENT_FLUSHES
        invariant Valid()
        invariant Drained(history) == Drained(old(history))
        decreases |buffer|
      {
        history := StartFlush(history);
        var n := Min(|buffer|, BATCH_SIZE);
        flights := flights + [Flight(buffer[..n], Writing)];
        buffer := buffer[n..];
        activeFlushes := activeFlushes + 1;
      }
      DrainExactly(before);
    }

    /** The then handler's tally: items per run that has a nonzero number. */
    method RunCounts(batch: seq<Item>) returns (runCounts: map<nat, nat>)
      ensures runCounts.Keys == RunsOf(batch)
      ensures forall run :: run in runCounts <==> run != 0 && exists i :: 0 <= i < |batch| && batch[i].run == Some(run)
      ensures forall run :: run in runCounts ==> runCounts[run] == CountOfRun(batch, run)
    {
      runCounts := map[];
      for i := 0 to |batch|
        invariant runCounts.Keys == RunsOf(batch[..i])
        invariant forall run :: run in runCounts ==> runCounts[run] == CountOfRun(batch[..i], run)
      {
        var item := batch[i];
        RunsGrow(batch, i);
        if item.run.Some? && item.run.value != 0 {
          var run := item.run.value;
          runCounts := runCounts[run := (if run in runCounts then runCounts[run] else 0) + 1];
        }
      }
      assert batch[..|batch|] == batch;
    }

    /** The catch handler: the failed batch goes back to the front. */
    method OnFailure(i: nat)
      requires Valid() && i < |flights| && (flights[i].stage.Writing? || flights[i].stage.Cleaning?)
      modifies this
      ensures Valid()
      ensures history == Next(old(history), if old(flights)[i].stage.Writing? then UpsertFails(i) else CleanupFails(i))
      ensures buffer == old(flights)[i].items + old(buffer) && flights == old(flights)[i := Flight([], Settling)]
      ensures activeFlushes == old(activeFlushes)
    {
      buffer := flights[i].items + buffer;
      flights := flights[i := Flight([], Settling)];
      history := history.(buffer := buffer, flights := flights);
    }

    method OnFinally(i: nat)
      requires Valid() && i < |flights| && flights[i].stage.Settling?
      modifies this
      ensures Valid() && history == Next(old(history), Finally(i))
      ensures activeFlushes == old(activeFlushes) - 1 && flights == old(flights)[..i] + old(flights)[i + 1..] && buffer == old(buffer)
    {
      flights := flights[..i] + flights[i + 1..];
      activeFlushes := activeFlushes - 1;
      history := history.(flights := flights, activeFlushes := activeFlushes);
    }
  }
}
