/**
 * Which write about a thing (a listing, a row, a product) comes last: up to three flushes run at
 * once and failed ones start over, so without further conditions it need not be the newest one.
 */
module FlushOrder {
  import opened Numbers
  import opened Options
  import opened BatchAccumulator

  /** Item ids count arrivals upwards. */
  ghost predicate Numbered(states: seq<State>, events: seq<Event>)
    requires |events| <= |states|
  {
    forall k :: 0 <= k < |events| && events[k].Add? ==>
      && (forall i, j :: 0 <= i < j < |events[k].items| ==> events[k].items[i].id < events[k].items[j].id)
      && (forall x, y :: x in states[k].added && y in events[k].items ==> x.id < y.id)
  }

  /** What an event writes: its flight's items if it is a successful upsert. */
  function WrittenBy(s: State, e: Event): seq<Item> {
    if e.UpsertSucceeds? && e.i < |s.flights| then s.flights[e.i].items else []
  }

  function Written(states: seq<State>, events: seq<Event>, m: nat): seq<Item>
    requires m < |events| < |states|
  {
    WrittenBy(states[m], events[m])
  }

  function Joined(batches: seq<seq<Item>>): seq<Item> {
    if batches == [] then [] else Joined(batches[..|batches| - 1]) + batches[|batches| - 1]
  }

  function Batches(states: seq<State>, events: seq<Event>, k: nat): seq<seq<Item>>
    requires k <= |events| < |states|
  {
    seq(k, m requires 0 <= m < k => Written(states, events, m))
  }

  /** Everything written by the first k events, in the order it was. */
  function Log(states: seq<State>, events: seq<Event>, k: nat): seq<Item>
    requires k <= |events| < |states|
  {
    Joined(Batches(states, events, k))
  }

  lemma LogGrows(states: seq<State>, events: seq<Event>, k: nat)
    requires 0 < k <= |events| < |states|
    ensures Log(states, events, k) == Log(states, events, k - 1) + Written(states, events, k - 1)
  {
    assert Batches(states, events, k)[..k - 1] == Batches(states, events, k - 1);
  }

  function LastAbout(items: seq<Item>, about: Item -> bool): Option<Item> {
    if items == [] then None
    else if about(items[|items| - 1]) then Some(items[|items| - 1])
    else LastAbout(items[..|items| - 1], about)
  }

  lemma {:induction false} LastIsThere(items: seq<Item>, about: Item -> bool)
    ensures var r := LastAbout(items, about);
            && (r.Some? ==> r.value in items && about(r.value))
            && (r.None? <==> forall x :: x in items ==> !about(x))
  {
    if items != [] {
      assert items == items[..|items| - 1] + [items[|items| - 1]];
      LastIsThere(items[..|items| - 1], about);
    }
  }

  lemma {:induction false} LastOfConcat(a: seq<Item>, b: seq<Item>, about: Item -> bool)
    ensures LastAbout(a + b, about) == if LastAbout(b, about).Some? then LastAbout(b, about) else LastAbout(a, about)
  {
    if b == [] {
      assert a + b == a;
    } else {
      assert (a + b)[..|a + b| - 1] == a + b[..|b| - 1];
      LastOfConcat(a, b[..|b| - 1], about);
    }
  }

  // ----- Arrival order among the items held -----

  ghost predicate Rising(items: seq<Item>, about: Item -> bool) {
    forall i, j :: 0 <= i < j < |items| && about(items[i]) && about(items[j]) ==> items[i].id < items[j].id
  }

  ghost predicate Below(a: seq<Item>, b: seq<Item>, about: Item -> bool) {
    forall x, y :: x in a && y in b && about(x) && about(y) ==> x.id < y.id
  }

  ghost predicate Holds(items: seq<Item>, about: Item -> bool) {
    exists x :: x in items && about(x)
  }

  /** The flush may still write its items, for the first time or after a failed cleanup. */
  predicate Live(f: Flight) {
    f.stage.Writing? || f.stage.Cleaning?
  }

  ghost predicate HoldsLive(s: State, i: nat, about: Item -> bool)
    requires i < |s.flights|
  {
    Live(s.flights[i]) && Holds(s.flights[i].items, about)
  }

  /** No two flushes that may still write hold items about the same thing. */
  ghost predicate Apart(s: State, about: Item -> bool) {
    forall i, j :: 0 <= i < j < |s.flights| ==> !(HoldsLive(s, i, about) && HoldsLive(s, j, about))
  }

  /** Items older than everything that may still be written. */
  ghost predicate Under(items: seq<Item>, s: State, about: Item -> bool) {
    && Below(items, s.buffer, about)
    && forall i :: 0 <= i < |s.flights| && Live(s.flights[i]) ==> Below(items, s.flights[i].items, about)
  }

  ghost predicate FlightInOrder(s: State, about: Item -> bool, i: nat)
    requires i < |s.flights|
  {
    if Live(s.flights[i]) then Rising(s.flights[i].items, about) && Below(s.flights[i].items, s.buffer, about)
    else Under(s.flights[i].items, s, about)
  }

  /** Items past their last write are older than those in live flights, and those older than the buffer, which is in arrival order. */
  ghost predicate Ordered(s: State, about: Item -> bool) {
    && Rising(s.buffer, about) && Under(s.done, s, about)
    && (forall i :: 0 <= i < |s.flights| ==> FlightInOrder(s, about, i))
  }

  lemma BufferSplits(buffer: seq<Item>, n: nat, about: Item -> bool)
    requires n <= |buffer| && Rising(buffer, about)
    ensures Rising(buffer[..n], about) && Rising(buffer[n..], about) && Below(buffer[..n], buffer[n..], about)
  {
  }

  lemma BelowParts(done: seq<Item>, buffer: seq<Item>, n: nat, about: Item -> bool)
    requires n <= |buffer| && Below(done, buffer, about)
    ensures Below(done, buffer[..n], about) && Below(done, buffer[n..], about)
  {
    assert forall x :: x in buffer[..n] || x in buffer[n..] ==> x in buffer;
  }

  lemma StartFlushKeepsOrder(s: State, about: Item -> bool)
    requires Ordered(s, about) && CanStart(s)
    ensures Ordered(StartFlush(s), about)
  {
    var t, n := StartFlush(s), Min(|s.buffer|, BATCH_SIZE);
    BufferSplits(s.buffer, n, about);
    BelowParts(s.done, s.buffer, n, about);
    forall i | 0 <= i < |t.flights| ensures FlightInOrder(t, about, i) {
      if i < |s.flights| {
        assert FlightInOrder(s, about, i) && t.flights[i] == s.flights[i];
        BelowParts(s.flights[i].items, s.buffer, n, about);
      }
    }
  }

  lemma {:induction false} DrainKeepsOrder(s: State, about: Item -> bool)
    requires Ordered(s, about)
    ensures Ordered(Drained(s), about)
    decreases |s.buffer|
  {
    if CanStart(s) {
      StartFlushKeepsOrder(s, about);
      DrainKeepsOrder(StartFlush(s), about);
    }
  }

  lemma AddKeepsOrder(s: State, items: seq<Item>, about: Item -> bool)
    requires Ordered(s, about) && Inv(s)
    requires forall i, j :: 0 <= i < j < |items| ==> items[i].id < items[j].id
    requires forall x, y :: x in s.added && y in items ==> x.id < y.id
    ensures Ordered(WithAdded(s, items), about)
  {
    var t := s.(buffer := s.buffer + items, added := s.added + AllOf(items));
    forall x | x in s.buffer || x in s.done ensures x in s.added { HeldWasAdded(s, x); }
    assert forall i :: 0 <= i < |s.buffer| ==> s.buffer[i] in s.buffer;
    assert forall i :: 0 <= i < |items| ==> items[i] in items;
    forall i | 0 <= i < |t.flights| ensures FlightInOrder(t, about, i) {
      assert FlightInOrder(s, about, i);
      forall x | x in s.flights[i].items ensures x in s.added { FlightsAreExclusive(s, i, x); }
    }
    DrainKeepsOrder(t, about);
  }

  lemma HeldWasAdded(s: State, x: Item)
    requires Inv(s) && (x in s.buffer || x in s.done)
    ensures x in s.added
  {
    assert Held(s, x) == if x in s.added then 1 else 0;
    assert x in s.buffer ==> Occurs(s.buffer, x) > 0;
    assert x in s.done ==> Occurs(s.done, x) > 0;
  }

  lemma StrangersAreBelow(s: State, i: nat, j: nat, about: Item -> bool)
    requires Apart(s, about) && i < |s.flights| && j < |s.flights| && i != j && Live(s.flights[i]) && Live(s.flights[j])
    ensures Below(s.flights[i].items, s.flights[j].items, about)
  {
    assert !(HoldsLive(s, i, about) && HoldsLive(s, j, about));
  }

  /** A flush that fails or finishes hands its items on in order, unless another live one holds some of the same. */
  lemma SettleKeepsOrder(s: State, e: Event, about: Item -> bool)
    requires Ordered(s, about) && Enabled(s, e) && (e.UpsertFails? || e.CleanupFails? || e.CountsDone?) && Apart(s, about)
    ensures Ordered(Next(s, e), about)
  {
    var t := Next(s, e);
    assert FlightInOrder(s, about, e.i);
    forall j | 0 <= j < |t.flights| ensures FlightInOrder(t, about, j) {
      assert FlightInOrder(s, about, j);
      if j != e.i && Live(s.flights[j]) && Live(s.flights[e.i]) {
        StrangersAreBelow(s, j, e.i, about);
      }
    }
  }

  /** A flight whose cleanups are through will not write again. */
  lemma RetiringKeepsOrder(s: State, i: nat, about: Item -> bool)
    requires Ordered(s, about) && Enabled(s, CleanupSucceeds(i)) && Apart(s, about)
    ensures Ordered(Next(s, CleanupSucceeds(i)), about)
  {
    var t := Next(s, CleanupSucceeds(i));
    assert FlightInOrder(s, about, i);
    forall j | 0 <= j < |t.flights| && Live(t.flights[j]) ensures Below(t.flights[i].items, t.flights[j].items, about) {
      StrangersAreBelow(s, i, j, about);
    }
    forall j | 0 <= j < |t.flights| ensures FlightInOrder(t, about, j) {
      assert FlightInOrder(s, about, j);
    }
  }

  lemma StageKeepsOrder(s: State, e: Event, about: Item -> bool)
    requires Ordered(s, about) && Enabled(s, e) && (e.UpsertSucceeds? || e.CountRun?)
    ensures Ordered(Next(s, e), about)
  {
    var t := Next(s, e);
    forall j | 0 <= j < |t.flights| ensures FlightInOrder(t, about, j) {
      assert FlightInOrder(s, about, j) && t.flights[j].items == s.flights[j].items;
    }
  }

  lemma FinallyKeepsOrder(s: State, i: nat, about: Item -> bool)
    requires Ordered(s, about) && Enabled(s, Finally(i))
    ensures Ordered(Next(s, Finally(i)), about)
  {
    var t := Next(s, Finally(i));
    assert forall j :: 0 <= j < |t.flights| ==> t.flights[j] == s.flights[if j < i then j else j + 1];
    forall j | 0 <= j < |t.flights| ensures FlightInOrder(t, about, j) {
      assert FlightInOrder(s, about, if j < i then j else j + 1);
    }
  }

  lemma StepKeepsOrder(s: State, e: Event, about: Item -> bool)
    requires Ordered(s, about) && Inv(s) && Enabled(s, e) && Apart(s, about)
    requires e.Add? ==> forall i, j :: 0 <= i < j < |e.items| ==> e.items[i].id < e.items[j].id
    requires e.Add? ==> forall x, y :: x in s.added && y in e.items ==> x.id < y.id
    ensures Ordered(Next(s, e), about)
  {
    match e {
      case Add(items) => AddKeepsOrder(s, items, about);
      case Tick => DrainKeepsOrder(s, about);
      case UpsertFails(_) => SettleKeepsOrder(s, e, about);
      case CleanupFails(_) => SettleKeepsOrder(s, e, about);
      case CountsDone(_) => SettleKeepsOrder(s, e, about);
      case CleanupSucceeds(i) => RetiringKeepsOrder(s, i, about);
      case Finally(i) => FinallyKeepsOrder(s, i, about);
      case _ => StageKeepsOrder(s, e, about);
    }
  }

  // ----- The newest item is written last -----

  ghost predicate IsNewest(added: set<Item>, about: Item -> bool, x: Item) {
    x in added && about(x) && forall y :: y in added && about(y) && y != x ==> y.id < x.id
  }

  /** Some item is still to be written, for the first time or again. */
  ghost predicate Pending(s: State, about: Item -> bool) {
    || Holds(s.buffer, about)
    || exists i :: 0 <= i < |s.flights| && s.flights[i].stage.Writing? && Holds(s.flights[i].items, about)
  }

  ghost predicate NewestIsLast(added: set<Item>, log: seq<Item>, about: Item -> bool) {
    forall x :: IsNewest(added, about, x) ==> LastAbout(log, about) == Some(x)
  }

  lemma StartFlushKeepsPending(s: State, about: Item -> bool)
    requires CanStart(s) && Pending(s, about)
    ensures Pending(StartFlush(s), about)
  {
    var t := StartFlush(s);
    var n := |s.flights|;
    if x :| x in s.buffer && about(x) {
      assert s.buffer == t.flights[n].items + t.buffer;
      assert x in t.flights[n].items || x in t.buffer;
    } else {
      var i :| 0 <= i < n && s.flights[i].stage.Writing? && Holds(s.flights[i].items, about);
      assert t.flights[i] == s.flights[i];
    }
  }

  lemma {:induction false} DrainKeepsPending(s: State, about: Item -> bool)
    ensures Pending(s, about) ==> Pending(Drained(s), about)
    ensures Drained(s).added == s.added
    decreases |s.buffer|
  {
    if CanStart(s) {
      if Pending(s, about) {
        StartFlushKeepsPending(s, about);
      }
      DrainKeepsPending(StartFlush(s), about);
    }
  }

  lemma AddKeepsNewest(s: State, items: seq<Item>, log: seq<Item>, about: Item -> bool)
    requires Pending(s, about) || NewestIsLast(s.added, log, about)
    ensures Pending(WithAdded(s, items), about) || NewestIsLast(WithAdded(s, items).added, log, about)
  {
    var t := s.(buffer := s.buffer + items, added := s.added + AllOf(items));
    DrainKeepsPending(t, about);
    if Pending(s, about) || Holds(items, about) {
      assert Pending(t, about) by {
        assert forall x :: x in items || x in s.buffer ==> x in t.buffer;
      }
    } else {
      forall x | IsNewest(t.added, about, x) ensures IsNewest(s.added, about, x) {
      }
    }
  }

  /** The newest item is in the flight just written, unless one is still buffered. */
  lemma NewestIsWritten(s: State, i: nat, about: Item -> bool, x: Item)
    requires Inv(s) && Ordered(s, about) && Apart(s, about) && i < |s.flights| && Live(s.flights[i])
    requires Holds(s.flights[i].items, about) && !Holds(s.buffer, about) && IsNewest(s.added, about, x)
    ensures LastAbout(s.flights[i].items, about) == Some(x)
  {
    var own := s.flights[i].items;
    var z :| z in own && about(z);
    FlightsAreExclusive(s, i, z);
    assert FlightInOrder(s, about, i);
    assert Held(s, x) == 1;
    FlyingSomewhere(s.flights, x);
    assert x !in s.done && x !in s.buffer;
    var j :| 0 <= j < |s.flights| && x in s.flights[j].items;
    assert FlightInOrder(s, about, j);
    assert Holds(s.flights[j].items, about);
    assert j == i by {
      assert i < j ==> !(HoldsLive(s, i, about) && HoldsLive(s, j, about));
      assert j < i ==> !(HoldsLive(s, j, about) && HoldsLive(s, i, about));
    }
    LastIsThere(own, about);
    var last := LastAbout(own, about).value;
    FlightsAreExclusive(s, i, last);
    LastIsBiggest(own, about, x);
  }

  lemma {:induction false} LastIsBiggest(items: seq<Item>, about: Item -> bool, x: Item)
    requires Rising(items, about) && x in items && about(x)
    ensures LastAbout(items, about).Some? && LastAbout(items, about).value.id >= x.id
  {
    var n := |items| - 1;
    if about(items[n]) {
      var i :| 0 <= i <= n && items[i] == x;
    } else {
      assert items == items[..n] + [items[n]];
      assert x in items[..n];
      LastIsBiggest(items[..n], about, x);
    }
  }

  lemma UpsertKeepsNewest(s: State, i: nat, log: seq<Item>, about: Item -> bool)
    requires Inv(s) && Ordered(s, about) && Apart(s, about) && Enabled(s, UpsertSucceeds(i))
    requires Pending(s, about) || NewestIsLast(s.added, log, about)
    ensures Pending(Next(s, UpsertSucceeds(i)), about) || NewestIsLast(s.added, log + s.flights[i].items, about)
  {
    var t := Next(s, UpsertSucceeds(i));
    var own := s.flights[i].items;
    LastOfConcat(log, own, about);
    LastIsThere(own, about);
    if Holds(own, about) {
      if !Holds(s.buffer, about) {
        forall x | IsNewest(s.added, about, x) ensures LastAbout(log + own, about) == Some(x) {
          NewestIsWritten(s, i, about, x);
        }
      }
    } else if Pending(s, about) && !Holds(s.buffer, about) {
      var j :| 0 <= j < |s.flights| && s.flights[j].stage.Writing? && Holds(s.flights[j].items, about);
      assert j != i;
      assert t.flights[j] == s.flights[j];
    }
  }

  lemma HandOverKeepsPending(s: State, e: Event, about: Item -> bool)
    requires Enabled(s, e) && !e.Add? && !e.Tick? && !e.UpsertSucceeds? && Pending(s, about)
    ensures Pending(Next(s, e), about)
  {
    var t := Next(s, e);
    if Holds(s.buffer, about) {
      assert forall x :: x in s.buffer ==> x in t.buffer;
    } else {
      var j :| 0 <= j < |s.flights| && s.flights[j].stage.Writing? && Holds(s.flights[j].items, about);
      if e.UpsertFails? && e.i == j {
        assert forall x :: x in s.flights[j].items ==> x in t.buffer;
      } else {
        var now := if e.Finally? && e.i < j then j - 1 else j;
        assert t.flights[now] == s.flights[j];
      }
    }
  }

  lemma StepKeepsNewest(s: State, e: Event, log: seq<Item>, about: Item -> bool)
    requires Inv(s) && Ordered(s, about) && Apart(s, about) && Enabled(s, e)
    requires Pending(s, about) || NewestIsLast(s.added, log, about)
    ensures var log' := log + WrittenBy(s, e);
            Pending(Next(s, e), about) || NewestIsLast(Next(s, e).added, log', about)
  {
    assert log + [] == log;
    match e {
      case Add(items) => AddKeepsNewest(s, items, log, about);
      case Tick => DrainKeepsPending(s, about);
      case UpsertSucceeds(i) => UpsertKeepsNewest(s, i, log, about);
      case _ =>
        if Pending(s, about) {
          HandOverKeepsPending(s, e, about);
        }
    }
  }

  // ----- Whole traces -----

  ghost predicate AlwaysApart(states: seq<State>, about: Item -> bool, k: nat) {
    forall j :: 0 <= j < k && j < |states| ==> Apart(states[j], about)
  }

  lemma {:induction false} TraceKeepsOrder(states: seq<State>, events: seq<Event>, k: nat, about: Item -> bool)
    requires IsTrace(states, events) && Numbered(states, events) && k <= |events| && AlwaysApart(states, about, k)
    ensures Ordered(states[k], about)
    ensures Pending(states[k], about) || NewestIsLast(states[k].added, Log(states, events, k), about)
  {
    if k > 0 {
      TraceKeepsOrder(states, events, k - 1, about);
      EveryStateIsGood(states, events, k - 1);
      StepKeepsOrder(states[k - 1], events[k - 1], about);
      LogGrows(states, events, k);
      StepKeepsNewest(states[k - 1], events[k - 1], Log(states, events, k - 1), about);
    }
  }

  /** If no two flushes ever held items about the same thing, then once all is drained the newest of them was written last. */
  lemma NewestIsWrittenLast(states: seq<State>, events: seq<Event>, k: nat, about: Item -> bool, x: Item)
    requires IsTrace(states, events) && Numbered(states, events) && k <= |events| && AlwaysApart(states, about, k)
    requires |states[k].buffer| == 0 && states[k].activeFlushes == 0
    requires IsNewest(states[k].added, about, x)
    ensures LastAbout(Log(states, events, k), about) == Some(x)
  {
    TraceKeepsOrder(states, events, k, about);
    EveryStateIsGood(states, events, k);
    assert states[k].flights == [];
  }

  // ----- Reachable states -----

  /** Some numbered trace ends in s, having written the log. */
  ghost predicate Reaches(s: State, log: seq<Item>) {
    exists states, events :: IsTrace(states, events) && Numbered(states, events)
                             && states[|events|] == s && Log(states, events, |events|) == log
  }

  lemma {:induction false} LogOfPrefix(states: seq<State>, events: seq<Event>, more: seq<State>, one: seq<Event>, k: nat)
    requires IsTrace(states, events) && IsTrace(more, one) && k <= |events| <= |one|
    requires more[..|states|] == states && one[..|events|] == events
    ensures Log(more, one, k) == Log(states, events, k)
  {
    if k > 0 {
      LogOfPrefix(states, events, more, one, k - 1);
      LogGrows(states, events, k);
      LogGrows(more, one, k);
      assert one[k - 1] == one[..|events|][k - 1] && more[k - 1] == more[..|states|][k - 1];
    }
  }

  lemma TraceStep(states: seq<State>, events: seq<Event>, e: Event)
    requires IsTrace(states, events) && Enabled(states[|events|], e)
    ensures IsTrace(states + [Next(states[|events|], e)], events + [e])
  {
    var more, one := states + [Next(states[|events|], e)], events + [e];
    forall k | 0 <= k < |one| ensures Enabled(more[k], one[k]) && more[k + 1] == Next(more[k], one[k]) {
      if k < |events| {
        assert more[k] == states[k] && more[k + 1] == states[k + 1] && one[k] == events[k];
      }
    }
  }

  lemma NumberedStep(states: seq<State>, events: seq<Event>, e: Event, t: State)
    requires |states| == |events| + 1 && Numbered(states, events)
    requires e.Add? ==> |e.items| == 1 && forall x :: x in states[|events|].added ==> x.id < e.items[0].id
    ensures Numbered(states + [t], events + [e])
  {
    var more, one := states + [t], events + [e];
    forall k | 0 <= k < |one| && one[k].Add?
      ensures forall i, j :: 0 <= i < j < |one[k].items| ==> one[k].items[i].id < one[k].items[j].id
      ensures forall x, y :: x in more[k].added && y in one[k].items ==> x.id < y.id
    {
      assert more[k] == states[k];
      if k < |events| {
        assert one[k] == events[k];
      }
    }
  }

  lemma ReachesBy(states: seq<State>, events: seq<Event>)
    requires IsTrace(states, events) && Numbered(states, events)
    ensures Reaches(states[|events|], Log(states, events, |events|))
  {
  }

  lemma ReachStep(s: State, log: seq<Item>, e: Event)
    requires Reaches(s, log) && Enabled(s, e)
    requires e.Add? ==> |e.items| == 1 && forall x :: x in s.added ==> x.id < e.items[0].id
    ensures Reaches(Next(s, e), log + WrittenBy(s, e))
  {
    var states, events :| IsTrace(states, events) && Numbered(states, events)
                          && states[|events|] == s && Log(states, events, |events|) == log;
    var t := Next(s, e);
    var more, one := states + [t], events + [e];
    TraceStep(states, events, e);
    NumberedStep(states, events, e, t);
    ReachesBy(more, one);
    LogOfPrefix(states, events, more, one, |events|);
    LogGrows(more, one, |one|);
  }

  lemma ReachedIsGood(s: State, log: seq<Item>)
    requires Reaches(s, log)
    ensures Inv(s)
  {
    var states, events :| IsTrace(states, events) && Numbered(states, events)
                          && states[|events|] == s && Log(states, events, |events|) == log;
    EveryStateIsGood(states, events, |events|);
  }
}
