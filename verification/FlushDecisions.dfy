/**
 * Exactly when everything the flushes may still do, short of new arrivals, leaves a given item
 * written last about its listing or row.
 */
module FlushDecisions {
  import opened Numbers
  import opened Options
  import opened BatchAccumulator
  import opened FlushOrder
  import opened FlushContinuations

  // ----- The condition -----

  datatype Place = InBuffer | InFlight(i: nat) | Nowhere

  /** Whatever may still be written about it is in this place. */
  ghost predicate OnlyAt(s: State, about: Item -> bool, p: Place) {
    && (p.InBuffer? || !Holds(s.buffer, about))
    && forall i :: 0 <= i < |s.flights| && p != InFlight(i) ==> !HoldsLive(s, i, about)
  }

  /** x comes last there; once written it must also be the last written so far. */
  ghost predicate EndsOn(s: State, log: seq<Item>, about: Item -> bool, x: Item, p: Place) {
    match p
    case InBuffer => LastAbout(s.buffer, about) == Some(x)
    case InFlight(i) =>
      && i < |s.flights| && Live(s.flights[i]) && LastAbout(s.flights[i].items, about) == Some(x)
      && (s.flights[i].stage.Cleaning? ==> LastAbout(log, about) == Some(x))
    case Nowhere => LastAbout(log, about) == Some(x)
  }

  ghost predicate Decided(s: State, log: seq<Item>, about: Item -> bool, x: Item) {
    exists p :: OnlyAt(s, about, p) && EndsOn(s, log, about, x, p)
  }

  /** Some place holds an item about it, but not x. */
  ghost predicate RivalElsewhere(s: State, about: Item -> bool, x: Item) {
    || (Holds(s.buffer, about) && x !in s.buffer)
    || exists i :: 0 <= i < |s.flights| && HoldsLive(s, i, about) && x !in s.flights[i].items
  }

  ghost predicate OnlyItself(items: seq<Item>, about: Item -> bool, x: Item) {
    forall y :: y in items && about(y) ==> y == x
  }

  /** Nothing but x may still be written about it. */
  ghost predicate Alone(s: State, about: Item -> bool, x: Item) {
    && OnlyItself(s.buffer, about, x)
    && forall i :: 0 <= i < |s.flights| && Live(s.flights[i]) ==> OnlyItself(s.flights[i].items, about, x)
  }

  function LiveItems(flights: seq<Flight>): nat {
    if flights == [] then 0
    else LiveItems(flights[..|flights| - 1]) + if Live(flights[|flights| - 1]) then |flights[|flights| - 1].items| else 0
  }

  /** All that may still be written fits into one batch. */
  predicate FitsOneBatch(s: State) {
    |s.buffer| + LiveItems(s.flights) <= BATCH_SIZE
  }

  /** Whole cells of g items, all that is about it within one of them. */
  ghost predicate InCells(items: seq<Item>, about: Item -> bool, g: nat)
    requires 0 < g
  {
    && |items| % g == 0
    && forall i, j :: 0 <= i < |items| && 0 <= j < |items| && about(items[i]) && about(items[j]) ==> i / g == j / g
  }

  /** A divisor g of the batch size divides what every place holds, and no multiple of g falls between items about it. */
  ghost predicate Cells(s: State, about: Item -> bool, g: nat) {
    && 0 < g && BATCH_SIZE % g == 0 && InCells(s.buffer, about, g)
    && forall i :: 0 <= i < |s.flights| && Live(s.flights[i]) ==> InCells(s.flights[i].items, about, g)
  }

  /** However the flushes go on, x is the last item written about it. */
  ghost predicate AlwaysLast(s: State, log: seq<Item>, about: Item -> bool, x: Item) {
    forall events :: Runs(s, events) && AllThrough(End(s, events)) ==> LastAbout(log + Writes(s, events), about) == Some(x)
  }

  // ----- Otherwise some continuation writes another item last -----

  ghost predicate CanEndOtherwise(s: State, log: seq<Item>, about: Item -> bool, x: Item) {
    exists events :: Runs(s, events) && AllThrough(End(s, events)) && LastAbout(log + Writes(s, events), about) != Some(x)
  }

  lemma EndsOtherwise(s: State, log: seq<Item>, about: Item -> bool, x: Item, events: seq<Event>, t: State, w: seq<Item>)
    requires Leads(s, events, t, w) && AllThrough(t) && LastAbout(log + w, about) != Some(x)
    ensures CanEndOtherwise(s, log, about, x)
  {
  }

  /** Something about it, but not x, comes last among these items. */
  lemma LastIsAnother(items: seq<Item>, about: Item -> bool, x: Item)
    requires Holds(items, about) && x !in items
    ensures LastAbout(items, about).Some? && LastAbout(items, about) != Some(x)
  {
    LastIsThere(items, about);
  }

  lemma NothingHeld(items: seq<Item>, about: Item -> bool)
    requires !Holds(items, about)
    ensures LastAbout(items, about) == None
  {
    LastIsThere(items, about);
  }

  /** If all goes well, what ends the buffer is written last. */
  lemma CalmBufferEnds(s: State, log: seq<Item>, about: Item -> bool, x: Item)
    requires Inv(s) && LastAbout(s.buffer, about).Some? && LastAbout(s.buffer, about) != Some(x)
    ensures CanEndOtherwise(s, log, about, x)
  {
    var events, t := Calmly(s);
    var w := AllToWrite(s.flights);
    LastOfConcat(w, s.buffer, about);
    LastOfConcat(log, w + s.buffer, about);
    EndsOtherwise(s, log, about, x, events, t, w + s.buffer);
  }

  /** A flight is written last while everything else is finished before it. */
  lemma KeptFlightEnds(s: State, log: seq<Item>, about: Item -> bool, x: Item, j: nat)
    requires Inv(s) && j < |s.flights| && Live(s.flights[j])
    requires LastAbout(s.flights[j].items, about).Some? && LastAbout(s.flights[j].items, about) != Some(x)
    ensures CanEndOtherwise(s, log, about, x)
  {
    var others, t, w1 := AllBut(s, j);
    var last, v, w2 := WriteTheOne(s, others, t, w1, s.flights[j]);
    LastOfConcat(w1, w2, about);
    LastOfConcat(log, w1 + w2, about);
    Then(s, others, t, w1, last, v, w2);
    EndsOtherwise(s, log, about, x, others + last, v, w1 + w2);
  }

  /** The one flight left is written, if need be after its cleanup failed. */
  lemma WriteTheOne(s: State, others: seq<Event>, t: State, w1: seq<Item>, f: Flight) returns (events: seq<Event>, v: State, w: seq<Item>)
    requires Inv(s) && Leads(s, others, t, w1) && t.buffer == [] && t.flights == [f] && Live(f)
    ensures Leads(t, events, v, w) && AllThrough(v) && w == f.items
  {
    RunKeepsInv(s, others);
    if f.stage.Writing? {
      events, v := Calmly(t);
      w := f.items;
      assert [f][..0] == [];
      assert AllToWrite([f]) + [] == f.items;
    } else {
      events, v, w := RewriteTheOne(t, f);
    }
  }

  lemma RewriteTheOne(t: State, f: Flight) returns (events: seq<Event>, v: State, w: seq<Item>)
    requires Inv(t) && t.buffer == [] && t.flights == [f] && f.stage.Cleaning?
    ensures Leads(t, events, v, w) && AllThrough(v) && w == f.items
  {
    var u := Next(t, CleanupFails(0));
    StepLeads(t, CleanupFails(0));
    StepKeepsInv(t, CleanupFails(0));
    assert u.flights == [Flight([], Settling)] && u.buffer == f.items + [] == f.items;
    var more;
    more, v := Calmly(u);
    assert [Flight([], Settling)][..0] == [];
    assert AllToWrite(u.flights) + u.buffer == f.items;
    Then(t, [CleanupFails(0)], u, [], more, v, f.items);
    assert [] + f.items == f.items;
    events, w := [CleanupFails(0)] + more, f.items;
  }

  lemma {:induction false} NothingToWrite(flights: seq<Flight>, about: Item -> bool)
    requires forall i :: 0 <= i < |flights| && flights[i].stage.Writing? ==> !Holds(flights[i].items, about)
    ensures LastAbout(AllToWrite(flights), about) == None
  {
    if flights != [] {
      var init, last := flights[..|flights| - 1], flights[|flights| - 1];
      NothingToWrite(init, about);
      LastOfConcat(AllToWrite(init), ToWrite(last), about);
      if last.stage.Writing? {
        NothingHeld(last.items, about);
      }
    }
  }

  /** If all goes well and nothing about it waits, the log stays as it is. */
  lemma CalmChangesNothing(s: State, log: seq<Item>, about: Item -> bool, x: Item)
    requires Inv(s) && LastAbout(log, about) != Some(x) && !Holds(s.buffer, about)
    requires forall i :: 0 <= i < |s.flights| && s.flights[i].stage.Writing? ==> !Holds(s.flights[i].items, about)
    ensures CanEndOtherwise(s, log, about, x)
  {
    var events, t := Calmly(s);
    var w := AllToWrite(s.flights);
    NothingToWrite(s.flights, about);
    NothingHeld(s.buffer, about);
    LastOfConcat(w, s.buffer, about);
    LastOfConcat(log, w + s.buffer, about);
    EndsOtherwise(s, log, about, x, events, t, w + s.buffer);
  }

  lemma RivalElsewhereEnds(s: State, log: seq<Item>, about: Item -> bool, x: Item)
    requires Inv(s) && RivalElsewhere(s, about, x)
    ensures CanEndOtherwise(s, log, about, x)
  {
    if Holds(s.buffer, about) && x !in s.buffer {
      LastIsAnother(s.buffer, about, x);
      CalmBufferEnds(s, log, about, x);
    } else {
      var j :| 0 <= j < |s.flights| && HoldsLive(s, j, about) && x !in s.flights[j].items;
      LastIsAnother(s.flights[j].items, about, x);
      KeptFlightEnds(s, log, about, x, j);
    }
  }

  /** Where x is. */
  ghost predicate IsIn(s: State, x: Item, p: Place) {
    match p
    case InBuffer => x in s.buffer
    case InFlight(i) => i < |s.flights| && Live(s.flights[i]) && x in s.flights[i].items
    case Nowhere => x !in s.buffer && forall i :: 0 <= i < |s.flights| && Live(s.flights[i]) ==> x !in s.flights[i].items
  }

  lemma PlaceOf(s: State, x: Item) returns (p: Place)
    ensures IsIn(s, x, p)
  {
    if x in s.buffer {
      p := InBuffer;
    } else if i: nat :| i < |s.flights| && Live(s.flights[i]) && x in s.flights[i].items {
      p := InFlight(i);
    } else {
      p := Nowhere;
    }
  }

  /** Without a rival elsewhere everything about it is where x is. */
  lemma AllAtOnePlace(s: State, about: Item -> bool, x: Item, p: Place)
    requires Inv(s) && about(x) && IsIn(s, x, p) && !RivalElsewhere(s, about, x)
    ensures OnlyAt(s, about, p)
  {
    forall i | 0 <= i < |s.flights| && p != InFlight(i) ensures !HoldsLive(s, i, about) {
      if HoldsLive(s, i, about) {
        assert x in s.flights[i].items;
        FlightsAreExclusive(s, i, x);
      }
    }
    if !p.InBuffer? && Holds(s.buffer, about) {
      assert x in s.buffer;
      if p.InFlight? {
        FlightsAreExclusive(s, p.i, x);
      }
    }
  }

  lemma UndecidedEnds(s: State, log: seq<Item>, about: Item -> bool, x: Item)
    requires Inv(s) && about(x) && !Decided(s, log, about, x)
    ensures CanEndOtherwise(s, log, about, x)
  {
    if RivalElsewhere(s, about, x) {
      RivalElsewhereEnds(s, log, about, x);
    } else {
      var p := PlaceOf(s, x);
      AllAtOnePlace(s, about, x, p);
      assert !EndsOn(s, log, about, x, p);
      match p {
        case InBuffer =>
          LastIsThere(s.buffer, about);
          CalmBufferEnds(s, log, about, x);
        case InFlight(i) =>
          LastIsThere(s.flights[i].items, about);
          if LastAbout(s.flights[i].items, about) != Some(x) {
            KeptFlightEnds(s, log, about, x, i);
          } else {
            StillUnwritten(s, about, p);
            CalmChangesNothing(s, log, about, x);
          }
        case Nowhere =>
          StillUnwritten(s, about, p);
          CalmChangesNothing(s, log, about, x);
      }
    }
  }

  lemma StillUnwritten(s: State, about: Item -> bool, p: Place)
    requires OnlyAt(s, about, p) && !p.InBuffer? && (p.InFlight? ==> p.i < |s.flights| && s.flights[p.i].stage.Cleaning?)
    ensures !Holds(s.buffer, about)
    ensures forall i :: 0 <= i < |s.flights| && s.flights[i].stage.Writing? ==> !Holds(s.flights[i].items, about)
  {
    forall i | 0 <= i < |s.flights| && s.flights[i].stage.Writing? ensures !Holds(s.flights[i].items, about) {
      assert p != InFlight(i);
      assert !HoldsLive(s, i, about);
    }
  }

  // ----- What is decided stays decided -----

  lemma {:induction false} LiveReplace(flights: seq<Flight>, i: nat, f: Flight)
    requires i < |flights|
    ensures LiveItems(flights[i := f])
            == LiveItems(flights) - (if Live(flights[i]) then |flights[i].items| else 0) + if Live(f) then |f.items| else 0
  {
    var n := |flights| - 1;
    if i == n {
      assert flights[i := f][..n] == flights[..n];
    } else {
      assert flights[i := f][..n] == flights[..n][i := f];
      LiveReplace(flights[..n], i, f);
    }
  }

  lemma {:induction false} LiveDrop(flights: seq<Flight>, i: nat)
    requires i < |flights| && !Live(flights[i])
    ensures LiveItems(flights[..i] + flights[i + 1..]) == LiveItems(flights)
  {
    var n := |flights| - 1;
    var rest := flights[..i] + flights[i + 1..];
    if i == n {
      assert rest == flights[..n];
    } else {
      assert rest[..n - 1] == flights[..n][..i] + flights[..n][i + 1..];
      LiveDrop(flights[..n], i);
    }
  }

  lemma {:induction false} LiveAtLeast(flights: seq<Flight>, i: nat)
    requires i < |flights| && Live(flights[i])
    ensures LiveItems(flights) >= |flights[i].items|
  {
    if i < |flights| - 1 {
      LiveAtLeast(flights[..|flights| - 1], i);
    }
  }

  lemma StartKeepsFit(s: State)
    requires CanStart(s) && FitsOneBatch(s)
    ensures FitsOneBatch(StartFlush(s))
  {
    var u := StartFlush(s);
    assert u.flights[..|s.flights|] == s.flights;
  }

  lemma {:induction false} DrainKeepsFit(s: State)
    requires FitsOneBatch(s)
    ensures FitsOneBatch(Drained(s))
    decreases |s.buffer|
  {
    if CanStart(s) {
      StartKeepsFit(s);
      DrainKeepsFit(StartFlush(s));
    }
  }

  lemma StepKeepsFit(s: State, e: Event)
    requires Enabled(s, e) && !e.Add? && FitsOneBatch(s)
    ensures FitsOneBatch(Next(s, e))
  {
    match e {
      case Add(_) =>
      case Tick => DrainKeepsFit(s);
      case Finally(i) => LiveDrop(s.flights, i);
      case _ => LiveReplace(s.flights, e.i, Next(s, e).flights[e.i]);
    }
  }

  lemma StartKeepsAlone(s: State, about: Item -> bool, x: Item)
    requires CanStart(s) && Alone(s, about, x)
    ensures Alone(StartFlush(s), about, x)
  {
    var f := StartTakesTheFront(s);
    assert forall y :: y in f.items || y in StartFlush(s).buffer ==> y in s.buffer;
  }

  lemma {:induction false} DrainKeepsAlone(s: State, about: Item -> bool, x: Item)
    requires Alone(s, about, x)
    ensures Alone(Drained(s), about, x)
    decreases |s.buffer|
  {
    if CanStart(s) {
      StartKeepsAlone(s, about, x);
      DrainKeepsAlone(StartFlush(s), about, x);
    }
  }

  lemma StepKeepsAlone(s: State, e: Event, about: Item -> bool, x: Item)
    requires Enabled(s, e) && !e.Add? && Alone(s, about, x)
    ensures Alone(Next(s, e), about, x)
  {
    match e {
      case Tick => DrainKeepsAlone(s, about, x);
      case _ =>
    }
  }

  lemma FrontInCells(items: seq<Item>, n: nat, about: Item -> bool, g: nat)
    requires n <= |items| && 0 < g && InCells(items, about, g) && n % g == 0
    ensures InCells(items[..n], about, g)
  {
    forall i, j | 0 <= i < n && 0 <= j < n && about(items[..n][i]) && about(items[..n][j]) ensures i / g == j / g {
      assert items[i] == items[..n][i] && items[j] == items[..n][j];
    }
  }

  lemma BackInCells(items: seq<Item>, n: nat, about: Item -> bool, g: nat)
    requires n <= |items| && 0 < g && InCells(items, about, g) && n % g == 0
    ensures InCells(items[n..], about, g)
  {
    var back := items[n..];
    RestOfWhole(|items|, n, g);
    forall i, j | 0 <= i < |back| && 0 <= j < |back| && about(back[i]) && about(back[j]) ensures i / g == j / g {
      assert items[n + i] == back[i] && items[n + j] == back[j];
      CellsShift(i, n, g);
      CellsShift(j, n, g);
    }
  }

  /** A whole number of cells cuts nothing apart. */
  lemma OnePartHolds(items: seq<Item>, n: nat, about: Item -> bool, g: nat)
    requires n <= |items| && 0 < g && InCells(items, about, g) && n % g == 0
    ensures !Holds(items[..n], about) || !Holds(items[n..], about)
  {
    if Holds(items[..n], about) {
      var i :| 0 <= i < n && about(items[..n][i]);
      assert items[i] == items[..n][i];
      var back := items[n..];
      forall y | y in back ensures !about(y) {
        var j :| 0 <= j < |back| && back[j] == y;
        assert items[n + j] == y;
        EarlierCell(i, j, n, g);
      }
    }
  }

  /** Two places put together, of which only one holds anything about it. */
  lemma JoinedInCells(a: seq<Item>, b: seq<Item>, about: Item -> bool, g: nat)
    requires 0 < g && InCells(a, about, g) && InCells(b, about, g) && (!Holds(a, about) || !Holds(b, about))
    ensures InCells(a + b, about, g)
  {
    CellsShift(|b|, |a|, g);
    var n, all := |a|, a + b;
    assert forall k :: 0 <= k < n ==> all[k] == a[k] && all[k] in a;
    assert forall k :: n <= k < |all| ==> all[k] == b[k - n] && all[k] in b;
    forall i, j | 0 <= i < |all| && 0 <= j < |all| && about(all[i]) && about(all[j]) ensures i / g == j / g {
      if i >= n && j >= n {
        CellsShift(i - n, n, g);
        CellsShift(j - n, n, g);
      }
    }
  }

  lemma StartKeepsCells(s: State, about: Item -> bool, g: nat)
    requires CanStart(s) && Cells(s, about, g)
    ensures Cells(StartFlush(s), about, g)
    ensures var u := StartFlush(s); !Holds(u.flights[|s.flights|].items, about) || !Holds(u.buffer, about)
  {
    var u, n := StartFlush(s), Min(|s.buffer|, BATCH_SIZE);
    FrontInCells(s.buffer, n, about, g);
    BackInCells(s.buffer, n, about, g);
    OnePartHolds(s.buffer, n, about, g);
    forall i | 0 <= i < |u.flights| && Live(u.flights[i]) ensures InCells(u.flights[i].items, about, g) {
      assert i < |s.flights| ==> u.flights[i] == s.flights[i];
    }
  }

  lemma {:induction false} DrainKeepsCells(s: State, about: Item -> bool, g: nat)
    requires Cells(s, about, g)
    ensures Cells(Drained(s), about, g)
    decreases |s.buffer|
  {
    if CanStart(s) {
      StartKeepsCells(s, about, g);
      DrainKeepsCells(StartFlush(s), about, g);
    }
  }

  lemma FailureKeepsCells(s: State, e: Event, about: Item -> bool, p: Place, g: nat)
    requires Enabled(s, e) && (e.UpsertFails? || e.CleanupFails?) && OnlyAt(s, about, p) && Cells(s, about, g)
    ensures Cells(Next(s, e), about, g)
  {
    var u, own := Next(s, e), s.flights[e.i].items;
    assert p != InFlight(e.i) ==> !HoldsLive(s, e.i, about);
    JoinedInCells(own, s.buffer, about, g);
    forall j | 0 <= j < |u.flights| && Live(u.flights[j]) ensures InCells(u.flights[j].items, about, g) {
      assert u.flights[j] == s.flights[j];
    }
  }

  lemma StepKeepsCells(s: State, e: Event, log: seq<Item>, about: Item -> bool, x: Item, g: nat)
    requires Enabled(s, e) && !e.Add? && Decided(s, log, about, x) && Cells(s, about, g)
    ensures Cells(Next(s, e), about, g)
  {
    if e.Tick? {
      DrainKeepsCells(s, about, g);
    } else if e.UpsertFails? || e.CleanupFails? {
      var p :| OnlyAt(s, about, p) && EndsOn(s, log, about, x, p);
      FailureKeepsCells(s, e, about, p, g);
    } else {
      var u := Next(s, e);
      forall j | 0 <= j < |u.flights| && Live(u.flights[j]) ensures InCells(u.flights[j].items, about, g) {
        var was := if e.Finally? && j >= e.i then j + 1 else j;
        assert Live(s.flights[was]) && u.flights[j].items == s.flights[was].items;
      }
    }
  }

  /** What shares x's place stays with it. */
  ghost predicate StaysTogether(s: State, about: Item -> bool, x: Item) {
    FitsOneBatch(s) || Alone(s, about, x) || exists g :: Cells(s, about, g)
  }

  lemma StartKeepsTogether(s: State, about: Item -> bool, x: Item)
    requires CanStart(s) && StaysTogether(s, about, x)
    ensures StaysTogether(StartFlush(s), about, x)
  {
    if FitsOneBatch(s) {
      StartKeepsFit(s);
    } else if Alone(s, about, x) {
      StartKeepsAlone(s, about, x);
    } else {
      var g :| Cells(s, about, g);
      StartKeepsCells(s, about, g);
    }
  }

  lemma StepKeepsTogether(s: State, e: Event, log: seq<Item>, about: Item -> bool, x: Item)
    requires Enabled(s, e) && !e.Add? && StaysTogether(s, about, x) && Decided(s, log, about, x)
    ensures StaysTogether(Next(s, e), about, x)
  {
    if FitsOneBatch(s) {
      StepKeepsFit(s, e);
    } else if Alone(s, about, x) {
      StepKeepsAlone(s, e, about, x);
    } else {
      var g :| Cells(s, about, g);
      StepKeepsCells(s, e, log, about, x, g);
    }
  }

  lemma StartKeepsDecided(s: State, log: seq<Item>, about: Item -> bool, x: Item)
    requires Inv(s) && CanStart(s) && StaysTogether(s, about, x) && Decided(s, log, about, x)
    ensures Decided(StartFlush(s), log, about, x)
  {
    var u := StartFlush(s);
    var n := |s.flights|;
    var f := StartTakesTheFront(s);
    var p :| OnlyAt(s, about, p) && EndsOn(s, log, about, x, p);
    LastOfConcat(f.items, u.buffer, about);
    LastIsThere(f.items, about);
    LastIsThere(u.buffer, about);
    LastIsThere(s.buffer, about);
    var q := if p.InBuffer? && !Holds(u.buffer, about) then InFlight(n) else p;
    if p.InBuffer? && Holds(u.buffer, about) {
      NothingAboutItLeft(s, f, u, about, x);
    }
    forall i | 0 <= i < |u.flights| && q != InFlight(i) ensures !HoldsLive(u, i, about) {
      if i < n {
        assert u.flights[i] == s.flights[i];
        assert !HoldsLive(s, i, about);
      }
    }
    assert OnlyAt(u, about, q) && EndsOn(u, log, about, x, q);
  }

  lemma NothingAboutItLeft(s: State, f: Flight, u: State, about: Item -> bool, x: Item)
    requires Inv(s) && CanStart(s) && StaysTogether(s, about, x) && u == StartFlush(s) && u.flights == s.flights + [f]
    requires f.items + u.buffer == s.buffer && Holds(u.buffer, about)
    ensures !Holds(f.items, about)
  {
    assert u.buffer != [];
    if Alone(s, about, x) {
      assert Held(s, x) <= 1;
      FrontHoldsNothing(f.items, u.buffer, about, x);
    } else {
      var g :| Cells(s, about, g);
      StartKeepsCells(s, about, g);
    }
  }

  /** If x stays behind in the buffer, nothing about it left. */
  lemma FrontHoldsNothing(front: seq<Item>, back: seq<Item>, about: Item -> bool, x: Item)
    requires OnlyItself(front + back, about, x) && Occurs(front + back, x) <= 1 && Holds(back, about)
    ensures !Holds(front, about)
  {
    var z :| z in back && about(z);
    assert z in front + back;
    OnceInTwoParts(front, back, x);
    forall y | y in front ensures !about(y) {
      assert y in front + back;
    }
  }

  lemma OnceInTwoParts(a: seq<Item>, b: seq<Item>, x: Item)
    requires Occurs(a + b, x) <= 1 && x in b
    ensures x !in a
  {
    assert Occurs(a + b, x) == Occurs(a, x) + Occurs(b, x);
    assert x in b ==> Occurs(b, x) > 0;
    assert x in a ==> Occurs(a, x) > 0;
  }

  lemma {:induction false} DrainKeepsDecided(s: State, log: seq<Item>, about: Item -> bool, x: Item)
    requires Inv(s) && StaysTogether(s, about, x) && Decided(s, log, about, x)
    ensures Decided(Drained(s), log, about, x)
    decreases |s.buffer|
  {
    if CanStart(s) {
      StartKeepsDecided(s, log, about, x);
      StartFlushKeeps(s);
      StartKeepsTogether(s, about, x);
      DrainKeepsDecided(StartFlush(s), log, about, x);
    }
  }

  lemma UpsertKeepsDecided(s: State, i: nat, log: seq<Item>, about: Item -> bool, x: Item, p: Place)
    requires Enabled(s, UpsertSucceeds(i)) && OnlyAt(s, about, p) && EndsOn(s, log, about, x, p)
    ensures Decided(Next(s, UpsertSucceeds(i)), log + s.flights[i].items, about, x)
  {
    var t, own := Next(s, UpsertSucceeds(i)), s.flights[i].items;
    LastOfConcat(log, own, about);
    LastIsThere(own, about);
    assert p != InFlight(i) ==> !HoldsLive(s, i, about);
    forall j | 0 <= j < |t.flights| && p != InFlight(j) ensures !HoldsLive(t, j, about) {
      assert !HoldsLive(s, j, about);
    }
    assert OnlyAt(t, about, p) && EndsOn(t, log + own, about, x, p);
  }

  /** Past the cleanups nothing is written again. */
  lemma RetiringKeepsDecided(s: State, e: Event, log: seq<Item>, about: Item -> bool, x: Item, p: Place)
    requires Enabled(s, e) && (e.CleanupSucceeds? || e.CountRun? || e.CountsDone?)
    requires OnlyAt(s, about, p) && EndsOn(s, log, about, x, p)
    ensures Decided(Next(s, e), log, about, x)
  {
    var t := Next(s, e);
    var q := if p == InFlight(e.i) then Nowhere else p;
    forall j | 0 <= j < |t.flights| && q != InFlight(j) ensures !HoldsLive(t, j, about) {
      assert p != InFlight(j) ==> !HoldsLive(s, j, about);
    }
    assert OnlyAt(t, about, q) && EndsOn(t, log, about, x, q);
  }

  lemma FailureKeepsDecided(s: State, e: Event, log: seq<Item>, about: Item -> bool, x: Item, p: Place)
    requires Enabled(s, e) && (e.UpsertFails? || e.CleanupFails?)
    requires OnlyAt(s, about, p) && EndsOn(s, log, about, x, p)
    ensures Decided(Next(s, e), log, about, x)
  {
    var t, own := Next(s, e), s.flights[e.i].items;
    LastOfConcat(own, s.buffer, about);
    LastIsThere(own, about);
    LastIsThere(s.buffer, about);
    assert p != InFlight(e.i) ==> !HoldsLive(s, e.i, about);
    var q := if p == InFlight(e.i) then InBuffer else p;
    assert forall y :: y in t.buffer ==> y in own || y in s.buffer;
    assert forall j :: 0 <= j < |s.flights| && j != e.i ==> t.flights[j] == s.flights[j];
    forall j | 0 <= j < |t.flights| && q != InFlight(j) ensures !HoldsLive(t, j, about) {
      assert p != InFlight(j) ==> !HoldsLive(s, j, about);
    }
    assert OnlyAt(t, about, q) && EndsOn(t, log, about, x, q);
  }

  lemma FinallyKeepsDecided(s: State, i: nat, log: seq<Item>, about: Item -> bool, x: Item, p: Place)
    requires Enabled(s, Finally(i)) && OnlyAt(s, about, p) && EndsOn(s, log, about, x, p)
    ensures Decided(Next(s, Finally(i)), log, about, x)
  {
    var t := Next(s, Finally(i));
    var q := match p case InFlight(j) => (if j > i then InFlight(j - 1) else p) case _ => p;
    forall j | 0 <= j < |t.flights| && q != InFlight(j) ensures !HoldsLive(t, j, about) {
      var was := if j < i then j else j + 1;
      assert t.flights[j] == s.flights[was] && p != InFlight(was);
      assert !HoldsLive(s, was, about);
    }
    assert OnlyAt(t, about, q) && EndsOn(t, log, about, x, q);
  }

  lemma StepKeepsDecided(s: State, e: Event, log: seq<Item>, about: Item -> bool, x: Item)
    requires Inv(s) && Enabled(s, e) && !e.Add? && StaysTogether(s, about, x) && Decided(s, log, about, x)
    ensures Decided(Next(s, e), log + WrittenBy(s, e), about, x)
  {
    var p :| OnlyAt(s, about, p) && EndsOn(s, log, about, x, p);
    assert log + [] == log;
    match e {
      case Add(_) =>
      case Tick => DrainKeepsDecided(s, log, about, x);
      case UpsertFails(_) => FailureKeepsDecided(s, e, log, about, x, p);
      case CleanupFails(_) => FailureKeepsDecided(s, e, log, about, x, p);
      case Finally(i) => FinallyKeepsDecided(s, i, log, about, x, p);
      case UpsertSucceeds(i) => UpsertKeepsDecided(s, i, log, about, x, p);
      case _ => RetiringKeepsDecided(s, e, log, about, x, p);
    }
  }

  lemma StepKeepsAll(s: State, e: Event, log: seq<Item>, about: Item -> bool, x: Item)
    requires Inv(s) && Enabled(s, e) && !e.Add? && StaysTogether(s, about, x) && Decided(s, log, about, x)
    ensures var t := Next(s, e); Inv(t) && StaysTogether(t, about, x) && Decided(t, log + WrittenBy(s, e), about, x)
  {
    StepKeepsDecided(s, e, log, about, x);
    StepKeepsInv(s, e);
    StepKeepsTogether(s, e, log, about, x);
  }

  lemma NothingLeft(s: State, log: seq<Item>, about: Item -> bool, x: Item)
    requires Inv(s) && Decided(s, log, about, x) && AllThrough(s)
    ensures LastAbout(log, about) == Some(x)
  {
    assert s.flights == [];
    LastIsThere(s.buffer, about);
  }

  lemma DecidedAfterOne(s: State, log: seq<Item>, about: Item -> bool, x: Item, events: seq<Event>)
    returns (t: State, w: seq<Item>, rest: seq<Event>)
    requires Inv(s) && StaysTogether(s, about, x) && Decided(s, log, about, x) && Runs(s, events) && events != []
    ensures Inv(t) && StaysTogether(t, about, x) && Decided(t, log + w, about, x)
    ensures |rest| < |events| && Runs(t, rest) && End(t, rest) == End(s, events) && Writes(s, events) == w + Writes(t, rest)
  {
    var e := events[0];
    StepKeepsAll(s, e, log, about, x);
    t, w, rest := Next(s, e), WrittenBy(s, e), events[1..];
  }

  lemma {:induction false} DecidedIsLast(s: State, log: seq<Item>, about: Item -> bool, x: Item, events: seq<Event>)
    requires Inv(s) && StaysTogether(s, about, x) && Decided(s, log, about, x)
    requires Runs(s, events) && AllThrough(End(s, events))
    ensures LastAbout(log + Writes(s, events), about) == Some(x)
    decreases |events|
  {
    if events == [] {
      NothingLeft(s, log, about, x);
      assert log + [] == log;
    } else {
      var t, w, rest := DecidedAfterOne(s, log, about, x, events);
      DecidedIsLast(t, log + w, about, x, rest);
      Regroup(log, w, Writes(t, rest));
    }
  }

  lemma Regroup(a: seq<Item>, b: seq<Item>, c: seq<Item>)
    ensures a + b + c == a + (b + c)
  {
  }

  // ----- The theorem -----

  /** With a rival in another place nothing is decided. */
  lemma RivalsUndecide(s: State, log: seq<Item>, about: Item -> bool, x: Item)
    requires Decided(s, log, about, x)
    ensures !RivalElsewhere(s, about, x)
  {
    var p :| OnlyAt(s, about, p) && EndsOn(s, log, about, x, p);
    LastIsThere(s.buffer, about);
    if p.InFlight? { LastIsThere(s.flights[p.i].items, about); }
    forall i | 0 <= i < |s.flights| && HoldsLive(s, i, about) ensures x in s.flights[i].items {
      assert p == InFlight(i);
    }
  }

  /**
   * Short of new arrivals, however the flushes go on, x ends as the last item written about it if and only if whatever may
   * still be written about it is in x's own place and x comes last there (and, once written, is the last written so far).
   * Left open is only the case that x shares its place with all its rivals, more than a batch waits to be written, and the sizes
   * of the places have no common divisor with the batch size whose multiples keep clear of them.
   */
  lemma AlwaysLastExactly(s: State, log: seq<Item>, about: Item -> bool, x: Item)
    requires Reaches(s, log) && about(x)
    requires StaysTogether(s, about, x) || RivalElsewhere(s, about, x)
    ensures AlwaysLast(s, log, about, x) <==> Decided(s, log, about, x)
  {
    ReachedIsGood(s, log);
    if Decided(s, log, about, x) {
      RivalsUndecide(s, log, about, x);
      forall events | Runs(s, events) && AllThrough(End(s, events)) ensures LastAbout(log + Writes(s, events), about) == Some(x) {
        DecidedIsLast(s, log, about, x, events);
      }
    } else {
      UndecidedEnds(s, log, about, x);
    }
  }

  /** Where a continuation comes to an undecided state, some continuation ends otherwise. */
  lemma OnwardEnds(s: State, log: seq<Item>, about: Item -> bool, x: Item, events: seq<Event>)
    requires Runs(s, events) && CanEndOtherwise(End(s, events), log + Writes(s, events), about, x)
    ensures CanEndOtherwise(s, log, about, x)
  {
    var t, w := End(s, events), Writes(s, events);
    var more :| Runs(t, more) && AllThrough(End(t, more)) && LastAbout(log + w + Writes(t, more), about) != Some(x);
    RunsOn(s, events, more);
    Regroup(log, w, Writes(t, more));
    assert AllThrough(End(s, events + more));
  }

  /** A turn of the drain loop whose first batch holds something about it, but not x, parts them: x need not be the last. */
  lemma BatchBoundaryUndecides(s: State, log: seq<Item>, about: Item -> bool, x: Item)
    requires Reaches(s, log) && CanStart(s)
    requires var n := Min(|s.buffer|, BATCH_SIZE); Holds(s.buffer[..n], about) && x !in s.buffer[..n]
    ensures !AlwaysLast(s, log, about, x)
  {
    ReachedIsGood(s, log);
    var t, n := Drained(s), |s.flights|;
    var u := StartFlush(s);
    var born := DrainStarts(u);
    assert t.flights[n] == u.flights[n] && HoldsLive(t, n, about);
    OneStep(s, Tick);
    StepKeepsInv(s, Tick);
    RivalElsewhereEnds(t, log + [], about, x);
    OnwardEnds(s, log, about, x, [Tick]);
  }

  /** x is in the buffer or in a flight on its first or another way to the tables. */
  ghost predicate ToBeWritten(s: State, x: Item) {
    x in s.buffer || exists i :: 0 <= i < |s.flights| && s.flights[i].stage.Writing? && x in s.flights[i].items
  }

  /** No place from which items may still be written holds x together with another item about it. */
  ghost predicate Unshared(s: State, about: Item -> bool, x: Item) {
    && (x in s.buffer ==> OnlyItself(s.buffer, about, x))
    && forall i :: 0 <= i < |s.flights| && Live(s.flights[i]) && x in s.flights[i].items ==> OnlyItself(s.flights[i].items, about, x)
  }

  lemma UnsharedDecided(s: State, log: seq<Item>, about: Item -> bool, x: Item)
    requires Inv(s) && about(x) && Unshared(s, about, x)
    ensures Decided(s, log, about, x) <==> Alone(s, about, x) && (ToBeWritten(s, x) || LastAbout(log, about) == Some(x))
  {
    LastIsThere(s.buffer, about);
    if p :| OnlyAt(s, about, p) && EndsOn(s, log, about, x, p) {
      forall i | 0 <= i < |s.flights| && Live(s.flights[i]) ensures OnlyItself(s.flights[i].items, about, x) {
        LastIsThere(s.flights[i].items, about);
        assert p != InFlight(i) ==> !HoldsLive(s, i, about);
      }
      if p.InFlight? { LastIsThere(s.flights[p.i].items, about); }
    }
    if Alone(s, about, x) && (ToBeWritten(s, x) || LastAbout(log, about) == Some(x)) {
      AloneIsDecided(s, log, about, x);
    }
  }

  lemma AloneIsDecided(s: State, log: seq<Item>, about: Item -> bool, x: Item)
    requires Inv(s) && about(x) && Alone(s, about, x) && (ToBeWritten(s, x) || LastAbout(log, about) == Some(x))
    ensures Decided(s, log, about, x)
  {
    var p := PlaceOf(s, x);
    assert !RivalElsewhere(s, about, x);
    AllAtOnePlace(s, about, x, p);
    match p {
      case InBuffer => LastIsThere(s.buffer, about);
      case InFlight(i) =>
        LastIsThere(s.flights[i].items, about);
        FlightsAreExclusive(s, i, x);
      case Nowhere =>
    }
    assert EndsOn(s, log, about, x, p);
  }

  /** If x shares its place with nothing about the same: exactly if nothing but x may still be written about it, and x will be or was the last. */
  lemma UnsharedIsLastExactly(s: State, log: seq<Item>, about: Item -> bool, x: Item)
    requires Reaches(s, log) && about(x) && Unshared(s, about, x)
    ensures AlwaysLast(s, log, about, x)
            <==> Alone(s, about, x) && (ToBeWritten(s, x) || LastAbout(log, about) == Some(x))
  {
    ReachedIsGood(s, log);
    UnsharedDecided(s, log, about, x);
    assert Alone(s, about, x) || RivalElsewhere(s, about, x);
    AlwaysLastExactly(s, log, about, x);
  }

  // ----- Two flushes can leave the older item -----

  /** An item arrives and its flush starts while others run. */
  lemma StartOne(s: State, log: seq<Item>, x: Item)
    requires Reaches(s, log) && s.buffer == [] && s.activeFlushes < MAX_CONCURRENT_FLUSHES
    requires forall y :: y in s.added ==> y.id < x.id
    ensures Reaches(s.(flights := s.flights + [Flight([x], Writing)], activeFlushes := s.activeFlushes + 1, added := s.added + {x}), log)
  {
    assert log + [] == log;
    assert Occurs([x], x) == 1;
    ReachStep(s, log, Add([x]));
    var t := s.(buffer := [x], added := s.added + {x});
    assert AllOf([x]) == {x};
    assert Next(s, Add([x])) == t;
    ReachStep(t, log, Tick);
    var u := StartFlush(t);
    assert [x][..1] == [x] && [x][1..] == [];
    assert Drained(t) == Drained(u) == u;
  }

  lemma QuietStep(s: State, log: seq<Item>, e: Event, t: State)
    requires Reaches(s, log) && Enabled(s, e) && !e.Add? && !e.UpsertSucceeds? && t == Next(s, e)
    ensures Reaches(t, log)
  {
    assert log + [] == log;
    ReachStep(s, log, e);
  }

  /** A promise chain without failure, for an item of no run. */
  lemma WholeChain(s: State, i: nat, x: Item) returns (t: State, u: State, v: State)
    requires i < |s.flights| && s.flights[i] == Flight([x], Writing) && x.run.None?
    ensures Enabled(s, UpsertSucceeds(i)) && t == Next(s, UpsertSucceeds(i))
    ensures Enabled(t, CleanupSucceeds(i)) && u == Next(t, CleanupSucceeds(i))
    ensures Enabled(u, CountsDone(i)) && v == Next(u, CountsDone(i))
    ensures Enabled(v, Finally(i)) && Next(v, Finally(i)) == Landed(s, i, x)
  {
    assert AllOf([x]) == {x} && RunsOf([x]) == {};
    t := Next(s, UpsertSucceeds(i));
    u := Next(t, CleanupSucceeds(i));
    v := Next(u, CountsDone(i));
    assert v.flights[..i] + v.flights[i + 1..] == s.flights[..i] + s.flights[i + 1..];
  }

  function Landed(s: State, i: nat, x: Item): State
    requires i < |s.flights|
  {
    s.(flights := s.flights[..i] + s.flights[i + 1..], activeFlushes := s.activeFlushes - 1,
       done := s.done + [x], upserted := s.upserted + {x})
  }

  /** The upsert of flight i succeeds, and the rest of its promise chain. */
  lemma FinishOne(s: State, log: seq<Item>, i: nat, x: Item)
    requires Reaches(s, log) && i < |s.flights| && s.flights[i] == Flight([x], Writing) && x.run.None?
    ensures Reaches(Landed(s, i, x), log + [x])
  {
    var t, u, v := WholeChain(s, i, x);
    ReachStep(s, log, UpsertSucceeds(i));
    QuietStep(t, log + [x], CleanupSucceeds(i), u);
    QuietStep(u, log + [x], CountsDone(i), v);
    QuietStep(v, log + [x], Finally(i), Landed(s, i, x));
  }

  lemma EmptyIsReached()
    ensures Reaches(EMPTY, [])
  {
    assert IsTrace([EMPTY], []) && Numbered([EMPTY], []);
    assert Log([EMPTY], [], 0) == [];
  }

  lemma TwoFlushesRun(older: Item, newer: Item)
    requires older.id < newer.id
    ensures Reaches(State([], [Flight([older], Writing), Flight([newer], Writing)], 2, [], {}, {}, map[], {older, newer}), [])
  {
    EmptyIsReached();
    StartOne(EMPTY, [], older);
    var one := State([], [Flight([older], Writing)], 1, [], {}, {}, map[], {older});
    assert EMPTY.flights + [Flight([older], Writing)] == one.flights && {} + {older} == one.added;
    StartOne(one, [], newer);
    assert one.flights + [Flight([newer], Writing)] == [Flight([older], Writing), Flight([newer], Writing)];
    assert one.added + {newer} == {older, newer};
  }

  lemma NewerIsThroughFirst(older: Item, newer: Item) returns (s: State)
    requires older.id < newer.id && older.run.None? && newer.run.None?
    ensures Reaches(s, [newer, older]) && s.buffer == [] && s.activeFlushes == 0 && s.added == {older, newer}
  {
    TwoFlushesRun(older, newer);
    var two := State([], [Flight([older], Writing), Flight([newer], Writing)], 2, [], {}, {}, map[], {older, newer});
    FinishOne(two, [], 1, newer);
    assert [] + [newer] == [newer];
    var one := Landed(two, 1, newer);
    assert one.flights == [Flight([older], Writing)];
    FinishOne(one, [newer], 0, older);
    assert [newer] + [older] == [newer, older];
    s := Landed(one, 0, older);
  }

  /** All is drained, and whatever an older item is about, it was written after the newer one. */
  ghost predicate LeavesTheOlder(s: State, log: seq<Item>, older: Item, newer: Item) {
    && Reaches(s, log) && AllThrough(s) && s.added == {older, newer} && older.id < newer.id
    && forall about: Item -> bool :: about(older) ==> LastAbout(log, about) == Some(older)
  }

  lemma LastOfTwo(first: Item, last: Item)
    ensures forall about: Item -> bool :: about(last) ==> LastAbout([first, last], about) == Some(last)
  {
    assert [first, last][1] == last;
  }

  /** It does happen, without any failure: the flush of the newer extraction is through first, the older one overwrites it. */
  lemma OverlappingFlushesLeaveTheOlder()
    ensures exists s, log, older, newer :: LeavesTheOlder(s, log, older, newer)
  {
    var older, newer := Item(1, None), Item(2, None);
    var s := NewerIsThroughFirst(older, newer);
    LastOfTwo(newer, older);
    assert LeavesTheOlder(s, [newer, older], older, newer);
  }
}
