/**
 * How the accumulator can go on from a state without new arrivals: continuations, what they
 * write, and ways to finish everything, one flight held back or none.
 */
module FlushContinuations {
  import opened BatchAccumulator
  import opened FlushOrder

  // ----- Continuations without new arrivals -----

  predicate Runs(s: State, events: seq<Event>)
    decreases |events|
  {
    events == [] || (Enabled(s, events[0]) && !events[0].Add? && Runs(Next(s, events[0]), events[1..]))
  }

  function End(s: State, events: seq<Event>): State
    requires Runs(s, events)
    decreases |events|
  {
    if events == [] then s else End(Next(s, events[0]), events[1..])
  }

  /** Everything the continuation writes, in order. */
  function Writes(s: State, events: seq<Event>): seq<Item>
    requires Runs(s, events)
    decreases |events|
  {
    if events == [] then [] else WrittenBy(s, events[0]) + Writes(Next(s, events[0]), events[1..])
  }

  lemma {:induction false} RunsOn(s: State, a: seq<Event>, b: seq<Event>)
    requires Runs(s, a) && Runs(End(s, a), b)
    ensures Runs(s, a + b) && End(s, a + b) == End(End(s, a), b)
    ensures Writes(s, a + b) == Writes(s, a) + Writes(End(s, a), b)
    decreases |a|
  {
    if a == [] {
      assert a + b == b;
    } else {
      assert (a + b)[0] == a[0] && (a + b)[1..] == a[1..] + b;
      RunsOn(Next(s, a[0]), a[1..], b);
    }
  }

  lemma OneStep(s: State, e: Event)
    requires Enabled(s, e) && !e.Add?
    ensures Runs(s, [e]) && End(s, [e]) == Next(s, e) && Writes(s, [e]) == WrittenBy(s, e)
  {
    assert [e][1..] == [];
    assert Runs(Next(s, e), []);
    assert WrittenBy(s, e) + [] == WrittenBy(s, e);
  }

  /** The continuation leads from s to t and writes w. */
  ghost predicate Leads(s: State, events: seq<Event>, t: State, w: seq<Item>) {
    Runs(s, events) && End(s, events) == t && Writes(s, events) == w
  }

  lemma Then(s: State, a: seq<Event>, t: State, w: seq<Item>, b: seq<Event>, u: State, v: seq<Item>)
    requires Leads(s, a, t, w) && Leads(t, b, u, v)
    ensures Leads(s, a + b, u, w + v)
  {
    RunsOn(s, a, b);
  }

  lemma StandStill(s: State)
    ensures Leads(s, [], s, [])
  {
  }

  lemma StepLeads(s: State, e: Event)
    requires Enabled(s, e) && !e.Add?
    ensures Leads(s, [e], Next(s, e), WrittenBy(s, e))
  {
    OneStep(s, e);
  }

  lemma {:induction false} RunKeepsInv(s: State, events: seq<Event>)
    requires Inv(s) && Runs(s, events)
    ensures Inv(End(s, events)) && End(s, events).added == s.added
    decreases |events|
  {
    if events != [] {
      StepKeepsInv(s, events[0]);
      if events[0].Tick? { DrainAddsNothing(s); }
      RunKeepsInv(Next(s, events[0]), events[1..]);
    }
  }

  lemma {:induction false} DrainAddsNothing(s: State)
    ensures Drained(s).added == s.added
    decreases |s.buffer|
  {
    if CanStart(s) { DrainAddsNothing(StartFlush(s)); }
  }

  predicate AllThrough(s: State) {
    s.buffer == [] && s.activeFlushes == 0
  }

  // ----- Finishing flights without failure -----

  function Cut(flights: seq<Flight>, a: nat, n: nat): seq<Flight>
    requires a + n <= |flights|
  {
    flights[..a] + flights[a + n..]
  }

  /** n flights from position a on are gone; the rest waits as it was. */
  ghost predicate Finished(s: State, t: State, a: nat, n: nat)
    requires a + n <= |s.flights|
  {
    t.buffer == s.buffer && t.flights == Cut(s.flights, a, n) && t.activeFlushes == s.activeFlushes - n
  }

  function ToWrite(f: Flight): seq<Item> {
    if f.stage.Writing? then f.items else []
  }

  function AllToWrite(flights: seq<Flight>): seq<Item> {
    if flights == [] then [] else AllToWrite(flights[..|flights| - 1]) + ToWrite(flights[|flights| - 1])
  }

  lemma {:induction false} FinishFlight(s: State, i: nat) returns (events: seq<Event>, t: State)
    requires i < |s.flights|
    ensures Leads(s, events, t, ToWrite(s.flights[i])) && Finished(s, t, i, 1)
    decreases match s.flights[i].stage case Writing => 3 case Cleaning => 2 case Counting(_) => 1 case Settling => 0,
              match s.flights[i].stage case Counting(pending) => |pending| case _ => 0
  {
    var e := match s.flights[i].stage
      case Writing => UpsertSucceeds(i)
      case Cleaning => CleanupSucceeds(i)
      case Counting(pending) => if pending == {} then CountsDone(i) else (var run :| run in pending; CountRun(i, run, false))
      case Settling => Finally(i);
    StepLeads(s, e);
    events, t := [e], Next(s, e);
    if !s.flights[i].stage.Settling? {
      var more, u := FinishFlight(t, i);
      Then(s, [e], t, WrittenBy(s, e), more, u, ToWrite(t.flights[i]));
      assert WrittenBy(s, e) + ToWrite(t.flights[i]) == ToWrite(s.flights[i]);
      events, t := [e] + more, u;
    }
  }

  function RangeToWrite(flights: seq<Flight>, a: nat, n: nat): seq<Item>
    requires a + n <= |flights|
  {
    AllToWrite(flights[a..a + n])
  }

  lemma FinishedMore(s: State, u: State, v: State, a: nat, m: nat)
    requires a + m < |s.flights| && Finished(s, u, a, m) && Finished(u, v, a, 1)
    ensures Finished(s, v, a, m + 1) && u.flights[a] == s.flights[a + m]
    ensures RangeToWrite(s.flights, a, m) + ToWrite(u.flights[a]) == RangeToWrite(s.flights, a, m + 1)
  {
    var range := s.flights[a..a + (m + 1)];
    assert range[..m] == s.flights[a..a + m];
  }

  lemma FinishNothing(s: State, a: nat)
    requires a <= |s.flights|
    ensures Leads(s, [], s, []) && RangeToWrite(s.flights, a, 0) == [] && Finished(s, s, a, 0)
  {
    StandStill(s);
    assert Cut(s.flights, a, 0) == s.flights;
  }

  lemma FinishNext(s: State, first: seq<Event>, u: State, a: nat, m: nat) returns (events: seq<Event>, t: State, w: seq<Item>)
    requires a + m < |s.flights| && Finished(s, u, a, m)
    requires Leads(s, first, u, RangeToWrite(s.flights, a, m))
    ensures Leads(s, events, t, w) && w == RangeToWrite(s.flights, a, m + 1) && Finished(s, t, a, m + 1)
  {
    var w1 := RangeToWrite(s.flights, a, m);
    var f := u.flights[a];
    var rest, v := FinishFlight(u, a);
    FinishedMore(s, u, v, a, m);
    Then(s, first, u, w1, rest, v, ToWrite(f));
    events, t, w := first + rest, v, w1 + ToWrite(f);
  }

  /** Finish n flights from position a on, in order. */
  lemma {:induction false} FinishRange(s: State, a: nat, n: nat) returns (events: seq<Event>, t: State, w: seq<Item>)
    requires a + n <= |s.flights|
    ensures Leads(s, events, t, w) && w == RangeToWrite(s.flights, a, n) && Finished(s, t, a, n)
    decreases n
  {
    if n == 0 {
      FinishNothing(s, a);
      events, t, w := [], s, [];
    } else {
      var m: nat := n - 1;
      var first, u, w1 := FinishRange(s, a, m);
      events, t, w := FinishNext(s, first, u, a, m);
    }
  }

  // ----- Flushing the buffer without failure -----

  lemma StartTakesTheFront(s: State) returns (f: Flight)
    requires CanStart(s)
    ensures var u := StartFlush(s);
            && u.flights == s.flights + [f] && u.activeFlushes == s.activeFlushes + 1 && f.stage.Writing?
            && f.items + u.buffer == s.buffer && |u.buffer| < |s.buffer|
  {
    f := StartFlush(s).flights[|s.flights|];
  }

  lemma {:induction false} ToWriteSplits(a: seq<Flight>, b: seq<Flight>)
    ensures AllToWrite(a + b) == AllToWrite(a) + AllToWrite(b)
  {
    if b == [] {
      assert a + b == a;
    } else {
      assert (a + b)[..|a + b| - 1] == a + b[..|b| - 1];
      ToWriteSplits(a, b[..|b| - 1]);
    }
  }

  lemma OneMoreToWrite(f: Flight, more: seq<Flight>, buffer: seq<Item>, left: seq<Item>, whole: seq<Item>)
    requires f.stage.Writing? && f.items + buffer == whole && AllToWrite(more) + left == buffer
    ensures AllToWrite([f] + more) + left == whole
  {
    ToWriteSplits([f], more);
    assert AllToWrite([f]) == [] + f.items by { assert [f][..0] == []; }
    assert AllToWrite([f] + more) == f.items + AllToWrite(more);
  }

  /** A turn of the drain loop: new flights take the front of the buffer. */
  lemma {:induction false} DrainStarts(s: State) returns (born: seq<Flight>)
    ensures var t := Drained(s);
            && t.flights == s.flights + born && AllToWrite(born) + t.buffer == s.buffer
            && t.activeFlushes == s.activeFlushes + |born| && (forall i :: 0 <= i < |born| ==> born[i].stage.Writing?)
            && (CanStart(s) ==> |t.buffer| < |s.buffer|) && (!CanStart(s) ==> t == s)
    decreases |s.buffer|
  {
    born := [];
    if CanStart(s) {
      var u := StartFlush(s);
      var first := StartTakesTheFront(s);
      var more := DrainStarts(u);
      born := [first] + more;
      OneMoreToWrite(first, more, u.buffer, Drained(s).buffer, s.buffer);
    }
  }

  lemma OneTurn(s: State) returns (events: seq<Event>, t: State, born: seq<Flight>)
    requires CanStart(s)
    ensures Leads(s, events, t, []) && t.flights == s.flights + born && AllToWrite(born) + t.buffer == s.buffer
    ensures t.activeFlushes == s.activeFlushes + |born| && |t.buffer| < |s.buffer|
  {
    StepLeads(s, Tick);
    born := DrainStarts(s);
    events, t := [Tick], Drained(s);
  }

  lemma OnlyTheNewAreCut(flights: seq<Flight>, born: seq<Flight>)
    ensures (flights + born)[|flights|..|flights| + |born|] == born
    ensures Cut(flights + born, |flights|, |born|) == flights
  {
  }

  lemma LandTheNew(u: State, flights: seq<Flight>, born: seq<Flight>) returns (events: seq<Event>, t: State, w: seq<Item>)
    requires u.flights == flights + born
    ensures Leads(u, events, t, w) && w == AllToWrite(born)
    ensures t.buffer == u.buffer && t.flights == flights && t.activeFlushes == u.activeFlushes - |born|
  {
    OnlyTheNewAreCut(flights, born);
    events, t, w := FinishRange(u, |flights|, |born|);
  }

  /** One turn and its landings. */
  lemma FlushOnce(s: State) returns (events: seq<Event>, t: State, w: seq<Item>)
    requires CanStart(s) && s.activeFlushes == |s.flights|
    ensures Leads(s, events, t, w) && w + t.buffer == s.buffer && |t.buffer| < |s.buffer|
    ensures t.flights == s.flights && t.activeFlushes == s.activeFlushes
  {
    var turn, u, born := OneTurn(s);
    var landing;
    landing, t, w := LandTheNew(u, s.flights, born);
    Then(s, turn, u, [], landing, t, w);
    assert [] + w == w;
    events := turn + landing;
  }

  /** With a slot free the whole buffer is written, in order, while the flights at hand wait. */
  lemma {:induction false} FlushBuffer(s: State) returns (events: seq<Event>, t: State)
    requires s.activeFlushes == |s.flights| < MAX_CONCURRENT_FLUSHES
    ensures Leads(s, events, t, s.buffer)
    ensures t.buffer == [] && t.flights == s.flights && t.activeFlushes == s.activeFlushes
    decreases |s.buffer|
  {
    if s.buffer == [] {
      events, t := [], s;
      StandStill(s);
    } else {
      var once, u, w := FlushOnce(s);
      var more, v := FlushBuffer(u);
      Then(s, once, u, w, more, v, u.buffer);
      events, t := once + more, v;
    }
  }

  /** Everything is finished: first the flights in order, then the buffer. */
  lemma Calmly(s: State) returns (events: seq<Event>, t: State)
    requires Inv(s)
    ensures Leads(s, events, t, AllToWrite(s.flights) + s.buffer) && AllThrough(t)
  {
    var n := |s.flights|;
    var landing, u, w := FinishRange(s, 0, n);
    assert s.flights[0..0 + n] == s.flights && Cut(s.flights, 0, n) == [];
    var more, v := FlushBuffer(u);
    Then(s, landing, u, w, more, v, u.buffer);
    events, t := landing + more, v;
  }

  /** The flights before and after number j are finished. */
  lemma OtherFlights(s: State, j: nat) returns (events: seq<Event>, t: State, w: seq<Item>)
    requires j < |s.flights|
    ensures Leads(s, events, t, w) && t.buffer == s.buffer && t.flights == [s.flights[j]]
    ensures t.activeFlushes == s.activeFlushes - |s.flights| + 1
  {
    var n := |s.flights| - j - 1;
    var later, u, w1 := FinishRange(s, j + 1, n);
    assert u.flights == s.flights[..j + 1];
    var earlier, v, w2 := FinishRange(u, 0, j);
    Then(s, later, u, w1, earlier, v, w2);
    assert v.flights == u.flights[j..] == [s.flights[j]];
    events, t, w := later + earlier, v, w1 + w2;
  }

  /** Everything but flight j is finished. */
  lemma AllBut(s: State, j: nat) returns (events: seq<Event>, t: State, w: seq<Item>)
    requires Inv(s) && j < |s.flights|
    ensures Leads(s, events, t, w) && t.buffer == [] && t.flights == [s.flights[j]]
  {
    var others, u, w1 := OtherFlights(s, j);
    var more, v := FlushBuffer(u);
    Then(s, others, u, w1, more, v, u.buffer);
    events, t, w := others + more, v, w1 + u.buffer;
  }
}
