/**
 * Waiters sharing one pattern subscription: joins, notifications with awaited fetches, timeouts
 * and cleanups in any order. A subscription object outlives its place in the map, so objects
 * carry ids.
 */
module ScrapeWaiters {
  import opened Options
  import opened Sequences
  import Text

  /** A cached entry as read, or null. */
  type Entry = Option<string>

  datatype Sub = Sub(pendingStores: set<string>, results: map<string, Entry>, callbacks: set<nat>)

  datatype How = Completed | Expired | ConnectionLost | NothingAsked

  datatype Status =
    | Waiting
    | TimingOut            // the flag is set, the promise not yet resolved
    | Resolved(how: How)

  /** `resolves` counts the calls of the promise's resolve function. */
  datatype Waiter = Waiter(asked: set<string>, sub: nat, status: Status, resolves: nat)

  /** A notification handler waiting for its cache read, holding on to its subscription object. */
  datatype Fetch = Fetch(sub: nat, store: string)

  datatype State = State(subs: seq<Sub>, current: Option<nat>, waiters: seq<Waiter>, fetches: seq<Fetch>, cleanups: nat)

  const INITIAL := State([], None, [], [], 0)

  datatype Event =
    | Join(stores: seq<string>)
    | Notify(store: string)
    | ReadDone(k: nat, entry: Entry)
    | SubscribeFails
    | CleanupDone                 // punsubscribe answered or failed; either way the pattern leaves the map
    | TimerFires(w: nat)
    | TimeoutResolves(w: nat)
    | ConnectionEnds

  function LowerAll(stores: seq<string>): set<string> {
    set i | 0 <= i < |stores| :: Text.Lower(stores[i])
  }

  /** Every callback of the set runs; the ones already resolved do nothing. */
  function Fire(waiters: seq<Waiter>, callbacks: set<nat>, how: How): seq<Waiter> {
    seq(|waiters|, i requires 0 <= i < |waiters| => if i in callbacks then Called(waiters[i], how) else waiters[i])
  }

  function Called(w: Waiter, how: How): Waiter {
    if w.status.Waiting? then w.(status := Resolved(how), resolves := w.resolves + 1) else w
  }

  function StartCleanup(s: State): State {
    if s.current.Some? then s.(cleanups := s.cleanups + 1) else s
  }

  function JoinStep(s: State, asked: set<string>): State
    requires s.current.Some? ==> s.current.value < |s.subs|
  {
    var w := |s.waiters|;
    if asked == {} then s.(waiters := s.waiters + [Waiter({}, 0, Resolved(NothingAsked), 1)])
    else match s.current
      case None =>
        s.(subs := s.subs + [Sub(asked, map[], {w})], current := Some(|s.subs|), waiters := s.waiters + [Waiter(asked, |s.subs|, Waiting, 0)])
      case Some(o) =>
        var sub := s.subs[o];
        s.(subs := s.subs[o := Sub(sub.pendingStores + asked, sub.results, sub.callbacks + {w})],
           waiters := s.waiters + [Waiter(asked, o, Waiting, 0)])
  }

  function ReadStep(s: State, k: nat, entry: Entry): State
    requires k < |s.fetches| && s.fetches[k].sub < |s.subs|
  {
    var o, store := s.fetches[k].sub, s.fetches[k].store;
    var sub := s.subs[o].(results := s.subs[o].results[store := entry], pendingStores := s.subs[o].pendingStores - {store});
    var t := s.(subs := s.subs[o := sub], fetches := Remove(s.fetches, k));
    if sub.pendingStores == {} then StartCleanup(t.(waiters := Fire(s.waiters, sub.callbacks, Completed))) else t
  }

  function TimerStep(s: State, w: nat): State
    requires w < |s.waiters| && (s.current.Some? ==> s.current.value < |s.subs|)
  {
    if !s.waiters[w].status.Waiting? then s
    else
      var t := s.(waiters := s.waiters[w := s.waiters[w].(status := TimingOut)]);
      match s.current
      case None => t
      case Some(o) =>
        var sub := s.subs[o].(callbacks := s.subs[o].callbacks - {w});
        var u := t.(subs := s.subs[o := sub]);
        if sub.callbacks == {} then StartCleanup(u) else u
  }

  predicate Enabled(s: State, e: Event) {
    match e
    case ReadDone(k, _) => k < |s.fetches|
    case CleanupDone => s.cleanups > 0
    case TimerFires(w) => w < |s.waiters|
    case TimeoutResolves(w) => w < |s.waiters| && s.waiters[w].status.TimingOut?
    case _ => true
  }

  predicate InBounds(s: State) {
    (s.current.Some? ==> s.current.value < |s.subs|) && forall k :: 0 <= k < |s.fetches| ==> s.fetches[k].sub < |s.subs|
  }

  function Next(s: State, e: Event): State
    requires InBounds(s) && Enabled(s, e)
  {
    match e
    case Join(stores) => JoinStep(s, LowerAll(stores))
    case Notify(store) =>
      if s.current.Some? && store in s.subs[s.current.value].pendingStores then s.(fetches := s.fetches + [Fetch(s.current.value, store)])
      else s
    case ReadDone(k, entry) => ReadStep(s, k, entry)
    case SubscribeFails => StartCleanup(s)
    case CleanupDone => s.(current := None, cleanups := s.cleanups - 1)
    case TimerFires(w) => TimerStep(s, w)
    case TimeoutResolves(w) => s.(waiters := s.waiters[w := s.waiters[w].(status := Resolved(Expired), resolves := s.waiters[w].resolves + 1)])
    case ConnectionEnds =>
      match s.current
      case None => s
      case Some(o) => s.(waiters := Fire(s.waiters, s.subs[o].callbacks, ConnectionLost), current := None)
  }

  ghost predicate IsRun(states: seq<State>, events: seq<Event>) {
    && |states| == |events| + 1 && states[0] == INITIAL
    && forall k :: 0 <= k < |events| ==> InBounds(states[k]) && Enabled(states[k], events[k]) && states[k + 1] == Next(states[k], events[k])
  }

  // ----- Invariant -----

  ghost predicate WaiterOk(subs: seq<Sub>, w: Waiter, id: nat) {
    && w.resolves == (if w.status.Resolved? then 1 else 0)
    && (w.asked != {} ==> w.sub < |subs| && w.asked <= subs[w.sub].pendingStores + subs[w.sub].results.Keys)
    && (w.status.Waiting? ==> w.asked != {} && id in subs[w.sub].callbacks && subs[w.sub].pendingStores != {})
    && (w.status == Resolved(Completed) ==> w.asked != {} && w.asked <= subs[w.sub].results.Keys)
  }

  /** A callback set holds only waiters of its own object. */
  ghost predicate CallbacksOf(waiters: seq<Waiter>, callbacks: set<nat>, o: nat) {
    forall w :: w in callbacks ==> w < |waiters| && waiters[w].sub == o && waiters[w].asked != {}
  }

  ghost predicate Inv(s: State) {
    && InBounds(s)
    && (forall o :: 0 <= o < |s.subs| ==> CallbacksOf(s.waiters, s.subs[o].callbacks, o))
    && (forall w :: 0 <= w < |s.waiters| ==> WaiterOk(s.subs, s.waiters[w], w))
  }

  lemma JoinKeeps(s: State, asked: set<string>)
    requires Inv(s)
    ensures Inv(JoinStep(s, asked))
  {
    var t := JoinStep(s, asked);
    forall w | 0 <= w < |t.waiters| ensures WaiterOk(t.subs, t.waiters[w], w) {
      if w < |s.waiters| {
        assert WaiterOk(s.subs, s.waiters[w], w);
      }
    }
  }

  lemma ReadKeeps(s: State, k: nat, entry: Entry)
    requires Inv(s) && k < |s.fetches|
    ensures Inv(ReadStep(s, k, entry))
  {
    var t := ReadStep(s, k, entry);
    var o := s.fetches[k].sub;
    assert t.subs[o].pendingStores + t.subs[o].results.Keys >= s.subs[o].pendingStores + s.subs[o].results.Keys;
    forall w | 0 <= w < |t.waiters| ensures WaiterOk(t.subs, t.waiters[w], w) {
      assert WaiterOk(s.subs, s.waiters[w], w);
    }
  }

  lemma TimerKeeps(s: State, w: nat)
    requires Inv(s) && w < |s.waiters|
    ensures Inv(TimerStep(s, w))
  {
    var t := TimerStep(s, w);
    forall v | 0 <= v < |t.waiters| ensures WaiterOk(t.subs, t.waiters[v], v) {
      assert WaiterOk(s.subs, s.waiters[v], v);
    }
  }

  lemma StepKeepsInv(s: State, e: Event)
    requires Inv(s) && Enabled(s, e)
    ensures Inv(Next(s, e))
  {
    match e {
      case Join(stores) => JoinKeeps(s, LowerAll(stores));
      case ReadDone(k, entry) => ReadKeeps(s, k, entry);
      case TimerFires(w) => TimerKeeps(s, w);
      case _ =>
        var t := Next(s, e);
        forall v | 0 <= v < |t.waiters| ensures WaiterOk(t.subs, t.waiters[v], v) {
          assert WaiterOk(s.subs, s.waiters[v], v);
        }
    }
  }

  lemma {:induction false} RunKeepsInv(states: seq<State>, events: seq<Event>, k: nat)
    requires IsRun(states, events) && k <= |events|
    ensures Inv(states[k])
  {
    if k > 0 {
      RunKeepsInv(states, events, k - 1);
      StepKeepsInv(states[k - 1], events[k - 1]);
    }
  }

  /** A promise is resolved at most once, by whichever of completion, timer and connection loss comes first. */
  lemma ResolvedAtMostOnce(states: seq<State>, events: seq<Event>, k: nat, w: nat)
    requires IsRun(states, events) && k <= |events| && w < |states[k].waiters|
    ensures states[k].waiters[w].resolves <= 1
    ensures states[k].waiters[w].resolves == 1 <==> states[k].waiters[w].status.Resolved?
  {
    RunKeepsInv(states, events, k);
    assert WaiterOk(states[k].subs, states[k].waiters[w], w);
  }

  /** The completion callback fires only once every store that waiter asked for has an entry, and it keeps it. */
  lemma CompletionMeansEveryStore(states: seq<State>, events: seq<Event>, k: nat, w: nat)
    requires IsRun(states, events) && k <= |events| && w < |states[k].waiters|
    requires states[k].waiters[w].status == Resolved(Completed)
    ensures states[k].waiters[w].sub < |states[k].subs|
    ensures states[k].waiters[w].asked != {} && states[k].waiters[w].asked <= states[k].subs[states[k].waiters[w].sub].results.Keys
  {
    RunKeepsInv(states, events, k);
    assert WaiterOk(states[k].subs, states[k].waiters[w], w);
  }

  /** No wake-up is lost inside an object: a waiter still waiting has its callback there and a store outstanding. */
  lemma WaitingMeansOutstanding(states: seq<State>, events: seq<Event>, k: nat, w: nat)
    requires IsRun(states, events) && k <= |events| && w < |states[k].waiters| && states[k].waiters[w].status.Waiting?
    ensures var s := states[k]; var sub := s.waiters[w].sub;
            sub < |s.subs| && w in s.subs[sub].callbacks && s.subs[sub].pendingStores != {}
            && s.waiters[w].asked <= s.subs[sub].pendingStores + s.subs[sub].results.Keys
  {
    RunKeepsInv(states, events, k);
    assert WaiterOk(states[k].subs, states[k].waiters[w], w);
  }

  /** The timer alone ends a wait: its callback leaves the object in the map, and the promise resolves once with what there is. */
  lemma TimerEndsTheWait(s: State, w: nat)
    requires Inv(s) && w < |s.waiters| && s.waiters[w].status.Waiting?
    ensures var t := Next(s, TimerFires(w));
            && Inv(t) && Enabled(t, TimeoutResolves(w))
            && (s.current.Some? ==> w !in t.subs[s.current.value].callbacks)
            && Next(t, TimeoutResolves(w)).waiters[w].status == Resolved(Expired) && Next(t, TimeoutResolves(w)).waiters[w].resolves == 1
  {
    assert WaiterOk(s.subs, s.waiters[w], w);
    TimerKeeps(s, w);
  }

  // ----- Stranding: a waiter whose object has left the map -----

  /** Waiting on an object that is out of the map, with no read of it under way. */
  ghost predicate Stranded(s: State, w: nat) {
    && w < |s.waiters| && s.waiters[w].status.Waiting? && s.current != Some(s.waiters[w].sub)
    && forall k :: 0 <= k < |s.fetches| ==> s.fetches[k].sub != s.waiters[w].sub
  }

  lemma StepKeepsStranded(s: State, e: Event, w: nat)
    requires Inv(s) && Enabled(s, e) && Stranded(s, w) && e != TimerFires(w)
    ensures Stranded(Next(s, e), w)
  {
    assert WaiterOk(s.subs, s.waiters[w], w);
    var t := Next(s, e);
    assert t.waiters[w] == s.waiters[w];
  }

  /** Whatever is notified or joined later, only its own timer ends a stranded wait. */
  lemma {:induction false} StrandedUntilItsTimer(states: seq<State>, events: seq<Event>, j: nat, k: nat, w: nat)
    requires IsRun(states, events) && j <= k <= |events| && Stranded(states[j], w)
    requires forall i :: j <= i < k ==> events[i] != TimerFires(w)
    ensures Stranded(states[k], w)
  {
    if j < k {
      StrandedUntilItsTimer(states, events, j, k - 1, w);
      RunKeepsInv(states, events, k - 1);
      StepKeepsStranded(states[k - 1], events[k - 1], w);
    }
  }

  /** No read of the object is under way, setting aside fetch number `but`. */
  ghost predicate Unread(s: State, sub: nat, but: int) {
    forall k :: 0 <= k < |s.fetches| && k != but ==> s.fetches[k].sub != sub
  }

  /** The event strands the waiter: a cleanup removes its unread object, or the last read of its removed one leaves stores outstanding. */
  ghost predicate Strands(s: State, e: Event, w: nat)
    requires InBounds(s) && Enabled(s, e) && w < |s.waiters|
  {
    var sub := s.waiters[w].sub;
    match e
    case CleanupDone => s.current == Some(sub) && Unread(s, sub, -1)
    case ReadDone(k, _) =>
      s.current != Some(sub) && s.fetches[k].sub == sub && Unread(s, sub, k) && s.subs[sub].pendingStores - {s.fetches[k].store} != {}
    case _ => false
  }

  /** Reads of the object after the handler of fetch `k` has ended. */
  lemma UnreadAfterRead(s: State, k: nat, entry: Entry, sub: nat)
    requires InBounds(s) && k < |s.fetches|
    ensures Unread(ReadStep(s, k, entry), sub, -1) <==> Unread(s, sub, k)
  {
    var after := ReadStep(s, k, entry).fetches;
    assert after == s.fetches[..k] + s.fetches[k + 1..];
    assert forall j :: 0 <= j < k ==> after[j] == s.fetches[j];
    assert forall j :: k < j < |s.fetches| ==> after[j - 1] == s.fetches[j];
    assert forall j :: 0 <= j < |after| ==> after[j] == if j < k then s.fetches[j] else s.fetches[j + 1];
  }

  /** Exactly which waiters are stranded after a step: those that were, until their timer, and those the step strands. */
  lemma StrandedExactly(s: State, e: Event, w: nat)
    requires Inv(s) && Enabled(s, e)
    ensures Stranded(Next(s, e), w) <==>
            && w < |s.waiters| && s.waiters[w].status.Waiting?
            && ((Stranded(s, w) && e != TimerFires(w)) || Strands(s, e, w))
  {
    if w < |s.waiters| && s.waiters[w].status.Waiting? {
      assert WaiterOk(s.subs, s.waiters[w], w);
      var sub := s.waiters[w].sub;
      match e {
        case ReadDone(k, entry) => UnreadAfterRead(s, k, entry, sub);
        case Notify(store) =>
          var t := Next(s, e);
          assert t.fetches[..|s.fetches|] == s.fetches;
          assert s.current == Some(sub) || (Unread(t, sub, -1) <==> Unread(s, sub, -1));
        case _ =>
      }
    }
  }

  // ----- What a joining caller can rely on -----

  /** Waiting on the object in the map, with no cleanup on its way to remove it. */
  predicate Safe(s: State, w: nat) {
    w < |s.waiters| && s.waiters[w].status.Waiting? && s.current == Some(s.waiters[w].sub) && s.cleanups == 0
  }

  /** Events that start a cleanup of an object still waited on: a failed subscribe, and the last read of an older object. */
  predicate StartsForeignCleanup(s: State, e: Event)
    requires InBounds(s) && Enabled(s, e)
  {
    match e
    case SubscribeFails => true
    case ReadDone(k, _) =>
      s.current != Some(s.fetches[k].sub) && s.subs[s.fetches[k].sub].pendingStores - {s.fetches[k].store} == {}
    case _ => false
  }

  /** Exactly those events, besides the waiter's own end of waiting, make it unsafe. */
  lemma SafeExactly(s: State, e: Event, w: nat)
    requires Inv(s) && Enabled(s, e) && Safe(s, w)
    ensures Next(s, e).waiters[w].status.Waiting? ==> (Safe(Next(s, e), w) <==> !StartsForeignCleanup(s, e))
  {
    assert WaiterOk(s.subs, s.waiters[w], w);
    assert e.TimerFires? && e.w != w ==> w in s.subs[s.waiters[w].sub].callbacks - {e.w};
  }

  lemma DoneStaysDone(s: State, e: Event, w: nat)
    requires Inv(s) && Enabled(s, e) && w < |s.waiters| && !s.waiters[w].status.Waiting?
    ensures w < |Next(s, e).waiters| && !Next(s, e).waiters[w].status.Waiting?
  {
  }

  /** A caller that joins with no cleanup pending is stranded only by a failed subscribe or the last read of an older object. */
  lemma {:induction false} SafeJoinersStayAttached(states: seq<State>, events: seq<Event>, j: nat, k: nat, w: nat)
    requires IsRun(states, events) && j <= k <= |events| && Safe(states[j], w)
    requires forall i :: j <= i < k ==> !StartsForeignCleanup(states[i], events[i])
    ensures w < |states[k].waiters| && (states[k].waiters[w].status.Waiting? ==> Safe(states[k], w))
    ensures !Stranded(states[k], w)
  {
    if j < k {
      SafeJoinersStayAttached(states, events, j, k - 1, w);
      RunKeepsInv(states, events, k - 1);
      if states[k - 1].waiters[w].status.Waiting? {
        SafeExactly(states[k - 1], events[k - 1], w);
        JoinersKeepTheirPlace(states[k - 1], events[k - 1], w);
      } else {
        DoneStaysDone(states[k - 1], events[k - 1], w);
      }
    }
  }

  lemma JoinersKeepTheirPlace(s: State, e: Event, w: nat)
    requires Inv(s) && Enabled(s, e) && w < |s.waiters|
    ensures w < |Next(s, e).waiters|
  {
  }

  ghost predicate Reachable(s: State) {
    exists states, events :: IsRun(states, events) && states[|events|] == s
  }

  lemma ReachStep(s: State, e: Event)
    requires Reachable(s) && InBounds(s) && Enabled(s, e)
    ensures Reachable(Next(s, e))
  {
    var states, events :| IsRun(states, events) && states[|events|] == s;
    var more, one := states + [Next(s, e)], events + [e];
    forall k | 0 <= k < |one|
      ensures InBounds(more[k]) && Enabled(more[k], one[k]) && more[k + 1] == Next(more[k], one[k])
    {
      if k < |events| {
        assert more[k] == states[k] && more[k + 1] == states[k + 1] && one[k] == events[k];
      }
    }
    assert IsRun(more, one);
  }

  lemma ReachStart()
    ensures Reachable(INITIAL)
  {
    assert IsRun([INITIAL], []);
  }

  lemma LowerOne(store: string)
    requires Text.Lower(store) == store
    ensures LowerAll([store]) == {store}
  {
    assert [store][0] == store;
  }

  /** A first round is over and its cleanup under way. */
  lemma FirstRound(a: string) returns (s: State)
    requires Text.Lower(a) == a
    ensures Reachable(s)
    ensures s == State([Sub({}, map[a := None], {0})], Some(0), [Waiter({a}, 0, Resolved(Completed), 1)], [], 1)
  {
    ReachStart();
    LowerOne(a);
    ReachStep(INITIAL, Join([a]));
    var s1 := Next(INITIAL, Join([a]));
    ReachStep(s1, Notify(a));
    var s2 := Next(s1, Notify(a));
    ReachStep(s2, ReadDone(0, None));
    s := Next(s2, ReadDone(0, None));
  }

  /** It does happen: a waiter joining while the previous round's cleanup is under way is left with its timer alone. */
  lemma JoiningDuringCleanupStrands()
    ensures exists s, w :: Reachable(s) && Stranded(s, w) && s.cleanups == 0
  {
    assert Text.Lower("a") == "a" && Text.Lower("b") == "b";
    var s3 := FirstRound("a");
    LowerOne("b");
    ReachStep(s3, Join(["b"]));
    var s4 := Next(s3, Join(["b"]));
    assert s4.waiters[1] == Waiter({"b"}, 0, Waiting, 0);
    ReachStep(s4, CleanupDone);
    assert Stranded(Next(s4, CleanupDone), 1);
  }

  /** So does a failed subscribe, whose cleanup takes a waiter's object away. */
  lemma FailedSubscribeStrands()
    ensures exists s, w :: Reachable(s) && Stranded(s, w) && s.cleanups == 0
  {
    assert Text.Lower("a") == "a";
    ReachStart();
    LowerOne("a");
    ReachStep(INITIAL, Join(["a"]));
    var s1 := Next(INITIAL, Join(["a"]));
    ReachStep(s1, SubscribeFails);
    var s2 := Next(s1, SubscribeFails);
    assert s2.waiters[0] == Waiter({"a"}, 0, Waiting, 0);
    ReachStep(s2, CleanupDone);
    assert Stranded(Next(s2, CleanupDone), 0);
  }

  /** The connection is lost while a read is under way. */
  lemma ReadOutlivesItsObject(a: string) returns (s: State)
    requires Text.Lower(a) == a
    ensures Reachable(s)
    ensures s == State([Sub({a}, map[], {0})], None, [Waiter({a}, 0, Resolved(ConnectionLost), 1)], [Fetch(0, a)], 0)
  {
    ReachStart();
    LowerOne(a);
    ReachStep(INITIAL, Join([a]));
    var s1 := Next(INITIAL, Join([a]));
    ReachStep(s1, Notify(a));
    var s2 := Next(s1, Notify(a));
    ReachStep(s2, ConnectionEnds);
    s := Next(s2, ConnectionEnds);
  }

  lemma CleanupHitsTheSuccessor(a: string, b: string) returns (s: State)
    requires Text.Lower(a) == a && Text.Lower(b) == b
    ensures Reachable(s) && s.fetches == [] && s.current == Some(1) && s.cleanups == 1 && |s.subs| == 2
    ensures |s.waiters| == 2 && s.waiters[1] == Waiter({b}, 1, Waiting, 0)
  {
    var s3 := ReadOutlivesItsObject(a);
    LowerOne(b);
    ReachStep(s3, Join([b]));
    var s4 := Next(s3, Join([b]));
    assert s4.waiters[1] == Waiter({b}, 1, Waiting, 0) && s4.fetches == [Fetch(0, a)];
    ReachStep(s4, ReadDone(0, None));
    s := Next(s4, ReadDone(0, None));
  }

  /** And the last read of an object that a lost connection removed, whose cleanup hits its successor. */
  lemma OlderReadStrands()
    ensures exists s, w :: Reachable(s) && Stranded(s, w) && s.cleanups == 0
  {
    assert Text.Lower("a") == "a" && Text.Lower("b") == "b";
    var s := CleanupHitsTheSuccessor("a", "b");
    ReachStep(s, CleanupDone);
    assert Stranded(Next(s, CleanupDone), 1);
  }

  // ----- The handlers -----

  predicate AsksFor(stores: seq<string>, store: string) {
    exists i :: 0 <= i < |stores| && Text.Lower(stores[i]) == store
  }

  /** The waiter hangs on the object in the map, made if there is none, which now also awaits its lower-cased stores. */
  ghost predicate Joined(s: State, t: State, stores: seq<string>) {
    var o, w := if s.current.Some? then s.current.value else |s.subs|, |s.waiters|;
    && t.current == Some(o) && o < |t.subs| && |t.waiters| == w + 1 && t.fetches == s.fetches && t.cleanups == s.cleanups
    && t.waiters[..w] == s.waiters && t.waiters[w].sub == o && t.waiters[w].status == Waiting && t.waiters[w].resolves == 0
    && (forall store :: store in t.waiters[w].asked <==> AsksFor(stores, store))
    && if s.current.Some? then
         && o < |s.subs| && t.subs == s.subs[o := t.subs[o]] && t.subs[o].results == s.subs[o].results
         && (forall store :: store in t.subs[o].pendingStores <==> store in s.subs[o].pendingStores || AsksFor(stores, store))
         && t.subs[o].callbacks == s.subs[o].callbacks + {w}
       else
         && t.subs == s.subs + [t.subs[o]] && t.subs[o].results == map[] && t.subs[o].callbacks == {w}
         && (forall store :: store in t.subs[o].pendingStores <==> AsksFor(stores, store))
  }

  lemma JoinedExactly(s: State, stores: seq<string>)
    requires InBounds(s) && stores != []
    ensures Joined(s, Next(s, Join(stores)), stores)
  {
    forall store ensures store in LowerAll(stores) <==> AsksFor(stores, store) {
    }
    assert Text.Lower(stores[0]) in LowerAll(stores);
  }

  /**
   * The entry is recorded on the fetch's own object. With nothing more outstanding there its waiting callbacks complete, and a
   * cleanup starts if any object is in the map.
   */
  ghost predicate Recorded(s: State, t: State, k: nat, entry: Entry)
    requires InBounds(s) && k < |s.fetches|
  {
    var o, store := s.fetches[k].sub, s.fetches[k].store;
    var pending := s.subs[o].pendingStores - {store};
    && t.subs == s.subs[o := Sub(pending, s.subs[o].results[store := entry], s.subs[o].callbacks)]
    && t.current == s.current && t.fetches == Remove(s.fetches, k) && |t.waiters| == |s.waiters|
    && t.cleanups == (if pending == {} && s.current.Some? then s.cleanups + 1 else s.cleanups)
    && forall w :: 0 <= w < |s.waiters| ==>
         t.waiters[w] == if pending == {} && w in s.subs[o].callbacks && s.waiters[w].status == Waiting
                         then s.waiters[w].(status := Resolved(Completed), resolves := s.waiters[w].resolves + 1) else s.waiters[w]
  }

  /** A waiter still waiting is marked and leaves the callbacks of the object in the map, which is cleaned up if that was the last. */
  ghost predicate TimedOut(s: State, t: State, w: nat)
    requires InBounds(s) && w < |s.waiters|
  {
    if s.waiters[w].status != Waiting then t == s
    else if s.current.None? then t == s.(waiters := s.waiters[w := s.waiters[w].(status := TimingOut)])
    else
      var o := s.current.value;
      var callbacks := s.subs[o].callbacks - {w};
      t == s.(waiters := s.waiters[w := s.waiters[w].(status := TimingOut)],
              subs := s.subs[o := Sub(s.subs[o].pendingStores, s.subs[o].results, callbacks)],
              cleanups := if callbacks == {} then s.cleanups + 1 else s.cleanups)
  }

  lemma HandlersExactly(s: State, k: nat, entry: Entry, w: nat)
    requires InBounds(s)
    ensures k < |s.fetches| ==> Recorded(s, Next(s, ReadDone(k, entry)), k, entry)
    ensures w < |s.waiters| ==> TimedOut(s, Next(s, TimerFires(w)), w)
  {
  }

  class CacheService {
    var subs: seq<Sub>
    var current: Option<nat>
    var waiters: seq<Waiter>
    var fetches: seq<Fetch>
    var cleanups: nat

    ghost function Now(): State
      reads this
    {
      State(subs, current, waiters, fetches, cleanups)
    }

    constructor ()
      ensures Now() == INITIAL
    {
      subs, current, waiters, fetches, cleanups := [], None, [], [], 0;
    }

    method WaitForStores(storeNames: seq<string>) returns (w: nat)
      requires InBounds(Now())
      modifies this
      ensures Now() == Next(old(Now()), Join(storeNames)) && w == old(|waiters|)
      ensures storeNames == [] ==> Now() == old(Now()).(waiters := old(waiters) + [Waiter({}, 0, Resolved(NothingAsked), 1)])
      ensures storeNames != [] ==> Joined(old(Now()), Now(), storeNames)
    {
      if storeNames != [] {
        JoinedExactly(Now(), storeNames);
      }
      w := |waiters|;
      var asked := {};
      for i := 0 to |storeNames|
        invariant asked == LowerAll(storeNames[..i])
      {
        var lowered := LowerAll(storeNames[..i + 1]);
        assert lowered == asked + {Text.Lower(storeNames[i])} by {
          assert storeNames[..i + 1][i] == storeNames[i];
          assert forall j :: 0 <= j < i ==> storeNames[..i + 1][j] == storeNames[..i][j];
        }
        asked := asked + {Text.Lower(storeNames[i])};
      }
      assert storeNames[..|storeNames|] == storeNames;
      if asked == {} {
        waiters := waiters + [Waiter({}, 0, Resolved(NothingAsked), 1)];
        return;
      }
      var o;
      if current.None? {
        o := |subs|;
        subs := subs + [Sub(asked, map[], {})];
        current := Some(o);
        assert {} + {w} == {w};
      } else {
        o := current.value;
        subs := subs[o := subs[o].(pendingStores := subs[o].pendingStores + asked)];
      }
      subs := subs[o := subs[o].(callbacks := subs[o].callbacks + {w})];
      waiters := waiters + [Waiter(asked, o, Waiting, 0)];
    }

    /** The rest of the message handler, once the store's entry has been read. */
    method AfterRead(k: nat, entry: Entry)
      requires InBounds(Now()) && k < |fetches|
      modifies this
      ensures Now() == Next(old(Now()), ReadDone(k, entry)) && Recorded(old(Now()), Now(), k, entry)
    {
      ghost var before := Now();
      var o, store := fetches[k].sub, fetches[k].store;
      fetches := Remove(fetches, k);
      subs := subs[o := subs[o].(results := subs[o].results[store := entry], pendingStores := subs[o].pendingStores - {store})];
      if subs[o].pendingStores == {} {
        NotifyAll(subs[o].callbacks, Completed);
        if current.Some? {
          cleanups := cleanups + 1;
        }
      }
      HandlersExactly(before, k, entry, 0);
    }

    /** `callbacks.forEach`: each callback checks its own flag. */
    method NotifyAll(callbacks: set<nat>, how: How)
      modifies this`waiters
      ensures waiters == Fire(old(waiters), callbacks, how)
    {
      var was, fired := waiters, waiters;
      for i := 0 to |was|
        invariant |fired| == |was| && fired[i..] == was[i..]
        invariant forall j :: 0 <= j < i ==> fired[j] == if j in callbacks then Called(was[j], how) else was[j]
      {
        if i in callbacks && fired[i].status.Waiting? {
          fired := fired[i := fired[i].(status := Resolved(how), resolves := fired[i].resolves + 1)];
        }
      }
      waiters := fired;
    }

    method OnTimer(w: nat)
      requires InBounds(Now()) && w < |waiters|
      modifies this
      ensures Now() == Next(old(Now()), TimerFires(w)) && TimedOut(old(Now()), Now(), w)
    {
      HandlersExactly(Now(), |fetches|, None, w);
      if !waiters[w].status.Waiting? {
        return;
      }
      waiters := waiters[w := waiters[w].(status := TimingOut)];
      if current.Some? {
        var o := current.value;
        subs := subs[o := subs[o].(callbacks := subs[o].callbacks - {w})];
        if subs[o].callbacks == {} {
          cleanups := cleanups + 1;
        }
      }
    }
  }
}
