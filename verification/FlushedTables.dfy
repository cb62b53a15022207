/**
 * The tables over whole traces of the accumulator: upserts as they succeed, and the stale
 * cleanups of each flush, whole or cut off by a failure. Data and stock flags once all is drained.
 */
module FlushedTables {
  import opened Numbers
  import opened Options
  import opened BatchAccumulator
  import opened FlushOrder
  import opened FlushContinuations
  import opened FlushDecisions
  import opened ListingTables
  import opened StockFlags

  function ValuesOf(items: seq<Item>, value: Item -> ItemValue): seq<ItemValue> {
    seq(|items|, i requires 0 <= i < |items| => value(items[i]))
  }

  /** The cleanups a flight's chain ran: all of them, or those before the one that failed. */
  function CleanedBy(s: State, e: Event, before: nat): seq<Item> {
    match e
    case CleanupSucceeds(i) => if i < |s.flights| then s.flights[i].items else []
    case CleanupFails(i) => if i < |s.flights| then s.flights[i].items[..Min(before, |s.flights[i].items|)] else []
    case _ => []
  }

  /** What an event does to the tables; `before` cleanups ran if it is one of them that fails. */
  function AfterStep(s: State, e: Event, before: nat, value: Item -> ItemValue, conditions: Conditions, t: Tables): Tables {
    CleanEach(UpsertEach(conditions, t, ValuesOf(WrittenBy(s, e), value)), ValuesOf(CleanedBy(s, e, before), value))
  }

  /** The tables after k events; `cut` says how many cleanups ran before a failing one. */
  function TablesAt(states: seq<State>, events: seq<Event>, k: nat, cut: nat -> nat, value: Item -> ItemValue,
                    conditions: Conditions, t: Tables): Tables
    requires k <= |events| < |states|
  {
    if k == 0 then t
    else AfterStep(states[k - 1], events[k - 1], cut(k - 1), value, conditions,
                   TablesAt(states, events, k - 1, cut, value, conditions, t))
  }

  // ----- Everything but the stock flags follows the writes -----

  ghost predicate SameButStock(a: Tables, b: Tables) {
    && a.listings == b.listings && a.variants.Keys == b.variants.Keys
    && forall k :: k in a.variants ==> a.variants[k] == b.variants[k].(inStock := a.variants[k].inStock)
  }

  lemma CleaningKeepsData(t: Tables, items: seq<ItemValue>)
    ensures SameButStock(CleanEach(t, items), t)
  {
    var after := CleanEach(t, items);
    CleaningIsExact(t, items, VariantKey(Key(0, 0), 0, false));
    forall k ensures k in after.variants <==> k in t.variants
      ensures k in after.variants ==> after.variants[k] == t.variants[k].(inStock := after.variants[k].inStock)
    {
      CleaningIsExact(t, items, k);
    }
  }

  lemma UpsertKeepsSameness(conditions: Conditions, a: Tables, b: Tables, items: seq<ItemValue>)
    requires SameButStock(a, b)
    ensures SameButStock(UpsertEach(conditions, a, items), UpsertEach(conditions, b, items))
  {
    UpsertEachIsFlat(conditions, a, items);
    UpsertEachIsFlat(conditions, b, items);
    var rows := Flat(conditions, items);
    forall k ensures k in PutRows(a.variants, rows) <==> k in PutRows(b.variants, rows)
      ensures k in PutRows(a.variants, rows) ==>
        PutRows(a.variants, rows)[k] == PutRows(b.variants, rows)[k].(inStock := PutRows(a.variants, rows)[k].inStock)
    {
      PutRowsLooksUpLast(a.variants, rows, k);
      PutRowsLooksUpLast(b.variants, rows, k);
    }
  }

  lemma ValuesInTurn(log: seq<Item>, own: seq<Item>, value: Item -> ItemValue, conditions: Conditions, t: Tables)
    ensures UpsertEach(conditions, UpsertEach(conditions, t, ValuesOf(log, value)), ValuesOf(own, value))
            == UpsertEach(conditions, t, ValuesOf(log + own, value))
  {
    UpsertEachConcat(conditions, t, ValuesOf(log, value), ValuesOf(own, value));
    assert ValuesOf(log + own, value) == ValuesOf(log, value) + ValuesOf(own, value);
  }

  lemma {:induction false} TablesFollowTheLog(states: seq<State>, events: seq<Event>, k: nat, cut: nat -> nat,
                                              value: Item -> ItemValue, conditions: Conditions, t: Tables)
    requires k <= |events| < |states|
    ensures SameButStock(TablesAt(states, events, k, cut, value, conditions, t),
                         UpsertEach(conditions, t, ValuesOf(Log(states, events, k), value)))
  {
    if k > 0 {
      TablesFollowTheLog(states, events, k - 1, cut, value, conditions, t);
      LogGrows(states, events, k);
      var s, e := states[k - 1], events[k - 1];
      var before, log := TablesAt(states, events, k - 1, cut, value, conditions, t), Log(states, events, k - 1);
      var written := ValuesOf(Written(states, events, k - 1), value);
      ValuesInTurn(log, Written(states, events, k - 1), value, conditions, t);
      UpsertKeepsSameness(conditions, before, UpsertEach(conditions, t, ValuesOf(log, value)), written);
      CleaningKeepsData(UpsertEach(conditions, before, written), ValuesOf(CleanedBy(s, e, cut(k - 1)), value));
    }
  }

  /** Items of one listing. */
  function OfListing(value: Item -> ItemValue, key: Key): Item -> bool {
    x => value(x).listing.key == key
  }

  /** The row an item has for a variant key, if any. */
  function RowIn(value: Item -> ItemValue, conditions: Conditions, k: VariantKey, x: Item): Option<VariantData> {
    LastRow(RowsOf(conditions, value(x).listing.key, value(x).variants), k)
  }

  function WithRow(value: Item -> ItemValue, conditions: Conditions, k: VariantKey): Item -> bool {
    x => RowIn(value, conditions, k, x).Some?
  }

  lemma {:induction false} LastItemDecidesListing(items: seq<Item>, value: Item -> ItemValue, conditions: Conditions, t: Tables, key: Key)
    ensures var last := LastAbout(items, OfListing(value, key));
            last.Some? ==> key in UpsertEach(conditions, t, ValuesOf(items, value)).listings
                           && UpsertEach(conditions, t, ValuesOf(items, value)).listings[key] == value(last.value).listing
  {
    if items != [] {
      var n := |items| - 1;
      LastItemDecidesListing(items[..n], value, conditions, t, key);
      assert ValuesOf(items, value)[..n] == ValuesOf(items[..n], value);
    }
  }

  lemma {:induction false} LastItemDecidesRow(items: seq<Item>, value: Item -> ItemValue, conditions: Conditions, t: Tables, k: VariantKey)
    ensures var last := LastAbout(items, WithRow(value, conditions, k));
            last.Some? ==> k in UpsertEach(conditions, t, ValuesOf(items, value)).variants
                           && Some(UpsertEach(conditions, t, ValuesOf(items, value)).variants[k]) == RowIn(value, conditions, k, last.value)
  {
    if items != [] {
      var n := |items| - 1;
      LastItemDecidesRow(items[..n], value, conditions, t, k);
      assert ValuesOf(items, value)[..n] == ValuesOf(items[..n], value);
      var before := UpsertEach(conditions, t, ValuesOf(items[..n], value));
      PutRowsLooksUpLast(before.variants, RowsOf(conditions, value(items[n]).listing.key, value(items[n]).variants), k);
    }
  }

  /** The row is this data, whatever its stock flag. */
  predicate ShowsData(t: Tables, k: VariantKey, data: Option<VariantData>) {
    k in t.variants && data.Some? && t.variants[k] == data.value.(inStock := t.variants[k].inStock)
  }

  predicate ShowsListing(t: Tables, listing: ListingRow) {
    listing.key in t.listings && t.listings[listing.key] == listing
  }

  /** Once drained, a listing that no two live flushes held at once shows its newest extraction. */
  lemma DrainedListingIsNewest(states: seq<State>, events: seq<Event>, k: nat, cut: nat -> nat, value: Item -> ItemValue,
                               conditions: Conditions, t: Tables, x: Item)
    requires IsTrace(states, events) && Numbered(states, events) && k <= |events|
    requires |states[k].buffer| == 0 && states[k].activeFlushes == 0
    requires var about := OfListing(value, value(x).listing.key);
             AlwaysApart(states, about, k) && IsNewest(states[k].added, about, x)
    ensures ShowsListing(TablesAt(states, events, k, cut, value, conditions, t), value(x).listing)
  {
    var key := value(x).listing.key;
    NewestIsWrittenLast(states, events, k, OfListing(value, key), x);
    TablesFollowTheLog(states, events, k, cut, value, conditions, t);
    LastItemDecidesListing(Log(states, events, k), value, conditions, t, key);
  }

  /** So does each variant row, up to its stock flag, by the newest extraction that has it. */
  lemma DrainedRowIsNewest(states: seq<State>, events: seq<Event>, k: nat, cut: nat -> nat, value: Item -> ItemValue,
                           conditions: Conditions, t: Tables, row: VariantKey, x: Item)
    requires IsTrace(states, events) && Numbered(states, events) && k <= |events|
    requires |states[k].buffer| == 0 && states[k].activeFlushes == 0
    requires var about := WithRow(value, conditions, row);
             AlwaysApart(states, about, k) && IsNewest(states[k].added, about, x)
    ensures ShowsData(TablesAt(states, events, k, cut, value, conditions, t), row, RowIn(value, conditions, row, x))
  {
    NewestIsWrittenLast(states, events, k, WithRow(value, conditions, row), x);
    TablesFollowTheLog(states, events, k, cut, value, conditions, t);
    LastItemDecidesRow(Log(states, events, k), value, conditions, t, row);
  }

  // ----- The last successful flush -----

  /** Batch j ends on x, and no later batch holds anything about it. */
  ghost predicate WritesLast(batches: seq<seq<Item>>, j: nat, about: Item -> bool, x: Item)
    requires j < |batches|
  {
    LastAbout(batches[j], about) == Some(x) && forall m :: j < m < |batches| ==> LastAbout(batches[m], about) == None
  }

  lemma LaterBatchDecides(batches: seq<seq<Item>>, j: nat, about: Item -> bool, x: Item)
    requires j < |batches| - 1
    ensures WritesLast(batches, j, about, x)
            <==> WritesLast(batches[..|batches| - 1], j, about, x) && LastAbout(batches[|batches| - 1], about) == None
  {
    var init := batches[..|batches| - 1];
    assert forall m :: 0 <= m < |init| ==> init[m] == batches[m];
    if WritesLast(batches, j, about, x) {
      assert forall m :: j < m < |init| ==> LastAbout(init[m], about) == LastAbout(batches[m], about);
    }
  }

  /** In any trace: an item is the last one written if and only if it is the last of its batch and no later batch holds any of the same. */
  lemma {:induction false} LastWrittenExactly(batches: seq<seq<Item>>, about: Item -> bool, x: Item)
    ensures LastAbout(Joined(batches), about) == Some(x) <==> exists j :: 0 <= j < |batches| && WritesLast(batches, j, about, x)
  {
    if batches != [] {
      var n := |batches| - 1;
      LastWrittenExactly(batches[..n], about, x);
      LastOfConcat(Joined(batches[..n]), batches[n], about);
      forall j | 0 <= j < n
        ensures WritesLast(batches, j, about, x) <==> WritesLast(batches[..n], j, about, x) && LastAbout(batches[n], about) == None
      {
        LaterBatchDecides(batches, j, about, x);
      }
      assert WritesLast(batches, n, about, x) <==> LastAbout(batches[n], about) == Some(x);
    }
  }

  /** Whatever overlapped or failed, a listing shows the last item of the last successful flush that held it. */
  lemma ListingShowsLastFlush(states: seq<State>, events: seq<Event>, k: nat, j: nat, cut: nat -> nat, value: Item -> ItemValue,
                              conditions: Conditions, t: Tables, x: Item)
    requires j < k <= |events| < |states|
    requires WritesLast(Batches(states, events, k), j, OfListing(value, value(x).listing.key), x)
    ensures ShowsListing(TablesAt(states, events, k, cut, value, conditions, t), value(x).listing)
  {
    var key := value(x).listing.key;
    LastWrittenExactly(Batches(states, events, k), OfListing(value, key), x);
    TablesFollowTheLog(states, events, k, cut, value, conditions, t);
    LastItemDecidesListing(Log(states, events, k), value, conditions, t, key);
  }

  /** A variant row likewise, up to its stock flag, of the last successful flush that had it. */
  lemma RowShowsLastFlush(states: seq<State>, events: seq<Event>, k: nat, j: nat, cut: nat -> nat, value: Item -> ItemValue,
                          conditions: Conditions, t: Tables, row: VariantKey, x: Item)
    requires j < k <= |events| < |states|
    requires WritesLast(Batches(states, events, k), j, WithRow(value, conditions, row), x)
    ensures ShowsData(TablesAt(states, events, k, cut, value, conditions, t), row, RowIn(value, conditions, row, x))
  {
    LastWrittenExactly(Batches(states, events, k), WithRow(value, conditions, row), x);
    TablesFollowTheLog(states, events, k, cut, value, conditions, t);
    LastItemDecidesRow(Log(states, events, k), value, conditions, t, row);
  }

  // ----- From a state in which it is decided -----

  ghost predicate NoArrivals(events: seq<Event>, j: nat, k: nat) {
    forall m :: j <= m < k && m < |events| ==> !events[m].Add?
  }

  lemma {:induction false} TraceKeepsDecided(states: seq<State>, events: seq<Event>, j: nat, k: nat, about: Item -> bool, x: Item)
    requires IsTrace(states, events) && j <= k <= |events| && NoArrivals(events, j, k)
    requires StaysTogether(states[j], about, x) && Decided(states[j], Log(states, events, j), about, x)
    ensures StaysTogether(states[k], about, x) && Decided(states[k], Log(states, events, k), about, x)
  {
    if j < k {
      TraceKeepsDecided(states, events, j, k - 1, about, x);
      EveryStateIsGood(states, events, k - 1);
      LogGrows(states, events, k);
      StepKeepsAll(states[k - 1], events[k - 1], Log(states, events, k - 1), about, x);
    }
  }

  /** Whatever fails from a decided state on, without arrivals the drained listing is x's. */
  lemma DecidedListingShows(states: seq<State>, events: seq<Event>, j: nat, k: nat, cut: nat -> nat, value: Item -> ItemValue,
                            conditions: Conditions, t: Tables, x: Item)
    requires IsTrace(states, events) && j <= k <= |events| && NoArrivals(events, j, k) && AllThrough(states[k])
    requires var about := OfListing(value, value(x).listing.key);
             StaysTogether(states[j], about, x) && Decided(states[j], Log(states, events, j), about, x)
    ensures ShowsListing(TablesAt(states, events, k, cut, value, conditions, t), value(x).listing)
  {
    var key := value(x).listing.key;
    TraceKeepsDecided(states, events, j, k, OfListing(value, key), x);
    EveryStateIsGood(states, events, k);
    NothingLeft(states[k], Log(states, events, k), OfListing(value, key), x);
    TablesFollowTheLog(states, events, k, cut, value, conditions, t);
    LastItemDecidesListing(Log(states, events, k), value, conditions, t, key);
  }

  /** And the drained row, up to its stock flag. */
  lemma DecidedRowShows(states: seq<State>, events: seq<Event>, j: nat, k: nat, cut: nat -> nat, value: Item -> ItemValue,
                        conditions: Conditions, t: Tables, row: VariantKey, x: Item)
    requires IsTrace(states, events) && j <= k <= |events| && NoArrivals(events, j, k) && AllThrough(states[k])
    requires var about := WithRow(value, conditions, row);
             StaysTogether(states[j], about, x) && Decided(states[j], Log(states, events, j), about, x)
    ensures ShowsData(TablesAt(states, events, k, cut, value, conditions, t), row, RowIn(value, conditions, row, x))
  {
    var about := WithRow(value, conditions, row);
    TraceKeepsDecided(states, events, j, k, about, x);
    EveryStateIsGood(states, events, k);
    NothingLeft(states[k], Log(states, events, k), about, x);
    TablesFollowTheLog(states, events, k, cut, value, conditions, t);
    LastItemDecidesRow(Log(states, events, k), value, conditions, t, row);
  }
}
