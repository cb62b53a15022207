/**
 * Stock flags over whole traces of the accumulator. Every extraction's cleanup runs over its whole
 * product, so the last flush that holds a product decides the flags of that product's rows.
 */
module DrainedStock {
  import opened Options
  import opened BatchAccumulator
  import opened FlushOrder
  import opened FlushContinuations
  import opened FlushedTables
  import opened ListingTables
  import opened StockFlags

  function ValueOf(extracted: Item -> Extraction): Item -> ItemValue {
    x => ItemFor(extracted(x).listing, extracted(x).variants)
  }

  function Extractions(items: seq<Item>, extracted: Item -> Extraction): seq<Extraction> {
    seq(|items|, i requires 0 <= i < |items| => extracted(items[i]))
  }

  function OfProduct(extracted: Item -> Extraction, product: int): Item -> bool {
    x => extracted(x).listing.key.productUrlId == product
  }

  lemma ExtractedValues(items: seq<Item>, extracted: Item -> Extraction)
    ensures ValuesOf(items, ValueOf(extracted)) == ItemsFor(Extractions(items, extracted))
  {
  }

  // ----- Rows of one product -----

  /** The two tables agree on everything about the product. */
  ghost predicate SameRows(product: int, a: Tables, b: Tables) {
    forall k: VariantKey :: k.listing.productUrlId == product ==> SameRow(a, b, k)
  }

  ghost predicate SameRow(a: Tables, b: Tables, k: VariantKey) {
    && (k.listing in a.listings <==> k.listing in b.listings) && (k in a.variants <==> k in b.variants)
    && (k in a.variants ==> a.variants[k] == b.variants[k])
  }

  lemma {:induction false} ForeignUpserts(conditions: Conditions, t: Tables, items: seq<ItemValue>, product: int)
    requires forall i :: 0 <= i < |items| ==> items[i].listing.key.productUrlId != product
    ensures SameRows(product, UpsertEach(conditions, t, items), t)
  {
    if items != [] {
      var init, last := items[..|items| - 1], items[|items| - 1];
      ForeignUpserts(conditions, t, init, product);
      var before := UpsertEach(conditions, t, init);
      forall k: VariantKey | k.listing.productUrlId == product ensures SameRow(UpsertEach(conditions, t, items), t, k) {
        assert SameRow(before, t, k);
        ForeignRows(conditions, last.listing.key, last.variants, k);
        PutRowsLooksUpLast(before.variants, RowsOf(conditions, last.listing.key, last.variants), k);
      }
    }
  }

  ghost predicate CleansOthers(items: seq<ItemValue>, product: int) {
    forall i :: 0 <= i < |items| && items[i].cleanup.Some? ==> items[i].cleanup.value.productUrlId != product
  }

  lemma ForeignCleanups(t: Tables, items: seq<ItemValue>, product: int)
    requires CleansOthers(items, product)
    ensures SameRows(product, CleanEach(t, items), t)
  {
    forall k: VariantKey | k.listing.productUrlId == product ensures SameRow(CleanEach(t, items), t, k) {
      CleaningIsExact(t, items, k);
    }
  }

  lemma CleaningKeepsSameRows(a: Tables, b: Tables, items: seq<ItemValue>, product: int)
    requires SameRows(product, a, b)
    ensures SameRows(product, CleanEach(a, items), CleanEach(b, items))
  {
    forall k: VariantKey | k.listing.productUrlId == product ensures SameRow(CleanEach(a, items), CleanEach(b, items), k) {
      assert SameRow(a, b, k);
      CleaningIsExact(a, items, k);
      CleaningIsExact(b, items, k);
      if k in a.variants {
        assert forall i :: 0 <= i < |items| && items[i].cleanup.Some? ==>
                 (IsStale(a, items[i].cleanup.value, k) <==> IsStale(b, items[i].cleanup.value, k));
      }
    }
  }

  lemma SameRowsChain(product: int, a: Tables, b: Tables, c: Tables)
    requires SameRows(product, a, b) && SameRows(product, b, c)
    ensures SameRows(product, a, c)
  {
    forall k: VariantKey | k.listing.productUrlId == product ensures SameRow(a, c, k) {
      assert SameRow(a, b, k) && SameRow(b, c, k);
    }
  }

  /** Items of other products leave the product alone. */
  lemma ForeignStep(s: State, e: Event, before: nat, extracted: Item -> Extraction, conditions: Conditions, t: Tables, product: int)
    requires !Holds(WrittenBy(s, e), OfProduct(extracted, product)) && !Holds(CleanedBy(s, e, before), OfProduct(extracted, product))
    ensures SameRows(product, AfterStep(s, e, before, ValueOf(extracted), conditions, t), t)
  {
    var written, cleaned := ValuesOf(WrittenBy(s, e), ValueOf(extracted)), ValuesOf(CleanedBy(s, e, before), ValueOf(extracted));
    forall i | 0 <= i < |written| ensures written[i].listing.key.productUrlId != product {
      assert WrittenBy(s, e)[i] in WrittenBy(s, e);
    }
    forall i | 0 <= i < |cleaned| && cleaned[i].cleanup.Some? ensures cleaned[i].cleanup.value.productUrlId != product {
      assert CleanedBy(s, e, before)[i] in CleanedBy(s, e, before);
    }
    var u := UpsertEach(conditions, t, written);
    ForeignUpserts(conditions, t, written, product);
    ForeignCleanups(u, cleaned, product);
    SameRowsChain(product, CleanEach(u, cleaned), u, t);
  }

  // ----- The last batch that holds the product decides -----

  ghost predicate Sole(items: seq<Item>, about: Item -> bool) {
    forall i, j :: 0 <= i < j < |items| ==> !(about(items[i]) && about(items[j]))
  }

  /** No live flight holds two items about it. */
  ghost predicate SoleInFlights(s: State, about: Item -> bool) {
    forall i :: 0 <= i < |s.flights| && Live(s.flights[i]) ==> Sole(s.flights[i].items, about)
  }

  /** The batch is written and its cleanups are under way. */
  ghost predicate BeingCleaned(s: State, about: Item -> bool, batch: seq<Item>) {
    exists i :: 0 <= i < |s.flights| && s.flights[i] == Flight(batch, Cleaning) && Holds(batch, about)
  }

  /** What the traces are about: the extractions behind the items, and the product whose rows are looked at. */
  datatype Setting = Setting(extracted: Item -> Extraction, product: int, conditions: Conditions, sole: bool) {
    function About(): Item -> bool {
      OfProduct(extracted, product)
    }

    function Values(items: seq<Item>): seq<ItemValue> {
      ValuesOf(items, ValueOf(extracted))
    }
  }

  /** The batch is one of those written, and none written after it holds anything about it. */
  ghost predicate LastHeld(past: seq<seq<Item>>, about: Item -> bool, batch: seq<Item>) {
    exists m :: 0 <= m < |past| && past[m] == batch && Holds(batch, about)
                && forall n :: m < n < |past| ==> !Holds(past[n], about)
  }

  lemma LaterBatchesHoldNothing(past: seq<seq<Item>>, next: seq<Item>, about: Item -> bool, batch: seq<Item>)
    requires LastHeld(past, about, batch) && !Holds(next, about)
    ensures LastHeld(past + [next], about, batch)
  {
    var more := past + [next];
    var m :| 0 <= m < |past| && past[m] == batch && forall n :: m < n < |past| ==> !Holds(past[n], about);
    assert more[m] == batch && forall n :: m < n < |more| ==> !Holds(more[n], about);
  }

  lemma NewestBatchIsLast(past: seq<seq<Item>>, next: seq<Item>, about: Item -> bool)
    requires Holds(next, about)
    ensures LastHeld(past + [next], about, next)
  {
    assert (past + [next])[|past|] == next;
  }

  /** The last write about it is the last item of the last batch that holds any. */
  lemma LastHeldEnds(past: seq<seq<Item>>, about: Item -> bool, batch: seq<Item>)
    requires LastHeld(past, about, batch)
    ensures LastAbout(Joined(past), about) == LastAbout(batch, about)
  {
    var m :| 0 <= m < |past| && past[m] == batch && forall n :: m < n < |past| ==> !Holds(past[n], about);
    LastIsThere(batch, about);
    var x := LastAbout(batch, about).value;
    forall n | m < n < |past| ensures LastAbout(past[n], about) == None {
      LastIsThere(past[n], about);
    }
    assert WritesLast(past, m, about, x);
    LastWrittenExactly(past, about, x);
  }

  /** The product's rows are as this batch, the last written that holds any of it, left them, before its cleanups while they run. */
  ghost predicate LeftBy(g: Setting, s: State, past: seq<seq<Item>>, now: Tables, batch: seq<Item>, t: Tables) {
    && LastHeld(past, g.About(), batch)
    && (g.sole ==> Sole(batch, g.About()))
    && (forall b :: BeingCleaned(s, g.About(), b) ==> b == batch)
    && SameRows(g.product, now, if BeingCleaned(s, g.About(), batch) then UpsertEach(g.conditions, t, g.Values(batch))
                                else Flushed(g.conditions, t, g.Values(batch)))
  }

  ghost predicate Untouched(s: State, about: Item -> bool) {
    forall x :: x in s.added ==> !about(x)
  }

  ghost predicate LastBatchRules(g: Setting, s: State, past: seq<seq<Item>>, now: Tables) {
    || Pending(s, g.About()) || Untouched(s, g.About())
    || exists batch, t :: LeftBy(g, s, past, now, batch, t)
  }

  /** A step that neither writes nor cleans the product, nor moves a flight that holds it past its cleanups. */
  lemma OtherStepKeepsRule(g: Setting, s: State, past: seq<seq<Item>>, now: Tables, u: State, past': seq<seq<Item>>, now': Tables)
    requires LastBatchRules(g, s, past, now) && SameRows(g.product, now', now)
    requires forall batch :: LastHeld(past, g.About(), batch) ==> LastHeld(past', g.About(), batch)
    requires forall b :: BeingCleaned(u, g.About(), b) <==> BeingCleaned(s, g.About(), b)
    requires Pending(s, g.About()) ==> Pending(u, g.About())
    requires !Pending(u, g.About()) && Untouched(s, g.About()) ==> Untouched(u, g.About())
    ensures LastBatchRules(g, u, past', now')
  {
    if !Pending(u, g.About()) && !Untouched(u, g.About()) {
      var batch, t :| LeftBy(g, s, past, now, batch, t);
      SameRowsChain(g.product, now', now, if BeingCleaned(s, g.About(), batch) then UpsertEach(g.conditions, t, g.Values(batch))
                                          else Flushed(g.conditions, t, g.Values(batch)));
      assert LeftBy(g, u, past', now', batch, t);
    }
  }

  lemma NothingDone(s: State, e: Event, before: nat, g: Setting, now: Tables)
    requires WrittenBy(s, e) == [] && CleanedBy(s, e, before) == []
    ensures AfterStep(s, e, before, ValueOf(g.extracted), g.conditions, now) == now
  {
  }

  lemma SameTables(product: int, t: Tables)
    ensures SameRows(product, t, t)
  {
    forall k: VariantKey | k.listing.productUrlId == product ensures SameRow(t, t, k) {
    }
  }

  lemma DrainKeepsCleaning(s: State, about: Item -> bool)
    ensures forall b :: BeingCleaned(Drained(s), about, b) <==> BeingCleaned(s, about, b)
  {
    var born := DrainStarts(s);
    var u := Drained(s);
    assert forall i :: |s.flights| <= i < |u.flights| ==> u.flights[i] == born[i - |s.flights|];
    forall b ensures BeingCleaned(u, about, b) <==> BeingCleaned(s, about, b) {
      if i :| 0 <= i < |u.flights| && u.flights[i] == Flight(b, Cleaning) && Holds(b, about) {
        assert i < |s.flights|;
        assert s.flights[i] == Flight(b, Cleaning);
      }
      if i :| 0 <= i < |s.flights| && s.flights[i] == Flight(b, Cleaning) && Holds(b, about) {
        assert u.flights[i] == Flight(b, Cleaning);
      }
    }
  }

  lemma NothingWritten(past: seq<seq<Item>>, about: Item -> bool)
    ensures forall batch :: LastHeld(past, about, batch) ==> LastHeld(past + [[]], about, batch)
  {
    forall batch | LastHeld(past, about, batch) ensures LastHeld(past + [[]], about, batch) {
      LaterBatchesHoldNothing(past, [], about, batch);
    }
  }

  lemma AddKeepsRule(g: Setting, s: State, items: seq<Item>, before: nat, past: seq<seq<Item>>, now: Tables)
    requires LastBatchRules(g, s, past, now)
    ensures LastBatchRules(g, WithAdded(s, items), past + [[]], AfterStep(s, Add(items), before, ValueOf(g.extracted), g.conditions, now))
  {
    NothingDone(s, Add(items), before, g, now);
    SameTables(g.product, now);
    var mid := s.(buffer := s.buffer + items, added := s.added + AllOf(items));
    var u := WithAdded(s, items);
    DrainKeepsPending(mid, g.About());
    DrainKeepsCleaning(mid, g.About());
    assert forall b :: BeingCleaned(mid, g.About(), b) <==> BeingCleaned(s, g.About(), b);
    assert forall x :: x in s.buffer || x in items ==> x in mid.buffer;
    if Pending(s, g.About()) {
      assert Pending(mid, g.About());
    } else if x :| x in items && g.About()(x) {
      assert Pending(mid, g.About());
    }
    NothingWritten(past, g.About());
    OtherStepKeepsRule(g, s, past, now, u, past + [[]], now);
  }

  lemma TickKeepsRule(g: Setting, s: State, before: nat, past: seq<seq<Item>>, now: Tables)
    requires LastBatchRules(g, s, past, now)
    ensures LastBatchRules(g, Drained(s), past + [[]], AfterStep(s, Tick, before, ValueOf(g.extracted), g.conditions, now))
  {
    NothingDone(s, Tick, before, g, now);
    SameTables(g.product, now);
    DrainKeepsPending(s, g.About());
    DrainKeepsCleaning(s, g.About());
    NothingWritten(past, g.About());
    OtherStepKeepsRule(g, s, past, now, Drained(s), past + [[]], now);
  }

  /** Which batches are being cleaned changes only by their own flights' steps. */
  lemma OtherFlightsClean(s: State, e: Event, about: Item -> bool)
    requires Enabled(s, e) && !e.Add? && !e.Tick? && !(Live(s.flights[e.i]) && Holds(s.flights[e.i].items, about))
    ensures forall b :: BeingCleaned(Next(s, e), about, b) <==> BeingCleaned(s, about, b)
  {
    var u := Next(s, e);
    forall b ensures BeingCleaned(u, about, b) <==> BeingCleaned(s, about, b) {
      if i :| 0 <= i < |u.flights| && u.flights[i] == Flight(b, Cleaning) && Holds(b, about) {
        var was := if e.Finally? && i >= e.i then i + 1 else i;
        assert s.flights[was].items == b;
        assert s.flights[was] == Flight(b, Cleaning);
      }
      if i :| 0 <= i < |s.flights| && s.flights[i] == Flight(b, Cleaning) && Holds(b, about) {
        var moved := if e.Finally? && i > e.i then i - 1 else i;
        assert u.flights[moved] == Flight(b, Cleaning);
      }
    }
  }

  lemma PendingUnlessOwn(s: State, e: Event, about: Item -> bool)
    requires Enabled(s, e) && !e.Add? && !e.Tick? && !(Live(s.flights[e.i]) && Holds(s.flights[e.i].items, about))
    ensures Pending(s, about) ==> Pending(Next(s, e), about)
  {
    if Pending(s, about) {
      if e.UpsertSucceeds? {
        var u := Next(s, e);
        if !Holds(s.buffer, about) {
          var j :| 0 <= j < |s.flights| && s.flights[j].stage.Writing? && Holds(s.flights[j].items, about);
          assert u.flights[j] == s.flights[j];
        }
      } else {
        HandOverKeepsPending(s, e, about);
      }
    }
  }

  /** A step of a flight that holds nothing of the product, or that is past its cleanups. */
  lemma ForeignFlightKeepsRule(g: Setting, s: State, e: Event, before: nat, past: seq<seq<Item>>, now: Tables)
    requires Enabled(s, e) && !e.Add? && !e.Tick? && !(Live(s.flights[e.i]) && Holds(s.flights[e.i].items, g.About()))
    requires LastBatchRules(g, s, past, now)
    ensures LastBatchRules(g, Next(s, e), past + [WrittenBy(s, e)], AfterStep(s, e, before, ValueOf(g.extracted), g.conditions, now))
  {
    assert !Holds(WrittenBy(s, e), g.About());
    assert !Holds(CleanedBy(s, e, before), g.About());
    ForeignStep(s, e, before, g.extracted, g.conditions, now, g.product);
    OtherFlightsClean(s, e, g.About());
    PendingUnlessOwn(s, e, g.About());
    forall batch | LastHeld(past, g.About(), batch) ensures LastHeld(past + [WrittenBy(s, e)], g.About(), batch) {
      LaterBatchesHoldNothing(past, WrittenBy(s, e), g.About(), batch);
    }
    OtherStepKeepsRule(g, s, past, now, Next(s, e), past + [WrittenBy(s, e)],
                       AfterStep(s, e, before, ValueOf(g.extracted), g.conditions, now));
  }

  /** A flight that holds some of the product is written: from now on its batch rules. */
  lemma OwnUpsertRules(g: Setting, s: State, i: nat, before: nat, past: seq<seq<Item>>, now: Tables)
    requires Enabled(s, UpsertSucceeds(i)) && Apart(s, g.About()) && (g.sole ==> SoleInFlights(s, g.About()))
    requires Holds(s.flights[i].items, g.About())
    ensures LastBatchRules(g, Next(s, UpsertSucceeds(i)), past + [s.flights[i].items],
                           AfterStep(s, UpsertSucceeds(i), before, ValueOf(g.extracted), g.conditions, now))
  {
    var u, own := Next(s, UpsertSucceeds(i)), s.flights[i].items;
    NewestBatchIsLast(past, own, g.About());
    assert u.flights[i] == Flight(own, Cleaning);
    forall b | BeingCleaned(u, g.About(), b) ensures b == own {
      var j :| 0 <= j < |u.flights| && u.flights[j] == Flight(b, Cleaning) && Holds(b, g.About());
      if j != i {
        assert s.flights[j] == u.flights[j];
        assert HoldsLive(s, i, g.About()) && HoldsLive(s, j, g.About());
      }
    }
    var after := AfterStep(s, UpsertSucceeds(i), before, ValueOf(g.extracted), g.conditions, now);
    assert after == UpsertEach(g.conditions, now, g.Values(own));
    SameTables(g.product, after);
    assert LeftBy(g, u, past + [own], after, own, now);
  }

  /** Its cleanups are through: the rows are as its whole flush left them. */
  lemma OwnCleanupRules(g: Setting, s: State, i: nat, before: nat, past: seq<seq<Item>>, now: Tables)
    requires Inv(s) && Enabled(s, CleanupSucceeds(i)) && Apart(s, g.About()) && Holds(s.flights[i].items, g.About())
    requires LastBatchRules(g, s, past, now)
    ensures LastBatchRules(g, Next(s, CleanupSucceeds(i)), past + [[]],
                           AfterStep(s, CleanupSucceeds(i), before, ValueOf(g.extracted), g.conditions, now))
  {
    var u, own := Next(s, CleanupSucceeds(i)), s.flights[i].items;
    var after := AfterStep(s, CleanupSucceeds(i), before, ValueOf(g.extracted), g.conditions, now);
    if Pending(s, g.About()) {
      HandOverKeepsPending(s, CleanupSucceeds(i), g.About());
    } else {
      SomeWasAdded(s, i, g.About());
      var batch, t :| LeftBy(g, s, past, now, batch, t);
      assert BeingCleaned(s, g.About(), own);
      assert batch == own;
      NoneLeftToClean(s, i, g.About());
      var values := g.Values(own);
      assert after == CleanEach(now, values);
      CleaningKeepsSameRows(now, UpsertEach(g.conditions, t, values), values, g.product);
      LaterBatchesHoldNothing(past, [], g.About(), own);
      assert LeftBy(g, u, past + [[]], after, own, t);
    }
  }

  lemma SomeWasAdded(s: State, i: nat, about: Item -> bool)
    requires Inv(s) && i < |s.flights| && Holds(s.flights[i].items, about)
    ensures !Untouched(s, about)
  {
    var x :| x in s.flights[i].items && about(x);
    FlightsAreExclusive(s, i, x);
  }

  lemma NoneLeftToClean(s: State, i: nat, about: Item -> bool)
    requires Enabled(s, CleanupSucceeds(i)) && Apart(s, about) && Holds(s.flights[i].items, about)
    ensures forall b :: !BeingCleaned(Next(s, CleanupSucceeds(i)), about, b)
  {
    var u := Next(s, CleanupSucceeds(i));
    forall b ensures !BeingCleaned(u, about, b) {
      if j :| 0 <= j < |u.flights| && u.flights[j] == Flight(b, Cleaning) && Holds(b, about) {
        assert j != i && s.flights[j] == u.flights[j];
        assert HoldsLive(s, i, about) && HoldsLive(s, j, about);
        assert false;
      }
    }
  }

  lemma StepKeepsRule(g: Setting, s: State, e: Event, before: nat, past: seq<seq<Item>>, now: Tables)
    requires Inv(s) && Enabled(s, e) && Apart(s, g.About()) && (g.sole ==> SoleInFlights(s, g.About()))
    requires LastBatchRules(g, s, past, now)
    ensures LastBatchRules(g, Next(s, e), past + [WrittenBy(s, e)], AfterStep(s, e, before, ValueOf(g.extracted), g.conditions, now))
  {
    if e.Add? {
      AddKeepsRule(g, s, e.items, before, past, now);
    } else if e.Tick? {
      TickKeepsRule(g, s, before, past, now);
    } else if !(Live(s.flights[e.i]) && Holds(s.flights[e.i].items, g.About())) {
      ForeignFlightKeepsRule(g, s, e, before, past, now);
    } else if e.UpsertSucceeds? {
      OwnUpsertRules(g, s, e.i, before, past, now);
    } else if e.CleanupSucceeds? {
      OwnCleanupRules(g, s, e.i, before, past, now);
    } else {
      FailureIsPending(s, e, g.About());
    }
  }

  lemma FailureIsPending(s: State, e: Event, about: Item -> bool)
    requires Enabled(s, e) && (e.UpsertFails? || e.CleanupFails?) && Holds(s.flights[e.i].items, about)
    ensures Pending(Next(s, e), about)
  {
    var u := Next(s, e);
    assert forall x :: x in s.flights[e.i].items ==> x in u.buffer;
  }

  lemma BatchesGrow(states: seq<State>, events: seq<Event>, k: nat)
    requires 0 < k <= |events| < |states|
    ensures Batches(states, events, k) == Batches(states, events, k - 1) + [WrittenBy(states[k - 1], events[k - 1])]
  {
  }

  lemma {:induction false} TraceKeepsRule(g: Setting, states: seq<State>, events: seq<Event>, k: nat, cut: nat -> nat, t: Tables)
    requires IsTrace(states, events) && k <= |events| && AlwaysApart(states, g.About(), k)
    requires g.sole ==> forall j :: 0 <= j < k ==> SoleInFlights(states[j], g.About())
    ensures LastBatchRules(g, states[k], Batches(states, events, k),
                           TablesAt(states, events, k, cut, ValueOf(g.extracted), g.conditions, t))
  {
    if k > 0 {
      TraceKeepsRule(g, states, events, k - 1, cut, t);
      EveryStateIsGood(states, events, k - 1);
      BatchesGrow(states, events, k);
      StepKeepsRule(g, states[k - 1], events[k - 1], cut(k - 1), Batches(states, events, k - 1),
                    TablesAt(states, events, k - 1, cut, ValueOf(g.extracted), g.conditions, t));
    }
  }

  // ----- Flags once all is drained -----

  /**
   * The row is the batch's last variant for it, in stock if that was and every extraction of the product in the batch reported
   * its platform id; a row of the listing that the batch does not name keeps its flag only if they all reported its id.
   */
  ghost predicate FlagFollows(conditions: Conditions, after: Tables, batch: seq<Extraction>, k: VariantKey) {
    var named := LastNamed(conditions, AllExtracted(batch, k.listing), k);
    && (named.Some? ==>
          && k in after.variants
          && after.variants[k] == DataOf(named.value).(inStock := after.variants[k].inStock)
          && (after.variants[k].inStock <==> named.value.inStock && ReportedByAll(batch, k, DataOf(named.value).platformVariantId)))
    && (named.None? && k in after.variants && after.variants[k].inStock ==>
          ReportedByAll(batch, k, after.variants[k].platformVariantId))
  }

  /** The rows of x's listing follow the batch, which ends on x among the product's items. */
  ghost predicate FlagsFollow(g: Setting, after: Tables, batch: seq<Item>, x: Item) {
    && LastAbout(batch, g.About()) == Some(x) && (g.sole ==> Sole(batch, g.About()))
    && forall k: VariantKey :: k.listing == g.extracted(x).listing.key ==>
         FlagFollows(g.conditions, after, Extractions(batch, g.extracted), k)
  }

  lemma LeftRowsFollow(g: Setting, after: Tables, batch: seq<Item>, t: Tables, x: Item)
    requires LastAbout(batch, g.About()) == Some(x) && (g.sole ==> Sole(batch, g.About()))
    requires SameRows(g.product, after, Flushed(g.conditions, t, g.Values(batch)))
    ensures FlagsFollow(g, after, batch, x)
  {
    var extractions := Extractions(batch, g.extracted);
    ExtractedValues(batch, g.extracted);
    LastIsThere(batch, g.About());
    var i :| 0 <= i < |batch| && batch[i] == x;
    assert extractions[i] == g.extracted(x);
    forall k: VariantKey | k.listing == g.extracted(x).listing.key ensures FlagFollows(g.conditions, after, extractions, k) {
      assert ListedIn(extractions, k.listing);
      StockAfterFlush(g.conditions, t, extractions, k);
      assert SameRow(after, Flushed(g.conditions, t, g.Values(batch)), k);
    }
  }

  /**
   * The flush at event m is the last that wrote anything of the product, it ends on x among the product's items, and the rows
   * of x's listing are as it left them.
   */
  ghost predicate LeftByLastFlush(g: Setting, states: seq<State>, events: seq<Event>, k: nat, after: Tables, x: Item, m: nat)
    requires m < k <= |events| < |states|
  {
    && FlagsFollow(g, after, Written(states, events, m), x)
    && forall n :: m < n < k ==> !Holds(Written(states, events, n), g.About())
  }

  /** Once drained, a product that no two live flushes held at once shows what its last flush, which ends on the newest extraction, decides. */
  lemma DrainedFlagsFollowLastBatch(g: Setting, states: seq<State>, events: seq<Event>, k: nat, cut: nat -> nat, t: Tables, x: Item)
    requires IsTrace(states, events) && Numbered(states, events) && k <= |events|
    requires |states[k].buffer| == 0 && states[k].activeFlushes == 0
    requires AlwaysApart(states, g.About(), k) && IsNewest(states[k].added, g.About(), x)
    requires g.sole ==> forall j :: 0 <= j < k ==> SoleInFlights(states[j], g.About())
    ensures exists m :: 0 <= m < k &&
              LeftByLastFlush(g, states, events, k, TablesAt(states, events, k, cut, ValueOf(g.extracted), g.conditions, t), x, m)
  {
    var after := TablesAt(states, events, k, cut, ValueOf(g.extracted), g.conditions, t);
    var batch := DrainedHasItsBatch(g, states, events, k, cut, t, x);
    var m := EventOf(states, events, k, g.About(), batch);
    assert LeftByLastFlush(g, states, events, k, after, x, m);
  }

  lemma DrainedHasItsBatch(g: Setting, states: seq<State>, events: seq<Event>, k: nat, cut: nat -> nat, t: Tables, x: Item)
    returns (batch: seq<Item>)
    requires IsTrace(states, events) && Numbered(states, events) && k <= |events|
    requires |states[k].buffer| == 0 && states[k].activeFlushes == 0
    requires AlwaysApart(states, g.About(), k) && IsNewest(states[k].added, g.About(), x)
    requires g.sole ==> forall j :: 0 <= j < k ==> SoleInFlights(states[j], g.About())
    ensures LastHeld(Batches(states, events, k), g.About(), batch)
    ensures FlagsFollow(g, TablesAt(states, events, k, cut, ValueOf(g.extracted), g.conditions, t), batch, x)
  {
    var s, past := states[k], Batches(states, events, k);
    var after := TablesAt(states, events, k, cut, ValueOf(g.extracted), g.conditions, t);
    TraceKeepsRule(g, states, events, k, cut, t);
    NewestIsWrittenLast(states, events, k, g.About(), x);
    NothingWaits(states, events, k, g.About(), x);
    var t0;
    batch, t0 :| LeftBy(g, s, past, after, batch, t0);
    assert !BeingCleaned(s, g.About(), batch);
    LastHeldEnds(past, g.About(), batch);
    LeftRowsFollow(g, after, batch, t0, x);
  }

  lemma NothingWaits(states: seq<State>, events: seq<Event>, k: nat, about: Item -> bool, x: Item)
    requires IsTrace(states, events) && k <= |events| && |states[k].buffer| == 0 && states[k].activeFlushes == 0
    requires x in states[k].added && about(x)
    ensures states[k].flights == [] && !Pending(states[k], about) && !Untouched(states[k], about)
  {
    EveryStateIsGood(states, events, k);
    assert states[k].flights == [];
  }

  lemma EventOf(states: seq<State>, events: seq<Event>, k: nat, about: Item -> bool, batch: seq<Item>) returns (m: nat)
    requires k <= |events| < |states| && LastHeld(Batches(states, events, k), about, batch)
    ensures m < k && Written(states, events, m) == batch
    ensures forall n :: m < n < k ==> !Holds(Written(states, events, n), about)
  {
    var past := Batches(states, events, k);
    m :| 0 <= m < |past| && past[m] == batch && forall n :: m < n < |past| ==> !Holds(past[n], about);
    assert forall n :: 0 <= n < k ==> past[n] == Written(states, events, n);
  }

  // ----- One extraction of the product at a time -----

  lemma SoleExtraction(g: Setting, batch: seq<Item>, x: Item) returns (i: nat)
    requires Sole(batch, g.About()) && LastAbout(batch, g.About()) == Some(x)
    ensures i < |batch| && batch[i] == x && g.About()(x) && OnlyOfProduct(Extractions(batch, g.extracted), i)
  {
    LastIsThere(batch, g.About());
    i :| 0 <= i < |batch| && batch[i] == x;
    var extractions := Extractions(batch, g.extracted);
    forall j | 0 <= j < |extractions| && j != i
      ensures extractions[j].listing.key.productUrlId != extractions[i].listing.key.productUrlId
    {
      assert !g.About()(batch[j]);
    }
  }

  /** The row is x's last variant for it, flag and all; a row of the listing that x does not name is in stock only if x reported its id. */
  ghost predicate FlagsOf(conditions: Conditions, after: Tables, x: Extraction, k: VariantKey) {
    var named := LastNamed(conditions, x.variants, k);
    && (named.Some? ==> k in after.variants && after.variants[k] == DataOf(named.value))
    && (named.None? && k in after.variants && after.variants[k].inStock && after.variants[k].platformVariantId.Some? ==>
          after.variants[k].platformVariantId.value in InStockIds(x.variants))
  }

  lemma SoleFlags(g: Setting, after: Tables, batch: seq<Item>, x: Item, k: VariantKey)
    requires g.sole && FlagsFollow(g, after, batch, x) && k.listing == g.extracted(x).listing.key
    ensures FlagsOf(g.conditions, after, g.extracted(x), k)
  {
    var i := SoleExtraction(g, batch, x);
    var extractions := Extractions(batch, g.extracted);
    OwnVariants(extractions, i);
    assert extractions[i] == g.extracted(x);
    assert FlagFollows(g.conditions, after, extractions, k);
  }

  /** Once drained, if the flushes never held two extractions of the product at once, its newest one alone decides the rows of its listing. */
  lemma DrainedFlagsAreNewest(g: Setting, states: seq<State>, events: seq<Event>, k: nat, cut: nat -> nat, t: Tables, x: Item)
    requires IsTrace(states, events) && Numbered(states, events) && k <= |events|
    requires |states[k].buffer| == 0 && states[k].activeFlushes == 0
    requires AlwaysApart(states, g.About(), k) && IsNewest(states[k].added, g.About(), x)
    requires forall j :: 0 <= j < k ==> SoleInFlights(states[j], g.About())
    ensures forall row: VariantKey :: row.listing == g.extracted(x).listing.key ==>
              FlagsOf(g.conditions, TablesAt(states, events, k, cut, ValueOf(g.extracted), g.conditions, t), g.extracted(x), row)
  {
    var h := g.(sole := true);
    assert h.About() == g.About();
    var after := TablesAt(states, events, k, cut, ValueOf(g.extracted), g.conditions, t);
    DrainedFlagsFollowLastBatch(h, states, events, k, cut, t, x);
    var m :| 0 <= m < k && LeftByLastFlush(h, states, events, k, after, x, m);
    var batch := Written(states, events, m);
    forall row: VariantKey | row.listing == g.extracted(x).listing.key
      ensures FlagsOf(g.conditions, after, g.extracted(x), row)
    {
      SoleFlags(h, after, batch, x, row);
    }
  }
}
