/**
 * Retries over partly finished flushes: whatever failed attempts had already written or cleaned
 * up, flushing the buffer in the end leaves the tables that one flush of all items would.
 */
module RetriedFlushes {
  import opened Options
  import opened ListingTables
  import opened StockFlags

  /** While items wait: an upsert that fails, arrivals, or an upsert that succeeds with a failure after m cleanups. */
  datatype FlushEvent = Buffering(e: BufferEvent) | FailedCleanup(n: nat, m: nat)

  function AfterFlushEvent(conditions: Conditions, b: Waiting, e: FlushEvent): Waiting {
    match e
    case Buffering(e) => AfterEvent(conditions, b, e)
    case FailedCleanup(n, m) =>
      var tried := Front(b.items, n);
      Waiting(CleanEach(UpsertEach(conditions, b.tables, tried), Front(tried, m)), Merged(tried) + b.items[|tried|..])
  }

  function Front(items: seq<ItemValue>, n: nat): seq<ItemValue> {
    if n <= |items| then items[..n] else items
  }

  function AfterFlushEvents(conditions: Conditions, b: Waiting, events: seq<FlushEvent>): Waiting {
    if events == [] then b
    else AfterFlushEvent(conditions, AfterFlushEvents(conditions, b, events[..|events| - 1]), events[|events| - 1])
  }

  function ArrivedBy(e: FlushEvent): seq<ItemValue> {
    if e.Buffering? && e.e.Arrival? then e.e.items else []
  }

  function Arrived(events: seq<FlushEvent>): seq<ItemValue> {
    if events == [] then [] else Arrived(events[..|events| - 1]) + ArrivedBy(events[|events| - 1])
  }

  // ----- Cleanups seen through -----

  ghost predicate SameCleanups(a: seq<ItemValue>, b: seq<ItemValue>) {
    |a| == |b| && forall i :: 0 <= i < |a| ==> a[i].cleanup == b[i].cleanup
  }

  lemma SameCleanupsSameStale(t: Tables, a: seq<ItemValue>, b: seq<ItemValue>, k: VariantKey)
    requires SameCleanups(a, b) && k in t.variants
    ensures FoundStale(t, a, k) <==> FoundStale(t, b, k)
  {
    assert forall i :: 0 <= i < |a| ==> a[i].cleanup == b[i].cleanup;
  }

  lemma MergingKeepsCleanups(items: seq<ItemValue>)
    ensures SameCleanups(Merged(items), items)
  {
  }

  /** `a` is `b` with some rows already cleared that the cleanups of `items` will clear. */
  ghost predicate Ahead(a: Tables, b: Tables, items: seq<ItemValue>) {
    && a.listings == b.listings && a.variants.Keys == b.variants.Keys
    && forall k :: k in b.variants ==> AheadAt(a, b, items, k)
  }

  ghost predicate AheadAt(a: Tables, b: Tables, items: seq<ItemValue>, k: VariantKey)
    requires k in b.variants
  {
    k in a.variants && (a.variants[k] == b.variants[k] || (a.variants[k] == b.variants[k].(inStock := false) && FoundStale(b, items, k)))
  }

  /** The cleanups make up for the difference. */
  lemma AheadCleansAlike(a: Tables, b: Tables, items: seq<ItemValue>, own: seq<ItemValue>)
    requires Ahead(a, b, items) && SameCleanups(own, items)
    ensures CleanEach(a, own) == CleanEach(b, items)
  {
    CleaningKeepsListings(a, own);
    CleaningKeepsListings(b, items);
    forall k ensures k in CleanEach(a, own).variants <==> k in CleanEach(b, items).variants
      ensures k in CleanEach(b, items).variants ==> CleanEach(a, own).variants[k] == CleanEach(b, items).variants[k]
    {
      CleaningIsExact(a, own, k);
      CleaningIsExact(b, items, k);
      if k in b.variants {
        assert AheadAt(a, b, items, k);
        SameCleanupsSameStale(a, own, items, k);
        SameIdSameStale(a, b, items, k);
      }
    }
  }

  lemma CleaningKeepsListings(t: Tables, items: seq<ItemValue>)
    ensures CleanEach(t, items).listings == t.listings
  {
    CleaningIsExact(t, items, VariantKey(Key(0, 0), 0, false));
  }

  lemma SameIdSameStale(a: Tables, b: Tables, items: seq<ItemValue>, k: VariantKey)
    requires k in a.variants && k in b.variants && (k.listing in a.listings <==> k.listing in b.listings)
    requires a.variants[k].platformVariantId == b.variants[k].platformVariantId
    ensures FoundStale(a, items, k) <==> FoundStale(b, items, k)
  {
    assert forall c: Cleanup :: IsStale(a, c, k) <==> IsStale(b, c, k);
  }

  lemma MoreFindStale(t: Tables, items: seq<ItemValue>, more: seq<ItemValue>, k: VariantKey)
    requires k in t.variants && FoundStale(t, items, k)
    ensures FoundStale(t, items + more, k)
  {
    var i :| 0 <= i < |items| && items[i].cleanup.Some? && IsStale(t, items[i].cleanup.value, k);
    assert (items + more)[i] == items[i];
  }

  lemma AheadOfMore(a: Tables, b: Tables, items: seq<ItemValue>, more: seq<ItemValue>)
    requires Ahead(a, b, items)
    ensures Ahead(a, b, items + more)
  {
    forall k | k in b.variants ensures AheadAt(a, b, items + more, k) {
      assert AheadAt(a, b, items, k);
      if FoundStale(b, items, k) {
        MoreFindStale(b, items, more, k);
      }
    }
  }

  /** Upserting the same items keeps it so: rows they name agree again, the others stay as they were. */
  lemma UpsertKeepsAhead(conditions: Conditions, a: Tables, b: Tables, items: seq<ItemValue>, more: seq<ItemValue>)
    requires Ahead(a, b, items)
    ensures Ahead(UpsertEach(conditions, a, more), UpsertEach(conditions, b, more), items)
  {
    UpsertEachIsFlat(conditions, a, more);
    UpsertEachIsFlat(conditions, b, more);
    var u, v, rows := UpsertEach(conditions, a, more), UpsertEach(conditions, b, more), Flat(conditions, more);
    forall k ensures k in u.variants <==> k in v.variants
      ensures k in v.variants ==> AheadAt(u, v, items, k)
    {
      PutRowsLooksUpLast(a.variants, rows, k);
      PutRowsLooksUpLast(b.variants, rows, k);
      if k in b.variants && LastRow(rows, k).None? {
        assert AheadAt(a, b, items, k);
        if FoundStale(b, items, k) {
          StaysStale(conditions, b, items, more, k);
        }
      }
    }
  }

  lemma StaysStale(conditions: Conditions, t: Tables, items: seq<ItemValue>, more: seq<ItemValue>, k: VariantKey)
    requires k in t.variants && FoundStale(t, items, k)
    requires var u := UpsertEach(conditions, t, more); k in u.variants && u.variants[k] == t.variants[k]
    ensures FoundStale(UpsertEach(conditions, t, more), items, k)
  {
    var u := UpsertEach(conditions, t, more);
    UpsertEachIsFlat(conditions, t, more);
    PutListingsLooksUpLast(t.listings, more, k.listing);
    var i :| 0 <= i < |items| && items[i].cleanup.Some? && IsStale(t, items[i].cleanup.value, k);
    assert IsStale(u, items[i].cleanup.value, k);
  }

  lemma AheadChains(a: Tables, b: Tables, c: Tables, own: seq<ItemValue>, items: seq<ItemValue>)
    requires Ahead(a, b, own) && Ahead(b, c, items) && SameCleanups(own, items)
    ensures Ahead(a, c, items)
  {
    forall k | k in c.variants ensures AheadAt(a, c, items, k) {
      assert AheadAt(b, c, items, k);
      assert AheadAt(a, b, own, k);
      SameCleanupsSameStale(c, own, items, k);
      SameIdSameStale(b, c, own, k);
    }
  }

  lemma AheadOfItself(t: Tables, items: seq<ItemValue>)
    ensures Ahead(t, t, items)
  {
    forall k | k in t.variants ensures AheadAt(t, t, items, k) {
    }
  }

  // ----- One event -----

  /** Upserting the tried items again after some of their cleanups. */
  lemma RewritingIsAhead(conditions: Conditions, t: Tables, tried: seq<ItemValue>, m: nat)
    ensures var once := UpsertEach(conditions, t, tried);
            Ahead(UpsertEach(conditions, CleanEach(once, Front(tried, m)), Merged(tried)), once, tried)
  {
    var once, front := UpsertEach(conditions, t, tried), Front(tried, m);
    var cleaned := CleanEach(once, front);
    CleaningKeepsListings(once, front);
    forall k ensures k in cleaned.variants <==> k in once.variants
      ensures k in once.variants ==> AheadAt(cleaned, once, front, k)
    {
      CleaningIsExact(once, front, k);
    }
    UpsertKeepsAhead(conditions, cleaned, once, front, Merged(tried));
    RetryAfterPartialWrite(conditions, t, tried);
    var rest := tried[|front|..];
    assert tried == front + rest;
    AheadOfMore(UpsertEach(conditions, cleaned, Merged(tried)), once, front, rest);
  }

  /** What waits will leave what all items, flushed at once, leave, once the cleanups have run. */
  ghost predicate OnTrack(conditions: Conditions, b: Waiting, t: Tables, all: seq<ItemValue>) {
    SameCleanups(b.items, all) && Ahead(Outcome(conditions, b), UpsertEach(conditions, t, all), all)
  }

  lemma ArrivalKeepsTrack(conditions: Conditions, b: Waiting, t: Tables, all: seq<ItemValue>, more: seq<ItemValue>)
    requires OnTrack(conditions, b, t, all)
    ensures OnTrack(conditions, AfterEvent(conditions, b, Arrival(more)), t, all + more)
  {
    ArrivalAddsToOutcome(conditions, b, more);
    UpsertEachConcat(conditions, t, all, more);
    UpsertKeepsAhead(conditions, Outcome(conditions, b), UpsertEach(conditions, t, all), all, more);
    AheadOfMore(UpsertEach(conditions, Outcome(conditions, b), more), UpsertEach(conditions, t, all + more), all, more);
  }

  lemma FailedUpsertKeepsTrack(conditions: Conditions, b: Waiting, t: Tables, all: seq<ItemValue>, n: nat, written: Progress)
    requires OnTrack(conditions, b, t, all)
    ensures OnTrack(conditions, AfterEvent(conditions, b, FailedAttempt(n, written)), t, all)
  {
    FailedAttemptKeepsOutcome(conditions, b, n, written);
  }

  lemma MergedFrontKeepsCleanups(tried: seq<ItemValue>, rest: seq<ItemValue>, all: seq<ItemValue>)
    requires SameCleanups(tried + rest, all)
    ensures SameCleanups(Merged(tried) + rest, all)
  {
    MergingKeepsCleanups(tried);
    forall i | 0 <= i < |all| ensures (Merged(tried) + rest)[i].cleanup == all[i].cleanup {
      assert (tried + rest)[i].cleanup == all[i].cleanup;
    }
  }

  lemma CleanedFrontIsAhead(conditions: Conditions, t: Tables, tried: seq<ItemValue>, rest: seq<ItemValue>, m: nat)
    ensures var cleaned := CleanEach(UpsertEach(conditions, t, tried), Front(tried, m));
            Ahead(UpsertEach(conditions, cleaned, Merged(tried) + rest), UpsertEach(conditions, t, tried + rest), tried + rest)
  {
    var once := UpsertEach(conditions, t, tried);
    var cleaned := CleanEach(once, Front(tried, m));
    var again := UpsertEach(conditions, cleaned, Merged(tried));
    RewritingIsAhead(conditions, t, tried, m);
    UpsertKeepsAhead(conditions, again, once, tried, rest);
    UpsertEachConcat(conditions, cleaned, Merged(tried), rest);
    UpsertEachConcat(conditions, t, tried, rest);
    AheadOfMore(UpsertEach(conditions, again, rest), UpsertEach(conditions, once, rest), tried, rest);
  }

  lemma FailedCleanupKeepsTrack(conditions: Conditions, b: Waiting, t: Tables, all: seq<ItemValue>, n: nat, m: nat)
    requires OnTrack(conditions, b, t, all)
    ensures OnTrack(conditions, AfterFlushEvent(conditions, b, FailedCleanup(n, m)), t, all)
  {
    var tried := Front(b.items, n);
    var rest := b.items[|tried|..];
    assert b.items == tried + rest;
    MergedFrontKeepsCleanups(tried, rest, all);
    CleanedFrontIsAhead(conditions, b.tables, tried, rest, m);
    var after := AfterFlushEvent(conditions, b, FailedCleanup(n, m));
    AheadChains(Outcome(conditions, after), Outcome(conditions, b), UpsertEach(conditions, t, all), b.items, all);
  }

  lemma EventKeepsTrack(conditions: Conditions, b: Waiting, t: Tables, all: seq<ItemValue>, e: FlushEvent)
    requires OnTrack(conditions, b, t, all)
    ensures OnTrack(conditions, AfterFlushEvent(conditions, b, e), t, all + ArrivedBy(e))
  {
    assert all + [] == all;
    match e {
      case FailedCleanup(n, m) => FailedCleanupKeepsTrack(conditions, b, t, all, n, m);
      case Buffering(FailedAttempt(n, written)) => FailedUpsertKeepsTrack(conditions, b, t, all, n, written);
      case Buffering(Arrival(more)) => ArrivalKeepsTrack(conditions, b, t, all, more);
    }
  }

  /** A failure after any number of cleanups is made good by the retry. */
  lemma RetryAfterPartialCleanup(conditions: Conditions, t: Tables, items: seq<ItemValue>, m: nat)
    ensures var cleaned := CleanEach(UpsertEach(conditions, t, items), Front(items, m));
            Flushed(conditions, cleaned, Merged(items)) == Flushed(conditions, t, items)
  {
    var cleaned := CleanEach(UpsertEach(conditions, t, items), Front(items, m));
    RewritingIsAhead(conditions, t, items, m);
    MergingKeepsCleanups(items);
    AheadCleansAlike(UpsertEach(conditions, cleaned, Merged(items)), UpsertEach(conditions, t, items), items, Merged(items));
  }

  lemma StartsOnTrack(conditions: Conditions, t: Tables, items: seq<ItemValue>)
    ensures OnTrack(conditions, Waiting(t, items), t, items + [])
  {
    assert items + [] == items;
    AheadOfItself(UpsertEach(conditions, t, items), items);
  }

  lemma Regroup(a: seq<ItemValue>, b: seq<ItemValue>, c: seq<ItemValue>)
    ensures a + b + c == a + (b + c)
  {
  }

  lemma {:induction false} EventsKeepTrack(conditions: Conditions, t: Tables, items: seq<ItemValue>, events: seq<FlushEvent>)
    ensures OnTrack(conditions, AfterFlushEvents(conditions, Waiting(t, items), events), t, items + Arrived(events))
  {
    if events == [] {
      StartsOnTrack(conditions, t, items);
    } else {
      var init, last := events[..|events| - 1], events[|events| - 1];
      var b := AfterFlushEvents(conditions, Waiting(t, items), init);
      EventsKeepTrack(conditions, t, items, init);
      EventKeepsTrack(conditions, b, t, items + Arrived(init), last);
      Regroup(items, Arrived(init), ArrivedBy(last));
    }
  }

  /** Whatever prefixes failed, in their upsert or among their cleanups, and whatever arrived in between: the flush in the end is the flush of all items. */
  lemma RetriedBatchesFlushAlike(conditions: Conditions, t: Tables, items: seq<ItemValue>, events: seq<FlushEvent>)
    ensures var b := AfterFlushEvents(conditions, Waiting(t, items), events);
            Flushed(conditions, b.tables, b.items) == Flushed(conditions, t, items + Arrived(events))
  {
    EventsKeepTrack(conditions, t, items, events);
    var b, all := AfterFlushEvents(conditions, Waiting(t, items), events), items + Arrived(events);
    AheadCleansAlike(Outcome(conditions, b), UpsertEach(conditions, t, all), all, b.items);
  }
}
