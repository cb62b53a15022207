/**
 * Which variant of a batch ends in which row of the tables, read off the condition codes' own ids: the last one of the
 * listing with the row's foil flag whose code is mapped to the row's condition, or has no id while the row's condition is
 * the unknown one.
 */
module WrittenRows {
  import opened Options
  import opened ListingTables

  /** A variant of a batch: its item and its place there. */
  datatype Spot = Spot(item: nat, variant: nat) {
    predicate In(items: seq<ItemValue>) {
      item < |items| && variant < |items[item].variants|
    }

    /** Extracted later than the other. */
    predicate After(other: Spot) {
      item > other.item || (item == other.item && variant > other.variant)
    }
  }

  /** The code is stored under this condition. */
  predicate StoredUnder(conditions: Conditions, code: string, id: int) {
    if code in conditions then conditions[code] == id else conditions["unknown"] == id
  }

  predicate WritesRow(conditions: Conditions, items: seq<ItemValue>, k: VariantKey, p: Spot) {
    && p.In(items) && items[p.item].listing.key == k.listing
    && items[p.item].variants[p.variant].foil == k.foil
    && StoredUnder(conditions, items[p.item].variants[p.variant].conditionCode, k.conditionId)
  }

  ghost predicate WritesLast(conditions: Conditions, items: seq<ItemValue>, k: VariantKey, p: Spot) {
    WritesRow(conditions, items, k, p) && forall q :: WritesRow(conditions, items, k, q) ==> !q.After(p)
  }

  predicate Shows(d: VariantData, v: VariantRow) {
    && d.price == v.price && d.inStock == v.inStock && d.quantity == v.quantity
    && d.platformVariantId == v.platformVariantId && d.sku == v.sku
  }

  /** The last of a listing's own variants that writes the row. */
  lemma {:induction false} LastOwnVariant(conditions: Conditions, variants: seq<VariantRow>, k: VariantKey) returns (p: Option<nat>)
    ensures p.Some? ==> p.value < |variants| && variants[p.value].foil == k.foil
                        && StoredUnder(conditions, variants[p.value].conditionCode, k.conditionId)
    ensures forall j :: (if p.Some? then p.value + 1 else 0) <= j < |variants| ==>
              !(variants[j].foil == k.foil && StoredUnder(conditions, variants[j].conditionCode, k.conditionId))
    ensures var r := LastRow(RowsOf(conditions, k.listing, variants), k);
            if p.Some? then r.Some? && Shows(r.value, variants[p.value]) else r.None?
  {
    if variants == [] {
      p := None;
    } else {
      var n := |variants| - 1;
      assert RowsOf(conditions, k.listing, variants)[..n] == RowsOf(conditions, k.listing, variants[..n]);
      if variants[n].foil == k.foil && StoredUnder(conditions, variants[n].conditionCode, k.conditionId) {
        p := Some(n);
      } else {
        p := LastOwnVariant(conditions, variants[..n], k);
      }
    }
  }

  /** Some variant writes the row last, or none writes it at all. */
  ghost predicate Written(conditions: Conditions, before: Tables, after: Tables, items: seq<ItemValue>, k: VariantKey, p: Option<Spot>) {
    match p
    case Some(s) =>
      WritesLast(conditions, items, k, s) && k in after.variants && Shows(after.variants[k], items[s.item].variants[s.variant])
    case None =>
      && (forall q :: !WritesRow(conditions, items, k, q))
      && (k in after.variants <==> k in before.variants)
      && (k in before.variants ==> after.variants[k] == before.variants[k])
  }

  /** The row after the batch: the last variant that writes it, else what was there. */
  ghost predicate RowAfter(conditions: Conditions, before: Tables, after: Tables, items: seq<ItemValue>, k: VariantKey) {
    exists p :: Written(conditions, before, after, items, k, p)
  }

  lemma SpotsOfMore(conditions: Conditions, init: seq<ItemValue>, last: ItemValue, k: VariantKey, q: Spot)
    ensures q.item < |init| ==> (WritesRow(conditions, init + [last], k, q) <==> WritesRow(conditions, init, k, q))
    ensures q.item > |init| ==> !WritesRow(conditions, init + [last], k, q)
    ensures q.item == |init| ==>
              (WritesRow(conditions, init + [last], k, q) <==>
                 && last.listing.key == k.listing && q.variant < |last.variants| && last.variants[q.variant].foil == k.foil
                 && StoredUnder(conditions, last.variants[q.variant].conditionCode, k.conditionId))
  {
  }

  lemma ForeignItemWritesNothing(conditions: Conditions, before: Tables, init: seq<ItemValue>, last: ItemValue, k: VariantKey,
                                 p: Option<Spot>)
    requires last.listing.key != k.listing && Written(conditions, before, UpsertEach(conditions, before, init), init, k, p)
    ensures Written(conditions, before, UpsertItem(conditions, UpsertEach(conditions, before, init), last), init + [last], k, p)
  {
    ForeignRows(conditions, last.listing.key, last.variants, k);
    PutRowsLooksUpLast(UpsertEach(conditions, before, init).variants, RowsOf(conditions, last.listing.key, last.variants), k);
    forall q ensures WritesRow(conditions, init + [last], k, q) <==> WritesRow(conditions, init, k, q) {
      SpotsOfMore(conditions, init, last, k, q);
    }
  }

  lemma OwnItemWrites(conditions: Conditions, before: Tables, init: seq<ItemValue>, last: ItemValue, k: VariantKey, p: Option<Spot>)
    returns (p': Option<Spot>)
    requires last.listing.key == k.listing && Written(conditions, before, UpsertEach(conditions, before, init), init, k, p)
    ensures Written(conditions, before, UpsertItem(conditions, UpsertEach(conditions, before, init), last), init + [last], k, p')
  {
    var j := LastOwnVariant(conditions, last.variants, k);
    PutRowsLooksUpLast(UpsertEach(conditions, before, init).variants, RowsOf(conditions, k.listing, last.variants), k);
    p' := if j.Some? then Some(Spot(|init|, j.value)) else p;
    forall q: Spot
      ensures q.item < |init| ==> (WritesRow(conditions, init + [last], k, q) <==> WritesRow(conditions, init, k, q))
      ensures q.item >= |init| && WritesRow(conditions, init + [last], k, q) ==> j.Some? && q.item == |init| && q.variant <= j.value
    {
      SpotsOfMore(conditions, init, last, k, q);
    }
    if j.Some? {
      SpotsOfMore(conditions, init, last, k, p'.value);
    }
  }

  lemma {:induction false} FindWriter(conditions: Conditions, before: Tables, items: seq<ItemValue>, k: VariantKey)
    returns (p: Option<Spot>)
    ensures Written(conditions, before, UpsertEach(conditions, before, items), items, k, p)
  {
    if items == [] {
      p := None;
    } else {
      var init, last := items[..|items| - 1], items[|items| - 1];
      assert init + [last] == items;
      p := FindWriter(conditions, before, init, k);
      if last.listing.key == k.listing {
        p := OwnItemWrites(conditions, before, init, last, k, p);
      } else {
        ForeignItemWritesNothing(conditions, before, init, last, k, p);
      }
    }
  }

  /** The last item of a listing, if any. */
  ghost predicate IsLastOf(items: seq<ItemValue>, key: Key, i: Option<nat>) {
    && (i.Some? ==> i.value < |items| && items[i.value].listing.key == key)
    && forall j :: (if i.Some? then i.value + 1 else 0) <= j < |items| ==> items[j].listing.key != key
  }

  lemma {:induction false} LastItem(conditions: Conditions, before: Tables, items: seq<ItemValue>, key: Key) returns (i: Option<nat>)
    ensures IsLastOf(items, key, i)
    ensures var after := UpsertEach(conditions, before, items).listings;
            if i.Some? then key in after && after[key] == items[i.value].listing
            else (key in after <==> key in before.listings) && (key in after ==> after[key] == before.listings[key])
  {
    if items == [] {
      i := None;
    } else {
      var n := |items| - 1;
      i := LastItem(conditions, before, items[..n], key);
      if items[n].listing.key == key {
        i := Some(n);
      } else {
        assert forall j :: 0 <= j < n ==> items[..n][j] == items[j];
      }
    }
  }

  /** The listing after the batch: its last item's, else what was there. */
  ghost predicate ListingAfter(before: Tables, after: Tables, items: seq<ItemValue>, key: Key) {
    exists i: Option<nat> :: IsLastOf(items, key, i)
                && if i.Some? then key in after.listings && after.listings[key] == items[i.value].listing
                   else (key in after.listings <==> key in before.listings)
                        && (key in before.listings ==> after.listings[key] == before.listings[key])
  }

  /** What a batch leaves in both tables. */
  ghost predicate Upserted(conditions: Conditions, before: Tables, after: Tables, items: seq<ItemValue>) {
    && (forall k :: RowAfter(conditions, before, after, items, k))
    && (forall key :: ListingAfter(before, after, items, key))
  }

  lemma UpsertExactly(conditions: Conditions, before: Tables, items: seq<ItemValue>)
    ensures Upserted(conditions, before, UpsertEach(conditions, before, items), items)
  {
    forall k ensures RowAfter(conditions, before, UpsertEach(conditions, before, items), items, k) {
      var p := FindWriter(conditions, before, items, k);
    }
    forall key ensures ListingAfter(before, UpsertEach(conditions, before, items), items, key) {
      var i := LastItem(conditions, before, items, key);
    }
  }

  /** Two variants of one listing whose known codes have different ids never share a row: both rows are there afterwards. */
  lemma KnownConditionsKeepApart(conditions: Conditions, before: Tables, items: seq<ItemValue>, p: Spot, q: Spot)
    requires p.In(items) && q.In(items) && items[p.item].listing.key == items[q.item].listing.key
    requires items[p.item].variants[p.variant].conditionCode in conditions && items[q.item].variants[q.variant].conditionCode in conditions
    requires conditions[items[p.item].variants[p.variant].conditionCode] != conditions[items[q.item].variants[q.variant].conditionCode]
    ensures forall k :: !(WritesRow(conditions, items, k, p) && WritesRow(conditions, items, k, q))
    ensures var v, w := items[p.item].variants[p.variant], items[q.item].variants[q.variant];
            var after := UpsertEach(conditions, before, items).variants;
            && VariantKey(items[p.item].listing.key, conditions[v.conditionCode], v.foil) in after
            && VariantKey(items[q.item].listing.key, conditions[w.conditionCode], w.foil) in after
  {
    var v, w := items[p.item].variants[p.variant], items[q.item].variants[q.variant];
    var a := VariantKey(items[p.item].listing.key, conditions[v.conditionCode], v.foil);
    var b := VariantKey(items[q.item].listing.key, conditions[w.conditionCode], w.foil);
    assert WritesRow(conditions, items, a, p) && WritesRow(conditions, items, b, q);
    var lastA := FindWriter(conditions, before, items, a);
    var lastB := FindWriter(conditions, before, items, b);
  }

  // ----- Stock flags -----

  /** Only the stock flags may change: a row with a platform id loses its flag if some cleanup of its product does not list the id. */
  ghost predicate CleanedRow(before: Tables, after: Tables, items: seq<ItemValue>, k: VariantKey) {
    && (k in after.variants <==> k in before.variants)
    && (k in before.variants ==>
          && after.variants[k] == before.variants[k].(inStock := after.variants[k].inStock)
          && (after.variants[k].inStock <==>
                && before.variants[k].inStock
                && (before.variants[k].platformVariantId.Some? && k.listing in before.listings ==>
                      forall i :: 0 <= i < |items| && items[i].cleanup.Some?
                                  && items[i].cleanup.value.productUrlId == k.listing.productUrlId ==>
                        before.variants[k].platformVariantId.value in items[i].cleanup.value.inStockVariantIds)))
  }

  ghost predicate Cleaned(before: Tables, after: Tables, items: seq<ItemValue>) {
    after.listings == before.listings && forall k :: CleanedRow(before, after, items, k)
  }

  lemma OneCleanup(t: Tables, items: seq<ItemValue>, item: ItemValue, k: VariantKey)
    requires CleanEach(t, items).listings == t.listings && CleanedRow(t, CleanEach(t, items), items, k)
    ensures var after := if item.cleanup.Some? then MarkStale(CleanEach(t, items), item.cleanup.value) else CleanEach(t, items);
            CleanedRow(t, after, items + [item], k)
  {
    var n := |items|;
    assert forall i :: 0 <= i < n ==> (items + [item])[i] == items[i];
    assert (items + [item])[n] == item;
  }

  lemma {:induction false} CleanedExactly(t: Tables, items: seq<ItemValue>, k: VariantKey)
    ensures CleanEach(t, items).listings == t.listings && CleanedRow(t, CleanEach(t, items), items, k)
  {
    if items != [] {
      var init, last := items[..|items| - 1], items[|items| - 1];
      CleanedExactly(t, init, k);
      OneCleanup(t, init, last, k);
      assert init + [last] == items;
    }
  }

  /** What a flush leaves: the upserted batch, then its cleanups. */
  ghost predicate FlushedBetween(conditions: Conditions, before: Tables, after: Tables, items: seq<ItemValue>) {
    exists upserted :: Upserted(conditions, before, upserted, items) && Cleaned(upserted, after, items)
  }

  lemma FlushExactly(conditions: Conditions, before: Tables, items: seq<ItemValue>)
    ensures FlushedBetween(conditions, before, Flushed(conditions, before, items), items)
  {
    var upserted := UpsertEach(conditions, before, items);
    UpsertExactly(conditions, before, items);
    CleanedExactly(upserted, items, VariantKey(Key(0, 0), 0, false));
    forall k ensures CleanedRow(upserted, Flushed(conditions, before, items), items, k) {
      CleanedExactly(upserted, items, k);
    }
  }

  function ListingKeys(items: seq<ItemValue>): set<Key> {
    set i | 0 <= i < |items| :: items[i].listing.key
  }
}
