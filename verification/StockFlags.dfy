/**
 * From extracted variants to stock flags in the database: the rows an extraction builds,
 * and what they look like after the flush that upserts and cleans up.
 */
module StockFlags {
  import opened Options
  import opened ListingTables
  import opened WrittenRows

  /** An extracted variant; an empty platform id or sku counts as absent. */
  datatype Extracted = Extracted(
    condition: string, foil: bool, price: real, inStock: bool, quantity: Option<int>, platformVariantId: string, sku: string)

  function NonEmpty(s: string): Option<string> {
    if s == "" then None else Some(s)
  }

  function VariantRowOf(v: Extracted): VariantRow {
    VariantRow(v.condition, v.foil, v.price, v.inStock, v.quantity, NonEmpty(v.platformVariantId), NonEmpty(v.sku))
  }

  function VariantRows(variants: seq<Extracted>): seq<VariantRow> {
    seq(|variants|, i requires 0 <= i < |variants| => VariantRowOf(variants[i]))
  }

  function InStockIds(variants: seq<Extracted>): (ids: seq<string>)
    ensures forall id :: id in ids <==> exists i :: 0 <= i < |variants| && variants[i].inStock
                                                    && variants[i].platformVariantId == id && id != ""
  {
    if variants == [] then []
    else
      var init, last := variants[..|variants| - 1], variants[|variants| - 1];
      assert forall i :: 0 <= i < |init| ==> init[i] == variants[i];
      InStockIds(init) + (if last.inStock && last.platformVariantId != "" then [last.platformVariantId] else [])
  }

  /** The loop of `processExtractedVariants`. */
  method BuildRows(variants: seq<Extracted>) returns (rows: seq<VariantRow>, inStockVariantIds: seq<string>)
    ensures rows == VariantRows(variants) && inStockVariantIds == InStockIds(variants)
  {
    rows, inStockVariantIds := [], [];
    for n := 0 to |variants|
      invariant rows == VariantRows(variants[..n]) && inStockVariantIds == InStockIds(variants[..n])
    {
      var v := variants[n];
      assert variants[..n + 1][..n] == variants[..n];
      rows := rows + [VariantRowOf(v)];
      if v.inStock && v.platformVariantId != "" {
        inStockVariantIds := inStockVariantIds + [v.platformVariantId];
      }
    }
    assert variants[..|variants|] == variants;
  }

  /** The item handed to the accumulator for one product. */
  function ItemFor(listing: ListingRow, variants: seq<Extracted>): ItemValue {
    ItemValue(listing, VariantRows(variants), Some(Cleanup(listing.key.productUrlId, InStockIds(variants))))
  }

  datatype Extraction = Extraction(listing: ListingRow, variants: seq<Extracted>)

  function ItemsFor(batch: seq<Extraction>): seq<ItemValue> {
    seq(|batch|, i requires 0 <= i < |batch| => ItemFor(batch[i].listing, batch[i].variants))
  }

  ghost predicate DistinctProducts(batch: seq<Extraction>) {
    forall i, j :: 0 <= i < j < |batch| ==> batch[i].listing.key.productUrlId != batch[j].listing.key.productUrlId
  }

  predicate Names(conditions: Conditions, v: Extracted, k: VariantKey) {
    ConditionId(conditions, v.condition) == k.conditionId && v.foil == k.foil
  }

  /** The last extracted variant with this key's (condition, foil), if any. */
  function LastNamed(conditions: Conditions, variants: seq<Extracted>, k: VariantKey): (r: Option<Extracted>)
    ensures r.Some? ==> r.value in variants && Names(conditions, r.value, k)
    ensures r.None? <==> forall v :: v in variants ==> !Names(conditions, v, k)
  {
    if variants == [] then None
    else if Names(conditions, variants[|variants| - 1], k) then Some(variants[|variants| - 1])
    else
      assert variants == variants[..|variants| - 1] + [variants[|variants| - 1]];
      LastNamed(conditions, variants[..|variants| - 1], k)
  }

  function DataOf(v: Extracted): VariantData {
    VariantData(v.price, v.inStock, v.quantity, NonEmpty(v.platformVariantId), NonEmpty(v.sku))
  }

  lemma {:induction false} LastRowIsLastNamed(conditions: Conditions, variants: seq<Extracted>, k: VariantKey)
    ensures var r := LastNamed(conditions, variants, k);
            LastRow(RowsOf(conditions, k.listing, VariantRows(variants)), k) == if r.Some? then Some(DataOf(r.value)) else None
  {
    if variants != [] {
      var n := |variants| - 1;
      LastRowIsLastNamed(conditions, variants[..n], k);
      var rows := RowsOf(conditions, k.listing, VariantRows(variants));
      assert rows[..n] == RowsOf(conditions, k.listing, VariantRows(variants[..n]));
      assert rows[n] == RowOf(conditions, k.listing, VariantRowOf(variants[n]));
    }
  }

  /** Everything the batch extracted for one listing, in arrival order. */
  function AllExtracted(batch: seq<Extraction>, listing: Key): seq<Extracted> {
    if batch == [] then []
    else
      var last := batch[|batch| - 1];
      AllExtracted(batch[..|batch| - 1], listing) + if last.listing.key == listing then last.variants else []
  }

  lemma {:induction false} BatchVariants(batch: seq<Extraction>, listing: Key)
    ensures AllVariants(ItemsFor(batch), listing) == VariantRows(AllExtracted(batch, listing))
  {
    if batch != [] {
      var n := |batch| - 1;
      BatchVariants(batch[..n], listing);
      assert ItemsFor(batch)[..n] == ItemsFor(batch[..n]);
    }
  }

  ghost predicate ListedIn(batch: seq<Extraction>, listing: Key) {
    exists i :: 0 <= i < |batch| && batch[i].listing.key == listing
  }

  /** What the upsert alone leaves in a row: the batch's last variant for it, else what was there. */
  function Upserted(conditions: Conditions, t: Tables, batch: seq<Extraction>, k: VariantKey): Option<VariantData> {
    var named := LastNamed(conditions, AllExtracted(batch, k.listing), k);
    if named.Some? then Some(DataOf(named.value)) else if k in t.variants then Some(t.variants[k]) else None
  }

  lemma UpsertedRow(conditions: Conditions, t: Tables, batch: seq<Extraction>, k: VariantKey)
    ensures var after := UpsertEach(conditions, t, ItemsFor(batch));
            && (k.listing in after.listings <==> k.listing in t.listings || ListedIn(batch, k.listing))
            && (k in after.variants <==> Upserted(conditions, t, batch, k).Some?)
            && (k in after.variants ==> after.variants[k] == Upserted(conditions, t, batch, k).value)
  {
    var items := ItemsFor(batch);
    UpsertEachIsFlat(conditions, t, items);
    PutRowsLooksUpLast(t.variants, Flat(conditions, items), k);
    LastRowIsWithinItsListing(conditions, items, k);
    BatchVariants(batch, k.listing);
    LastRowIsLastNamed(conditions, AllExtracted(batch, k.listing), k);
    PutListingsLooksUpLast(t.listings, items, k.listing);
    LastListingHasItsKey(items, k.listing);
    assert forall i :: 0 <= i < |batch| ==> items[i].listing.key == batch[i].listing.key;
  }

  /** Some item's cleanup finds the row stale. */
  ghost predicate FoundStale(t: Tables, items: seq<ItemValue>, k: VariantKey)
    requires k in t.variants
  {
    exists i :: 0 <= i < |items| && items[i].cleanup.Some? && IsStale(t, items[i].cleanup.value, k)
  }

  /** The cleanups of any items, together: a row is cleared exactly if one of them finds it stale as it stood before the first. */
  lemma {:induction false} CleaningIsExact(t: Tables, items: seq<ItemValue>, k: VariantKey)
    ensures CleanEach(t, items).listings == t.listings
    ensures k in CleanEach(t, items).variants <==> k in t.variants
    ensures k in t.variants ==>
              CleanEach(t, items).variants[k] == if FoundStale(t, items, k) then t.variants[k].(inStock := false) else t.variants[k]
  {
    if items != [] {
      var n := |items| - 1;
      CleaningIsExact(t, items[..n], k);
      if k in t.variants {
        assert forall i :: 0 <= i < n ==> items[..n][i] == items[i];
        assert FoundStale(t, items, k) <==>
               FoundStale(t, items[..n], k) || (items[n].cleanup.Some? && IsStale(t, items[n].cleanup.value, k));
      }
    }
  }

  /** Every extraction of the row's product reported this platform id in stock; a row without one cannot be found stale. */
  ghost predicate ReportedByAll(batch: seq<Extraction>, k: VariantKey, platformVariantId: Option<string>) {
    platformVariantId.Some? ==>
      forall i :: 0 <= i < |batch| && batch[i].listing.key.productUrlId == k.listing.productUrlId ==>
        platformVariantId.value in InStockIds(batch[i].variants)
  }

  /**
   * The row any flush leaves, for every batch: the upserted row, cleared exactly if some extraction of its product in
   * the batch did not report its platform id in stock.
   */
  lemma StockAfterFlush(conditions: Conditions, t: Tables, batch: seq<Extraction>, k: VariantKey)
    requires k.listing in t.listings || ListedIn(batch, k.listing)
    ensures var after, row := Flushed(conditions, t, ItemsFor(batch)), Upserted(conditions, t, batch, k);
            && (k in after.variants <==> row.Some?)
            && (row.Some? ==>
                  && after.variants[k] == row.value.(inStock := after.variants[k].inStock)
                  && (after.variants[k].inStock <==> row.value.inStock && ReportedByAll(batch, k, row.value.platformVariantId)))
  {
    var items := ItemsFor(batch);
    var upserted := UpsertEach(conditions, t, items);
    UpsertedRow(conditions, t, batch, k);
    CleaningIsExact(upserted, items, k);
    if k in upserted.variants {
      StaleIsUnreported(upserted, batch, k);
    }
  }

  lemma StaleIsUnreported(t: Tables, batch: seq<Extraction>, k: VariantKey)
    requires k in t.variants && k.listing in t.listings
    ensures FoundStale(t, ItemsFor(batch), k) <==> !ReportedByAll(batch, k, t.variants[k].platformVariantId)
  {
    var items, id := ItemsFor(batch), t.variants[k].platformVariantId;
    assert forall i :: 0 <= i < |batch| ==>
             items[i].cleanup == Some(Cleanup(batch[i].listing.key.productUrlId, InStockIds(batch[i].variants)));
    if !ReportedByAll(batch, k, id) {
      var i :| 0 <= i < |batch| && batch[i].listing.key.productUrlId == k.listing.productUrlId
               && id.value !in InStockIds(batch[i].variants);
      assert items[i].cleanup.Some? && IsStale(t, items[i].cleanup.value, k);
    }
  }

  /** The last extraction of a row decides its flag exactly if it was out of stock or every extraction of the product agrees. */
  lemma LastFlagStaysExactly(conditions: Conditions, t: Tables, batch: seq<Extraction>, k: VariantKey)
    requires LastNamed(conditions, AllExtracted(batch, k.listing), k).Some?
    ensures var after, last := Flushed(conditions, t, ItemsFor(batch)), LastNamed(conditions, AllExtracted(batch, k.listing), k).value;
            && k in after.variants
            && (after.variants[k] == DataOf(last) <==> !last.inStock || ReportedByAll(batch, k, DataOf(last).platformVariantId))
  {
    ExtractedIsListed(batch, k.listing);
    StockAfterFlush(conditions, t, batch, k);
  }

  lemma {:induction false} ExtractedIsListed(batch: seq<Extraction>, listing: Key)
    ensures AllExtracted(batch, listing) != [] ==> ListedIn(batch, listing)
  {
    if batch != [] {
      var n := |batch| - 1;
      ExtractedIsListed(batch[..n], listing);
      if batch[n].listing.key != listing && ListedIn(batch[..n], listing) {
        var i :| 0 <= i < n && batch[..n][i].listing.key == listing;
        assert batch[i].listing.key == listing;
      }
    }
  }

  // ----- Batches without a repeated product -----

  /** No other extraction of the batch is of the same product. */
  ghost predicate OnlyOfProduct(batch: seq<Extraction>, i: nat)
    requires i < |batch|
  {
    forall j :: 0 <= j < |batch| && j != i ==> batch[j].listing.key.productUrlId != batch[i].listing.key.productUrlId
  }

  lemma {:induction false} OwnVariants(batch: seq<Extraction>, i: nat)
    requires i < |batch| && OnlyOfProduct(batch, i)
    ensures AllExtracted(batch, batch[i].listing.key) == batch[i].variants
  {
    var n := |batch| - 1;
    if i < n {
      OwnVariants(batch[..n], i);
    } else if AllExtracted(batch[..n], batch[i].listing.key) != [] {
      ExtractedIsListed(batch[..n], batch[i].listing.key);
    }
  }

  /** With distinct products every last variant keeps its flag, and other rows with a platform id are in stock only if it was reported. */
  lemma DistinctProductsKeepFlags(conditions: Conditions, t: Tables, batch: seq<Extraction>, i: nat, k: VariantKey)
    requires i < |batch| && DistinctProducts(batch) && k.listing == batch[i].listing.key
    ensures var after := Flushed(conditions, t, ItemsFor(batch));
            var named := LastNamed(conditions, batch[i].variants, k);
            && (named.Some? ==> k in after.variants && after.variants[k] == DataOf(named.value))
            && (named.None? && k in after.variants && after.variants[k].inStock && after.variants[k].platformVariantId.Some? ==>
                  after.variants[k].platformVariantId.value in InStockIds(batch[i].variants))
  {
    assert OnlyOfProduct(batch, i);
    OwnVariants(batch, i);
    StockAfterFlush(conditions, t, batch, k);
  }

  lemma PairExtracted(early: Extraction, late: Extraction, listing: Key)
    requires early.listing.key == listing && late.listing.key == listing
    ensures AllExtracted([early, late], listing) == early.variants + late.variants
  {
    assert [early, late][..1] == [early] && [early][..0] == [];
    assert AllExtracted([early], listing) == [] + early.variants;
    assert [] + early.variants == early.variants;
  }

  /** With a repeated one an earlier extraction that did not see the variant takes its flag away. */
  lemma RepeatedProductsCanLoseStock(listing: ListingRow, conditions: Conditions)
    ensures var early := Extraction(listing, [Extracted("nm", false, 1.0, true, None, "b", "")]);
            var late := Extraction(listing, [Extracted("nm", false, 1.0, true, None, "a", "")]);
            var k := VariantKey(listing.key, ConditionId(conditions, "nm"), false);
            var after := Flushed(conditions, Tables(map[], map[]), ItemsFor([early, late]));
            && LastNamed(conditions, AllExtracted([early, late], listing.key), k) == Some(late.variants[0])
            && k in after.variants && late.variants[0].inStock && !after.variants[k].inStock
  {
    var early := Extraction(listing, [Extracted("nm", false, 1.0, true, None, "b", "")]);
    var late := Extraction(listing, [Extracted("nm", false, 1.0, true, None, "a", "")]);
    var k := VariantKey(listing.key, ConditionId(conditions, "nm"), false);
    var batch := [early, late];
    PairExtracted(early, late, listing.key);
    assert LastNamed(conditions, AllExtracted(batch, listing.key), k) == Some(late.variants[0]);
    assert batch[0] == early && "a" !in InStockIds(early.variants);
    assert !ReportedByAll(batch, k, Some("a"));
    assert ListedIn(batch, listing.key) by { assert batch[0].listing.key == listing.key; }
    StockAfterFlush(conditions, Tables(map[], map[]), batch, k);
  }

  // ----- From extractions to rows, in their own fields -----

  /** The extracted variant at this spot is for the row. */
  predicate ExtractedFor(conditions: Conditions, batch: seq<Extraction>, k: VariantKey, p: Spot) {
    && p.item < |batch| && p.variant < |batch[p.item].variants| && batch[p.item].listing.key == k.listing
    && batch[p.item].variants[p.variant].foil == k.foil
    && StoredUnder(conditions, batch[p.item].variants[p.variant].condition, k.conditionId)
  }

  ghost predicate ExtractedLast(conditions: Conditions, batch: seq<Extraction>, k: VariantKey, p: Spot) {
    ExtractedFor(conditions, batch, k, p) && forall q :: ExtractedFor(conditions, batch, k, q) ==> !q.After(p)
  }

  /** Some variant of the extraction is in stock under this platform id. */
  ghost predicate SeenInStock(e: Extraction, platformVariantId: string) {
    exists i :: 0 <= i < |e.variants| && e.variants[i].inStock && e.variants[i].platformVariantId == platformVariantId
  }

  /** The row holds the variant's data, its absent id and sku as such, and is in stock if all of its product's extractions agree. */
  ghost predicate ShowsExtracted(batch: seq<Extraction>, product: int, d: VariantData, v: Extracted) {
    && d.price == v.price && d.quantity == v.quantity
    && d.platformVariantId == (if v.platformVariantId == "" then None else Some(v.platformVariantId))
    && d.sku == (if v.sku == "" then None else Some(v.sku))
    && (d.inStock <==>
          && v.inStock
          && (v.platformVariantId != "" ==>
                forall i :: 0 <= i < |batch| && batch[i].listing.key.productUrlId == product ==> SeenInStock(batch[i], v.platformVariantId)))
  }

  lemma ItemsAreForExtractions(conditions: Conditions, batch: seq<Extraction>, k: VariantKey, p: Spot)
    ensures WritesRow(conditions, ItemsFor(batch), k, p) <==> ExtractedFor(conditions, batch, k, p)
  {
  }

  lemma ReportsAreSightings(batch: seq<Extraction>, items: seq<ItemValue>, product: int, id: string)
    requires items == ItemsFor(batch) && id != ""
    ensures (forall i :: 0 <= i < |items| && items[i].cleanup.Some? && items[i].cleanup.value.productUrlId == product ==>
               id in items[i].cleanup.value.inStockVariantIds)
            <==> forall i :: 0 <= i < |batch| && batch[i].listing.key.productUrlId == product ==> SeenInStock(batch[i], id)
  {
    forall i | 0 <= i < |batch|
      ensures items[i].cleanup == Some(Cleanup(batch[i].listing.key.productUrlId, InStockIds(batch[i].variants)))
      ensures id in InStockIds(batch[i].variants) <==> SeenInStock(batch[i], id)
    {
    }
  }

  lemma ShownIsExtracted(batch: seq<Extraction>, k: VariantKey, upserted: Tables, after: Tables, v: Extracted)
    requires k in upserted.variants && k.listing in upserted.listings && Shows(upserted.variants[k], VariantRowOf(v))
    requires CleanedRow(upserted, after, ItemsFor(batch), k)
    ensures k in after.variants && ShowsExtracted(batch, k.listing.productUrlId, after.variants[k], v)
  {
    if v.platformVariantId != "" {
      ReportsAreSightings(batch, ItemsFor(batch), k.listing.productUrlId, v.platformVariantId);
    }
  }

  /** After a flush the row of the last variant extracted for it shows that variant. */
  lemma FlushShowsLastExtracted(conditions: Conditions, t: Tables, batch: seq<Extraction>, k: VariantKey, p: Spot)
    requires ExtractedLast(conditions, batch, k, p)
    ensures var after := Flushed(conditions, t, ItemsFor(batch)).variants;
            k in after && ShowsExtracted(batch, k.listing.productUrlId, after[k], batch[p.item].variants[p.variant])
  {
    var items := ItemsFor(batch);
    var upserted := UpsertEach(conditions, t, items);
    forall q ensures WritesRow(conditions, items, k, q) <==> ExtractedFor(conditions, batch, k, q) {
      ItemsAreForExtractions(conditions, batch, k, q);
    }
    var last := FindWriter(conditions, t, items, k);
    assert last == Some(p);
    UpsertedRow(conditions, t, batch, k);
    CleanedExactly(upserted, items, k);
    assert ListedIn(batch, k.listing);
    ShownIsExtracted(batch, k, upserted, Flushed(conditions, t, items), batch[p.item].variants[p.variant]);
  }
}
