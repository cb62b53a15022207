/**
 * The listing and variant tables and what upserting a batch of extracted items means:
 * later rows win, whether items arrive one at a time, merged into a batch, or retried.
 */
module ListingTables {
  import opened Options

  datatype Key = Key(storeId: int, productUrlId: int)

  datatype ListingRow = ListingRow(
    key: Key, cardNameId: Option<int>, cardPrintingId: Option<int>, rawTitle: string, imageUrl: Option<string>,
    currency: string, nameMatch: string, setMatch: string, printingMatch: string)

  datatype VariantRow = VariantRow(
    conditionCode: string, foil: bool, price: real, inStock: bool, quantity: Option<int>,
    platformVariantId: Option<string>, sku: Option<string>)

  datatype Cleanup = Cleanup(productUrlId: int, inStockVariantIds: seq<string>)

  /** The value of one buffered item at some moment. */
  datatype ItemValue = ItemValue(listing: ListingRow, variants: seq<VariantRow>, cleanup: Option<Cleanup>)

  /** Unique index (card_listing_id, condition_id, foil), with the listing named by its own unique key. */
  datatype VariantKey = VariantKey(listing: Key, conditionId: int, foil: bool)

  datatype VariantData = VariantData(
    price: real, inStock: bool, quantity: Option<int>, platformVariantId: Option<string>, sku: Option<string>)

  datatype Row = Row(key: VariantKey, data: VariantData)

  datatype Tables = Tables(listings: map<Key, ListingRow>, variants: map<VariantKey, VariantData>)

  /** Known condition codes; `getConditionId` falls back to the "unknown" condition. */
  type Conditions = m: map<string, int> | "unknown" in m witness map["unknown" := 0]

  function ConditionId(conditions: Conditions, code: string): int {
    if code in conditions then conditions[code] else conditions["unknown"]
  }

  function RowOf(conditions: Conditions, listing: Key, v: VariantRow): Row {
    Row(VariantKey(listing, ConditionId(conditions, v.conditionCode), v.foil),
        VariantData(v.price, v.inStock, v.quantity, v.platformVariantId, v.sku))
  }

  function RowsOf(conditions: Conditions, listing: Key, variants: seq<VariantRow>): seq<Row> {
    seq(|variants|, i requires 0 <= i < |variants| => RowOf(conditions, listing, variants[i]))
  }

  // ----- Upserting rows: the last one wins -----

  function PutRows(table: map<VariantKey, VariantData>, rows: seq<Row>): map<VariantKey, VariantData> {
    if rows == [] then table
    else PutRows(table, rows[..|rows| - 1])[rows[|rows| - 1].key := rows[|rows| - 1].data]
  }

  function LastRow(rows: seq<Row>, k: VariantKey): Option<VariantData> {
    if rows == [] then None
    else if rows[|rows| - 1].key == k then Some(rows[|rows| - 1].data)
    else LastRow(rows[..|rows| - 1], k)
  }

  lemma {:induction false} PutRowsLooksUpLast(table: map<VariantKey, VariantData>, rows: seq<Row>, k: VariantKey)
    ensures k in PutRows(table, rows) <==> k in table || LastRow(rows, k).Some?
    ensures LastRow(rows, k).Some? ==> PutRows(table, rows)[k] == LastRow(rows, k).value
    ensures k in table && LastRow(rows, k).None? ==> PutRows(table, rows)[k] == table[k]
  {
    if rows != [] {
      PutRowsLooksUpLast(table, rows[..|rows| - 1], k);
    }
  }

  /** Row lists with the same last rows have the same effect on every table. */
  lemma SameLastRowsSameTable(table: map<VariantKey, VariantData>, a: seq<Row>, b: seq<Row>)
    requires forall k :: LastRow(a, k) == LastRow(b, k)
    ensures PutRows(table, a) == PutRows(table, b)
  {
    forall k ensures k in PutRows(table, a) <==> k in PutRows(table, b) {
      PutRowsLooksUpLast(table, a, k);
      PutRowsLooksUpLast(table, b, k);
    }
    forall k | k in PutRows(table, a) ensures PutRows(table, a)[k] == PutRows(table, b)[k] {
      PutRowsLooksUpLast(table, a, k);
      PutRowsLooksUpLast(table, b, k);
    }
  }

  lemma {:induction false} LastRowOfConcat(a: seq<Row>, b: seq<Row>, k: VariantKey)
    ensures LastRow(a + b, k) == if LastRow(b, k).Some? then LastRow(b, k) else LastRow(a, k)
  {
    if b == [] {
      assert a + b == a;
    } else {
      assert (a + b)[..|a + b| - 1] == a + b[..|b| - 1];
      LastRowOfConcat(a, b[..|b| - 1], k);
    }
  }

  lemma {:induction false} LastRowOfForeign(rows: seq<Row>, k: VariantKey)
    requires forall r :: r in rows ==> r.key != k
    ensures LastRow(rows, k) == None
  {
    if rows != [] {
      assert rows[|rows| - 1] in rows;
      LastRowOfForeign(rows[..|rows| - 1], k);
    }
  }

  // ----- One item at a time -----

  function UpsertItem(conditions: Conditions, t: Tables, item: ItemValue): Tables {
    Tables(t.listings[item.listing.key := item.listing],
           PutRows(t.variants, RowsOf(conditions, item.listing.key, item.variants)))
  }

  function UpsertEach(conditions: Conditions, t: Tables, items: seq<ItemValue>): Tables {
    if items == [] then t
    else UpsertItem(conditions, UpsertEach(conditions, t, items[..|items| - 1]), items[|items| - 1])
  }

  /** All rows in arrival order. */
  function Flat(conditions: Conditions, items: seq<ItemValue>): seq<Row> {
    if items == [] then []
    else Flat(conditions, items[..|items| - 1])
         + RowsOf(conditions, items[|items| - 1].listing.key, items[|items| - 1].variants)
  }

  function PutListings(table: map<Key, ListingRow>, items: seq<ItemValue>): map<Key, ListingRow> {
    if items == [] then table
    else PutListings(table, items[..|items| - 1])[items[|items| - 1].listing.key := items[|items| - 1].listing]
  }

  lemma {:induction false} PutRowsConcat(table: map<VariantKey, VariantData>, a: seq<Row>, b: seq<Row>)
    ensures PutRows(table, a + b) == PutRows(PutRows(table, a), b)
  {
    if b == [] {
      assert a + b == a;
    } else {
      assert (a + b)[..|a + b| - 1] == a + b[..|b| - 1];
      PutRowsConcat(table, a, b[..|b| - 1]);
    }
  }

  lemma {:induction false} UpsertEachIsFlat(conditions: Conditions, t: Tables, items: seq<ItemValue>)
    ensures UpsertEach(conditions, t, items)
            == Tables(PutListings(t.listings, items), PutRows(t.variants, Flat(conditions, items)))
  {
    if items != [] {
      var init, last := items[..|items| - 1], items[|items| - 1];
      UpsertEachIsFlat(conditions, t, init);
      PutRowsConcat(t.variants, Flat(conditions, init), RowsOf(conditions, last.listing.key, last.variants));
    }
  }

  // ----- Grouping by listing -----

  function LastListing(items: seq<ItemValue>, k: Key): Option<ListingRow> {
    if items == [] then None
    else if items[|items| - 1].listing.key == k then Some(items[|items| - 1].listing)
    else LastListing(items[..|items| - 1], k)
  }

  /** The variants of one listing, in arrival order. */
  function AllVariants(items: seq<ItemValue>, k: Key): seq<VariantRow> {
    if items == [] then []
    else AllVariants(items[..|items| - 1], k)
         + (if items[|items| - 1].listing.key == k then items[|items| - 1].variants else [])
  }

  lemma {:induction false} PutListingsLooksUpLast(table: map<Key, ListingRow>, items: seq<ItemValue>, k: Key)
    ensures k in PutListings(table, items) <==> k in table || LastListing(items, k).Some?
    ensures LastListing(items, k).Some? ==> PutListings(table, items)[k] == LastListing(items, k).value
    ensures k in table && LastListing(items, k).None? ==> PutListings(table, items)[k] == table[k]
  {
    if items != [] {
      PutListingsLooksUpLast(table, items[..|items| - 1], k);
    }
  }

  lemma RowsOfConcat(conditions: Conditions, k: Key, a: seq<VariantRow>, b: seq<VariantRow>)
    ensures RowsOf(conditions, k, a + b) == RowsOf(conditions, k, a) + RowsOf(conditions, k, b)
  {
  }

  lemma ForeignRows(conditions: Conditions, listing: Key, variants: seq<VariantRow>, k: VariantKey)
    requires k.listing != listing
    ensures LastRow(RowsOf(conditions, listing, variants), k) == None
  {
    LastRowOfForeign(RowsOf(conditions, listing, variants), k);
  }

  /** The last row for a key is the last among its own listing's variants. */
  lemma {:induction false} LastRowIsWithinItsListing(conditions: Conditions, items: seq<ItemValue>, k: VariantKey)
    ensures LastRow(Flat(conditions, items), k) == LastRow(RowsOf(conditions, k.listing, AllVariants(items, k.listing)), k)
  {
    if items != [] {
      var init, last := items[..|items| - 1], items[|items| - 1];
      LastRowIsWithinItsListing(conditions, init, k);
      LastRowOfConcat(Flat(conditions, init), RowsOf(conditions, last.listing.key, last.variants), k);
      if last.listing.key == k.listing {
        RowsOfConcat(conditions, k.listing, AllVariants(init, k.listing), last.variants);
        LastRowOfConcat(RowsOf(conditions, k.listing, AllVariants(init, k.listing)),
                        RowsOf(conditions, k.listing, last.variants), k);
      } else {
        ForeignRows(conditions, last.listing.key, last.variants, k);
        assert AllVariants(items, k.listing) == AllVariants(init, k.listing);
      }
    }
  }

  /** Two item lists that agree per listing, up to which row comes last, upsert alike. */
  ghost predicate SameEffect(conditions: Conditions, a: seq<ItemValue>, b: seq<ItemValue>) {
    && (forall k :: LastListing(a, k) == LastListing(b, k))
    && (forall k: VariantKey :: LastRow(RowsOf(conditions, k.listing, AllVariants(a, k.listing)), k)
                             == LastRow(RowsOf(conditions, k.listing, AllVariants(b, k.listing)), k))
  }

  lemma SameEffectSameTables(conditions: Conditions, t: Tables, a: seq<ItemValue>, b: seq<ItemValue>)
    requires SameEffect(conditions, a, b)
    ensures UpsertEach(conditions, t, a) == UpsertEach(conditions, t, b)
  {
    UpsertEachIsFlat(conditions, t, a);
    UpsertEachIsFlat(conditions, t, b);
    forall k ensures LastRow(Flat(conditions, a), k) == LastRow(Flat(conditions, b), k) {
      LastRowIsWithinItsListing(conditions, a, k);
      LastRowIsWithinItsListing(conditions, b, k);
    }
    SameLastRowsSameTable(t.variants, Flat(conditions, a), Flat(conditions, b));
    SameLastListingsSameTable(t.listings, a, b);
  }

  lemma SameLastListingsSameTable(table: map<Key, ListingRow>, a: seq<ItemValue>, b: seq<ItemValue>)
    requires forall k :: LastListing(a, k) == LastListing(b, k)
    ensures PutListings(table, a) == PutListings(table, b)
  {
    forall k ensures k in PutListings(table, a) <==> k in PutListings(table, b) {
      PutListingsLooksUpLast(table, a, k);
      PutListingsLooksUpLast(table, b, k);
    }
    forall k | k in PutListings(table, a) ensures PutListings(table, a)[k] == PutListings(table, b)[k] {
      PutListingsLooksUpLast(table, a, k);
      PutListingsLooksUpLast(table, b, k);
    }
  }

  // ----- Merging duplicates in place -----

  predicate IsFirst(items: seq<ItemValue>, i: nat)
    requires i < |items|
  {
    forall j :: 0 <= j < i ==> items[j].listing.key != items[i].listing.key
  }

  /** An item after the first n items of its batch were merged: only first occurrences change. */
  function MergedAt(items: seq<ItemValue>, n: nat, i: nat): ItemValue
    requires n <= |items| && i < |items|
  {
    if i < n && IsFirst(items, i) then
      items[i].(listing := LastListing(items[..n], items[i].listing.key).GetOr(items[i].listing),
                variants := AllVariants(items[..n], items[i].listing.key))
    else items[i]
  }

  function Merged(items: seq<ItemValue>): seq<ItemValue> {
    seq(|items|, i requires 0 <= i < |items| => MergedAt(items, |items|, i))
  }

  lemma {:induction false} LastListingHasItsKey(items: seq<ItemValue>, k: Key)
    ensures LastListing(items, k).Some? ==> LastListing(items, k).value.key == k
    ensures LastListing(items, k).Some? <==> exists i :: 0 <= i < |items| && items[i].listing.key == k
  {
    if items != [] {
      LastListingHasItsKey(items[..|items| - 1], k);
      assert forall i :: 0 <= i < |items| - 1 ==> items[..|items| - 1][i] == items[i];
    }
  }

  lemma MergingKeepsKeys(items: seq<ItemValue>, i: nat)
    requires i < |items|
    ensures Merged(items)[i].listing.key == items[i].listing.key
  {
    LastListingHasItsKey(items, items[i].listing.key);
    assert items[..|items|] == items;
  }

  /** Variants of k arriving at positions lo..hi. */
  function Between(items: seq<ItemValue>, lo: nat, hi: nat, k: Key): seq<VariantRow>
    requires lo <= hi <= |items|
    decreases hi - lo
  {
    if lo == hi then []
    else Between(items, lo, hi - 1, k) + (if items[hi - 1].listing.key == k then items[hi - 1].variants else [])
  }

  lemma {:induction false} PrefixVariants(items: seq<ItemValue>, first: nat, n: nat, k: Key)
    requires first < n <= |items| && items[first].listing.key == k && IsFirst(items, first)
    ensures AllVariants(items[..n], k) == items[first].variants + Between(items, first + 1, n, k)
  {
    assert items[..n][..n - 1] == items[..n - 1];
    if n == first + 1 {
      NoneBefore(items, first, k);
    } else {
      PrefixVariants(items, first, n - 1, k);
    }
  }

  lemma {:induction false} NoneBefore(items: seq<ItemValue>, n: nat, k: Key)
    requires n <= |items| && forall j :: 0 <= j < n ==> items[j].listing.key != k
    ensures AllVariants(items[..n], k) == []
  {
    if n > 0 {
      assert items[..n][..n - 1] == items[..n - 1];
      NoneBefore(items, n - 1, k);
    }
  }

  lemma {:induction false} LaterItemsAreUnmerged(items: seq<ItemValue>, first: nat, n: nat, k: Key)
    requires first < n <= |items| && items[first].listing.key == k && IsFirst(items, first)
    ensures Between(Merged(items), first + 1, n, k) == Between(items, first + 1, n, k)
  {
    if n > first + 1 {
      LaterItemsAreUnmerged(items, first, n - 1, k);
      MergingKeepsKeys(items, n - 1);
      if items[n - 1].listing.key == k {
        assert !IsFirst(items, n - 1);
      }
    }
  }

  lemma FirstOccurrence(items: seq<ItemValue>, k: Key, i: nat) returns (first: nat)
    requires i < |items| && items[i].listing.key == k
    ensures first <= i && items[first].listing.key == k && IsFirst(items, first)
  {
    first := i;
    while !IsFirst(items, first)
      invariant first <= i && items[first].listing.key == k
      decreases first
    {
      var j :| 0 <= j < first && items[j].listing.key == items[first].listing.key;
      first := j;
    }
  }

  lemma LastRowOfRepeatedSuffix(a: seq<Row>, b: seq<Row>, k: VariantKey)
    ensures LastRow(a + b + b, k) == LastRow(a + b, k)
  {
    LastRowOfConcat(a + b, b, k);
    LastRowOfConcat(a, b, k);
  }

  lemma MergingKeepsLastRows(conditions: Conditions, items: seq<ItemValue>, k: VariantKey)
    ensures LastRow(RowsOf(conditions, k.listing, AllVariants(Merged(items), k.listing)), k)
            == LastRow(RowsOf(conditions, k.listing, AllVariants(items, k.listing)), k)
  {
    var n, merged := |items|, Merged(items);
    assert items[..n] == items && merged[..n] == merged;
    if i :| 0 <= i < n && items[i].listing.key == k.listing {
      var first := FirstOccurrence(items, k.listing, i);
      var head, tail := items[first].variants, Between(items, first + 1, n, k.listing);
      PrefixVariants(items, first, n, k.listing);
      forall j | 0 <= j < n ensures merged[j].listing.key == items[j].listing.key {
        MergingKeepsKeys(items, j);
      }
      PrefixVariants(merged, first, n, k.listing);
      LaterItemsAreUnmerged(items, first, n, k.listing);
      assert AllVariants(merged, k.listing) == head + tail + tail;
      RowsOfConcat(conditions, k.listing, head + tail, tail);
      RowsOfConcat(conditions, k.listing, head, tail);
      LastRowOfRepeatedSuffix(RowsOf(conditions, k.listing, head), RowsOf(conditions, k.listing, tail), k);
    } else {
      NoneBefore(items, n, k.listing);
      forall j | 0 <= j < n ensures merged[j].listing.key != k.listing {
        MergingKeepsKeys(items, j);
      }
      NoneBefore(merged, n, k.listing);
    }
  }

  lemma LaterListingIsUnmerged(items: seq<ItemValue>, first: nat, n: nat, k: Key)
    requires first < n < |items| && items[first].listing.key == k
    ensures LastListing(Merged(items)[..n + 1], k)
            == if items[n].listing.key == k then Some(items[n].listing) else LastListing(Merged(items)[..n], k)
  {
    assert Merged(items)[..n + 1][..n] == Merged(items)[..n];
    MergingKeepsKeys(items, n);
    if items[n].listing.key == k {
      assert !IsFirst(items, n);
    }
  }

  lemma PrefixListing(items: seq<ItemValue>, n: nat, k: Key)
    requires n < |items|
    ensures LastListing(items[..n + 1], k)
            == if items[n].listing.key == k then Some(items[n].listing) else LastListing(items[..n], k)
  {
    assert items[..n + 1][..n] == items[..n];
  }

  lemma FirstListingIsMerged(items: seq<ItemValue>, first: nat, k: Key)
    requires first < |items| && items[first].listing.key == k && IsFirst(items, first)
    ensures LastListing(Merged(items)[..first + 1], k) == LastListing(items, k)
  {
    var prefix := Merged(items)[..first + 1];
    assert prefix[|prefix| - 1] == MergedAt(items, |items|, first);
    assert items[..|items|] == items;
    LastListingHasItsKey(items, k);
  }

  /** Key k occurs again after position `first`, before n. */
  predicate Recurs(items: seq<ItemValue>, first: nat, n: nat, k: Key)
    requires first < n <= |items|
    decreases n
  {
    n > first + 1 && (items[n - 1].listing.key == k || Recurs(items, first, n - 1, k))
  }

  lemma {:induction false} MergedPrefixListing(items: seq<ItemValue>, first: nat, n: nat, k: Key)
    requires first < n <= |items| && items[first].listing.key == k && IsFirst(items, first)
    ensures LastListing(Merged(items)[..n], k)
            == if Recurs(items, first, n, k) then LastListing(items[..n], k) else LastListing(items, k)
  {
    if n == first + 1 {
      FirstListingIsMerged(items, first, k);
    } else {
      var m := n - 1;
      assert m + 1 == n;
      LaterListingIsUnmerged(items, first, m, k);
      if items[m].listing.key == k {
        PrefixListing(items, m, k);
      } else {
        MergedPrefixListing(items, first, m, k);
        PrefixListing(items, m, k);
      }
    }
  }

  lemma {:induction false} NoListing(items: seq<ItemValue>, k: Key)
    requires forall i :: 0 <= i < |items| ==> items[i].listing.key != k
    ensures LastListing(items, k) == None
  {
    if items != [] {
      NoListing(items[..|items| - 1], k);
    }
  }

  lemma MergingKeepsLastListings(items: seq<ItemValue>, k: Key)
    ensures LastListing(Merged(items), k) == LastListing(items, k)
  {
    var n, merged := |items|, Merged(items);
    assert items[..n] == items && merged[..n] == merged;
    if i :| 0 <= i < n && items[i].listing.key == k {
      var first := FirstOccurrence(items, k, i);
      MergedPrefixListing(items, first, n, k);
    } else {
      NoListing(items, k);
      forall j | 0 <= j < n ensures merged[j].listing.key != k {
        MergingKeepsKeys(items, j);
      }
      NoListing(merged, k);
    }
  }

  /** The in-place merge of a batch changes none of its effect, however often the batch is retried. */
  lemma MergingKeepsTheEffect(conditions: Conditions, items: seq<ItemValue>)
    ensures SameEffect(conditions, Merged(items), items)
  {
    forall k ensures LastListing(Merged(items), k) == LastListing(items, k) {
      MergingKeepsLastListings(items, k);
    }
    forall k: VariantKey
      ensures LastRow(RowsOf(conditions, k.listing, AllVariants(Merged(items), k.listing)), k)
              == LastRow(RowsOf(conditions, k.listing, AllVariants(items, k.listing)), k)
    {
      MergingKeepsLastRows(conditions, items, k);
    }
  }

  lemma {:induction false} UpsertEachConcat(conditions: Conditions, t: Tables, a: seq<ItemValue>, b: seq<ItemValue>)
    ensures UpsertEach(conditions, t, a + b) == UpsertEach(conditions, UpsertEach(conditions, t, a), b)
  {
    if b == [] {
      assert a + b == a;
    } else {
      assert (a + b)[..|a + b| - 1] == a + b[..|b| - 1];
      UpsertEachConcat(conditions, t, a, b[..|b| - 1]);
    }
  }

  lemma PutRowsTwice(table: map<VariantKey, VariantData>, rows: seq<Row>)
    ensures PutRows(PutRows(table, rows), rows) == PutRows(table, rows)
  {
    forall k ensures LastRow(rows + rows, k) == LastRow(rows, k) {
      LastRowOfConcat(rows, rows, k);
    }
    PutRowsConcat(table, rows, rows);
    SameLastRowsSameTable(table, rows + rows, rows);
  }

  lemma PutListingsTwice(table: map<Key, ListingRow>, items: seq<ItemValue>)
    ensures PutListings(PutListings(table, items), items) == PutListings(table, items)
  {
    forall k ensures k in PutListings(PutListings(table, items), items) <==> k in PutListings(table, items) {
      PutListingsLooksUpLast(PutListings(table, items), items, k);
      PutListingsLooksUpLast(table, items, k);
    }
    forall k | k in PutListings(table, items)
      ensures PutListings(PutListings(table, items), items)[k] == PutListings(table, items)[k]
    {
      PutListingsLooksUpLast(PutListings(table, items), items, k);
      PutListingsLooksUpLast(table, items, k);
    }
  }

  /** A retry after the listings alone, or after both tables, were already written changes nothing further. */
  lemma RetryAfterPartialWrite(conditions: Conditions, t: Tables, items: seq<ItemValue>)
    ensures var whole := UpsertEach(conditions, t, items);
            && UpsertEach(conditions, t.(listings := PutListings(t.listings, items)), Merged(items)) == whole
            && UpsertEach(conditions, whole, Merged(items)) == whole
  {
    var half := t.(listings := PutListings(t.listings, items));
    var whole := UpsertEach(conditions, t, items);
    MergingKeepsTheEffect(conditions, items);
    SameEffectSameTables(conditions, half, Merged(items), items);
    SameEffectSameTables(conditions, whole, Merged(items), items);
    UpsertEachIsFlat(conditions, t, items);
    UpsertEachIsFlat(conditions, half, items);
    UpsertEachIsFlat(conditions, whole, items);
    PutListingsTwice(t.listings, items);
    PutRowsTwice(t.variants, Flat(conditions, items));
  }

  /** What a failed attempt had already written. */
  datatype Progress = Nothing | ListingsOnly | Everything

  /** While a batch waits: a failed attempt at its first n items merges them in place; newer items queue up behind. */
  datatype BufferEvent = FailedAttempt(n: nat, written: Progress) | Arrival(items: seq<ItemValue>)

  datatype Waiting = Waiting(tables: Tables, items: seq<ItemValue>)

  function PartlyWritten(conditions: Conditions, t: Tables, items: seq<ItemValue>, written: Progress): Tables {
    match written
    case Nothing => t
    case ListingsOnly => t.(listings := PutListings(t.listings, items))
    case Everything => UpsertEach(conditions, t, items)
  }

  function AfterEvent(conditions: Conditions, b: Waiting, e: BufferEvent): Waiting {
    match e
    case Arrival(items) => b.(items := b.items + items)
    case FailedAttempt(n, written) =>
      var m := if n <= |b.items| then n else |b.items|;
      Waiting(PartlyWritten(conditions, b.tables, b.items[..m], written), Merged(b.items[..m]) + b.items[m..])
  }

  function AfterEvents(conditions: Conditions, b: Waiting, events: seq<BufferEvent>): Waiting {
    if events == [] then b
    else AfterEvent(conditions, AfterEvents(conditions, b, events[..|events| - 1]), events[|events| - 1])
  }

  function Arrivals(events: seq<BufferEvent>): seq<ItemValue> {
    if events == [] then []
    else Arrivals(events[..|events| - 1]) + if events[|events| - 1].Arrival? then events[|events| - 1].items else []
  }

  /** What a successful upsert of everything that waits would leave. */
  function Outcome(conditions: Conditions, b: Waiting): Tables {
    UpsertEach(conditions, b.tables, b.items)
  }

  lemma FailedAttemptKeepsOutcome(conditions: Conditions, b: Waiting, n: nat, written: Progress)
    ensures Outcome(conditions, AfterEvent(conditions, b, FailedAttempt(n, written))) == Outcome(conditions, b)
  {
    var m := if n <= |b.items| then n else |b.items|;
    var tried, rest := b.items[..m], b.items[m..];
    assert b.items == tried + rest;
    UpsertEachConcat(conditions, b.tables, tried, rest);
    UpsertEachConcat(conditions, PartlyWritten(conditions, b.tables, tried, written), Merged(tried), rest);
    MergingKeepsTheEffect(conditions, tried);
    SameEffectSameTables(conditions, b.tables, Merged(tried), tried);
    RetryAfterPartialWrite(conditions, b.tables, tried);
  }

  lemma ArrivalAddsToOutcome(conditions: Conditions, b: Waiting, items: seq<ItemValue>)
    ensures Outcome(conditions, AfterEvent(conditions, b, Arrival(items))) == UpsertEach(conditions, Outcome(conditions, b), items)
  {
    UpsertEachConcat(conditions, b.tables, b.items, items);
  }

  lemma OneMoreEvent(conditions: Conditions, t: Tables, before: Waiting, all: seq<ItemValue>, e: BufferEvent)
    requires Outcome(conditions, before) == UpsertEach(conditions, t, all)
    ensures Outcome(conditions, AfterEvent(conditions, before, e))
            == if e.Arrival? then UpsertEach(conditions, t, all + e.items) else UpsertEach(conditions, t, all)
  {
    if e.Arrival? {
      ArrivalAddsToOutcome(conditions, before, e.items);
      UpsertEachConcat(conditions, t, all, e.items);
    } else {
      FailedAttemptKeepsOutcome(conditions, before, e.n, e.written);
    }
  }

  lemma ArrivalsGrow(items: seq<ItemValue>, events: seq<BufferEvent>)
    requires events != []
    ensures var init, last := events[..|events| - 1], events[|events| - 1];
            items + Arrivals(events) == if last.Arrival? then items + Arrivals(init) + last.items else items + Arrivals(init)
  {
  }

  /** Whatever prefixes failed, how far they got and what arrived in between: upserting the buffer gives what the items in arrival order give. */
  lemma {:induction false} RetriedBatchesUpsertAlike(conditions: Conditions, t: Tables, items: seq<ItemValue>, events: seq<BufferEvent>)
    ensures Outcome(conditions, AfterEvents(conditions, Waiting(t, items), events))
            == UpsertEach(conditions, t, items + Arrivals(events))
  {
    if events == [] {
      assert items + Arrivals(events) == items;
    } else {
      var init, last := events[..|events| - 1], events[|events| - 1];
      RetriedBatchesUpsertAlike(conditions, t, items, init);
      OneMoreEvent(conditions, t, AfterEvents(conditions, Waiting(t, items), init), items + Arrivals(init), last);
      ArrivalsGrow(items, events);
    }
  }

  // ----- Stale cleanup -----

  predicate IsStale(t: Tables, c: Cleanup, k: VariantKey)
    requires k in t.variants
  {
    && k.listing.productUrlId == c.productUrlId && k.listing in t.listings
    && t.variants[k].platformVariantId.Some? && t.variants[k].platformVariantId.value !in c.inStockVariantIds
  }

  function MarkStale(t: Tables, c: Cleanup): Tables {
    t.(variants := map k | k in t.variants ::
         if IsStale(t, c, k) then t.variants[k].(inStock := false) else t.variants[k])
  }

  function CleanEach(t: Tables, items: seq<ItemValue>): Tables {
    if items == [] then t
    else
      var before := CleanEach(t, items[..|items| - 1]);
      match items[|items| - 1].cleanup
      case Some(c) => MarkStale(before, c)
      case None => before
  }

  function Flushed(conditions: Conditions, t: Tables, items: seq<ItemValue>): Tables {
    CleanEach(UpsertEach(conditions, t, items), items)
  }
}
