/**
 * `upsertBatch` as the service runs it: duplicates merged into item objects in place,
 * parallel column arrays overwritten at remembered offsets, two bulk statements. It leaves
 * the tables exactly as upserting the items one at a time would.
 */
module ListingUpsert {
  import opened Options
  import opened ListingTables
  import opened WrittenRows

  /** A buffered item, shared between the accumulator's batch and the service. */
  class Item {
    var listing: ListingRow
    var variants: seq<VariantRow>
    const cleanup: Option<Cleanup>

    constructor (listing: ListingRow, variants: seq<VariantRow>, cleanup: Option<Cleanup>)
      ensures Value() == ItemValue(listing, variants, cleanup)
    {
      this.listing, this.variants, this.cleanup := listing, variants, cleanup;
    }

    ghost function Value(): ItemValue
      reads this
    {
      ItemValue(listing, variants, cleanup)
    }
  }

  /** The item objects currently hold these values. */
  ghost predicate Hold(items: seq<Item>, vs: seq<ItemValue>)
    reads items
  {
    |items| == |vs| && forall i :: 0 <= i < |items| ==> items[i].Value() == vs[i]
  }

  ghost predicate DistinctItems(items: seq<Item>) {
    forall i, j :: 0 <= i < j < |items| ==> items[i] != items[j]
  }

  // ----- First occurrences -----

  /** Positions below n whose listing key did not occur before. */
  function Firsts(vs: seq<ItemValue>, n: nat): seq<nat>
    requires n <= |vs|
  {
    if n == 0 then []
    else Firsts(vs, n - 1) + (if IsFirst(vs, n - 1) then [n - 1] else [])
  }

  /** The batch after its first n items went through the merge. */
  function MergedUpTo(vs: seq<ItemValue>, n: nat): seq<ItemValue>
    requires n <= |vs|
  {
    MergedPrefix(vs, n, |vs|)
  }

  function MergedPrefix(vs: seq<ItemValue>, n: nat, m: nat): (r: seq<ItemValue>)
    requires n <= |vs| && m <= |vs|
    ensures |r| == m
  {
    if m == 0 then [] else MergedPrefix(vs, n, m - 1) + [MergedAt(vs, n, m - 1)]
  }

  lemma {:induction false} MergedPrefixAt(vs: seq<ItemValue>, n: nat, m: nat)
    requires n <= |vs| && m <= |vs|
    ensures forall i :: 0 <= i < m ==> MergedPrefix(vs, n, m)[i] == MergedAt(vs, n, i)
  {
    if m > 0 { MergedPrefixAt(vs, n, m - 1); }
  }

  /** `seen` maps each listing key met so far to its position in the deduplicated list. */
  ghost predicate SeenIs(seen: map<Key, nat>, firsts: seq<nat>, vs: seq<ItemValue>, n: nat)
    requires n <= |vs|
  {
    && (forall k :: k in seen ==> seen[k] < |firsts| && firsts[seen[k]] < n
                                  && vs[firsts[seen[k]]].listing.key == k && IsFirst(vs, firsts[seen[k]]))
    && (forall i :: 0 <= i < n ==> vs[i].listing.key in seen)
  }

  lemma SeenOldKey(seen: map<Key, nat>, firsts: seq<nat>, vs: seq<ItemValue>, n: nat)
    requires n < |vs| && SeenIs(seen, firsts, vs, n) && vs[n].listing.key in seen
    ensures !IsFirst(vs, n) && SeenIs(seen, firsts, vs, n + 1)
  {
    assert vs[firsts[seen[vs[n].listing.key]]].listing.key == vs[n].listing.key;
  }

  lemma SeenNewKey(seen: map<Key, nat>, firsts: seq<nat>, vs: seq<ItemValue>, n: nat)
    requires n < |vs| && SeenIs(seen, firsts, vs, n) && vs[n].listing.key !in seen
    ensures IsFirst(vs, n) && SeenIs(seen[vs[n].listing.key := |firsts|], firsts + [n], vs, n + 1)
  {
  }

  lemma MergedAtStep(vs: seq<ItemValue>, n: nat, i: nat)
    requires n < |vs| && i < |vs|
    ensures MergedAt(vs, n + 1, i) ==
            if i < n && IsFirst(vs, i) && vs[i].listing.key == vs[n].listing.key
            then MergedAt(vs, n, i).(listing := vs[n].listing, variants := MergedAt(vs, n, i).variants + vs[n].variants)
            else MergedAt(vs, n, i)
  {
    var k := vs[i].listing.key;
    assert vs[..n + 1][..n] == vs[..n];
    if i == n && IsFirst(vs, n) {
      NoneBefore(vs, n, k);
    }
  }

  /** Merging item n touches the first item of its listing and nothing else. */
  lemma MergeInto(vs: seq<ItemValue>, n: nat, f: nat)
    requires f < n < |vs| && IsFirst(vs, f) && vs[f].listing.key == vs[n].listing.key
    ensures var now := MergedUpTo(vs, n);
            now[n] == vs[n] && MergedUpTo(vs, n + 1)
            == now[f := now[f].(listing := vs[n].listing, variants := now[f].variants + vs[n].variants)]
  {
    MergedPrefixAt(vs, n, |vs|);
    MergedPrefixAt(vs, n + 1, |vs|);
    var now := MergedUpTo(vs, n);
    forall i | 0 <= i < |vs|
      ensures MergedAt(vs, n + 1, i)
              == if i == f then now[f].(listing := vs[n].listing, variants := now[f].variants + vs[n].variants) else now[i]
    {
      MergedAtStep(vs, n, i);
    }
  }

  lemma MergeNothing(vs: seq<ItemValue>, n: nat)
    requires n < |vs| && IsFirst(vs, n)
    ensures MergedUpTo(vs, n + 1) == MergedUpTo(vs, n)
  {
    MergedPrefixAt(vs, n, |vs|);
    MergedPrefixAt(vs, n + 1, |vs|);
    forall i | 0 <= i < |vs| ensures MergedAt(vs, n + 1, i) == MergedAt(vs, n, i) {
      MergedAtStep(vs, n, i);
    }
  }

  lemma MergeStarts(vs: seq<ItemValue>)
    ensures MergedUpTo(vs, 0) == vs && Firsts(vs, 0) == [] && SeenIs(map[], [], vs, 0)
  {
    MergedPrefixAt(vs, 0, |vs|);
  }

  lemma MergeEnds(vs: seq<ItemValue>)
    ensures MergedUpTo(vs, |vs|) == Merged(vs)
  {
    MergedPrefixAt(vs, |vs|, |vs|);
  }

  /** Appends a later duplicate's variants to the first item and takes over its listing data. */
  method MergeItem(items: seq<Item>, f: nat, n: nat, ghost vs: seq<ItemValue>)
    requires DistinctItems(items) && f < n < |items| && Hold(items, vs)
    modifies items[f]
    ensures Hold(items, vs[f := vs[f].(listing := vs[n].listing, variants := vs[f].variants + vs[n].variants)])
  {
    items[f].variants := items[f].variants + items[n].variants;
    items[f].listing := items[n].listing;
    forall i | 0 <= i < |items| && i != f ensures items[i].Value() == vs[i] {
      assert items[i] != items[f];
    }
  }

  /** What the deduplication loop knows after n items, the items then holding `now`. */
  ghost predicate Deduping(now: seq<ItemValue>, vs: seq<ItemValue>, n: nat, seen: map<Key, nat>, deduped: seq<nat>)
    requires n <= |vs|
  {
    now == MergedUpTo(vs, n) && deduped == Firsts(vs, n) && SeenIs(seen, deduped, vs, n)
  }

  /** One turn of the deduplication loop. */
  method DedupeOne(items: seq<Item>, n: nat, seen: map<Key, nat>, deduped: seq<nat>, ghost now: seq<ItemValue>, ghost vs: seq<ItemValue>)
    returns (seen': map<Key, nat>, deduped': seq<nat>, ghost now': seq<ItemValue>)
    requires DistinctItems(items) && n < |items| == |vs|
    requires Hold(items, now) && Deduping(now, vs, n, seen, deduped)
    modifies items
    ensures Hold(items, now') && Deduping(now', vs, n + 1, seen', deduped')
  {
    seen', deduped', now' := seen, deduped, MergedUpTo(vs, n + 1);
    MergedPrefixAt(vs, n, |vs|);
    assert items[n].Value() == now[n] == vs[n];
    var key := items[n].listing.key;
    if key in seen {
      SeenOldKey(seen, deduped, vs, n);
      var f := deduped[seen[key]];
      MergeInto(vs, n, f);
      MergeItem(items, f, n, now);
    } else {
      SeenNewKey(seen, deduped, vs, n);
      MergeNothing(vs, n);
      seen' := seen[key := |deduped|];
      deduped' := deduped + [n];
    }
  }

  /** The deduplication loop; `deduped` holds the positions of the items that stay. */
  method DedupeAll(items: seq<Item>, ghost vs: seq<ItemValue>) returns (seen: map<Key, nat>, deduped: seq<nat>, ghost now: seq<ItemValue>)
    requires DistinctItems(items) && Hold(items, vs) && Deduping(vs, vs, 0, map[], [])
    modifies items
    ensures Hold(items, now) && Deduping(now, vs, |vs|, seen, deduped)
  {
    seen, deduped, now := map[], [], vs;
    for n := 0 to |items|
      invariant |items| == |vs|
      invariant Hold(items, now)
      invariant Deduping(now, vs, n, seen, deduped)
    {
      seen, deduped, now := DedupeOne(items, n, seen, deduped, now, vs);
    }
  }

  method Dedupe(items: seq<Item>, ghost vs: seq<ItemValue>) returns (deduped: seq<nat>)
    requires DistinctItems(items) && Hold(items, vs)
    modifies items
    ensures Hold(items, Merged(vs))
    ensures deduped == Firsts(vs, |vs|)
  {
    var seen;
    ghost var now;
    MergeStarts(vs);
    MergeEnds(vs);
    seen, deduped, now := DedupeAll(items, vs);
  }

  // ----- The deduplicated items carry the whole batch -----

  /** The surviving items below position m, fully merged. */
  function Survivors(vs: seq<ItemValue>, m: nat): seq<ItemValue>
    requires m <= |vs|
  {
    if m == 0 then []
    else Survivors(vs, m - 1) + (if IsFirst(vs, m - 1) then [Merged(vs)[m - 1]] else [])
  }

  predicate Occurs(vs: seq<ItemValue>, m: nat, k: Key)
    requires m <= |vs|
  {
    m > 0 && (vs[m - 1].listing.key == k || Occurs(vs, m - 1, k))
  }

  lemma {:induction false} OccursMeans(vs: seq<ItemValue>, m: nat, k: Key)
    requires m <= |vs|
    ensures Occurs(vs, m, k) <==> exists i :: 0 <= i < m && vs[i].listing.key == k
  {
    if m > 0 {
      OccursMeans(vs, m - 1, k);
    }
  }

  lemma FirstMerged(vs: seq<ItemValue>, i: nat)
    requires i < |vs| && IsFirst(vs, i)
    ensures Merged(vs)[i].listing.key == vs[i].listing.key
    ensures Some(Merged(vs)[i].listing) == LastListing(vs, vs[i].listing.key)
    ensures Merged(vs)[i].variants == AllVariants(vs, vs[i].listing.key)
  {
    assert vs[..|vs|] == vs;
    LastListingHasItsKey(vs, vs[i].listing.key);
    assert Merged(vs)[i] == MergedAt(vs, |vs|, i);
  }

  lemma SurvivorStep(vs: seq<ItemValue>, m: nat, k: Key)
    requires m < |vs|
    ensures var before, after := Survivors(vs, m), Survivors(vs, m + 1);
            if IsFirst(vs, m) && vs[m].listing.key == k
            then LastListing(after, k) == LastListing(vs, k) && AllVariants(after, k) == AllVariants(before, k) + AllVariants(vs, k)
            else LastListing(after, k) == LastListing(before, k) && AllVariants(after, k) == AllVariants(before, k)
  {
    var before, after := Survivors(vs, m), Survivors(vs, m + 1);
    if IsFirst(vs, m) {
      FirstMerged(vs, m);
      assert after[..|after| - 1] == before;
    } else {
      assert after == before;
    }
  }

  /** Per listing, the survivors hold exactly what the whole batch holds. */
  lemma {:induction false} SurvivorsHoldTheBatch(vs: seq<ItemValue>, m: nat, k: Key)
    requires m <= |vs|
    ensures LastListing(Survivors(vs, m), k) == if Occurs(vs, m, k) then LastListing(vs, k) else None
    ensures AllVariants(Survivors(vs, m), k) == if Occurs(vs, m, k) then AllVariants(vs, k) else []
  {
    if m > 0 {
      SurvivorsHoldTheBatch(vs, m - 1, k);
      SurvivorStep(vs, m - 1, k);
      OccursMeans(vs, m - 1, k);
    }
  }

  lemma SurvivorsHaveTheEffect(conditions: Conditions, vs: seq<ItemValue>)
    ensures SameEffect(conditions, Survivors(vs, |vs|), vs)
  {
    forall k
      ensures LastListing(Survivors(vs, |vs|), k) == LastListing(vs, k)
      ensures AllVariants(Survivors(vs, |vs|), k) == AllVariants(vs, k)
    {
      SurvivorsHoldTheBatch(vs, |vs|, k);
      OccursMeans(vs, |vs|, k);
      if !Occurs(vs, |vs|, k) {
        NoListing(vs, k);
        NoneBefore(vs, |vs|, k);
        assert vs[..|vs|] == vs;
      }
    }
  }

  // ----- The parallel column arrays -----

  datatype Columns = Columns(
    listings: seq<Key>, conditionIds: seq<int>, foils: seq<bool>, prices: seq<real>, inStocks: seq<bool>,
    quantities: seq<Option<int>>, platformIds: seq<Option<string>>, skus: seq<Option<string>>)
  {
    predicate Aligned() {
      |listings| == |conditionIds| == |foils| == |prices| == |inStocks| == |quantities| == |platformIds| == |skus|
    }

    /** What `unnest` of the parallel arrays yields. */
    function Rows(): seq<Row>
      requires Aligned()
    {
      seq(|listings|, i requires 0 <= i < |listings| =>
        Row(VariantKey(listings[i], conditionIds[i], foils[i]),
            VariantData(prices[i], inStocks[i], quantities[i], platformIds[i], skus[i])))
    }

    function Push(k: VariantKey, v: VariantRow): (c: Columns)
      requires Aligned()
      ensures c.Aligned() && c.Rows() == Rows() + [Row(k, VariantData(v.price, v.inStock, v.quantity, v.platformVariantId, v.sku))]
    {
      Columns(listings + [k.listing], conditionIds + [k.conditionId], foils + [k.foil], prices + [v.price],
              inStocks + [v.inStock], quantities + [v.quantity], platformIds + [v.platformVariantId], skus + [v.sku])
    }

    /** Overwrites the data columns at an offset; the key columns stay. */
    function Overwrite(offset: nat, v: VariantRow): (c: Columns)
      requires Aligned() && offset < |listings|
      ensures c.Aligned()
      ensures c.Rows() == Rows()[offset := Row(Rows()[offset].key,
                                               VariantData(v.price, v.inStock, v.quantity, v.platformVariantId, v.sku))]
    {
      this.(prices := prices[offset := v.price], inStocks := inStocks[offset := v.inStock],
            quantities := quantities[offset := v.quantity], platformIds := platformIds[offset := v.platformVariantId],
            skus := skus[offset := v.sku])
    }
  }

  const NO_COLUMNS := Columns([], [], [], [], [], [], [], [])

  function Position(rows: seq<Row>, k: VariantKey): (i: nat)
    ensures i <= |rows|
    ensures i < |rows| ==> rows[i].key == k
    ensures forall j :: 0 <= j < i ==> rows[j].key != k
  {
    if rows == [] || rows[0].key == k then 0 else 1 + Position(rows[1..], k)
  }

  function Place(rows: seq<Row>, row: Row): seq<Row> {
    var i := Position(rows, row.key);
    if i < |rows| then rows[i := row] else rows + [row]
  }

  /** One row per key, at its first position, with its last data. */
  function Collapse(rows: seq<Row>): seq<Row> {
    if rows == [] then [] else Place(Collapse(rows[..|rows| - 1]), rows[|rows| - 1])
  }

  ghost predicate DistinctRows(rows: seq<Row>) {
    forall i, j :: 0 <= i < j < |rows| ==> rows[i].key != rows[j].key
  }

  lemma PositionIsUnique(rows: seq<Row>, k: VariantKey, i: nat)
    requires i <= |rows| && (i < |rows| ==> rows[i].key == k)
    requires forall j :: 0 <= j < i ==> rows[j].key != k
    ensures Position(rows, k) == i
  {
  }

  lemma {:induction false} LastRowOfDistinct(rows: seq<Row>, k: VariantKey)
    requires DistinctRows(rows)
    ensures LastRow(rows, k) == if Position(rows, k) < |rows| then Some(rows[Position(rows, k)].data) else None
  {
    if rows != [] {
      var n := |rows| - 1;
      var i := Position(rows[..n], k);
      LastRowOfDistinct(rows[..n], k);
      forall j | 0 <= j < i ensures rows[j].key != k {
        assert rows[..n][j].key != k;
      }
      PositionIsUnique(rows, k, if i < n || rows[n].key == k then i else |rows|);
    }
  }

  lemma {:induction false} CollapseKeepsLastRows(rows: seq<Row>, k: VariantKey)
    ensures DistinctRows(Collapse(rows))
    ensures LastRow(Collapse(rows), k) == LastRow(rows, k)
  {
    if rows != [] {
      var init, last := rows[..|rows| - 1], rows[|rows| - 1];
      CollapseKeepsLastRows(init, k);
      var was, now := Collapse(init), Collapse(rows);
      LastRowOfDistinct(was, k);
      LastRowOfDistinct(now, k);
      var p := Position(was, last.key);
      if k == last.key {
        assert now[p] == last;
      } else {
        PositionIsUnique(now, k, if Position(was, k) < |was| then Position(was, k) else |now|);
      }
    }
  }

  lemma {:induction false} CollapseOwnsItsKeys(rows: seq<Row>, listing: Key)
    requires forall r :: r in rows ==> r.key.listing == listing
    ensures forall r :: r in Collapse(rows) ==> r.key.listing == listing
  {
    if rows != [] {
      assert rows[|rows| - 1] in rows;
      CollapseOwnsItsKeys(rows[..|rows| - 1], listing);
    }
  }

  /** The rows of the variant statement: each surviving item's collapsed rows, one after the other. */
  function BatchRows(conditions: Conditions, items: seq<ItemValue>): seq<Row> {
    if items == [] then []
    else
      var last := items[|items| - 1];
      BatchRows(conditions, items[..|items| - 1]) + Collapse(RowsOf(conditions, last.listing.key, last.variants))
  }

  lemma {:induction false} BatchRowsHaveTheLastRows(conditions: Conditions, items: seq<ItemValue>, k: VariantKey)
    ensures LastRow(BatchRows(conditions, items), k) == LastRow(Flat(conditions, items), k)
  {
    if items != [] {
      var init, last := items[..|items| - 1], items[|items| - 1];
      var rows := RowsOf(conditions, last.listing.key, last.variants);
      BatchRowsHaveTheLastRows(conditions, init, k);
      CollapseKeepsLastRows(rows, k);
      LastRowOfConcat(BatchRows(conditions, init), Collapse(rows), k);
      LastRowOfConcat(Flat(conditions, init), rows, k);
    }
  }

  ghost predicate DistinctListings(items: seq<ItemValue>) {
    forall i, j :: 0 <= i < j < |items| ==> items[i].listing.key != items[j].listing.key
  }

  /** The statement never names a row twice, so PostgreSQL never rejects it for touching a row again. */
  lemma {:induction false} BatchRowsAreDistinct(conditions: Conditions, items: seq<ItemValue>)
    requires DistinctListings(items)
    ensures DistinctRows(BatchRows(conditions, items))
    ensures forall r :: r in BatchRows(conditions, items) ==> exists i :: 0 <= i < |items| && items[i].listing.key == r.key.listing
  {
    if items != [] {
      var init, last := items[..|items| - 1], items[|items| - 1];
      BatchRowsAreDistinct(conditions, init);
      var own := Collapse(RowsOf(conditions, last.listing.key, last.variants));
      CollapseOwnsItsKeys(RowsOf(conditions, last.listing.key, last.variants), last.listing.key);
      if own != [] { CollapseKeepsLastRows(RowsOf(conditions, last.listing.key, last.variants), own[0].key); }
      var before := BatchRows(conditions, init);
      forall r | r in before + own ensures exists i :: 0 <= i < |items| && items[i].listing.key == r.key.listing {
        if r in before {
          var i :| 0 <= i < |init| && init[i].listing.key == r.key.listing;
          assert items[i].listing.key == r.key.listing;
        } else {
          assert items[|items| - 1].listing.key == r.key.listing;
        }
      }
      forall i, j | 0 <= i < |before| && 0 <= j < |own| ensures before[i].key != own[j].key {
        assert before[i] in before && own[j] in own;
      }
    }
  }

  function KeyAt(listing: Key, p: (int, bool)): VariantKey {
    VariantKey(listing, p.0, p.1)
  }

  /** `seenKeys` maps each (condition, foil) of the current listing to its offset in the columns. */
  ghost predicate OffsetsAre(seenKeys: map<(int, bool), nat>, listing: Key, done: nat, own: seq<Row>) {
    forall p :: if p in seenKeys
                then Position(own, KeyAt(listing, p)) < |own| && seenKeys[p] == done + Position(own, KeyAt(listing, p))
                else Position(own, KeyAt(listing, p)) == |own|
  }

  lemma PositionAfterPlace(own: seq<Row>, row: Row, k: VariantKey)
    ensures Position(Place(own, row), k) == if Position(own, k) < |own| then Position(own, k)
                                            else if k == row.key then |own| else |Place(own, row)|
  {
    var now, i, p := Place(own, row), Position(own, k), Position(own, row.key);
    PositionIsUnique(now, k, if i < |own| then i else if k == row.key then |own| else |now|);
  }

  lemma OldKeyKeepsOffsets(seenKeys: map<(int, bool), nat>, listing: Key, done: nat, own: seq<Row>, row: Row, p: (int, bool))
    requires OffsetsAre(seenKeys, listing, done, own) && row.key == KeyAt(listing, p) && p in seenKeys
    ensures Place(own, row) == own[seenKeys[p] - done := row] && own[seenKeys[p] - done].key == row.key
    ensures OffsetsAre(seenKeys, listing, done, Place(own, row))
  {
    forall q: (int, bool) ensures Position(Place(own, row), KeyAt(listing, q)) == Position(own, KeyAt(listing, q)) {
      PositionAfterPlace(own, row, KeyAt(listing, q));
      assert q != p ==> KeyAt(listing, q) != row.key;
    }
  }

  lemma NewKeyKeepsOffsets(seenKeys: map<(int, bool), nat>, listing: Key, done: nat, own: seq<Row>, row: Row, p: (int, bool))
    requires OffsetsAre(seenKeys, listing, done, own) && row.key == KeyAt(listing, p) && p !in seenKeys
    ensures Place(own, row) == own + [row]
    ensures OffsetsAre(seenKeys[p := done + |own|], listing, done, Place(own, row))
  {
    forall q: (int, bool)
      ensures Position(Place(own, row), KeyAt(listing, q))
              == if q == p || q in seenKeys then (if q == p then |own| else Position(own, KeyAt(listing, q))) else |own| + 1
    {
      PositionAfterPlace(own, row, KeyAt(listing, q));
      assert q != p ==> KeyAt(listing, q) != row.key;
    }
  }

  /** One variant pushed or written over its earlier offset. */
  method AppendVariant(conditions: Conditions, listing: Key, v: VariantRow, columns: Columns, seenKeys: map<(int, bool), nat>,
                       ghost done: seq<Row>, ghost own: seq<Row>)
    returns (columns': Columns, seenKeys': map<(int, bool), nat>)
    requires columns.Aligned() && columns.Rows() == done + own && OffsetsAre(seenKeys, listing, |done|, own)
    ensures columns'.Aligned() && columns'.Rows() == done + Place(own, RowOf(conditions, listing, v))
    ensures OffsetsAre(seenKeys', listing, |done|, Place(own, RowOf(conditions, listing, v)))
  {
    var p := (ConditionId(conditions, v.conditionCode), v.foil);
    ghost var row := RowOf(conditions, listing, v);
    if p in seenKeys {
      OldKeyKeepsOffsets(seenKeys, listing, |done|, own, row, p);
      columns', seenKeys' := columns.Overwrite(seenKeys[p], v), seenKeys;
    } else {
      NewKeyKeepsOffsets(seenKeys, listing, |done|, own, row, p);
      seenKeys' := seenKeys[p := |columns.listings|];
      columns' := columns.Push(KeyAt(listing, p), v);
    }
  }

  lemma CollapseStep(rows: seq<Row>, n: nat)
    requires n < |rows|
    ensures Collapse(rows[..n + 1]) == Place(Collapse(rows[..n]), rows[n])
  {
    assert rows[..n + 1][..n] == rows[..n];
  }

  /** The inner variant loop for one listing. */
  method AppendVariants(conditions: Conditions, listing: Key, variants: seq<VariantRow>, start: Columns)
    returns (columns: Columns)
    requires start.Aligned()
    ensures columns.Aligned()
    ensures columns.Rows() == start.Rows() + Collapse(RowsOf(conditions, listing, variants))
  {
    columns := start;
    var seenKeys: map<(int, bool), nat> := map[];
    ghost var rows := RowsOf(conditions, listing, variants);
    for n := 0 to |variants|
      invariant columns.Aligned() && columns.Rows() == start.Rows() + Collapse(rows[..n])
      invariant OffsetsAre(seenKeys, listing, |start.Rows()|, Collapse(rows[..n]))
    {
      CollapseStep(rows, n);
      columns, seenKeys :=
        AppendVariant(conditions, listing, variants[n], columns, seenKeys, start.Rows(), Collapse(rows[..n]));
    }
    assert rows[..|variants|] == rows;
  }

  // ----- The whole batch -----

  lemma {:induction false} SurvivorsAreDistinct(vs: seq<ItemValue>, m: nat)
    requires m <= |vs|
    ensures DistinctListings(Survivors(vs, m))
    ensures forall j :: 0 <= j < |Survivors(vs, m)| ==> Occurs(vs, m, Survivors(vs, m)[j].listing.key)
  {
    if m > 0 {
      SurvivorsAreDistinct(vs, m - 1);
      if IsFirst(vs, m - 1) {
        FirstMerged(vs, m - 1);
        OccursMeans(vs, m - 1, vs[m - 1].listing.key);
      }
    }
  }

  lemma {:induction false} SurvivorsAtFirsts(vs: seq<ItemValue>, m: nat)
    requires m <= |vs|
    ensures |Firsts(vs, m)| == |Survivors(vs, m)|
    ensures forall j :: 0 <= j < |Firsts(vs, m)| ==>
              Firsts(vs, m)[j] < |vs| && Survivors(vs, m)[j] == Merged(vs)[Firsts(vs, m)[j]]
  {
    if m > 0 {
      SurvivorsAtFirsts(vs, m - 1);
    }
  }

  lemma InListingKeys(items: seq<ItemValue>, key: Key)
    ensures key in ListingKeys(items) <==> exists i :: 0 <= i < |items| && items[i].listing.key == key
  {
  }

  lemma OneMoreListing(vs: seq<ItemValue>, n: nat)
    requires n < |vs|
    ensures ListingKeys(vs[..n + 1]) == ListingKeys(vs[..n]) + {vs[n].listing.key}
    ensures IsFirst(vs, n) <==> vs[n].listing.key !in ListingKeys(vs[..n])
  {
    var before, now := vs[..n], vs[..n + 1];
    assert forall i :: 0 <= i < n ==> before[i] == vs[i] && now[i] == vs[i];
    assert now[n] == vs[n];
    forall key ensures key in ListingKeys(now) <==> key in ListingKeys(before) || key == vs[n].listing.key {
      InListingKeys(before, key);
      InListingKeys(now, key);
      if i :| 0 <= i < |before| && before[i].listing.key == key {
        assert now[i].listing.key == key;
      }
    }
    InListingKeys(before, vs[n].listing.key);
    if j :| 0 <= j < n && vs[j].listing.key == vs[n].listing.key {
      assert before[j].listing.key == vs[n].listing.key;
    }
  }

  lemma {:induction false} FirstsCountListings(vs: seq<ItemValue>, n: nat)
    requires n <= |vs|
    ensures |Firsts(vs, n)| == |ListingKeys(vs[..n])|
  {
    if n == 0 {
      assert ListingKeys(vs[..0]) == {};
    } else {
      FirstsCountListings(vs, n - 1);
      OneMoreListing(vs, n - 1);
      var before, key := ListingKeys(vs[..n - 1]), vs[n - 1].listing.key;
      assert ListingKeys(vs[..n]) == before + {key};
      if !IsFirst(vs, n - 1) {
        assert before + {key} == before;
      }
    }
  }

  class ListingUpsertService {
    const conditions: Conditions
    var listings: map<Key, ListingRow>
    var variants: map<VariantKey, VariantData>

    constructor (conditions: Conditions)
      ensures this.conditions == conditions && Now() == Tables(map[], map[])
    {
      this.conditions, listings, variants := conditions, map[], map[];
    }

    ghost function Now(): Tables
      reads this
    {
      Tables(listings, variants)
    }

    /** `INSERT INTO card_listings ... ON CONFLICT (store_id, product_url_id) DO UPDATE` */
    method InsertListings(rows: seq<ListingRow>, ghost items: seq<ItemValue>)
      requires rows == ListingsOf(items)
      modifies this`listings
      ensures listings == PutListings(old(listings), items)
    {
      for n := 0 to |rows|
        invariant listings == PutListings(old(listings), items[..n])
      {
        assert items[..n + 1][..n] == items[..n];
        listings := listings[rows[n].key := rows[n]];
      }
      assert items[..|rows|] == items;
    }

    /** `INSERT INTO card_variants ... ON CONFLICT DO UPDATE`, which may not touch a row twice. */
    method InsertVariants(rows: seq<Row>)
      requires DistinctRows(rows)
      modifies this`variants
      ensures variants == PutRows(old(variants), rows)
    {
      for n := 0 to |rows|
        invariant variants == PutRows(old(variants), rows[..n])
      {
        assert rows[..n + 1][..n] == rows[..n];
        variants := variants[rows[n].key := rows[n].data];
      }
      assert rows[..|rows|] == rows;
    }

    /** Same tables as one item at a time; the batch's items keep the merge. */
    method UpsertBatch(items: seq<Item>, ghost vs: seq<ItemValue>) returns (count: nat)
      requires DistinctItems(items) && Hold(items, vs)
      modifies this`listings, this`variants, items
      ensures Now() == UpsertEach(conditions, old(Now()), vs)
      ensures Upserted(conditions, old(Now()), Now(), vs)
      ensures Hold(items, Merged(vs))
      ensures count == |ListingKeys(vs)|
    {
      var deduped := Dedupe(items, vs);
      var rows, columns := CollectColumns(conditions, items, deduped, vs);
      BatchIsDistinct(conditions, vs);
      InsertListings(rows, Survivors(vs, |vs|));
      InsertVariants(columns.Rows());
      BatchEffect(conditions, old(Now()), vs);
      UpsertExactly(conditions, old(Now()), vs);
      FirstsCountListings(vs, |vs|);
      assert vs[..|vs|] == vs;
      count := |deduped|;
    }

    /** Marks out of stock the rows of a product whose platform id was not reported in stock. */
    method DeleteStaleListings(productUrlId: int, inStockVariantIds: seq<string>)
      modifies this`variants
      ensures Now() == MarkStale(old(Now()), Cleanup(productUrlId, inStockVariantIds))
      ensures variants.Keys == old(variants).Keys
      ensures forall k :: k in variants ==>
        variants[k] == if k.listing.productUrlId == productUrlId && k.listing in listings && old(variants)[k].platformVariantId.Some?
                          && old(variants)[k].platformVariantId.value !in inStockVariantIds
                       then old(variants)[k].(inStock := false) else old(variants)[k]
    {
      if inStockVariantIds == [] {
        variants := map k | k in variants ::
          if k.listing.productUrlId == productUrlId && k.listing in listings && variants[k].platformVariantId.Some?
          then variants[k].(inStock := false) else variants[k];
      } else {
        variants := map k | k in variants ::
          if k.listing.productUrlId == productUrlId && k.listing in listings && variants[k].platformVariantId.Some?
             && variants[k].platformVariantId.value !in inStockVariantIds
          then variants[k].(inStock := false) else variants[k];
      }
    }

    /** A successful flush: the upsert, then every item's own cleanup in order. */
    method Flush(items: seq<Item>, ghost vs: seq<ItemValue>)
      requires DistinctItems(items) && Hold(items, vs)
      modifies this`listings, this`variants, items
      ensures Now() == Flushed(conditions, old(Now()), vs)
      ensures FlushedBetween(conditions, old(Now()), Now(), vs)
      ensures Hold(items, Merged(vs))
    {
      var count := UpsertBatch(items, vs);
      ghost var upserted := Now();
      for n := 0 to |items|
        invariant Now() == CleanEach(upserted, vs[..n])
        invariant Hold(items, Merged(vs))
      {
        assert vs[..n + 1][..n] == vs[..n];
        assert items[n].Value() == Merged(vs)[n] && items[n].cleanup == vs[n].cleanup;
        if items[n].cleanup.Some? {
          DeleteStaleListings(items[n].cleanup.value.productUrlId, items[n].cleanup.value.inStockVariantIds);
        }
      }
      assert vs[..|items|] == vs;
      FlushExactly(conditions, old(Now()), vs);
    }
  }

  lemma BatchIsDistinct(conditions: Conditions, vs: seq<ItemValue>)
    ensures DistinctRows(BatchRows(conditions, Survivors(vs, |vs|)))
  {
    SurvivorsAreDistinct(vs, |vs|);
    BatchRowsAreDistinct(conditions, Survivors(vs, |vs|));
  }

  /** Listing rows of `items` in order. */
  function ListingsOf(items: seq<ItemValue>): seq<ListingRow> {
    seq(|items|, i requires 0 <= i < |items| => items[i].listing)
  }

  lemma SurvivorIsHeld(items: seq<Item>, vs: seq<ItemValue>, n: nat)
    requires Hold(items, Merged(vs)) && n < |Firsts(vs, |vs|)|
    ensures n < |Survivors(vs, |vs|)| && Firsts(vs, |vs|)[n] < |items|
    ensures items[Firsts(vs, |vs|)[n]].Value() == Survivors(vs, |vs|)[n]
  {
    SurvivorsAtFirsts(vs, |vs|);
  }

  lemma NextSurvivor(conditions: Conditions, survivors: seq<ItemValue>, n: nat)
    requires n < |survivors|
    ensures ListingsOf(survivors[..n + 1]) == ListingsOf(survivors[..n]) + [survivors[n].listing]
    ensures BatchRows(conditions, survivors[..n + 1])
            == BatchRows(conditions, survivors[..n])
               + Collapse(RowsOf(conditions, survivors[n].listing.key, survivors[n].variants))
  {
    assert survivors[..n + 1][..n] == survivors[..n];
  }

  /** Fills the listing rows and the variant columns from the surviving items. */
  method CollectColumns(conditions: Conditions, items: seq<Item>, deduped: seq<nat>, ghost vs: seq<ItemValue>)
    returns (rows: seq<ListingRow>, columns: Columns)
    requires Hold(items, Merged(vs)) && deduped == Firsts(vs, |vs|)
    ensures rows == ListingsOf(Survivors(vs, |vs|))
    ensures columns.Aligned() && columns.Rows() == BatchRows(conditions, Survivors(vs, |vs|))
  {
    ghost var survivors := Survivors(vs, |vs|);
    SurvivorsAtFirsts(vs, |vs|);
    rows, columns := [], NO_COLUMNS;
    for n := 0 to |deduped|
      invariant rows == ListingsOf(survivors[..n])
      invariant columns.Aligned() && columns.Rows() == BatchRows(conditions, survivors[..n])
    {
      SurvivorIsHeld(items, vs, n);
      NextSurvivor(conditions, survivors, n);
      var item := items[deduped[n]];
      rows := rows + [item.listing];
      columns := AppendVariants(conditions, item.listing.key, item.variants, columns);
    }
    assert survivors[..|deduped|] == survivors;
  }

  /** The two bulk statements over the survivors amount to upserting every item in turn. */
  lemma BatchEffect(conditions: Conditions, t: Tables, vs: seq<ItemValue>)
    ensures var survivors := Survivors(vs, |vs|);
            Tables(PutListings(t.listings, survivors), PutRows(t.variants, BatchRows(conditions, survivors)))
            == UpsertEach(conditions, t, vs)
  {
    var survivors := Survivors(vs, |vs|);
    forall k ensures LastRow(BatchRows(conditions, survivors), k) == LastRow(Flat(conditions, survivors), k) {
      BatchRowsHaveTheLastRows(conditions, survivors, k);
    }
    SameLastRowsSameTable(t.variants, BatchRows(conditions, survivors), Flat(conditions, survivors));
    UpsertEachIsFlat(conditions, t, survivors);
    SurvivorsHaveTheEffect(conditions, vs);
    SameEffectSameTables(conditions, t, survivors, vs);
  }
}
