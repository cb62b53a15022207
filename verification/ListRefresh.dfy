/**
 * Building a list refresh job: which product backs each listing, the item snapshot, and the
 * targets grouped by store and product.
 */
module ListRefresh {
  import opened Options
  import Text

  datatype Variant = Variant(id: nat, price: real)

  datatype Listing = Listing(
    id: nat, storeId: nat, productUrlId: nat, storefront: bool,
    cardNameId: Option<nat>, cardName: Option<string>, rawTitle: Option<string>, variants: seq<Variant>)

  datatype Product = Product(shopifyProductId: string, storeId: nat, productUrlId: Option<nat>, cardListingId: Option<nat>)

  datatype Item = Item(
    variantId: nat, title: string, cardKey: string, previousPrice: real,
    storeId: Option<nat>, shopifyProductId: Option<string>)

  datatype ProductTarget = ProductTarget(productId: string, listingIds: seq<nat>)

  datatype Target = Target(storeId: nat, products: seq<ProductTarget>)

  // ----- Which product backs a listing -----

  predicate SameUrl(listing: Listing, product: Product) {
    listing.storeId == product.storeId && Some(listing.productUrlId) == product.productUrlId
  }

  /** `listings.find`: the first listing of the product's own store and URL. */
  function FindByUrl(listings: seq<Listing>, product: Product): (r: Option<nat>)
    ensures r.Some? ==> exists i :: 0 <= i < |listings| && SameUrl(listings[i], product) && listings[i].id == r.value
    ensures r.None? ==> forall i :: 0 <= i < |listings| ==> !SameUrl(listings[i], product)
  {
    if listings == [] then None
    else if SameUrl(listings[0], product) then Some(listings[0].id)
    else
      var rest := FindByUrl(listings[1..], product);
      assert forall i :: 0 < i < |listings| ==> listings[i] == listings[1..][i - 1];
      rest
  }

  ghost predicate FirstOfUrl(listings: seq<Listing>, product: Product, i: nat) {
    && i < |listings| && listings[i].storeId == product.storeId && product.productUrlId == Some(listings[i].productUrlId)
    && forall j :: 0 <= j < i ==> listings[j].storeId != product.storeId || product.productUrlId != Some(listings[j].productUrlId)
  }

  /** The row names the listing by its id, or it is the first listing of the row's store and URL. */
  ghost predicate Assigns(product: Product, listings: seq<Listing>, id: nat) {
    (product.cardListingId == Some(id) && id != 0) || exists i: nat :: FirstOfUrl(listings, product, i) && listings[i].id == id
  }

  lemma {:induction false} FindByUrlIsFirst(listings: seq<Listing>, product: Product) returns (i: Option<nat>)
    ensures i.Some? ==> FirstOfUrl(listings, product, i.value) && FindByUrl(listings, product) == Some(listings[i.value].id)
    ensures i.None? ==> FindByUrl(listings, product) == None && forall j: nat :: !FirstOfUrl(listings, product, j)
  {
    if listings == [] {
      i := None;
    } else if SameUrl(listings[0], product) {
      i := Some(0);
    } else {
      var rest := FindByUrlIsFirst(listings[1..], product);
      assert forall j :: 0 < j < |listings| ==> listings[j] == listings[1..][j - 1];
      i := if rest.Some? then Some(rest.value + 1) else None;
    }
  }

  lemma AssignsAsFound(listings: seq<Listing>, product: Product, id: nat)
    ensures Assigns(product, listings, id) <==>
              (product.cardListingId == Some(id) && id != 0) || FindByUrl(listings, product) == Some(id)
  {
    var i := FindByUrlIsFirst(listings, product);
    if j: nat :| FirstOfUrl(listings, product, j) && listings[j].id == id {
      assert i.Some? && (j < i.value || i.value < j || j == i.value);
    }
  }

  /** The last row that names the listing, directly or through its URL, backs it. */
  ghost predicate LastAssignment(rows: seq<Product>, listings: seq<Listing>, id: nat, product: Option<Product>) {
    match product
    case None => forall k :: 0 <= k < |rows| ==> !Assigns(rows[k], listings, id)
    case Some(p) => exists k :: 0 <= k < |rows| && rows[k] == p && Assigns(p, listings, id)
                                && forall j :: k < j < |rows| ==> !Assigns(rows[j], listings, id)
  }

  function Get(m: map<nat, Product>, id: nat): Option<Product> {
    if id in m then Some(m[id]) else None
  }

  method ProductsByListing(rows: seq<Product>, listings: seq<Listing>) returns (productByListing: map<nat, Product>)
    ensures forall id: nat :: LastAssignment(rows, listings, id, Get(productByListing, id))
  {
    productByListing := map[];
    for n := 0 to |rows|
      invariant forall id: nat :: LastAssignment(rows[..n], listings, id, Get(productByListing, id))
    {
      var product := rows[n];
      ghost var before := productByListing;
      if product.cardListingId.Some? && product.cardListingId.value != 0 {
        productByListing := productByListing[product.cardListingId.value := product];
      }
      var listing := FindByUrl(listings, product);
      if listing.Some? {
        productByListing := productByListing[listing.value := product];
      }
      forall id: nat ensures LastAssignment(rows[..n + 1], listings, id, Get(productByListing, id)) {
        AssignsAsFound(listings, product, id);
        assert Get(productByListing, id) == if Assigns(product, listings, id) then Some(product) else Get(before, id);
        AssignmentStep(rows, n, listings, id, Get(before, id));
      }
    }
    assert rows[..|rows|] == rows;
  }

  lemma NewNameIsLast(rows: seq<Product>, n: nat, listings: seq<Listing>, id: nat)
    requires n < |rows| && Assigns(rows[n], listings, id)
    ensures LastAssignment(rows[..n + 1], listings, id, Some(rows[n]))
  {
    assert rows[..n + 1][n] == rows[n];
  }

  lemma OldNameStays(rows: seq<Product>, n: nat, listings: seq<Listing>, id: nat, before: Product)
    requires n < |rows| && LastAssignment(rows[..n], listings, id, Some(before)) && !Assigns(rows[n], listings, id)
    ensures LastAssignment(rows[..n + 1], listings, id, Some(before))
  {
    var init, next := rows[..n], rows[..n + 1];
    var k :| 0 <= k < n && init[k] == before && Assigns(before, listings, id) && forall j :: k < j < n ==> !Assigns(init[j], listings, id);
    assert next[k] == before;
    forall j | k < j < n + 1 ensures !Assigns(next[j], listings, id) {
      assert j < n ==> next[j] == init[j];
    }
  }

  lemma NoNameStays(rows: seq<Product>, n: nat, listings: seq<Listing>, id: nat)
    requires n < |rows| && LastAssignment(rows[..n], listings, id, None) && !Assigns(rows[n], listings, id)
    ensures LastAssignment(rows[..n + 1], listings, id, None)
  {
    var init, next := rows[..n], rows[..n + 1];
    forall j | 0 <= j < n + 1 ensures !Assigns(next[j], listings, id) {
      assert j < n ==> next[j] == init[j];
    }
  }

  lemma AssignmentStep(rows: seq<Product>, n: nat, listings: seq<Listing>, id: nat, before: Option<Product>)
    requires n < |rows| && LastAssignment(rows[..n], listings, id, before)
    ensures LastAssignment(rows[..n + 1], listings, id, if Assigns(rows[n], listings, id) then Some(rows[n]) else before)
  {
    if Assigns(rows[n], listings, id) {
      NewNameIsLast(rows, n, listings, id);
    } else if before.Some? {
      OldNameStays(rows, n, listings, id, before.value);
    } else {
      NoNameStays(rows, n, listings, id);
    }
  }

  // ----- The snapshot -----

  predicate Supported(listing: Listing, products: map<nat, Product>) {
    listing.storefront && listing.id in products
  }

  function Title(listing: Listing): string {
    listing.cardName.GetOr(listing.rawTitle.GetOr("Unknown card"))
  }

  function CardKey(listing: Listing): string {
    if listing.cardNameId.Some? && listing.cardNameId.value != 0 then "card:" + Text.Decimal(listing.cardNameId.value)
    else "name:" + Text.Lower(Title(listing))
  }

  /** Listings of a known card share a key exactly with each other; the rest go by lower-cased title, and the two never meet. */
  lemma CardKeysIdentify(a: Listing, b: Listing)
    ensures var known := (l: Listing) => l.cardNameId.Some? && l.cardNameId.value != 0;
            CardKey(a) == CardKey(b) <==>
              if known(a) && known(b) then a.cardNameId == b.cardNameId
              else !known(a) && !known(b) && Text.Lower(Title(a)) == Text.Lower(Title(b))
  {
    var x, y := CardKey(a), CardKey(b);
    if x == y {
      assert x[0] == y[0] && x[5..] == y[5..];
      if x[0] == 'c' {
        assert x[5..] == Text.Decimal(a.cardNameId.value) && y[5..] == Text.Decimal(b.cardNameId.value);
        Text.DecimalInjective(a.cardNameId.value, b.cardNameId.value);
      } else {
        assert x[5..] == Text.Lower(Title(a)) && y[5..] == Text.Lower(Title(b));
      }
    }
  }

  function ItemOf(listing: Listing, variant: Variant, products: map<nat, Product>): Item {
    var ok := Supported(listing, products);
    Item(variant.id, Title(listing), CardKey(listing), variant.price,
         if ok then Some(listing.storeId) else None, if ok then Some(products[listing.id].shopifyProductId) else None)
  }

  function ItemsOf(listing: Listing, products: map<nat, Product>): seq<Item> {
    seq(|listing.variants|, k requires 0 <= k < |listing.variants| => ItemOf(listing, listing.variants[k], products))
  }

  function Snapshot(listings: seq<Listing>, products: map<nat, Product>): seq<Item> {
    if listings == [] then []
    else Snapshot(listings[..|listings| - 1], products) + ItemsOf(listings[|listings| - 1], products)
  }

  lemma {:induction false} SnapshotMembers(listings: seq<Listing>, products: map<nat, Product>, item: Item)
    requires item in Snapshot(listings, products)
    ensures exists i, k :: 0 <= i < |listings| && 0 <= k < |listings[i].variants|
                           && item == ItemOf(listings[i], listings[i].variants[k], products)
  {
    var n := |listings| - 1;
    if item in ItemsOf(listings[n], products) {
      var k :| 0 <= k < |listings[n].variants| && item == ItemsOf(listings[n], products)[k];
    } else {
      SnapshotMembers(listings[..n], products, item);
      var i, k :| 0 <= i < n && 0 <= k < |listings[..n][i].variants|
                  && item == ItemOf(listings[..n][i], listings[..n][i].variants[k], products);
      assert listings[..n][i] == listings[i];
    }
  }

  /** Primary keys: no variant belongs to two rows. */
  ghost predicate VariantsDistinct(listings: seq<Listing>) {
    forall i, k, j, l :: 0 <= i < |listings| && 0 <= k < |listings[i].variants|
                         && 0 <= j < |listings| && 0 <= l < |listings[j].variants| && (i != j || k != l) ==>
                           listings[i].variants[k].id != listings[j].variants[l].id
  }

  ghost predicate DistinctIds(items: seq<Item>) {
    forall i, j :: 0 <= i < j < |items| ==> items[i].variantId != items[j].variantId
  }

  lemma {:induction false} SnapshotIdsDistinct(listings: seq<Listing>, products: map<nat, Product>)
    requires VariantsDistinct(listings)
    ensures DistinctIds(Snapshot(listings, products))
  {
    if listings != [] {
      var n := |listings| - 1;
      var init, last := Snapshot(listings[..n], products), ItemsOf(listings[n], products);
      assert forall i :: 0 <= i < n ==> listings[..n][i] == listings[i];
      SnapshotIdsDistinct(listings[..n], products);
      forall a, b | 0 <= a < |init| && 0 <= b < |last| ensures init[a].variantId != last[b].variantId {
        SnapshotMembers(listings[..n], products, init[a]);
        var i, k :| 0 <= i < n && 0 <= k < |listings[..n][i].variants|
                    && init[a] == ItemOf(listings[..n][i], listings[..n][i].variants[k], products);
        assert listings[i].variants[k].id != listings[n].variants[b].id;
      }
    }
  }

  // ----- What the snapshot holds -----

  /** Where the items of listing i start: after every variant of the listings before it. */
  function FirstItem(listings: seq<Listing>, i: nat): nat
    requires i <= |listings|
  {
    if i == 0 then 0 else FirstItem(listings, i - 1) + |listings[i - 1].variants|
  }

  /** The title the item is listed under: the card's name, else the raw title. */
  function TitleOf(listing: Listing): string {
    if listing.cardName.Some? then listing.cardName.value
    else if listing.rawTitle.Some? then listing.rawTitle.value else "Unknown card"
  }

  /** One variant's item; its store and product are known exactly if the listing is a storefront's and backed by a product. */
  ghost predicate ItemShows(item: Item, listing: Listing, variant: Variant, products: map<nat, Product>) {
    && item.variantId == variant.id && item.previousPrice == variant.price
    && item.title == TitleOf(listing)
    && item.cardKey == (if listing.cardNameId.Some? && listing.cardNameId.value != 0 then "card:" + Text.Decimal(listing.cardNameId.value)
                        else "name:" + Text.Lower(TitleOf(listing)))
    && (if listing.storefront && listing.id in products
        then item.storeId == Some(listing.storeId) && item.shopifyProductId == Some(products[listing.id].shopifyProductId)
        else item.storeId == None && item.shopifyProductId == None)
  }

  /** Item k of these variants, where the listing's items start at `first`. */
  ghost predicate ItemAt(items: seq<Item>, listing: Listing, products: map<nat, Product>, first: nat, k: nat) {
    k < |listing.variants| && first + k < |items| && ItemShows(items[first + k], listing, listing.variants[k], products)
  }

  /** One item for every variant of every listing, in that order, and no other. */
  ghost predicate Shows(items: seq<Item>, listings: seq<Listing>, products: map<nat, Product>) {
    && |items| == FirstItem(listings, |listings|)
    && forall i, k :: 0 <= i < |listings| && 0 <= k < |listings[i].variants| ==>
         ItemAt(items, listings[i], products, FirstItem(listings, i), k)
  }

  lemma {:induction false} FirstItemOfPrefix(listings: seq<Listing>, n: nat, i: nat)
    requires i <= n <= |listings|
    ensures FirstItem(listings[..n], i) == FirstItem(listings, i)
  {
    if i > 0 {
      FirstItemOfPrefix(listings, n, i - 1);
    }
  }

  lemma ItemStays(before: seq<Item>, last: Listing, listing: Listing, products: map<nat, Product>, first: nat, k: nat)
    ensures ItemAt(before, listing, products, first, k) ==> ItemAt(before + ItemsOf(last, products), listing, products, first, k)
    ensures k < |last.variants| ==> ItemAt(before + ItemsOf(last, products), last, products, |before|, k)
  {
  }

  lemma {:induction false} SnapshotLength(listings: seq<Listing>, products: map<nat, Product>)
    ensures |Snapshot(listings, products)| == FirstItem(listings, |listings|)
  {
    if listings != [] {
      SnapshotLength(listings[..|listings| - 1], products);
      FirstItemOfPrefix(listings, |listings| - 1, |listings| - 1);
    }
  }

  lemma {:induction false} SnapshotAt(listings: seq<Listing>, products: map<nat, Product>, i: nat, k: nat)
    requires i < |listings| && k < |listings[i].variants|
    ensures ItemAt(Snapshot(listings, products), listings[i], products, FirstItem(listings, i), k)
  {
    var n := |listings| - 1;
    ItemStays(Snapshot(listings[..n], products), listings[n], listings[i], products, FirstItem(listings, i), k);
    FirstItemOfPrefix(listings, n, i);
    if i < n {
      SnapshotAt(listings[..n], products, i, k);
    } else {
      SnapshotLength(listings[..n], products);
    }
  }

  lemma SnapshotExactly(listings: seq<Listing>, products: map<nat, Product>)
    ensures Shows(Snapshot(listings, products), listings, products)
  {
    SnapshotLength(listings, products);
    forall i, k | 0 <= i < |listings| && 0 <= k < |listings[i].variants|
      ensures ItemAt(Snapshot(listings, products), listings[i], products, FirstItem(listings, i), k)
    {
      SnapshotAt(listings, products, i, k);
    }
  }

  // ----- Grouping -----

  /** Entries a product list holds: listing `id` backed by `product`. */
  ghost predicate InProducts(products: seq<ProductTarget>, product: string, id: nat) {
    exists p :: 0 <= p < |products| && products[p].productId == product && id in products[p].listingIds
  }

  ghost predicate InTargets(targets: seq<Target>, store: nat, product: string, id: nat) {
    exists t :: 0 <= t < |targets| && targets[t].storeId == store && InProducts(targets[t].products, product, id)
  }

  ghost predicate ProductsClean(products: seq<ProductTarget>) {
    && (forall p, q :: 0 <= p < q < |products| ==> products[p].productId != products[q].productId)
    && (forall p :: 0 <= p < |products| ==> products[p].listingIds != [] && Text.Distinct(products[p].listingIds))
  }

  /** Stores and, per store, products occur once; nothing is empty. */
  ghost predicate Clean(targets: seq<Target>) {
    && (forall t, u :: 0 <= t < u < |targets| ==> targets[t].storeId != targets[u].storeId)
    && (forall t :: 0 <= t < |targets| ==> targets[t].products != [] && ProductsClean(targets[t].products))
  }

  /** A supported listing of this store, backed by this product. */
  ghost predicate Backs(listings: seq<Listing>, products: map<nat, Product>, store: nat, product: string, id: nat) {
    exists i :: 0 <= i < |listings| && listings[i].storefront && listings[i].id == id && id in products
                && listings[i].storeId == store && products[id].shopifyProductId == product
  }

  /** The targets hold the supported listings, each under its store and product, and nothing else. */
  ghost predicate GroupsExactly(targets: seq<Target>, listings: seq<Listing>, products: map<nat, Product>) {
    Clean(targets) &&
    forall store, product, id :: InTargets(targets, store, product, id) <==> Backs(listings, products, store, product, id)
  }

  /** `products.get`, creating the set when missing, then `listingIds.add`. */
  method AddProduct(products: seq<ProductTarget>, product: string, id: nat) returns (r: seq<ProductTarget>)
    requires ProductsClean(products)
    ensures ProductsClean(r) && r != []
    ensures forall q, d :: InProducts(r, q, d) <==> InProducts(products, q, d) || (q == product && d == id)
  {
    var p := 0;
    while p < |products| && products[p].productId != product
      invariant p <= |products| && forall q :: 0 <= q < p ==> products[q].productId != product
    {
      p := p + 1;
    }
    if p == |products| {
      r := products + [ProductTarget(product, [id])];
      assert r[p].productId == product && id in r[p].listingIds;
      assert forall q :: 0 <= q < p ==> r[q] == products[q];
    } else if id in products[p].listingIds {
      r := products;
    } else {
      var entry := ProductTarget(product, products[p].listingIds + [id]);
      r := products[p := entry];
      assert forall d :: d in entry.listingIds <==> d in products[p].listingIds || d == id;
      assert r[p] == entry;
      assert forall q :: 0 <= q < |products| && q != p ==> r[q] == products[q];
    }
  }

  method AddTarget(targets: seq<Target>, store: nat, product: string, id: nat) returns (r: seq<Target>)
    requires Clean(targets)
    ensures Clean(r)
    ensures forall s, q, d :: InTargets(r, s, q, d) <==> InTargets(targets, s, q, d) || (s == store && q == product && d == id)
  {
    var t := 0;
    while t < |targets| && targets[t].storeId != store
      invariant t <= |targets| && forall u :: 0 <= u < t ==> targets[u].storeId != store
    {
      t := t + 1;
    }
    var products := AddProduct(if t < |targets| then targets[t].products else [], product, id);
    if t == |targets| {
      r := targets + [Target(store, products)];
    } else {
      r := targets[t := Target(store, products)];
    }
    assert r[t] == Target(store, products);
    assert forall u :: 0 <= u < |targets| && u != t ==> r[u] == targets[u];
  }

  method Group(listings: seq<Listing>, products: map<nat, Product>) returns (targets: seq<Target>)
    ensures GroupsExactly(targets, listings, products)
  {
    targets := [];
    for n := 0 to |listings|
      invariant GroupsExactly(targets, listings[..n], products)
    {
      var listing := listings[n];
      ghost var before := targets;
      if Supported(listing, products) {
        targets := AddTarget(targets, listing.storeId, products[listing.id].shopifyProductId, listing.id);
      }
      BacksStep(listings, n, products);
    }
    assert listings[..|listings|] == listings;
  }

  lemma BacksStep(listings: seq<Listing>, n: nat, products: map<nat, Product>)
    requires n < |listings|
    ensures forall s, q, d :: Backs(listings[..n + 1], products, s, q, d) <==>
              Backs(listings[..n], products, s, q, d)
              || (var l := listings[n];
                  Supported(l, products) && s == l.storeId && q == products[l.id].shopifyProductId && d == l.id)
  {
    var a, b, l := listings[..n], listings[..n + 1], listings[n];
    assert b[n] == l;
    assert forall i :: 0 <= i < n ==> a[i] == b[i];
    forall s, q, d | Backs(b, products, s, q, d)
      ensures Backs(a, products, s, q, d)
              || (Supported(l, products) && s == l.storeId && q == products[l.id].shopifyProductId && d == l.id)
    {
      var i :| 0 <= i < |b| && b[i].storefront && b[i].id == d && d in products
               && b[i].storeId == s && products[d].shopifyProductId == q;
      if i < n {
        assert a[i] == b[i];
      }
    }
    forall s, q, d
      | Backs(a, products, s, q, d) || (Supported(l, products) && s == l.storeId && q == products[l.id].shopifyProductId && d == l.id)
      ensures Backs(b, products, s, q, d)
    {
      if Backs(a, products, s, q, d) {
        var i :| 0 <= i < |a| && a[i].storefront && a[i].id == d && d in products
                 && a[i].storeId == s && products[d].shopifyProductId == q;
        assert b[i] == a[i];
      } else {
        assert b[n].id == d;
      }
    }
  }

  // ----- Totals -----

  function Total(targets: seq<Target>): nat {
    if targets == [] then 0 else Total(targets[..|targets| - 1]) + |targets[|targets| - 1].products|
  }

  ghost predicate HasPair(targets: seq<Target>, pair: (nat, string)) {
    exists t, p :: 0 <= t < |targets| && 0 <= p < |targets[t].products|
                   && targets[t].storeId == pair.0 && targets[t].products[p].productId == pair.1
  }

  function PairsOf(store: nat, products: seq<ProductTarget>): set<(nat, string)> {
    set p | 0 <= p < |products| :: (store, products[p].productId)
  }

  function Pairs(targets: seq<Target>): set<(nat, string)> {
    if targets == [] then {}
    else Pairs(targets[..|targets| - 1]) + PairsOf(targets[|targets| - 1].storeId, targets[|targets| - 1].products)
  }

  lemma {:induction false} PairsOfSize(store: nat, products: seq<ProductTarget>)
    requires forall p, q :: 0 <= p < q < |products| ==> products[p].productId != products[q].productId
    ensures |PairsOf(store, products)| == |products|
  {
    if products == [] {
      assert PairsOf(store, products) == {};
    } else {
      var n := |products| - 1;
      PairsOfSize(store, products[..n]);
      assert forall p :: 0 <= p < n ==> products[..n][p] == products[p];
      assert PairsOf(store, products) == PairsOf(store, products[..n]) + {(store, products[n].productId)};
    }
  }

  lemma {:induction false} PairsMembers(targets: seq<Target>, pair: (nat, string))
    ensures pair in Pairs(targets) <==> HasPair(targets, pair)
  {
    if targets != [] {
      var n := |targets| - 1;
      PairsMembers(targets[..n], pair);
      assert forall t :: 0 <= t < n ==> targets[..n][t] == targets[t];
    }
  }

  /** The progress denominator counts each store's distinct products once. */
  lemma {:induction false} TotalCountsPairs(targets: seq<Target>)
    requires Clean(targets)
    ensures Total(targets) == |Pairs(targets)|
  {
    if targets != [] {
      var n := |targets| - 1;
      var last := targets[n];
      assert forall t :: 0 <= t < n ==> targets[..n][t] == targets[t];
      TotalCountsPairs(targets[..n]);
      PairsOfSize(last.storeId, last.products);
      forall pair | pair in Pairs(targets[..n]) ensures pair !in PairsOf(last.storeId, last.products) {
        PairsMembers(targets[..n], pair);
      }
    }
  }

  /** Every supported item's store and product are a target, and every target backs a listing asked for. */
  lemma TargetsCoverSnapshot(targets: seq<Target>, listings: seq<Listing>, products: map<nat, Product>, item: Item)
    requires GroupsExactly(targets, listings, products) && item in Snapshot(listings, products)
    ensures item.storeId.Some? <==> item.shopifyProductId.Some?
    ensures item.storeId.Some? ==> HasPair(targets, (item.storeId.value, item.shopifyProductId.value))
  {
    SnapshotMembers(listings, products, item);
    var i, k :| 0 <= i < |listings| && 0 <= k < |listings[i].variants|
                && item == ItemOf(listings[i], listings[i].variants[k], products);
    if item.storeId.Some? {
      var l := listings[i];
      assert Backs(listings, products, l.storeId, products[l.id].shopifyProductId, l.id);
      assert InTargets(targets, l.storeId, products[l.id].shopifyProductId, l.id);
    }
  }

  /** The job a request enqueues. */
  datatype Job = Job(snapshot: seq<Item>, targets: seq<Target>, totalProducts: nat)

  method Request(listings: seq<Listing>, rows: seq<Product>) returns (job: Job, ghost products: map<nat, Product>)
    ensures forall id: nat :: LastAssignment(rows, listings, id, Get(products, id))
    ensures job.snapshot == Snapshot(listings, products) && Shows(job.snapshot, listings, products)
    ensures GroupsExactly(job.targets, listings, products)
    ensures job.totalProducts == |Pairs(job.targets)|
  {
    var productByListing := ProductsByListing(rows, listings);
    products := productByListing;
    var targets := Group(listings, productByListing);
    var total := 0;
    for n := 0 to |targets|
      invariant total == Total(targets[..n])
    {
      assert targets[..n + 1][..n] == targets[..n];
      total := total + |targets[n].products|;
    }
    assert targets[..|targets|] == targets;
    TotalCountsPairs(targets);
    SnapshotExactly(listings, productByListing);
    job := Job(Snapshot(listings, productByListing), targets, total);
  }
}
