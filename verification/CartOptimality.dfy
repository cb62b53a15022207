/**
 * Global optimality of the subset search: what the masks generate is as good as every
 * assignment of offers to wanted cards, exactly as long as there are at most 32 stores.
 */
module CartOptimality {
  import opened Numbers
  import opened Options
  import opened Text
  import opened CartOptimizer

  /** Every card gets none or one of its own prepared offers. */
  ghost predicate IsAssignment(a: Assignment, groups: seq<seq<Selected>>) {
    |a| == |groups| && forall i :: 0 <= i < |a| && a[i].Some? ==> a[i].value in groups[i]
  }

  ghost predicate NonNegativeShipping(settings: Settings, stores: seq<string>) {
    forall s :: s in stores ==> ShippingFor(s, settings) >= 0.0
  }

  /** No assignment misses fewer cards, or as few at a lower cost, than `items`. */
  ghost predicate GloballyBest(items: seq<Selected>, groups: seq<seq<Selected>>, cart: seq<CartItem>, settings: Settings) {
    forall a: Assignment :: IsAssignment(a, groups) ==> NoBetter(Chosen(a), items, cart, settings)
  }

  // ----- Masks and subsets -----

  /** Mask whose bit `i` says whether `stores[i]` is in `chosen`. */
  function Encode(stores: seq<string>, chosen: set<string>): nat {
    if stores == [] then 0
    else (if stores[0] in chosen then 1 else 0) + 2 * Encode(stores[1..], chosen)
  }

  lemma {:induction false} EncodeBound(stores: seq<string>, chosen: set<string>)
    ensures Encode(stores, chosen) < Pow2(|stores|)
  {
    if stores != [] {
      EncodeBound(stores[1..], chosen);
    }
  }

  lemma {:induction false} EncodeBit(stores: seq<string>, chosen: set<string>, i: nat)
    requires i < |stores|
    ensures Bit(Encode(stores, chosen), i) <==> stores[i] in chosen
  {
    var rest := Encode(stores[1..], chosen);
    if i > 0 {
      assert Encode(stores, chosen) / 2 == rest;
      EncodeBit(stores[1..], chosen, i - 1);
    }
  }

  lemma EncodedStoresAreAllowed(stores: seq<string>, chosen: set<string>, i: nat)
    requires |stores| <= 32 && i < |stores|
    ensures MaskHas(Encode(stores, chosen), i) <==> stores[i] in chosen
  {
    EncodeBit(stores, chosen, i);
  }

  /** With at most 32 stores every subset of them is the allowed set of some mask. */
  lemma EverySubsetHasAMask(stores: seq<string>, chosen: set<string>)
    requires |stores| <= 32
    ensures Encode(stores, chosen) < Pow2(|stores|)
    ensures forall s :: s in Allowed(stores, Encode(stores, chosen)) <==> s in stores && s in chosen
  {
    var mask := Encode(stores, chosen);
    EncodeBound(stores, chosen);
    forall s ensures s in Allowed(stores, mask) <==> s in stores && s in chosen {
      if s in Allowed(stores, mask) {
        var i :| 0 <= i < |stores| && MaskHas(mask, i) && stores[i] == s;
        EncodedStoresAreAllowed(stores, chosen, i);
      }
      if s in stores && s in chosen {
        var i :| 0 <= i < |stores| && stores[i] == s;
        EncodedStoresAreAllowed(stores, chosen, i);
      }
    }
  }

  // ----- Shipping totals are sums over sets of stores -----

  function Without<T(==)>(s: seq<T>, x: T): seq<T> {
    if s == [] then []
    else Without(s[..|s| - 1], x) + (if s[|s| - 1] == x then [] else [s[|s| - 1]])
  }

  lemma {:induction false} WithoutIsRemoval(s: seq<string>, x: string)
    requires Distinct(s) && x in s
    ensures Distinct(Without(s, x)) && |Without(s, x)| == |s| - 1
    ensures forall y :: y in Without(s, x) <==> y in s && y != x
  {
    var init, last := s[..|s| - 1], s[|s| - 1];
    assert s == init + [last];
    if last == x {
      NothingToRemove(init, x);
    } else {
      WithoutIsRemoval(init, x);
      assert last !in init;
    }
  }

  lemma {:induction false} RemovalSavesShipping(s: seq<string>, x: string, settings: Settings)
    requires Distinct(s) && x in s
    ensures ShippingTotal(s, settings) == ShippingTotal(Without(s, x), settings) + ShippingFor(x, settings)
  {
    var init, last := s[..|s| - 1], s[|s| - 1];
    assert s == init + [last];
    if last == x {
      NothingToRemove(init, x);
      assert Without(s, x) == init;
    } else {
      RemovalSavesShipping(init, x, settings);
      assert Without(s, x) == Without(init, x) + [last];
      assert Without(s, x)[..|Without(s, x)| - 1] == Without(init, x);
    }
  }

  lemma {:induction false} NothingToRemove<T>(s: seq<T>, x: T)
    requires x !in s
    ensures Without(s, x) == s
  {
    if s != [] {
      NothingToRemove(s[..|s| - 1], x);
      assert s == s[..|s| - 1] + [s[|s| - 1]];
    }
  }

  /** A duplicate-free list of stores costs what a sub-list costs plus the rest. */
  lemma {:induction false} ShippingSplits(whole: seq<string>, part: seq<string>, settings: Settings)
    returns (rest: seq<string>)
    requires Distinct(whole) && Distinct(part)
    requires forall s :: s in part ==> s in whole
    ensures Distinct(rest) && forall s :: s in rest <==> s in whole && s !in part
    ensures rest == [] || (rest[0] in whole && rest[0] !in part)
    ensures ShippingTotal(whole, settings) == ShippingTotal(part, settings) + ShippingTotal(rest, settings)
    decreases |part|
  {
    if part == [] {
      rest := whole;
    } else {
      var init, last := part[..|part| - 1], part[|part| - 1];
      assert part == init + [last];
      WithoutIsRemoval(whole, last);
      RemovalSavesShipping(whole, last, settings);
      rest := ShippingSplits(Without(whole, last), init, settings);
    }
  }

  lemma {:induction false} ShippingNonNegative(stores: seq<string>, settings: Settings)
    requires NonNegativeShipping(settings, stores)
    ensures ShippingTotal(stores, settings) >= 0.0
  {
    if stores != [] {
      ShippingNonNegative(stores[..|stores| - 1], settings);
    }
  }

  lemma FewerStoresShipCheaper(few: seq<string>, many: seq<string>, settings: Settings)
    requires Distinct(few) && Distinct(many) && forall s :: s in few ==> s in many
    requires forall s :: s in many && s !in few ==> ShippingFor(s, settings) >= 0.0
    ensures ShippingTotal(few, settings) <= ShippingTotal(many, settings)
  {
    var rest := ShippingSplits(many, few, settings);
    ShippingNonNegative(rest, settings);
  }

  // ----- The exchange argument -----

  /** `b` covers every card `a` covers, never at a higher effective cost. */
  ghost predicate Dominates(b: Assignment, a: Assignment) {
    |b| == |a| && forall i :: 0 <= i < |a| && a[i].Some? ==>
      b[i].Some? && EffectiveCost(b[i].value) <= EffectiveCost(a[i].value)
  }

  lemma {:induction false} DominatingPicksCoverMore(b: Assignment, a: Assignment)
    requires Dominates(b, a)
    ensures |Chosen(a)| <= |Chosen(b)|
    ensures |Chosen(a)| == |Chosen(b)| ==> EffectiveTotal(Chosen(b)) <= EffectiveTotal(Chosen(a))
  {
    if a != [] {
      var n := |a| - 1;
      DominatingPicksCoverMore(b[..n], a[..n]);
      ChosenStep(a);
      ChosenStep(b);
    }
  }

  lemma {:induction false} ChosenMembers(a: Assignment)
    ensures forall s :: s in Chosen(a) <==> Some(s) in a
  {
    if a != [] {
      ChosenMembers(a[..|a| - 1]);
      assert a == a[..|a| - 1] + [a[|a| - 1]];
    }
  }

  lemma {:induction false} NothingChosen(a: Assignment)
    requires forall i :: 0 <= i < |a| ==> a[i].None?
    ensures Chosen(a) == []
  {
    if a != [] {
      NothingChosen(a[..|a| - 1]);
    }
  }

  function StoresOf(items: seq<Selected>): set<string> {
    set i | 0 <= i < |items| :: items[i].storeKey
  }

  lemma UsedStoresMembers(cart: seq<CartItem>, items: seq<Selected>)
    ensures forall s :: s in UsedStores(cart, items) <==> s in CartStores(cart) || s in StoresOf(items)
    ensures Distinct(UsedStores(cart, items))
  {
    forall s ensures s in OfferStores(items) <==> s in StoresOf(items) {
      if s in OfferStores(items) {
        var i :| 0 <= i < |items| && OfferStores(items)[i] == s;
        assert items[i].storeKey == s;
      }
      if s in StoresOf(items) {
        var i :| 0 <= i < |items| && items[i].storeKey == s;
        assert OfferStores(items)[i] == s;
      }
    }
  }

  /** Choosing the cheapest offers of a set of stores beats every assignment confined to it. */
  lemma ChoicesBeatConfinedAssignments(
      groups: seq<seq<Selected>>, a: Assignment, allowed: set<string>, cart: seq<CartItem>, settings: Settings)
    requires IsAssignment(a, groups)
    requires allowed == StoresOf(Chosen(a))
    requires NonNegativeShipping(settings, OfferStores(Chosen(a)))
    ensures NoBetter(Chosen(a), Chosen(Choices(groups, allowed)), cart, settings)
  {
    var b := Choices(groups, allowed);
    var confined, chosen := Chosen(a), Chosen(b);
    ChosenMembers(a);
    ChosenMembers(b);
    forall i | 0 <= i < |a| && a[i].Some?
      ensures b[i].Some? && EffectiveCost(b[i].value) <= EffectiveCost(a[i].value)
    {
      assert a[i] in a;
      assert a[i].value in confined;
      assert a[i].value.storeKey in allowed;
      assert !Before(a[i].value, b[i].value);
    }
    DominatingPicksCoverMore(b, a);
    UsedStoresMembers(cart, confined);
    UsedStoresMembers(cart, chosen);
    forall s | s in UsedStores(cart, chosen) ensures s in UsedStores(cart, confined) {
      if s !in CartStores(cart) {
        var i :| 0 <= i < |chosen| && chosen[i].storeKey == s;
        assert chosen[i] in chosen;
        var k :| 0 <= k < |b| && b[k] == Some(chosen[i]);
        assert Cheapest(groups[k], allowed) == b[k];
      }
    }
    FewerStoresShipCheaper(UsedStores(cart, chosen), UsedStores(cart, confined), settings);
  }

  lemma AssignmentStoresAreListed(groups: seq<seq<Selected>>, a: Assignment)
    requires IsAssignment(a, groups)
    ensures forall s :: s in StoresOf(Chosen(a)) ==> s in StoreList(groups)
  {
    ChosenMembers(a);
    forall s | s in StoresOf(Chosen(a)) ensures s in StoreList(groups) {
      var i :| 0 <= i < |Chosen(a)| && Chosen(a)[i].storeKey == s;
      assert Chosen(a)[i] in Chosen(a);
      var k :| 0 <= k < |a| && a[k] == Some(Chosen(a)[i]);
      var j :| 0 <= j < |groups[k]| && groups[k][j] == a[k].value;
      assert s in AllStores(groups);
    }
  }

  /** Some mask is at least as good as any given assignment. */
  lemma MasksReachEveryAssignment(
      groups: seq<seq<Selected>>, a: Assignment, cart: seq<CartItem>, settings: Settings)
    returns (mask: nat)
    requires |StoreList(groups)| <= 32 && IsAssignment(a, groups)
    requires NonNegativeShipping(settings, StoreList(groups))
    ensures mask < Pow2(|StoreList(groups)|)
    ensures NoBetter(Chosen(a), Pick(groups, StoreList(groups), mask), cart, settings)
  {
    var stores := StoreList(groups);
    var chosen := StoresOf(Chosen(a));
    AssignmentStoresAreListed(groups, a);
    mask := Encode(stores, chosen);
    EverySubsetHasAMask(stores, chosen);
    assert Allowed(stores, mask) == chosen;
    UsedStoresMembers(cart, Chosen(a));
    ChoicesBeatConfinedAssignments(groups, a, chosen, cart, settings);
  }

  /** The headline: after a complete search the pick is best over all assignments. */
  lemma CompleteSearchIsGloballyBest(
      groups: seq<seq<Selected>>, cart: seq<CartItem>, settings: Settings, items: seq<Selected>)
    requires |StoreList(groups)| <= 32
    requires NonNegativeShipping(settings, StoreList(groups))
    requires FirstBest(groups, StoreList(groups), cart, settings, Pow2(|StoreList(groups)|), items)
    ensures GloballyBest(items, groups, cart, settings)
    ensures exists a :: IsAssignment(a, groups) && items == Chosen(a)
  {
    var stores := StoreList(groups);
    var m: nat :| m < Pow2(|stores|) && items == Pick(groups, stores, m)
                  && BestMask(groups, stores, cart, settings, Pow2(|stores|), m);
    assert IsAssignment(Choices(groups, Allowed(stores, m)), groups);
    forall a: Assignment | IsAssignment(a, groups) ensures NoBetter(Chosen(a), items, cart, settings) {
      var k := MasksReachEveryAssignment(groups, a, cart, settings);
      assert NoBetter(Pick(groups, stores, k), items, cart, settings);
      NoBetterChains(Chosen(a), Pick(groups, stores, k), items, cart, settings);
    }
  }

  // ----- Where the 32-bit shift stops being exact -----

  /** Every complete search over n stores ends on a globally best pick. */
  ghost predicate AlwaysOptimalWith(n: nat) {
    forall wanted: seq<WantedCard>, raw: seq<Candidate>, cart: seq<CartItem>, settings: Settings, items: seq<Selected> ::
      |StoreList(Groups(wanted, raw, settings))| == n ==> SearchIsOptimal(wanted, raw, cart, settings, items)
  }

  /** Some mask wins every non-empty search. */
  lemma {:induction false} SearchHasAWinner(
      groups: seq<seq<Selected>>, stores: seq<string>, cart: seq<CartItem>, settings: Settings, bound: nat)
    returns (m: nat)
    requires bound > 0
    ensures m < bound && BestMask(groups, stores, cart, settings, bound, m)
    ensures FirstBest(groups, stores, cart, settings, bound, Pick(groups, stores, m))
  {
    if bound == 1 {
      m := 0;
      FirstLeads(groups, stores, cart, settings);
    } else {
      m := SearchHasAWinner(groups, stores, cart, settings, bound - 1);
      BestMaskExtends(groups, stores, cart, settings, bound - 1, m);
      m := if NoBetter(Pick(groups, stores, bound - 1), Pick(groups, stores, m), cart, settings) then m else bound - 1;
    }
  }

  const WIDE_SETTINGS := Settings(None, Some(10.0), map[], None, None, None)
  const CARD_A := WantedCard("a", "A", None, None, None)
  const CARD_B := WantedCard("b", "B", None, None, None)

  function Copy(card: string, store: string, price: real): Candidate {
    Candidate(card, Offer(0, Finite(price), NM, store, store), None)
  }

  /** Card A everywhere but cheap only in store 0; card B in stores 0 and 32, whose mask bits coincide. */
  function WideCandidates(stores: seq<string>): seq<Candidate>
    requires |stores| > 32
  {
    seq(|stores|, i requires 0 <= i < |stores| => Copy("a", stores[i], if i == 0 then 1.0 else 100.0))
    + [Copy("b", stores[0], 2.0), Copy("b", stores[32], 1.0)]
  }

  function Plain(card: WantedCard, store: string, price: real): Selected {
    Selected(card.key, card.name, Offer(0, Finite(price), NM, store, store), store, price, DMG, NM, 0, 0.0, 0.0, 0.0)
  }

  /** Without flexibility or value policy a group is just its prepared offers. */
  lemma GroupMembers(card: WantedCard, raw: seq<Candidate>)
    ensures forall s :: s in Group(card, raw, WIDE_SETTINGS) <==>
              exists i :: 0 <= i < |raw| && PrepareOne(card, raw[i], WIDE_SETTINGS) == Some(s)
  {
    assert Group(card, raw, WIDE_SETTINGS) == Prepared(card, raw, WIDE_SETTINGS);
  }

  lemma PreparedCopies(stores: seq<string>, i: nat)
    requires |stores| > 32 && "" !in stores && i < |stores| + 2
    ensures PrepareOne(CARD_A, WideCandidates(stores)[i], WIDE_SETTINGS)
            == if i < |stores| then Some(Plain(CARD_A, stores[i], if i == 0 then 1.0 else 100.0)) else None
    ensures PrepareOne(CARD_B, WideCandidates(stores)[i], WIDE_SETTINGS)
            == if i < |stores| then None
               else if i == |stores| then Some(Plain(CARD_B, stores[0], 2.0))
               else Some(Plain(CARD_B, stores[32], 1.0))
  {
    assert BeforeColon("a") == "a" && BeforeColon("b") == "b";
    assert stores[0] in stores && stores[32] in stores;
    if i < |stores| {
      assert stores[i] in stores;
    }
  }

  function WideGroupsOf(stores: seq<string>): seq<seq<Selected>>
    requires |stores| > 32
  {
    Groups([CARD_A, CARD_B], WideCandidates(stores), WIDE_SETTINGS)
  }

  lemma WideGroupA(stores: seq<string>)
    requires |stores| > 32 && "" !in stores
    ensures forall s :: s in WideGroupsOf(stores)[0] <==>
              exists i :: 0 <= i < |stores| && s == Plain(CARD_A, stores[i], if i == 0 then 1.0 else 100.0)
  {
    var raw := WideCandidates(stores);
    GroupMembers(CARD_A, raw);
    forall i | 0 <= i < |raw|
      ensures PrepareOne(CARD_A, raw[i], WIDE_SETTINGS)
              == if i < |stores| then Some(Plain(CARD_A, stores[i], if i == 0 then 1.0 else 100.0)) else None
    {
      PreparedCopies(stores, i);
    }
  }

  lemma WideGroupB(stores: seq<string>)
    requires |stores| > 32 && "" !in stores
    ensures forall s :: s in WideGroupsOf(stores)[1] <==> s == Plain(CARD_B, stores[0], 2.0) || s == Plain(CARD_B, stores[32], 1.0)
  {
    var raw := WideCandidates(stores);
    var n := |stores|;
    GroupMembers(CARD_B, raw);
    forall i | 0 <= i < |raw|
      ensures PrepareOne(CARD_B, raw[i], WIDE_SETTINGS)
              == if i < n then None
                 else if i == n then Some(Plain(CARD_B, stores[0], 2.0)) else Some(Plain(CARD_B, stores[32], 1.0))
    {
      PreparedCopies(stores, i);
    }
    assert PrepareOne(CARD_B, raw[n], WIDE_SETTINGS) == Some(Plain(CARD_B, stores[0], 2.0));
    assert PrepareOne(CARD_B, raw[n + 1], WIDE_SETTINGS) == Some(Plain(CARD_B, stores[32], 1.0));
  }

  lemma WideStoreList(stores: seq<string>)
    requires StrictlySorted(stores) && |stores| > 32 && "" !in stores
    ensures StoreList(WideGroupsOf(stores)) == stores
  {
    var groups := WideGroupsOf(stores);
    WideGroupA(stores);
    WideGroupB(stores);
    forall k ensures k in AllStores(groups) <==> k in stores {
      if k in stores {
        var i :| 0 <= i < |stores| && stores[i] == k;
        var s := Plain(CARD_A, stores[i], if i == 0 then 1.0 else 100.0);
        assert s in groups[0];
        var j :| 0 <= j < |groups[0]| && groups[0][j] == s;
        assert groups[0][j].storeKey == k;
      }
      if k in AllStores(groups) {
        var g, j :| 0 <= g < |groups| && 0 <= j < |groups[g]| && groups[g][j].storeKey == k;
        assert groups[g][j] in groups[g];
        assert g == 0 || g == 1;
      }
    }
    SortedListsUnique(StoreList(groups), stores);
  }

  lemma TwoStoresShip(a: string, b: string, settings: Settings)
    ensures ShippingTotal(Uniq([a, b]), settings)
            == ShippingFor(a, settings) + if a == b then 0.0 else ShippingFor(b, settings)
  {
    assert [a, b][..1] == [a] && [a][..0] == [];
    assert Uniq([a]) == [a];
    assert Uniq([a, b]) == if a == b then [a] else [a, b];
    assert ShippingTotal([a], settings) == ShippingFor(a, settings);
  }

  lemma TwoOffers(x: Selected, y: Selected, settings: Settings)
    ensures Chosen([Some(x), Some(y)]) == [x, y]
    ensures Objective([x, y], [], settings)
            == EffectiveCost(x) + EffectiveCost(y) + ShippingFor(x.storeKey, settings)
               + if x.storeKey == y.storeKey then 0.0 else ShippingFor(y.storeKey, settings)
  {
    assert [Some(x), Some(y)][..1] == [Some(x)] && [Some(x)][..0] == [];
    assert Chosen([Some(x)]) == [x];
    TwoCosts(x, y);
    TwoStoresShip(x.storeKey, y.storeKey, settings);
    assert CartStores([]) + OfferStores([x, y]) == [x.storeKey, y.storeKey];
  }

  lemma TwoCosts(x: Selected, y: Selected)
    ensures EffectiveTotal([x, y]) == EffectiveCost(x) + EffectiveCost(y)
  {
    assert [x, y][..1] == [x] && [x][..0] == [];
    assert EffectiveTotal([x]) == EffectiveCost(x);
  }

  lemma {:induction false} ChosenAtMost(a: Assignment)
    ensures |Chosen(a)| <= |a|
    ensures None in a ==> |Chosen(a)| < |a|
  {
    if a != [] {
      ChosenAtMost(a[..|a| - 1]);
      assert a == a[..|a| - 1] + [a[|a| - 1]];
    }
  }

  lemma WideChoices(stores: seq<string>, allowed: set<string>)
    requires |stores| > 32 && "" !in stores && stores[0] != stores[32]
    requires stores[0] in allowed <==> stores[32] in allowed
    ensures var picks := Choices(WideGroupsOf(stores), allowed);
            if stores[0] in allowed
            then picks == [Some(Plain(CARD_A, stores[0], 1.0)), Some(Plain(CARD_B, stores[32], 1.0))]
            else |picks| == 2 && None in picks
  {
    var groups := WideGroupsOf(stores);
    WideGroupA(stores);
    WideGroupB(stores);
    var a, b := Cheapest(groups[0], allowed), Cheapest(groups[1], allowed);
    assert Choices(groups, allowed) == [a, b];
    if stores[0] in allowed {
      var a0, b32 := Plain(CARD_A, stores[0], 1.0), Plain(CARD_B, stores[32], 1.0);
      assert a0 in groups[0] && b32 in groups[1];
      assert !Before(a0, a.value) && !Before(b32, b.value);
    } else {
      assert b.None?;
    }
  }

  lemma BeatenIsNotGloballyBest(
      items: seq<Selected>, a: Assignment, groups: seq<seq<Selected>>, cart: seq<CartItem>, settings: Settings)
    requires IsAssignment(a, groups) && !NoBetter(Chosen(a), items, cart, settings)
    ensures !GloballyBest(items, groups, cart, settings)
  {
  }

  lemma WidePickLoses(stores: seq<string>, mask: nat)
    requires StrictlySorted(stores) && |stores| > 32 && "" !in stores
    ensures var both := [Plain(CARD_A, stores[0], 1.0), Plain(CARD_B, stores[0], 2.0)];
            !NoBetter(both, Pick(WideGroupsOf(stores), stores, mask), [], WIDE_SETTINGS)
  {
    var a0, b0, b32 := Plain(CARD_A, stores[0], 1.0), Plain(CARD_B, stores[0], 2.0), Plain(CARD_B, stores[32], 1.0);
    SameBit(stores, mask);
    WideChoices(stores, Allowed(stores, mask));
    TwoOffers(a0, b0, WIDE_SETTINGS);
    TwoOffers(a0, b32, WIDE_SETTINGS);
    ChosenAtMost(Choices(WideGroupsOf(stores), Allowed(stores, mask)));
  }

  /** Bits 0 and 32 are one bit, so no mask offers store 0 without store 32: every pick loses. */
  lemma WideSearchMissesTheOptimum(stores: seq<string>, mask: nat)
    requires StrictlySorted(stores) && |stores| > 32 && "" !in stores
    ensures !GloballyBest(Pick(WideGroupsOf(stores), stores, mask), WideGroupsOf(stores), [], WIDE_SETTINGS)
  {
    var a0, b0 := Plain(CARD_A, stores[0], 1.0), Plain(CARD_B, stores[0], 2.0);
    var both: Assignment := [Some(a0), Some(b0)];
    assert IsAssignment(both, WideGroupsOf(stores)) by {
      WideGroupA(stores);
      WideGroupB(stores);
    }
    assert Chosen(both) == [a0, b0] by {
      TwoOffers(a0, b0, WIDE_SETTINGS);
    }
    WidePickLoses(stores, mask);
    BeatenIsNotGloballyBest(Pick(WideGroupsOf(stores), stores, mask), both, WideGroupsOf(stores), [], WIDE_SETTINGS);
  }

  lemma SameBit(stores: seq<string>, mask: nat)
    requires StrictlySorted(stores) && |stores| > 32
    ensures stores[0] in Allowed(stores, mask) <==> stores[32] in Allowed(stores, mask)
    ensures stores[0] != stores[32]
  {
    assert MaskHas(mask, 0) <==> MaskHas(mask, 32);
    forall i, j | 0 <= i < j < |stores| ensures stores[i] != stores[j] {
      LessTotal(stores[i], stores[j]);
    }
  }

  /** n sorted store keys: "a", "aa", "aaa", ... */
  function Keys(n: nat): seq<string> {
    seq(n, i requires 0 <= i => seq(i + 1, _ => 'a'))
  }

  lemma {:induction false} ShorterIsLess(m: nat, n: nat)
    requires m < n
    ensures Less(seq(m, _ => 'a'), seq(n, _ => 'a'))
  {
    if m > 0 {
      ShorterIsLess(m - 1, n - 1);
      assert seq(m, _ => 'a')[1..] == seq(m - 1, _ => 'a');
      assert seq(n, _ => 'a')[1..] == seq(n - 1, _ => 'a');
    }
  }

  lemma KeysAreStoreKeys(n: nat)
    ensures StrictlySorted(Keys(n)) && "" !in Keys(n)
  {
    forall i, j | 0 <= i < j < n ensures Less(Keys(n)[i], Keys(n)[j]) {
      ShorterIsLess(i + 1, j + 1);
    }
  }

  ghost predicate SearchIsOptimal(wanted: seq<WantedCard>, raw: seq<Candidate>, cart: seq<CartItem>,
                                  settings: Settings, items: seq<Selected>) {
    var groups := Groups(wanted, raw, settings);
    var stores := StoreList(groups);
    NonNegativeShipping(settings, stores)
    && FirstBest(groups, stores, cart, settings, Pow2(|stores|), items)
    ==> GloballyBest(items, groups, cart, settings)
  }

  lemma WideCounterexample(stores: seq<string>) returns (items: seq<Selected>)
    requires StrictlySorted(stores) && |stores| > 32 && "" !in stores
    ensures !SearchIsOptimal([CARD_A, CARD_B], WideCandidates(stores), [], WIDE_SETTINGS, items)
  {
    WideStoreList(stores);
    var m := SearchHasAWinner(WideGroupsOf(stores), stores, [], WIDE_SETTINGS, Pow2(|stores|));
    items := Pick(WideGroupsOf(stores), stores, m);
    WideSearchMissesTheOptimum(stores, m);
    assert NonNegativeShipping(WIDE_SETTINGS, stores);
  }

  /** The search is optimal for every input with n stores if and only if n is at most 32. */
  lemma OptimalExactlyUpTo32Stores(n: nat)
    ensures AlwaysOptimalWith(n) <==> n <= 32
  {
    if n <= 32 {
      forall wanted: seq<WantedCard>, raw: seq<Candidate>, cart: seq<CartItem>, settings: Settings, items: seq<Selected> |
        |StoreList(Groups(wanted, raw, settings))| == n
        ensures SearchIsOptimal(wanted, raw, cart, settings, items)
      {
        var groups := Groups(wanted, raw, settings);
        if NonNegativeShipping(settings, StoreList(groups))
           && FirstBest(groups, StoreList(groups), cart, settings, Pow2(n), items) {
          CompleteSearchIsGloballyBest(groups, cart, settings, items);
        }
      }
    } else {
      KeysAreStoreKeys(n);
      WideStoreList(Keys(n));
      var items := WideCounterexample(Keys(n));
    }
  }
}
