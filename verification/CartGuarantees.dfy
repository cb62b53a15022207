/** What every result of `optimizeCart` guarantees, over all inputs and all clocks. */
module CartGuarantees {
  import opened Numbers
  import opened Options
  import opened Text
  import opened CartOptimizer
  import opened CartOptimality
  import opened CartReport

  // ----- Wanted keys -----

  ghost predicate DistinctKeys(cards: seq<WantedCard>) {
    forall i, j :: 0 <= i < j < |cards| ==> cards[i].key != cards[j].key
  }

  ghost predicate ColonFreeKeys(cards: seq<WantedCard>) {
    forall i :: 0 <= i < |cards| ==> ':' !in cards[i].key
  }

  lemma CopyKeyHead(card: WantedCard, i: nat)
    requires ':' !in card.key
    ensures BeforeColon(CopyKey(card, i)) == card.key
  {
    BeforeColonOfColonFree(card.key, Decimal(i + 1));
  }

  lemma CopyKeysDiffer(card: WantedCard, i: nat, j: nat)
    requires i < j < CopyCount(card)
    ensures CopyKey(card, i) != CopyKey(card, j)
  {
    if CopyKey(card, i) == CopyKey(card, j) {
      var n := |card.key + ":"|;
      assert CopyKey(card, i)[n..] == Decimal(i + 1) && CopyKey(card, j)[n..] == Decimal(j + 1);
      DecimalInjective(i + 1, j + 1);
    }
  }

  /** Distinct, colon-free wanted keys stay distinct when quantities are expanded. */
  lemma {:induction false} ExpandedKeysDistinct(cards: seq<WantedCard>)
    requires DistinctKeys(cards) && ColonFreeKeys(cards)
    ensures DistinctKeys(ExpandWanted(cards))
    ensures forall c :: c in ExpandWanted(cards) ==> exists i :: 0 <= i < |cards| && BeforeColon(c.key) == cards[i].key
  {
    if cards != [] {
      var init, last := cards[..|cards| - 1], cards[|cards| - 1];
      ExpandedKeysDistinct(init);
      var copies := Copies(last);
      forall k | 0 <= k < |copies| ensures BeforeColon(copies[k].key) == last.key {
        CopyKeyHead(last, k);
      }
      forall j, k | 0 <= j < k < |copies| ensures copies[j].key != copies[k].key {
        CopyKeysDiffer(last, j, k);
      }
      var all := ExpandWanted(cards);
      assert all == ExpandWanted(init) + copies;
      forall c | c in all ensures exists i :: 0 <= i < |cards| && BeforeColon(c.key) == cards[i].key {
        if c in copies {
          assert BeforeColon(c.key) == cards[|cards| - 1].key;
        } else {
          var i :| 0 <= i < |init| && BeforeColon(c.key) == init[i].key;
          assert init[i] == cards[i];
        }
      }
      forall j, k | 0 <= j < k < |all| ensures all[j].key != all[k].key {
        if j < |ExpandWanted(init)| <= k {
          assert all[j] in ExpandWanted(init);
        }
      }
    }
  }

  lemma {:induction false} NotInCartKeepsDistinct(cards: seq<WantedCard>, owned: set<string>, normalize: string -> string)
    requires DistinctKeys(cards)
    ensures DistinctKeys(NotInCart(cards, owned, normalize))
  {
    if cards != [] {
      var init, last := cards[..|cards| - 1], cards[|cards| - 1];
      NotInCartKeepsDistinct(init, owned, normalize);
      var kept := NotInCart(init, owned, normalize);
      forall i | 0 <= i < |kept| ensures kept[i].key != last.key {
        assert kept[i] in init;
      }
    }
  }

  // ----- Selected and missing cards partition the wanted list -----

  lemma GroupOffersCarryTheCard(card: WantedCard, raw: seq<Candidate>, settings: Settings)
    ensures forall s :: s in Group(card, raw, settings) ==> s.wantedKey == card.key && s.wantedName == card.name
  {
    var prepared := Prepared(card, raw, settings);
    var eligible := SavingsPolicy(prepared, settings);
    forall s | s in Group(card, raw, settings) ensures s.wantedKey == card.key && s.wantedName == card.name {
      var i :| 0 <= i < |eligible| && s == Penalized(eligible, eligible[i], settings);
      assert eligible[i] in prepared;
    }
  }

  function MissingKeys(missing: seq<MissingCard>): seq<string> {
    seq(|missing|, i requires 0 <= i < |missing| => missing[i].wantedKey)
  }

  function OfferKeys(items: seq<Selected>): seq<string> {
    seq(|items|, i requires 0 <= i < |items| => items[i].wantedKey)
  }

  function CardKeys(cards: seq<WantedCard>): seq<string> {
    seq(|cards|, i requires 0 <= i < |cards| => cards[i].key)
  }

  ghost predicate CarriesKeys(a: Assignment, wanted: seq<WantedCard>) {
    |a| == |wanted| && forall i :: 0 <= i < |a| && a[i].Some? ==> a[i].value.wantedKey == wanted[i].key
  }

  lemma PickStep(a: Assignment)
    requires a != []
    ensures var n := |a| - 1;
            OfferKeys(Chosen(a)) == OfferKeys(Chosen(a[..n])) + if a[n].Some? then [a[n].value.wantedKey] else []
  {
  }

  lemma MissingStep(wanted: seq<WantedCard>, groups: seq<seq<Selected>>, raw: seq<Candidate>,
                    keys: set<string>, settings: Settings)
    requires |wanted| == |groups| > 0
    ensures var n := |wanted| - 1;
            MissingKeys(MissingCards(wanted, groups, raw, keys, settings))
            == MissingKeys(MissingCards(wanted[..n], groups[..n], raw, keys, settings))
               + if wanted[n].key in keys then [] else [wanted[n].key]
  {
  }

  lemma CardStep(wanted: seq<WantedCard>)
    requires wanted != []
    ensures CardKeys(wanted) == CardKeys(wanted[..|wanted| - 1]) + [wanted[|wanted| - 1].key]
  {
  }

  /** Over any set of selected keys that agrees with the assignment, picks and missing cards add up. */
  lemma {:induction false} PicksAndMissingAddUp(
      a: Assignment, wanted: seq<WantedCard>, groups: seq<seq<Selected>>, raw: seq<Candidate>,
      keys: set<string>, settings: Settings)
    requires |a| == |wanted| == |groups| && CarriesKeys(a, wanted)
    requires forall i :: 0 <= i < |a| ==> (wanted[i].key in keys <==> a[i].Some?)
    ensures multiset(OfferKeys(Chosen(a))) + multiset(MissingKeys(MissingCards(wanted, groups, raw, keys, settings)))
            == multiset(CardKeys(wanted))
  {
    if a != [] {
      var n := |a| - 1;
      PicksAndMissingAddUp(a[..n], wanted[..n], groups[..n], raw, keys, settings);
      PickStep(a);
      MissingStep(wanted, groups, raw, keys, settings);
      CardStep(wanted);
    }
  }

  lemma PickedIsSelected(a: Assignment, i: nat)
    requires i < |a| && a[i].Some?
    ensures a[i].value.wantedKey in SelectedKeys(Chosen(a))
  {
    ChosenMembers(a);
    assert a[i] in a;
    var k :| 0 <= k < |Chosen(a)| && Chosen(a)[k] == a[i].value;
    assert Chosen(a)[k].wantedKey == a[i].value.wantedKey;
  }

  lemma SelectedWasPicked(a: Assignment, key: string) returns (j: nat)
    requires key in SelectedKeys(Chosen(a))
    ensures j < |a| && a[j].Some? && a[j].value.wantedKey == key
  {
    ChosenMembers(a);
    var k :| 0 <= k < |Chosen(a)| && Chosen(a)[k].wantedKey == key;
    assert Chosen(a)[k] in Chosen(a);
    j :| 0 <= j < |a| && a[j] == Some(Chosen(a)[k]);
  }

  lemma KeysSelectedExactlyWhenPicked(a: Assignment, wanted: seq<WantedCard>)
    requires CarriesKeys(a, wanted) && DistinctKeys(wanted)
    ensures forall i :: 0 <= i < |a| ==> (wanted[i].key in SelectedKeys(Chosen(a)) <==> a[i].Some?)
  {
    forall i | 0 <= i < |a| ensures wanted[i].key in SelectedKeys(Chosen(a)) <==> a[i].Some? {
      if a[i].Some? {
        PickedIsSelected(a, i);
      } else if wanted[i].key in SelectedKeys(Chosen(a)) {
        var j := SelectedWasPicked(a, wanted[i].key);
        assert false;
      }
    }
  }

  /** The selection of any outcome takes each card's offer, if any, from that card's own group. */
  lemma OutcomeIsAnAssignment(input: Input, normalize: string -> string, clock: nat -> real, r: Result)
    returns (a: Assignment)
    requires IsOutcome(input, normalize, clock, r)
    ensures IsAssignment(a, WantedGroups(input, normalize)) && r.selected == Chosen(a)
    ensures CarriesKeys(a, WantedToBuy(input, normalize))
  {
    var wanted, groups := WantedToBuy(input, normalize), WantedGroups(input, normalize);
    var stores := StoreList(groups);
    if r.evaluated == 0 {
      a := seq(|groups|, _ => None);
      NothingChosen(a);
    } else {
      var m: nat :| m < r.evaluated && r.selected == Pick(groups, stores, m)
                    && BestMask(groups, stores, input.initialCart, input.settings, r.evaluated, m);
      a := Choices(groups, Allowed(stores, m));
    }
    forall i | 0 <= i < |a| && a[i].Some? ensures a[i].value.wantedKey == wanted[i].key {
      GroupOffersCarryTheCard(wanted[i], input.candidates, input.settings);
    }
  }

  /** Every wanted copy is either selected once or reported missing once. */
  lemma SelectedAndMissingPartitionWanted(input: Input, normalize: string -> string, clock: nat -> real, r: Result)
    requires IsOutcome(input, normalize, clock, r)
    requires DistinctKeys(input.wanted) && ColonFreeKeys(input.wanted)
    ensures multiset(OfferKeys(r.selected)) + multiset(MissingKeys(r.missing))
            == multiset(CardKeys(WantedToBuy(input, normalize)))
    ensures DistinctKeys(WantedToBuy(input, normalize))
  {
    var wanted, groups := WantedToBuy(input, normalize), WantedGroups(input, normalize);
    ExpandedKeysDistinct(input.wanted);
    NotInCartKeepsDistinct(ExpandWanted(input.wanted), OwnedNames(input.initialCart, normalize), normalize);
    var a := OutcomeIsAnAssignment(input, normalize, clock, r);
    KeysSelectedExactlyWhenPicked(a, wanted);
    PicksAndMissingAddUp(a, wanted, groups, input.candidates, SelectedKeys(r.selected), input.settings);
  }

  // ----- Store plans partition the selection -----

  function Flatten(plans: seq<StorePlan>): seq<Selected> {
    if plans == [] then [] else Flatten(plans[..|plans| - 1]) + plans[|plans| - 1].items
  }

  /** The items sold by one of `stores`, in selection order. */
  function InStores(items: seq<Selected>, stores: set<string>): seq<Selected> {
    if items == [] then []
    else InStores(items[..|items| - 1], stores)
         + (if items[|items| - 1].storeKey in stores then [items[|items| - 1]] else [])
  }

  lemma {:induction false} OneMoreStore(items: seq<Selected>, stores: set<string>, store: string)
    requires store !in stores
    ensures multiset(InStores(items, stores + {store})) == multiset(InStores(items, stores)) + multiset(InStore(items, store))
  {
    if items != [] {
      var init, last := items[..|items| - 1], items[|items| - 1];
      OneMoreStore(init, stores, store);
      if last.storeKey == store {
        assert InStores(items, stores + {store}) == InStores(init, stores + {store}) + [last];
        assert InStores(items, stores) == InStores(init, stores);
        assert InStore(items, store) == InStore(init, store) + [last];
      } else {
        var picked := if last.storeKey in stores then [last] else [];
        assert InStores(items, stores + {store}) == InStores(init, stores + {store}) + picked;
        assert InStores(items, stores) == InStores(init, stores) + picked;
        assert InStore(items, store) == InStore(init, store);
      }
    }
  }

  lemma {:induction false} AllStoresKeepEverything(items: seq<Selected>, stores: set<string>)
    requires forall s :: s in items ==> s.storeKey in stores
    ensures InStores(items, stores) == items
  {
    if items != [] {
      assert items == items[..|items| - 1] + [items[|items| - 1]];
      AllStoresKeepEverything(items[..|items| - 1], stores);
    }
  }

  /** The stores' items one store after the other. */
  function Gathered(items: seq<Selected>, stores: seq<string>): seq<Selected> {
    if stores == [] then []
    else Gathered(items, stores[..|stores| - 1]) + InStore(items, stores[|stores| - 1])
  }

  function StoreSet(stores: seq<string>): set<string> {
    set s | s in stores
  }

  lemma StoreSetGrows(init: seq<string>, last: string)
    ensures StoreSet(init + [last]) == StoreSet(init) + {last}
  {
  }

  lemma {:induction false} GatheredHoldsItsStores(items: seq<Selected>, stores: seq<string>)
    requires Distinct(stores)
    ensures multiset(Gathered(items, stores)) == multiset(InStores(items, StoreSet(stores)))
  {
    if stores == [] {
      NothingInNoStores(items);
      assert StoreSet(stores) == {};
    } else {
      var init, last := stores[..|stores| - 1], stores[|stores| - 1];
      GatheredHoldsItsStores(items, init);
      assert stores == init + [last];
      StoreSetGrows(init, last);
      OneMoreStore(items, StoreSet(init), last);
    }
  }

  lemma {:induction false} PlansGather(items: seq<Selected>, settings: Settings, n: nat)
    requires n <= |Plans(items, settings)|
    ensures Flatten(Plans(items, settings)[..n]) == Gathered(items, Uniq(OfferStores(items))[..n])
  {
    if n > 0 {
      PlansGather(items, settings, n - 1);
      assert Plans(items, settings)[..n][..n - 1] == Plans(items, settings)[..n - 1];
      assert Uniq(OfferStores(items))[..n][..n - 1] == Uniq(OfferStores(items))[..n - 1];
    }
  }

  lemma {:induction false} NothingInNoStores(items: seq<Selected>)
    ensures InStores(items, {}) == []
  {
    if items != [] {
      NothingInNoStores(items[..|items| - 1]);
    }
  }

  lemma FlattenedPlansGather(items: seq<Selected>, settings: Settings)
    ensures Flatten(Plans(items, settings)) == Gathered(items, Uniq(OfferStores(items)))
  {
    var plans, stores := Plans(items, settings), Uniq(OfferStores(items));
    PlansGather(items, settings, |plans|);
    assert plans[..|plans|] == plans && stores[..|plans|] == stores;
  }

  lemma EveryItemHasItsStore(items: seq<Selected>)
    ensures forall s :: s in items ==> s.storeKey in StoreSet(Uniq(OfferStores(items)))
  {
    forall s | s in items ensures s.storeKey in Uniq(OfferStores(items)) {
      var i :| 0 <= i < |items| && items[i] == s;
      assert OfferStores(items)[i] == s.storeKey;
    }
  }

  lemma FlattenedPlansAreTheSelection(items: seq<Selected>, settings: Settings)
    ensures multiset(Flatten(Plans(items, settings))) == multiset(items)
  {
    FlattenedPlansGather(items, settings);
    GatheredHoldsItsStores(items, Uniq(OfferStores(items)));
    EveryItemHasItsStore(items);
    AllStoresKeepEverything(items, StoreSet(Uniq(OfferStores(items))));
  }

  /** The store plans regroup exactly the selection: one plan per used store, nothing lost or repeated. */
  lemma StorePlansPartitionSelection(items: seq<Selected>, settings: Settings)
    ensures multiset(Flatten(Plans(items, settings))) == multiset(items)
    ensures forall i, j :: 0 <= i < j < |Plans(items, settings)| ==>
              Plans(items, settings)[i].storeKey != Plans(items, settings)[j].storeKey
    ensures forall i, s :: 0 <= i < |Plans(items, settings)| && s in Plans(items, settings)[i].items ==>
              s.storeKey == Plans(items, settings)[i].storeKey
  {
    FlattenedPlansAreTheSelection(items, settings);
  }

  // ----- The reported objective -----

  lemma {:induction false} EffectiveTotalSplits(items: seq<Selected>)
    ensures EffectiveTotal(items)
            == Total(items, PriceOf) + Total(items, ConditionPenaltyOf) + Total(items, ValuePenaltyOf) + Total(items, SetPenaltyOf)
  {
    if items != [] {
      EffectiveTotalSplits(items[..|items| - 1]);
    }
  }

  lemma PlanShippingStep(plans: seq<StorePlan>, n: nat)
    requires 0 < n <= |plans|
    ensures PlanShipping(plans[..n]) == PlanShipping(plans[..n - 1]) + plans[n - 1].shippingCost
  {
    assert plans[..n][..n - 1] == plans[..n - 1];
  }

  lemma StoreShippingStep(stores: seq<string>, settings: Settings, n: nat)
    requires 0 < n <= |stores|
    ensures ShippingTotal(stores[..n], settings) == ShippingTotal(stores[..n - 1], settings) + ShippingFor(stores[n - 1], settings)
  {
    assert stores[..n][..n - 1] == stores[..n - 1];
  }

  lemma {:induction false} PlanShippingIsStoreShipping(items: seq<Selected>, settings: Settings, n: nat)
    requires n <= |Plans(items, settings)|
    ensures PlanShipping(Plans(items, settings)[..n]) == ShippingTotal(Uniq(OfferStores(items))[..n], settings)
  {
    if n > 0 {
      PlanShippingIsStoreShipping(items, settings, n - 1);
      PlanShippingStep(Plans(items, settings), n);
      StoreShippingStep(Uniq(OfferStores(items)), settings, n);
    }
  }

  /** The search's cost is the reported objective plus shipping of the initial-cart stores left unused. */
  lemma ReportedObjective(items: seq<Selected>, cart: seq<CartItem>, settings: Settings, r: Result)
    returns (unused: seq<string>)
    requires exists wanted, groups, raw, optimal, evaluated ::
      |wanted| == |groups| && r == Report(wanted, groups, raw, items, settings, optimal, evaluated)
    ensures Distinct(unused) && forall s :: s in unused <==> s in CartStores(cart) && s !in OfferStores(items)
    ensures r.totals.objectiveTotal == Objective(items, cart, settings) - ShippingTotal(unused, settings)
  {
    var plans, stores := Plans(items, settings), Uniq(OfferStores(items));
    EffectiveTotalSplits(items);
    PlanShippingIsStoreShipping(items, settings, |plans|);
    assert plans[..|plans|] == plans && stores[..|plans|] == stores;
    unused := ShippingSplits(UsedStores(cart, items), stores, settings);
  }

  // ----- When a card is missing -----

  lemma {:induction false} FullerPicksAreEqual(a: Assignment, b: Assignment)
    requires |a| == |b| && forall i :: 0 <= i < |a| && a[i].Some? ==> b[i].Some?
    requires |Chosen(b)| <= |Chosen(a)|
    ensures forall i :: 0 <= i < |a| && b[i].Some? ==> a[i].Some?
  {
    if a != [] {
      var n := |a| - 1;
      ChosenStep(a);
      ChosenStep(b);
      PicksGrow(a[..n], b[..n]);
      FullerPicksAreEqual(a[..n], b[..n]);
      forall i | 0 <= i < |a| && b[i].Some? ensures a[i].Some? {
        if i < n {
          assert b[..n][i].Some?;
          assert a[..n][i].Some?;
        }
      }
    }
  }

  lemma {:induction false} PicksGrow(a: Assignment, b: Assignment)
    requires |a| == |b| && forall i :: 0 <= i < |a| && a[i].Some? ==> b[i].Some?
    ensures |Chosen(a)| <= |Chosen(b)|
  {
    if a != [] {
      ChosenStep(a);
      ChosenStep(b);
      PicksGrow(a[..|a| - 1], b[..|b| - 1]);
    }
  }

  /** The all-ones mask allows every store, however many there are. */
  lemma FullMaskAllowsAll(stores: seq<string>) returns (mask: nat)
    ensures mask < Pow2(|stores|)
    ensures forall s :: s in stores ==> s in Allowed(stores, mask)
  {
    var all := set s | s in stores;
    mask := Encode(stores, all);
    EncodeBound(stores, all);
    forall s | s in stores ensures s in Allowed(stores, mask) {
      var i :| 0 <= i < |stores| && stores[i] == s;
      assert i % 32 < |stores|;
      EncodeBit(stores, all, i % 32);
      assert MaskHas(mask, i);
    }
  }

  /** Under it every card with an offer gets one. */
  lemma FullMaskPicksAll(groups: seq<seq<Selected>>) returns (mask: nat)
    ensures mask < Pow2(|StoreList(groups)|)
    ensures forall i :: 0 <= i < |groups| ==> (Choices(groups, Allowed(StoreList(groups), mask))[i].None? <==> groups[i] == [])
  {
    var stores := StoreList(groups);
    mask := FullMaskAllowsAll(stores);
    var b := Choices(groups, Allowed(stores, mask));
    forall i | 0 <= i < |groups| ensures b[i].None? <==> groups[i] == [] {
      if groups[i] != [] {
        assert groups[i][0] in groups[i];
        assert groups[i][0].storeKey in AllStores(groups);
      }
    }
  }

  /** After a complete search a card is missing exactly when it has no prepared offer at all. */
  lemma CompleteSearchMissesOnlyOfferless(
      groups: seq<seq<Selected>>, cart: seq<CartItem>, settings: Settings, items: seq<Selected>)
    returns (a: Assignment)
    requires FirstBest(groups, StoreList(groups), cart, settings, Pow2(|StoreList(groups)|), items)
    ensures IsAssignment(a, groups) && items == Chosen(a)
    ensures forall i :: 0 <= i < |groups| ==> (a[i].None? <==> groups[i] == [])
  {
    var stores := StoreList(groups);
    var m: nat :| m < Pow2(|stores|) && items == Pick(groups, stores, m)
                  && BestMask(groups, stores, cart, settings, Pow2(|stores|), m);
    a := Choices(groups, Allowed(stores, m));
    var full := FullMaskPicksAll(groups);
    assert NoBetter(Pick(groups, stores, full), items, cart, settings);
    FullerPicksAreEqual(a, Choices(groups, Allowed(stores, full)));
  }

  lemma {:induction false} ReasonsCome(wanted: seq<WantedCard>, groups: seq<seq<Selected>>, raw: seq<Candidate>,
                                       keys: set<string>, settings: Settings)
    requires |wanted| == |groups|
    requires forall i :: 0 <= i < |wanted| && wanted[i].key !in keys ==> groups[i] == []
    ensures forall x :: x in MissingCards(wanted, groups, raw, keys, settings) ==> x.reason != CapacityExhausted
  {
    if wanted != [] {
      ReasonsCome(wanted[..|wanted| - 1], groups[..|wanted| - 1], raw, keys, settings);
    }
  }

  /** "capacity-exhausted" is only ever reported by a search the deadline cut short. */
  lemma CapacityExhaustedNeedsATimeout(input: Input, normalize: string -> string, clock: nat -> real, r: Result)
    requires IsOutcome(input, normalize, clock, r) && r.optimal
    requires DistinctKeys(input.wanted) && ColonFreeKeys(input.wanted)
    ensures forall x :: x in r.missing ==> x.reason != CapacityExhausted
    ensures forall i :: 0 <= i < |WantedToBuy(input, normalize)| ==>
              (WantedToBuy(input, normalize)[i].key !in SelectedKeys(r.selected)
               <==> WantedGroups(input, normalize)[i] == [])
  {
    var wanted, groups := WantedToBuy(input, normalize), WantedGroups(input, normalize);
    SelectedAndMissingPartitionWanted(input, normalize, clock, r);
    var a := CompleteSearchMissesOnlyOfferless(groups, input.initialCart, input.settings, r.selected);
    forall i | 0 <= i < |a| && a[i].Some? ensures a[i].value.wantedKey == wanted[i].key {
      GroupOffersCarryTheCard(wanted[i], input.candidates, input.settings);
    }
    KeysSelectedExactlyWhenPicked(a, wanted);
    ReasonsCome(wanted, groups, input.candidates, SelectedKeys(r.selected), input.settings);
  }

  /** A result flagged optimal is best over all assignments, with at most 32 candidate stores. */
  lemma OptimalResultsAreGloballyBest(input: Input, normalize: string -> string, clock: nat -> real, r: Result)
    requires IsOutcome(input, normalize, clock, r) && r.optimal
    requires |StoreList(WantedGroups(input, normalize))| <= 32
    requires NonNegativeShipping(input.settings, StoreList(WantedGroups(input, normalize)))
    ensures GloballyBest(r.selected, WantedGroups(input, normalize), input.initialCart, input.settings)
  {
    CompleteSearchIsGloballyBest(WantedGroups(input, normalize), input.initialCart, input.settings, r.selected);
  }

  // ----- Complete results exist, and where they stop being best -----

  /** A clock that stands still never expires a positive budget. */
  function Stopped(reading: nat): real { 0.0 }

  /** Unhurried, every input whose masks can be counted has a complete result. */
  lemma CompleteOutcomeExists(input: Input, normalize: string -> string) returns (r: Result)
    requires input.settings.timeBudgetMs.GetOr(DEFAULT_BUDGET_MS) > 0.0
    requires |StoreList(WantedGroups(input, normalize))| <= EXACT_BITS
    ensures IsOutcome(input, normalize, Stopped, r) && r.optimal
  {
    var groups := WantedGroups(input, normalize);
    var stores := StoreList(groups);
    var m := SearchHasAWinner(groups, stores, input.initialCart, input.settings, Pow2(|stores|));
    r := Report(WantedToBuy(input, normalize), groups, input.candidates, Pick(groups, stores, m), input.settings,
                true, Pow2(|stores|));
  }

  /** One call with what it returned. */
  datatype Call = Call(input: Input, normalize: string -> string, clock: nat -> real, r: Result)

  ghost predicate OptimalMeansBest(c: Call) {
    IsOutcome(c.input, c.normalize, c.clock, c.r) && c.r.optimal
    && NonNegativeShipping(c.input.settings, StoreList(WantedGroups(c.input, c.normalize)))
    ==> GloballyBest(c.r.selected, WantedGroups(c.input, c.normalize), c.input.initialCart, c.input.settings)
  }

  /** How many stores offer anything. */
  function StoreCount(c: Call): nat {
    |StoreList(WantedGroups(c.input, c.normalize))|
  }

  ghost predicate OptimalMeansBestWith(n: nat) {
    forall c: Call :: StoreCount(c) == n ==> OptimalMeansBest(c)
  }

  function Unchanged(s: string): string { s }

  lemma {:induction false} SingleCopiesExpand(cards: seq<WantedCard>)
    requires forall c :: c in cards ==> c.quantity.None?
    ensures ExpandWanted(cards) == cards
  {
    if cards != [] {
      var init, last := cards[..|cards| - 1], cards[|cards| - 1];
      assert cards == init + [last];
      SingleCopiesExpand(init);
      assert Copies(last) == [last];
    }
  }

  lemma {:induction false} NothingOwned(cards: seq<WantedCard>, owned: set<string>, normalize: string -> string)
    requires forall c :: c in cards ==> normalize(c.name) !in owned
    ensures NotInCart(cards, owned, normalize) == cards
  {
    if cards != [] {
      var init, last := cards[..|cards| - 1], cards[|cards| - 1];
      assert cards == init + [last];
      NothingOwned(init, owned, normalize);
    }
  }

  lemma WideGroupsAreWanted(input: Input, stores: seq<string>)
    requires |stores| > 32 && input == Input([CARD_A, CARD_B], WideCandidates(stores), [], WIDE_SETTINGS)
    ensures WantedGroups(input, Unchanged) == WideGroupsOf(stores)
  {
    SingleCopiesExpand(input.wanted);
    NothingOwned(input.wanted, OwnedNames([], Unchanged), Unchanged);
  }

  /** With more stores a complete result can miss the optimum. */
  lemma WideResultCanBeBeaten(n: nat) returns (c: Call)
    requires 32 < n <= EXACT_BITS
    ensures StoreCount(c) == n && !OptimalMeansBest(c)
  {
    var input := WideInput(n);
    var r := CompleteOutcomeExists(input, Unchanged);
    c := Call(input, Unchanged, Stopped, r);
    WideResultIsBeaten(n, input, r);
  }

  lemma WideInput(n: nat) returns (input: Input)
    requires n > 32
    ensures input == Input([CARD_A, CARD_B], WideCandidates(Keys(n)), [], WIDE_SETTINGS)
    ensures WantedGroups(input, Unchanged) == WideGroupsOf(Keys(n)) && |StoreList(WantedGroups(input, Unchanged))| == n
  {
    KeysAreStoreKeys(n);
    input := Input([CARD_A, CARD_B], WideCandidates(Keys(n)), [], WIDE_SETTINGS);
    WideGroupsAreWanted(input, Keys(n));
    WideStoreList(Keys(n));
  }

  lemma WideResultIsBeaten(n: nat, input: Input, r: Result)
    requires n > 32 && input == Input([CARD_A, CARD_B], WideCandidates(Keys(n)), [], WIDE_SETTINGS)
    requires WantedGroups(input, Unchanged) == WideGroupsOf(Keys(n))
    requires IsOutcome(input, Unchanged, Stopped, r) && r.optimal
    ensures !GloballyBest(r.selected, WantedGroups(input, Unchanged), [], WIDE_SETTINGS)
  {
    KeysAreStoreKeys(n);
    WideStoreList(Keys(n));
    var m: nat :| m < r.evaluated && r.selected == Pick(WideGroupsOf(Keys(n)), Keys(n), m);
    WideSearchMissesTheOptimum(Keys(n), m);
  }

  /** Few enough stores, or so many that no search is ever complete. */
  predicate BestOrNever(n: nat) {
    n <= 32 || n > EXACT_BITS
  }

  lemma FlaggedResultIsBest(c: Call)
    requires BestOrNever(StoreCount(c))
    ensures OptimalMeansBest(c)
  {
    if IsOutcome(c.input, c.normalize, c.clock, c.r) && c.r.optimal
       && NonNegativeShipping(c.input.settings, StoreList(WantedGroups(c.input, c.normalize))) {
      OptimalResultsAreGloballyBest(c.input, c.normalize, c.clock, c.r);
    }
  }

  lemma FlaggedResultsAreBest(n: nat)
    requires BestOrNever(n)
    ensures OptimalMeansBestWith(n)
  {
    forall c: Call | StoreCount(c) == n ensures OptimalMeansBest(c) {
      FlaggedResultIsBest(c);
    }
  }

  lemma SomeWideResultIsNot(n: nat)
    requires !BestOrNever(n)
    ensures !OptimalMeansBestWith(n)
  {
    var c := WideResultCanBeBeaten(n);
  }

  /** From 54 stores on the mask counter stalls before the last mask: no result is ever flagged. */
  lemma NothingIsFlaggedBeyondCounting(input: Input, normalize: string -> string, clock: nat -> real, r: Result)
    requires IsOutcome(input, normalize, clock, r) && |StoreList(WantedGroups(input, normalize))| > EXACT_BITS
    ensures !r.optimal && r.evaluated <= Pow2(EXACT_BITS) < Pow2(|StoreList(WantedGroups(input, normalize))|)
  {
    Pow2Grows(EXACT_BITS, |StoreList(WantedGroups(input, normalize))|);
  }

  /**
   * `optimal` means best over all assignments, for every input with n candidate stores, if and only if n is at most 32,
   * the width of the shift, or beyond 53, the width of the counter, where nothing is ever flagged.
   */
  lemma OptimalFlagExactlyUpTo32Stores(n: nat)
    ensures OptimalMeansBestWith(n) <==> n <= 32 || n > 53
  {
    if BestOrNever(n) {
      FlaggedResultsAreBest(n);
    } else {
      SomeWideResultIsNot(n);
    }
  }

  // ----- The condition-value penalty -----

  /** `higher` is a cheapest of the same store's strictly better copies. */
  ghost predicate CheapestBetter(items: seq<Selected>, lower: Selected, higher: Selected) {
    && higher in items && higher.storeKey == lower.storeKey && Rank(higher.condition) > Rank(lower.condition)
    && forall s :: s in items && s.storeKey == lower.storeKey && Rank(s.condition) > Rank(lower.condition) ==> higher.price <= s.price
  }

  /** The better copy is dear enough, and its premium lies within the policy's band. */
  predicate Banded(higher: real, lower: real, policy: ConditionValue) {
    && higher >= policy.minimumHigherPrice.GetOr(50.0)
    && policy.minPremium.GetOr(10.0) <= higher - lower <= policy.maxPremium.GetOr(30.0)
  }

  ghost predicate InBand(items: seq<Selected>, item: Selected, policy: ConditionValue) {
    exists h :: CheapestBetter(items, item, h) && Banded(h.price, item.price, policy)
  }

  lemma PenaltyBy(items: seq<Selected>, item: Selected, higher: Selected, policy: ConditionValue)
    requires CheapestBetter(items, item, higher)
    ensures PenaltyFor(items, item, policy)
            == if Banded(higher.price, item.price, policy) then Some(higher.price - item.price + 0.000001) else None
    ensures InBand(items, item, policy) <==> Banded(higher.price, item.price, policy)
  {
    HigherPriceIsTheLowest(items, item);
  }

  /** A copy is penalised exactly if it is in the band of a cheapest better copy. */
  lemma PenalisedInBand(items: seq<Selected>, item: Selected, policy: ConditionValue)
    ensures PenaltyFor(items, item, policy).Some? <==> InBand(items, item, policy)
  {
    HigherPriceIsTheLowest(items, item);
    if HigherPrice(items, item).Some? {
      var h :| h in items && Better(h, item) && h.price == HigherPrice(items, item).value;
      PenaltyBy(items, item, h, policy);
    }
  }

  /** As `prepareCandidates` hands the items to the pass. */
  predicate Unpenalised(s: Selected) {
    s.valuePenalty == 0.0 && s.setPenalty == 0.0
  }

  /** The surcharge the pass will put on the better copy itself, read off the prices before the pass. */
  ghost function Surcharge(items: seq<Selected>, item: Selected, policy: ConditionValue): real {
    if InBand(items, item, policy) then HigherPrice(items, item).GetOr(0.0) - item.price + 0.000001 else 0.0
  }

  /**
   * When a penalised copy loses to its cheapest better copy, in terms of the prices before the pass. Between equal condition
   * penalties, and with no negative premium in the band, that is exactly when the better copy is in no band itself.
   */
  lemma BetterCopyWinsExactly(items: seq<Selected>, lower: Selected, higher: Selected, policy: ConditionValue, settings: Settings)
    requires settings.conditionValue == Some(policy) && policy.preferHigher && Unpenalised(lower) && Unpenalised(higher)
    requires CheapestBetter(items, lower, higher) && Banded(higher.price, lower.price, policy)
    ensures var wins := EffectiveCost(Penalized(items, higher, settings)) < EffectiveCost(Penalized(items, lower, settings));
            && (wins <==> higher.conditionPenalty + Surcharge(items, higher, policy) < lower.conditionPenalty + 0.000001)
            && (higher.conditionPenalty == lower.conditionPenalty && policy.minPremium.GetOr(10.0) >= 0.0 ==>
                  (wins <==> !InBand(items, higher, policy)))
  {
    PenaltyBy(items, lower, higher, policy);
    PenalisedInBand(items, higher, policy);
    HigherPriceIsTheLowest(items, higher);
  }

  // ----- The policy over a whole group -----

  function Eligible(card: WantedCard, raw: seq<Candidate>, settings: Settings): seq<Selected> {
    SavingsPolicy(Prepared(card, raw, settings), settings)
  }

  lemma EligibleUnpenalised(card: WantedCard, raw: seq<Candidate>, settings: Settings)
    ensures forall s :: s in Eligible(card, raw, settings) ==> Unpenalised(s)
  {
  }

  ghost predicate ChargedAlike(items: seq<Selected>) {
    forall s, t :: s in items && t in items ==> s.conditionPenalty == t.conditionPenalty
  }

  /** Without a downgrade nothing is charged for its condition. */
  lemma StrictlyChargedAlike(card: WantedCard, raw: seq<Candidate>, settings: Settings)
    requires settings.flexibility.None? || settings.flexibility.value.mode.Strict?
    ensures ChargedAlike(Eligible(card, raw, settings))
  {
    forall s | s in Eligible(card, raw, settings) ensures s.conditionPenalty == 0.0 {
    }
  }

  /** Every penalised copy of the group costs more than each cheapest better copy. */
  ghost predicate BetterCopiesWin(card: WantedCard, raw: seq<Candidate>, settings: Settings) {
    var before, after := Eligible(card, raw, settings), Group(card, raw, settings);
    forall i, j :: 0 <= i < |before| && 0 <= j < |before| && CheapestBetter(before, before[i], before[j]) ==>
      after[i].valuePenalty != 0.0 ==> EffectiveCost(after[j]) < EffectiveCost(after[i])
  }

  /** Three conditions in a row, each next one in the band of the one before. */
  ghost predicate Chained(items: seq<Selected>, worst: Selected, middle: Selected, policy: ConditionValue) {
    && worst in items && CheapestBetter(items, worst, middle) && Banded(middle.price, worst.price, policy)
    && InBand(items, middle, policy)
  }

  lemma ChainOrWin(card: WantedCard, raw: seq<Candidate>, settings: Settings, policy: ConditionValue, i: nat, j: nat)
    requires settings.conditionValue == Some(policy) && policy.preferHigher && policy.minPremium.GetOr(10.0) >= 0.0
    requires ChargedAlike(Eligible(card, raw, settings)) && i < |Eligible(card, raw, settings)| && j < |Eligible(card, raw, settings)|
    requires CheapestBetter(Eligible(card, raw, settings), Eligible(card, raw, settings)[i], Eligible(card, raw, settings)[j])
    ensures var before, after := Eligible(card, raw, settings), Group(card, raw, settings);
            && (after[i].valuePenalty != 0.0 <==> Banded(before[j].price, before[i].price, policy))
            && (after[i].valuePenalty != 0.0 ==>
                  (EffectiveCost(after[j]) < EffectiveCost(after[i]) <==> !Chained(before, before[i], before[j], policy)))
  {
    var before := Eligible(card, raw, settings);
    EligibleUnpenalised(card, raw, settings);
    assert Unpenalised(before[i]) && Unpenalised(before[j]);
    PenaltyBy(before, before[i], before[j], policy);
    if Banded(before[j].price, before[i].price, policy) {
      BetterCopyWinsExactly(before, before[i], before[j], policy, settings);
    }
  }

  /** The policy keeps its promise in a group if and only if no penalised copy's cheapest better copy is in a band itself. */
  lemma PolicyHoldsExactly(card: WantedCard, raw: seq<Candidate>, settings: Settings, policy: ConditionValue)
    requires settings.conditionValue == Some(policy) && policy.preferHigher && policy.minPremium.GetOr(10.0) >= 0.0
    requires ChargedAlike(Eligible(card, raw, settings))
    ensures BetterCopiesWin(card, raw, settings)
            <==> forall worst, middle :: !Chained(Eligible(card, raw, settings), worst, middle, policy)
  {
    var before, after := Eligible(card, raw, settings), Group(card, raw, settings);
    if worst, middle :| Chained(before, worst, middle, policy) {
      var i :| 0 <= i < |before| && before[i] == worst;
      var j :| 0 <= j < |before| && before[j] == middle;
      ChainOrWin(card, raw, settings, policy, i, j);
    } else {
      forall i, j | 0 <= i < |before| && 0 <= j < |before| && CheapestBetter(before, before[i], before[j])
                    && after[i].valuePenalty != 0.0
        ensures EffectiveCost(after[j]) < EffectiveCost(after[i])
      {
        ChainOrWin(card, raw, settings, policy, i, j);
      }
    }
  }

  function Graded(condition: Condition, price: real): Selected {
    Selected("k", "K", Offer(0, Finite(price), condition, "s", "S"), "s", price, DMG, condition, 0, 0.0, 0.0, 0.0)
  }

  function RawCopy(condition: Condition, price: real): Candidate {
    Candidate("k", Offer(0, Finite(price), condition, "s", "S"), None)
  }

  const CHAIN_CARD := WantedCard("k", "K", None, None, None)
  const CHAIN_POLICY := ConditionValue(true, None, None, None)
  const CHAIN_SETTINGS := Settings(None, None, map[], None, Some(CHAIN_POLICY), None)

  const CHAIN_COPIES := [Graded(NM, 100.0), Graded(LP, 80.0), Graded(MP, 65.0)]

  lemma ChainIsEligible()
    ensures Eligible(CHAIN_CARD, [RawCopy(NM, 100.0), RawCopy(LP, 80.0), RawCopy(MP, 65.0)], CHAIN_SETTINGS)
            == CHAIN_COPIES
  {
    var a, b, c := RawCopy(NM, 100.0), RawCopy(LP, 80.0), RawCopy(MP, 65.0);
    assert BeforeColon("k") == "k";
    assert [a, b, c][..2] == [a, b] && [a, b][..1] == [a] && [a][..0] == [];
    assert PrepareOne(CHAIN_CARD, a, CHAIN_SETTINGS) == Some(Graded(NM, 100.0));
    assert PrepareOne(CHAIN_CARD, b, CHAIN_SETTINGS) == Some(Graded(LP, 80.0));
    assert PrepareOne(CHAIN_CARD, c, CHAIN_SETTINGS) == Some(Graded(MP, 65.0));
    assert Prepared(CHAIN_CARD, [a], CHAIN_SETTINGS) == [Graded(NM, 100.0)];
    assert Prepared(CHAIN_CARD, [a, b], CHAIN_SETTINGS) == [Graded(NM, 100.0), Graded(LP, 80.0)];
  }

  lemma ThreeCopiesChain()
    ensures var items := CHAIN_COPIES;
            && Chained(items, items[2], items[1], CHAIN_POLICY) && PenaltyFor(items, items[2], CHAIN_POLICY) == Some(15.000001)
            && EffectiveCost(Penalized(items, items[2], CHAIN_SETTINGS)) < EffectiveCost(Penalized(items, items[1], CHAIN_SETTINGS))
    ensures ChargedAlike(CHAIN_COPIES)
  {
    var nm, lp, mp := Graded(NM, 100.0), Graded(LP, 80.0), Graded(MP, 65.0);
    var items := [nm, lp, mp];
    assert forall s :: s in items <==> s == nm || s == lp || s == mp;
    assert CheapestBetter(items, mp, lp) && CheapestBetter(items, lp, nm);
    PenaltyBy(items, lp, nm, CHAIN_POLICY);
    PenaltyBy(items, mp, lp, CHAIN_POLICY);
    BetterCopyWinsExactly(items, mp, lp, CHAIN_POLICY, CHAIN_SETTINGS);
  }

  /** An actual group with three copies at 100, 80 and 65 breaks the default policy's promise: the middle copy loses to the worst. */
  lemma ThreeConditionsDefeatThePolicy()
    ensures !BetterCopiesWin(CHAIN_CARD, [RawCopy(NM, 100.0), RawCopy(LP, 80.0), RawCopy(MP, 65.0)], CHAIN_SETTINGS)
  {
    ChainIsEligible();
    ThreeCopiesChain();
    PolicyHoldsExactly(CHAIN_CARD, [RawCopy(NM, 100.0), RawCopy(LP, 80.0), RawCopy(MP, 65.0)], CHAIN_SETTINGS, CHAIN_POLICY);
  }
}
