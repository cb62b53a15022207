/**
 * Why the optimality theorems exclude negative shipping: under any given settings, up to 32
 * stores, complete searches are always best if and only if no store charges a negative amount.
 */
module ShippingSigns {
  import opened Numbers
  import opened Options
  import opened Text
  import opened CartOptimizer
  import opened CartOptimality

  ghost predicate CompleteSearchIsBest(wanted: seq<WantedCard>, raw: seq<Candidate>, cart: seq<CartItem>, settings: Settings, items: seq<Selected>) {
    var groups := Groups(wanted, raw, settings);
    var stores := StoreList(groups);
    |stores| <= 32 && FirstBest(groups, stores, cart, settings, Pow2(|stores|), items) ==> GloballyBest(items, groups, cart, settings)
  }

  ghost predicate AlwaysBestUnder(settings: Settings) {
    forall wanted, raw, cart, items :: CompleteSearchIsBest(wanted, raw, cart, settings, items)
  }

  /** A negative step bound rejects every offer. */
  predicate RejectsAll(settings: Settings) {
    settings.flexibility.Some? && settings.flexibility.value.maxDowngradeSteps.Some? && settings.flexibility.value.maxDowngradeSteps.value < 0
  }

  ghost predicate NoNegativeShipping(settings: Settings) {
    forall s: string :: s != "" ==> ShippingFor(s, settings) >= 0.0
  }

  // ----- Settings under which nothing can go wrong -----

  lemma OffersHaveStores(card: WantedCard, raw: seq<Candidate>, settings: Settings)
    ensures forall s :: s in Group(card, raw, settings) ==> s.storeKey != ""
    ensures RejectsAll(settings) ==> Group(card, raw, settings) == []
  {
    var prepared := Prepared(card, raw, settings);
    var eligible := SavingsPolicy(prepared, settings);
    forall s | s in Group(card, raw, settings) ensures s.storeKey != "" && !RejectsAll(settings) {
      var i :| 0 <= i < |eligible| && s == Penalized(eligible, eligible[i], settings);
      assert eligible[i] in prepared;
    }
    if Group(card, raw, settings) != [] {
      assert Group(card, raw, settings)[0] in Group(card, raw, settings);
    }
  }

  lemma StoresAreNamed(wanted: seq<WantedCard>, raw: seq<Candidate>, settings: Settings)
    ensures "" !in StoreList(Groups(wanted, raw, settings))
  {
    var groups := Groups(wanted, raw, settings);
    forall k | k in StoreList(groups) ensures k != "" {
      assert k in AllStores(groups);
      var i, j :| 0 <= i < |groups| && 0 <= j < |groups[i]| && groups[i][j].storeKey == k;
      OffersHaveStores(wanted[i], raw, settings);
      assert groups[i][j] in groups[i];
    }
  }

  lemma HarmlessSettings(wanted: seq<WantedCard>, raw: seq<Candidate>, cart: seq<CartItem>, settings: Settings, items: seq<Selected>)
    requires RejectsAll(settings) || NoNegativeShipping(settings)
    ensures CompleteSearchIsBest(wanted, raw, cart, settings, items)
  {
    var groups := Groups(wanted, raw, settings);
    var stores := StoreList(groups);
    if |stores| <= 32 && FirstBest(groups, stores, cart, settings, Pow2(|stores|), items) {
      if NoNegativeShipping(settings) {
        StoresAreNamed(wanted, raw, settings);
        CompleteSearchIsGloballyBest(groups, cart, settings, items);
      } else {
        forall i | 0 <= i < |groups| ensures groups[i] == [] { OffersHaveStores(wanted[i], raw, settings); }
        forall a: Assignment | IsAssignment(a, groups) ensures Chosen(a) == [] { NothingChosen(a); }
        var m: nat :| items == Pick(groups, stores, m);
        assert IsAssignment(Choices(groups, Allowed(stores, m)), groups);
      }
    }
  }

  // ----- A store that pays -----

  function MintOffer(card: WantedCard, store: string, price: real, settings: Settings): Selected {
    Selected(card.key, card.name, Offer(0, Finite(price), NM, store, store), store, price, MinimumFor(card, settings), NM, 0, 0.0, 0.0, 0.0)
  }

  lemma MintIsPrepared(card: WantedCard, key: string, store: string, price: real, settings: Settings)
    requires card in [CARD_A, CARD_B] && key in ["a", "b"] && store != "" && price >= 0.0 && !RejectsAll(settings)
    ensures PrepareOne(card, Copy(key, store, price), settings)
            == if card.key == key then Some(MintOffer(card, store, price, settings)) else None
  {
    assert BeforeColon("a") == "a" && BeforeColon("b") == "b";
  }

  ghost predicate AllMint(items: seq<Selected>) {
    forall s :: s in items ==> s.condition == NM && s.steps == 0
  }

  lemma {:induction false} MintIsKept(items: seq<Selected>, baseline: Option<Selected>)
    requires AllMint(items)
    ensures KeepWorthwhile(items, baseline) == items
  {
    if items != [] {
      var init, last := items[..|items| - 1], items[|items| - 1];
      assert items == init + [last];
      MintIsKept(init, baseline);
    }
  }

  lemma MintIsUnpenalised(items: seq<Selected>, settings: Settings)
    requires AllMint(items)
    ensures WithConditionValue(items, settings) == items
  {
    forall i | 0 <= i < |items| ensures Penalized(items, items[i], settings) == items[i] {
      HigherPriceIsTheLowest(items, items[i]);
    }
  }

  /** Card A at both stores, dearer at the one that pays; card B only at the other. */
  function TwoStoreCandidates(u: string, t: string, extra: real): seq<Candidate> {
    [Copy("a", u, 0.0), Copy("a", t, extra), Copy("b", u, 0.0)]
  }

  lemma TwoStorePrepared(card: WantedCard, u: string, t: string, extra: real, settings: Settings)
    requires card in [CARD_A, CARD_B] && u != "" && t != "" && extra >= 0.0 && !RejectsAll(settings)
    ensures forall s :: s in Prepared(card, TwoStoreCandidates(u, t, extra), settings) <==>
              s == MintOffer(card, u, 0.0, settings) || (card == CARD_A && s == MintOffer(card, t, extra, settings))
  {
    var raw := TwoStoreCandidates(u, t, extra);
    MintIsPrepared(card, "a", u, 0.0, settings);
    MintIsPrepared(card, "a", t, extra, settings);
    MintIsPrepared(card, "b", u, 0.0, settings);
    assert |raw| == 3 && raw[0] == Copy("a", u, 0.0) && raw[1] == Copy("a", t, extra) && raw[2] == Copy("b", u, 0.0);
    assert PrepareOne(card, raw[if card == CARD_A then 0 else 2], settings) == Some(MintOffer(card, u, 0.0, settings));
    assert card == CARD_A ==> PrepareOne(card, raw[1], settings) == Some(MintOffer(card, t, extra, settings));
  }

  lemma MintGroup(card: WantedCard, raw: seq<Candidate>, settings: Settings)
    requires AllMint(Prepared(card, raw, settings))
    ensures Group(card, raw, settings) == Prepared(card, raw, settings)
  {
    var prepared := Prepared(card, raw, settings);
    MintIsKept(prepared, Baseline(prepared));
    MintIsUnpenalised(prepared, settings);
  }

  lemma TwoStoreGroup(card: WantedCard, u: string, t: string, extra: real, settings: Settings)
    requires card in [CARD_A, CARD_B] && u != "" && t != "" && extra >= 0.0 && !RejectsAll(settings)
    ensures forall s :: s in Group(card, TwoStoreCandidates(u, t, extra), settings) <==>
              s == MintOffer(card, u, 0.0, settings) || (card == CARD_A && s == MintOffer(card, t, extra, settings))
  {
    TwoStorePrepared(card, u, t, extra, settings);
    MintGroup(card, TwoStoreCandidates(u, t, extra), settings);
  }

  /** What a set of stores yields from two copies of one card and one of another. */
  lemma TwoStoreChoices(groups: seq<seq<Selected>>, allowed: set<string>, au: Selected, at: Selected, bu: Selected)
    requires |groups| == 2 && au.storeKey == bu.storeKey && EffectiveCost(au) < EffectiveCost(at)
    requires forall s :: s in groups[0] <==> s == au || s == at
    requires forall s :: s in groups[1] <==> s == bu
    ensures var picks := Choices(groups, allowed);
            if au.storeKey in allowed then picks == [Some(au), Some(bu)] else |picks| == 2 && None in picks
  {
    var a, b := Cheapest(groups[0], allowed), Cheapest(groups[1], allowed);
    assert Choices(groups, allowed) == [a, b];
    if au.storeKey in allowed {
      assert au in groups[0] && bu in groups[1];
      assert !Before(au, a.value);
    } else {
      assert b.None?;
    }
  }

  lemma PaidBeatsPicks(au: Selected, at: Selected, bu: Selected, settings: Settings, picks: Assignment)
    requires au.storeKey == bu.storeKey != at.storeKey
    requires EffectiveCost(at) + ShippingFor(at.storeKey, settings) < EffectiveCost(au)
    requires picks == [Some(au), Some(bu)] || (|picks| == 2 && None in picks)
    ensures !NoBetter(Chosen([Some(at), Some(bu)]), Chosen(picks), [], settings)
  {
    TwoOffers(at, bu, settings);
    TwoOffers(au, bu, settings);
    ChosenAtMost(picks);
  }

  /** Every mask's pick loses to buying card A where shipping pays. */
  lemma EveryPickLoses(u: string, t: string, settings: Settings, extra: real, mask: nat)
    requires u != "" && t != "" && u != t && !RejectsAll(settings)
    requires 0.0 < extra && extra + ShippingFor(t, settings) < 0.0
    ensures var groups := Groups([CARD_A, CARD_B], TwoStoreCandidates(u, t, extra), settings);
            var paid: Assignment := [Some(MintOffer(CARD_A, t, extra, settings)), Some(MintOffer(CARD_B, u, 0.0, settings))];
            IsAssignment(paid, groups) && !NoBetter(Chosen(paid), Pick(groups, StoreList(groups), mask), [], settings)
  {
    var groups := Groups([CARD_A, CARD_B], TwoStoreCandidates(u, t, extra), settings);
    var allowed := Allowed(StoreList(groups), mask);
    var au, at, bu := MintOffer(CARD_A, u, 0.0, settings), MintOffer(CARD_A, t, extra, settings), MintOffer(CARD_B, u, 0.0, settings);
    TwoStoreGroup(CARD_A, u, t, extra, settings);
    TwoStoreGroup(CARD_B, u, t, extra, settings);
    TwoStoreChoices(groups, allowed, au, at, bu);
    PaidBeatsPicks(au, at, bu, settings, Choices(groups, allowed));
  }

  lemma FewStores(stores: seq<string>, u: string, t: string)
    requires StrictlySorted(stores) && forall s :: s in stores ==> s == u || s == t
    ensures |stores| <= 2
  {
    if |stores| > 2 {
      assert stores[0] in stores && stores[1] in stores && stores[2] in stores;
      LessTotal(u, u);
      LessTotal(t, t);
    }
  }

  lemma TwoStoresListed(u: string, t: string, settings: Settings, extra: real)
    requires u != "" && t != "" && extra >= 0.0 && !RejectsAll(settings)
    ensures |StoreList(Groups([CARD_A, CARD_B], TwoStoreCandidates(u, t, extra), settings))| <= 2
  {
    var groups := Groups([CARD_A, CARD_B], TwoStoreCandidates(u, t, extra), settings);
    TwoStoreGroup(CARD_A, u, t, extra, settings);
    TwoStoreGroup(CARD_B, u, t, extra, settings);
    forall s | s in StoreList(groups) ensures s == u || s == t {
      assert s in AllStores(groups);
      var i, j :| 0 <= i < |groups| && 0 <= j < |groups[i]| && groups[i][j].storeKey == s;
      assert groups[i][j] in groups[i];
      assert i == 0 || i == 1;
    }
    FewStores(StoreList(groups), u, t);
  }

  lemma NegativeShippingMisses(t: string, settings: Settings)
    requires t != "" && ShippingFor(t, settings) < 0.0 && !RejectsAll(settings)
    ensures !AlwaysBestUnder(settings)
  {
    var u := if t == "a" then "b" else "a";
    var extra := -ShippingFor(t, settings) / 2.0;
    var raw := TwoStoreCandidates(u, t, extra);
    var groups := Groups([CARD_A, CARD_B], raw, settings);
    var stores := StoreList(groups);
    TwoStoresListed(u, t, settings, extra);
    var m := SearchHasAWinner(groups, stores, [], settings, Pow2(|stores|));
    EveryPickLoses(u, t, settings, extra, m);
    var paid: Assignment := [Some(MintOffer(CARD_A, t, extra, settings)), Some(MintOffer(CARD_B, u, 0.0, settings))];
    BeatenIsNotGloballyBest(Pick(groups, stores, m), paid, groups, [], settings);
    assert !CompleteSearchIsBest([CARD_A, CARD_B], raw, [], settings, Pick(groups, stores, m));
  }

  /** Complete searches over up to 32 stores are always best if and only if no store charges a negative amount (or no offer is ever accepted). */
  lemma BestExactlyWithoutNegativeShipping(settings: Settings)
    ensures AlwaysBestUnder(settings) <==> RejectsAll(settings) || NoNegativeShipping(settings)
  {
    if RejectsAll(settings) || NoNegativeShipping(settings) {
      forall wanted, raw, cart, items ensures CompleteSearchIsBest(wanted, raw, cart, settings, items) {
        HarmlessSettings(wanted, raw, cart, settings, items);
      }
    } else {
      var t: string :| t != "" && ShippingFor(t, settings) < 0.0;
      NegativeShippingMisses(t, settings);
    }
  }
}
