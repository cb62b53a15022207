/** What a selection costs and which selection wins, in numbers of cards and amounts. */
module CartCosts {
  import opened Options
  import opened Sequences
  import opened Text
  import opened CartOptimizer
  import opened CartOptimality
  import opened CartReport
  import opened CartGuarantees
  import opened CartInputs
  import opened CartResults

  function Charges(stores: seq<string>, settings: Settings): real {
    if stores == [] then 0.0
    else Charges(stores[..|stores| - 1], settings)
         + var store := stores[|stores| - 1];
           if store in settings.shippingByStore then settings.shippingByStore[store] else settings.defaultShipping.GetOr(3.0)
  }

  lemma {:induction false} ChargesAreShipping(stores: seq<string>, settings: Settings)
    ensures ShippingTotal(stores, settings) == Charges(stores, settings)
  {
    if stores != [] {
      ChargesAreShipping(stores[..|stores| - 1], settings);
    }
  }

  lemma {:induction false} EffectiveTotalAdds(items: seq<Selected>)
    ensures EffectiveTotal(items) == Total(items, (s: Selected) => s.price + s.conditionPenalty + s.valuePenalty + s.setPenalty)
  {
    if items != [] {
      EffectiveTotalAdds(items[..|items| - 1]);
    }
  }

  /** `stores` names each store with an item in the cart or among the offers once. */
  ghost predicate StoresUsed(items: seq<Selected>, cart: seq<CartItem>, stores: seq<string>) {
    Distinct(stores) && forall s :: s in stores <==> (exists c :: c in cart && c.storeKey == s) || exists o :: o in items && o.storeKey == s
  }

  /** What is paid: every offer's price and penalties, and one charge for each store the cart or the offers use. */
  lemma ObjectiveExactly(items: seq<Selected>, cart: seq<CartItem>, settings: Settings) returns (stores: seq<string>)
    ensures StoresUsed(items, cart, stores)
    ensures Objective(items, cart, settings)
            == Total(items, (s: Selected) => s.price + s.conditionPenalty + s.valuePenalty + s.setPenalty) + Charges(stores, settings)
  {
    stores := UsedStores(cart, items);
    EffectiveTotalAdds(items);
    ChargesAreShipping(stores, settings);
    forall s ensures s in CartStores(cart) <==> exists c :: c in cart && c.storeKey == s {
      if c :| c in cart && c.storeKey == s {
        var i :| 0 <= i < |cart| && cart[i] == c;
        assert CartStores(cart)[i] == s;
      }
    }
    forall s ensures s in OfferStores(items) <==> exists o :: o in items && o.storeKey == s {
      if o :| o in items && o.storeKey == s {
        var i :| 0 <= i < |items| && items[i] == o;
        assert OfferStores(items)[i] == s;
      }
    }
  }

  /** `positions` picks, in order, exactly the cards with an offer. */
  ghost predicate PicksOffers(a: Assignment, items: seq<Selected>, positions: seq<nat>) {
    && |positions| == |items| && Rising(positions, |a|)
    && (forall k :: 0 <= k < |positions| ==> a[positions[k]] == Some(items[k]))
    && (forall p :: 0 <= p < |a| ==> (p in positions <==> a[p].Some?))
  }

  lemma PicksOneMoreOffer(a: Assignment, items: seq<Selected>, before: seq<nat>, o: Option<Selected>)
    requires PicksOffers(a, items, before)
    ensures o.None? ==> PicksOffers(a + [o], items, before)
    ensures o.Some? ==> PicksOffers(a + [o], items + [o.value], before + [|a|])
  {
    RisingWithLast(before, |a|);
    forall k | 0 <= k < |before| ensures before[k] < |a| && (a + [o])[before[k]] == a[before[k]] {
    }
    forall p | 0 <= p < |a| + 1 ensures (a + [o])[p] == if p < |a| then a[p] else o {
    }
  }

  lemma {:induction false} ChosenExactly(a: Assignment) returns (positions: seq<nat>)
    ensures PicksOffers(a, Chosen(a), positions)
  {
    if a == [] {
      positions := [];
    } else {
      var init, last := a[..|a| - 1], a[|a| - 1];
      var before := ChosenExactly(init);
      PicksOneMoreOffer(init, Chosen(init), before, last);
      assert init + [last] == a;
      positions := if last.Some? then before + [|init|] else before;
    }
  }

  /** What one mask stands for: its bits modulo 32 name the stores it may buy from. */
  ghost predicate Allows(stores: seq<string>, mask: nat, store: string) {
    exists i :: 0 <= i < |stores| && stores[i] == store && Bit(mask, i % 32)
  }

  /** `choices` takes for each card the first of the cheapest offers the mask allows, none if it allows none. */
  ghost predicate ChoicesUnder(groups: seq<seq<Selected>>, stores: seq<string>, mask: nat, choices: Assignment) {
    && |choices| == |groups|
    && forall i :: 0 <= i < |groups| ==>
         && (choices[i].None? <==> forall s :: s in groups[i] ==> !Allows(stores, mask, s.storeKey))
         && (choices[i].Some? ==> exists j: nat :: FirstCheapest(groups[i], stores, mask, j) && choices[i].value == groups[i][j])
  }

  ghost predicate FirstCheapest(group: seq<Selected>, stores: seq<string>, mask: nat, i: nat) {
    && i < |group| && Allows(stores, mask, group[i].storeKey)
    && forall j :: 0 <= j < |group| && Allows(stores, mask, group[j].storeKey) ==>
         Cost(group[i]) < Cost(group[j])
         || (Cost(group[i]) == Cost(group[j])
             && (group[i].price < group[j].price || (group[i].price == group[j].price && i <= j)))
  }

  lemma AllowedExactly(stores: seq<string>, mask: nat, store: string)
    ensures store in Allowed(stores, mask) <==> Allows(stores, mask, store)
  {
  }

  lemma FirstCheapestExactly(group: seq<Selected>, stores: seq<string>, mask: nat)
    ensures var c := Cheapest(group, Allowed(stores, mask));
            && (c.None? <==> forall s :: s in group ==> !Allows(stores, mask, s.storeKey))
            && (c.Some? ==> exists j: nat :: FirstCheapest(group, stores, mask, j) && c.value == group[j])
  {
    forall s | s in group ensures s.storeKey in Allowed(stores, mask) <==> Allows(stores, mask, s.storeKey) {
      AllowedExactly(stores, mask, s.storeKey);
    }
    if Cheapest(group, Allowed(stores, mask)).Some? {
      var i := PickExactly(group, Allowed(stores, mask));
      assert forall j :: 0 <= j < |group| ==> group[j] in group;
      assert FirstCheapest(group, stores, mask, i);
    }
  }

  lemma ChoicesExactly(groups: seq<seq<Selected>>, stores: seq<string>, mask: nat)
    ensures ChoicesUnder(groups, stores, mask, Choices(groups, Allowed(stores, mask)))
  {
    forall i | 0 <= i < |groups|
      ensures var c := Choices(groups, Allowed(stores, mask))[i];
              && (c.None? <==> forall s :: s in groups[i] ==> !Allows(stores, mask, s.storeKey))
              && (c.Some? ==> exists j: nat :: FirstCheapest(groups[i], stores, mask, j) && c.value == groups[i][j])
    {
      FirstCheapestExactly(groups[i], stores, mask);
    }
  }

  /**
   * A search that evaluated any mask returns the choices of one of them: no evaluated mask finds more cards, or as many for
   * less, and no earlier one as many for as much.
   */
  lemma WinnerExactly(input: Input, normalize: string -> string, clock: nat -> real, r: Result)
    returns (mask: nat, choices: Assignment, positions: seq<nat>)
    requires IsOutcome(input, normalize, clock, r) && r.evaluated > 0
    ensures mask < r.evaluated && ChoicesUnder(WantedGroups(input, normalize), StoreList(WantedGroups(input, normalize)), mask, choices)
    ensures PicksOffers(choices, r.selected, positions)
    ensures forall k: nat :: k < r.evaluated ==>
              var other := Pick(WantedGroups(input, normalize), StoreList(WantedGroups(input, normalize)), k);
              var paid, price := Objective(r.selected, input.initialCart, input.settings), Objective(other, input.initialCart, input.settings);
              |other| < |r.selected| || (|other| == |r.selected| && (paid < price || (paid == price && mask <= k)))
  {
    var groups := WantedGroups(input, normalize);
    var stores := StoreList(groups);
    mask :| mask < r.evaluated && r.selected == Pick(groups, stores, mask)
            && BestMask(groups, stores, input.initialCart, input.settings, r.evaluated, mask);
    choices := Choices(groups, Allowed(stores, mask));
    ChoicesExactly(groups, stores, mask);
    positions := ChosenExactly(choices);
    forall k: nat | k < r.evaluated
      ensures var other := Pick(groups, stores, k);
              var paid, price := Objective(r.selected, input.initialCart, input.settings), Objective(other, input.initialCart, input.settings);
              |other| < |r.selected| || (|other| == |r.selected| && (paid < price || (paid == price && mask <= k)))
    {
      assert NoBetter(Pick(groups, stores, k), r.selected, input.initialCart, input.settings);
    }
  }

  /** A result flagged optimal over at most 32 stores finds as many cards as any assignment, and pays no more than one that finds as many. */
  lemma OptimalInNumbers(input: Input, normalize: string -> string, clock: nat -> real, r: Result, a: Assignment)
    requires IsOutcome(input, normalize, clock, r) && r.optimal
    requires |StoreList(WantedGroups(input, normalize))| <= 32
    requires NonNegativeShipping(input.settings, StoreList(WantedGroups(input, normalize)))
    requires IsAssignment(a, WantedGroups(input, normalize))
    ensures |Chosen(a)| <= |r.selected|
    ensures |Chosen(a)| == |r.selected| ==>
              Objective(r.selected, input.initialCart, input.settings) <= Objective(Chosen(a), input.initialCart, input.settings)
  {
    OptimalResultsAreGloballyBest(input, normalize, clock, r);
    assert NoBetter(Chosen(a), r.selected, input.initialCart, input.settings);
  }
}
