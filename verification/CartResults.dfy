/** What the report of a result says, field by field. */
module CartResults {
  import opened Options
  import opened Sequences
  import opened Text
  import opened CartOptimizer
  import opened CartReport
  import opened CartInputs

  // ----- Missing cards -----

  /** What is read of a card when it is missing. */
  datatype MissingCase = MissingCase(card: WantedCard, group: seq<Selected>, raw: seq<Candidate>, settings: Settings)

  /** Some candidate carries the card's key. */
  ghost predicate HasCandidate(m: MissingCase) {
    exists c :: c in m.raw && c.wantedKey == BeforeColon(m.card.key)
  }

  /** Some candidate of the card is of the preferred set. */
  ghost predicate HasPreferredSet(m: MissingCase) {
    exists c :: c in m.raw && IsOfCard(m.card, c)
  }

  /** Some such candidate is no worse than the minimum. */
  ghost predicate HasAcceptable(m: MissingCase) {
    exists c :: c in m.raw && IsOfCard(m.card, c)
                && GradesBelow(m.card.minimumCondition.GetOr(m.settings.defaultMinimum.GetOr(DMG)), c.offer.condition, 0)
  }

  lemma {:induction false} RawForMembers(card: WantedCard, raw: seq<Candidate>)
    ensures forall c :: c in RawFor(card, raw) <==> c in raw && c.wantedKey == BeforeColon(card.key)
  {
    if raw != [] {
      RawForMembers(card, raw[..|raw| - 1]);
      assert raw == raw[..|raw| - 1] + [raw[|raw| - 1]];
    }
  }

  /** The reason given is the first of the four that holds; none of them means that every offer is invalid. */
  lemma ReasonExactly(m: MissingCase)
    ensures WhyMissing(m.card, m.group, m.raw, m.settings)
            == if !HasCandidate(m) then NoCandidates
               else if !HasPreferredSet(m) then SetMismatchOnly
               else if !HasAcceptable(m) then BelowMinimumOnly
               else if m.group != [] then CapacityExhausted else InvalidCandidates
  {
    var own := RawFor(m.card, m.raw);
    RawForMembers(m.card, m.raw);
    assert HasCandidate(m) ==> own != [];
    assert own != [] ==> own[0] in own;
    assert forall c :: c in own && SetAccepted(m.card, c) <==> c in m.raw && IsOfCard(m.card, c);
    forall c | c in own
      ensures DowngradeSteps(MinimumFor(m.card, m.settings), c.offer.condition) == 0
              <==> GradesBelow(m.card.minimumCondition.GetOr(m.settings.defaultMinimum.GetOr(DMG)), c.offer.condition, 0)
    {
      DowngradesAreGrades(MinimumFor(m.card, m.settings), c.offer.condition, 0);
    }
  }

  /** `positions` picks, in order, exactly the cards without a selected key, and `missing` reports them. */
  ghost predicate ReportsMissing(wanted: seq<WantedCard>, groups: seq<seq<Selected>>, raw: seq<Candidate>, keys: set<string>,
                                 settings: Settings, missing: seq<MissingCard>, positions: seq<nat>)
    requires |wanted| == |groups|
  {
    && |positions| == |missing| && Rising(positions, |wanted|)
    && (forall k :: 0 <= k < |positions| ==>
          var p := positions[k];
          && missing[k].wantedKey == wanted[p].key && missing[k].wantedName == wanted[p].name
          && missing[k].minimum == wanted[p].minimumCondition.GetOr(settings.defaultMinimum.GetOr(DMG))
          && missing[k].reason == WhyMissing(wanted[p], groups[p], raw, settings))
    && (forall p :: 0 <= p < |wanted| ==> (p in positions <==> wanted[p].key !in keys))
  }

  lemma OneMoreReported(wanted: seq<WantedCard>, groups: seq<seq<Selected>>, raw: seq<Candidate>, keys: set<string>,
                        settings: Settings, missing: seq<MissingCard>, before: seq<nat>, card: WantedCard, group: seq<Selected>)
    requires |wanted| == |groups| && ReportsMissing(wanted, groups, raw, keys, settings, missing, before)
    ensures card.key in keys ==> ReportsMissing(wanted + [card], groups + [group], raw, keys, settings, missing, before)
    ensures card.key !in keys ==>
              ReportsMissing(wanted + [card], groups + [group], raw, keys, settings,
                             missing + [MissingCard(card.key, card.name, card.minimumCondition.GetOr(settings.defaultMinimum.GetOr(DMG)),
                                                    WhyMissing(card, group, raw, settings))],
                             before + [|wanted|])
  {
    RisingWithLast(before, |wanted|);
    forall k | 0 <= k < |before|
      ensures before[k] < |wanted| && (wanted + [card])[before[k]] == wanted[before[k]] && (groups + [group])[before[k]] == groups[before[k]]
    {
    }
    forall p | 0 <= p < |wanted| + 1 ensures (wanted + [card])[p] == if p < |wanted| then wanted[p] else card {
    }
  }

  lemma {:induction false} MissingExactly(wanted: seq<WantedCard>, groups: seq<seq<Selected>>, raw: seq<Candidate>,
                                          keys: set<string>, settings: Settings)
    returns (positions: seq<nat>)
    requires |wanted| == |groups|
    ensures ReportsMissing(wanted, groups, raw, keys, settings, MissingCards(wanted, groups, raw, keys, settings), positions)
  {
    if wanted == [] {
      positions := [];
    } else {
      var n := |wanted| - 1;
      var before := MissingExactly(wanted[..n], groups[..n], raw, keys, settings);
      OneMoreReported(wanted[..n], groups[..n], raw, keys, settings, MissingCards(wanted[..n], groups[..n], raw, keys, settings),
                      before, wanted[n], groups[n]);
      assert wanted[..n] + [wanted[n]] == wanted && groups[..n] + [groups[n]] == groups;
      positions := if wanted[n].key in keys then before else before + [n];
    }
  }

  // ----- Amounts -----

  lemma {:induction false} TotalsAlike(items: seq<Selected>, f: Selected -> real, g: Selected -> real)
    requires forall s :: f(s) == g(s)
    ensures Total(items, f) == Total(items, g)
  {
    if items != [] {
      TotalsAlike(items[..|items| - 1], f, g);
    }
  }

  /** A plan's own items in selection order, named after the first of them, and what they cost. */
  ghost predicate PlanAdds(plan: StorePlan, settings: Settings) {
    && plan.items != [] && plan.storeName == plan.items[0].offer.storeName
    && plan.subtotal == Total(plan.items, (s: Selected) => s.price)
    && plan.shippingCost == (if plan.storeKey in settings.shippingByStore then settings.shippingByStore[plan.storeKey]
                             else settings.defaultShipping.GetOr(3.0))
    && plan.estimatedTotal == plan.subtotal + plan.shippingCost
  }

  lemma PlansAdd(items: seq<Selected>, settings: Settings)
    ensures forall i :: 0 <= i < |Plans(items, settings)| ==> PlanAdds(Plans(items, settings)[i], settings)
  {
    var plans := Plans(items, settings);
    forall i | 0 <= i < |plans| ensures PlanAdds(plans[i], settings) {
      TotalsAlike(plans[i].items, PriceOf, (s: Selected) => s.price);
    }
  }

  /** `positions` picks, in order, exactly the items of one store. */
  ghost predicate PicksStore(items: seq<Selected>, store: string, picked: seq<Selected>, positions: seq<nat>) {
    && |positions| == |picked| && Rising(positions, |items|)
    && (forall k :: 0 <= k < |positions| ==> picked[k] == items[positions[k]])
    && (forall p :: 0 <= p < |items| ==> (p in positions <==> items[p].storeKey == store))
  }

  lemma PicksOneMore(items: seq<Selected>, store: string, picked: seq<Selected>, before: seq<nat>, s: Selected)
    requires PicksStore(items, store, picked, before)
    ensures s.storeKey != store ==> PicksStore(items + [s], store, picked, before)
    ensures s.storeKey == store ==> PicksStore(items + [s], store, picked + [s], before + [|items|])
  {
    RisingWithLast(before, |items|);
    forall k | 0 <= k < |before| ensures before[k] < |items| && picked[k] == (items + [s])[before[k]] {
    }
    forall p | 0 <= p < |items| + 1 ensures (items + [s])[p] == if p < |items| then items[p] else s {
    }
  }

  lemma {:induction false} InStoreExactly(items: seq<Selected>, store: string) returns (positions: seq<nat>)
    ensures PicksStore(items, store, InStore(items, store), positions)
  {
    if items == [] {
      positions := [];
    } else {
      var init, last := items[..|items| - 1], items[|items| - 1];
      var before := InStoreExactly(init, store);
      PicksOneMore(init, store, InStore(init, store), before, last);
      assert init + [last] == items;
      positions := if last.storeKey == store then before + [|init|] else before;
    }
  }

  /** Each plan holds, in order, exactly the selected offers of its store; there is one for each store that sells any. */
  lemma PlansExactly(items: seq<Selected>, settings: Settings, i: nat) returns (positions: seq<nat>)
    requires i < |Plans(items, settings)|
    ensures PicksStore(items, Plans(items, settings)[i].storeKey, Plans(items, settings)[i].items, positions)
    ensures PlanAdds(Plans(items, settings)[i], settings)
    ensures forall s :: s in items ==> exists j :: 0 <= j < |Plans(items, settings)| && Plans(items, settings)[j].storeKey == s.storeKey
  {
    PlansAdd(items, settings);
    positions := InStoreExactly(items, Plans(items, settings)[i].storeKey);
    var stores := Uniq(OfferStores(items));
    forall s | s in items ensures exists j :: 0 <= j < |Plans(items, settings)| && Plans(items, settings)[j].storeKey == s.storeKey {
      var p :| 0 <= p < |items| && items[p] == s;
      assert OfferStores(items)[p] in stores;
      var j :| 0 <= j < |stores| && stores[j] == s.storeKey;
      assert Plans(items, settings)[j].storeKey == stores[j];
    }
  }

  /** The seven amounts of a result, each added up over the selection or the plans. */
  ghost predicate TotalsAdd(r: Result) {
    && r.totals.subtotal == Total(r.selected, (s: Selected) => s.price)
    && r.totals.shipping == PlanShipping(r.stores)
    && r.totals.estimatedTotal == r.totals.subtotal + r.totals.shipping
    && r.totals.conditionPenalty == Total(r.selected, (s: Selected) => s.conditionPenalty)
    && r.totals.valuePenalty == Total(r.selected, (s: Selected) => s.valuePenalty)
    && r.totals.setPenalty == Total(r.selected, (s: Selected) => s.setPenalty)
    && r.totals.objectiveTotal == r.totals.estimatedTotal + r.totals.conditionPenalty + r.totals.valuePenalty + r.totals.setPenalty
  }

  lemma TotalsExactly(input: Input, normalize: string -> string, clock: nat -> real, r: Result)
    requires IsOutcome(input, normalize, clock, r)
    ensures TotalsAdd(r) && r.stores == Plans(r.selected, input.settings)
  {
    TotalsAlike(r.selected, PriceOf, (s: Selected) => s.price);
    TotalsAlike(r.selected, ConditionPenaltyOf, (s: Selected) => s.conditionPenalty);
    TotalsAlike(r.selected, ValuePenaltyOf, (s: Selected) => s.valuePenalty);
    TotalsAlike(r.selected, SetPenaltyOf, (s: Selected) => s.setPenalty);
  }

  /**
   * A result lists as missing, in order, exactly the copies to be bought whose key no selected offer carries, each with the
   * first reason that holds. It is empty if nothing is wanted or nothing found, complete if nothing else is missing.
   */
  lemma MissingAndStatusExactly(input: Input, normalize: string -> string, clock: nat -> real, r: Result)
    returns (positions: seq<nat>)
    requires IsOutcome(input, normalize, clock, r)
    ensures ReportsMissing(WantedToBuy(input, normalize), WantedGroups(input, normalize), input.candidates,
                           SelectedKeys(r.selected), input.settings, r.missing, positions)
    ensures forall key :: key in SelectedKeys(r.selected) <==> exists s :: s in r.selected && s.wantedKey == key
    ensures r.status.Empty? <==> WantedToBuy(input, normalize) == [] || (r.missing != [] && r.selected == [])
    ensures r.status.Complete? <==> WantedToBuy(input, normalize) != [] && r.missing == []
  {
    positions := MissingExactly(WantedToBuy(input, normalize), WantedGroups(input, normalize), input.candidates,
                                SelectedKeys(r.selected), input.settings);
    forall key | exists s :: s in r.selected && s.wantedKey == key ensures key in SelectedKeys(r.selected) {
      var s :| s in r.selected && s.wantedKey == key;
      var i :| 0 <= i < |r.selected| && r.selected[i] == s;
    }
  }
}
