/**
 * What `optimizeCart` returns: the report built from the winning selection, and what its
 * numbers and lists mean to a caller.
 */
module CartReport {
  import opened Numbers
  import opened Options
  import opened Text
  import opened CartOptimizer

  datatype Reason = NoCandidates | SetMismatchOnly | BelowMinimumOnly | CapacityExhausted | InvalidCandidates

  datatype MissingCard = MissingCard(wantedKey: string, wantedName: string, minimum: Condition, reason: Reason)

  datatype StorePlan = StorePlan(
    storeKey: string, storeName: string, shippingCost: real, subtotal: real, estimatedTotal: real, items: seq<Selected>)

  datatype Totals = Totals(
    subtotal: real, shipping: real, estimatedTotal: real, conditionPenalty: real,
    valuePenalty: real, setPenalty: real, objectiveTotal: real)

  datatype Status = Complete | Partial | Empty

  datatype Result = Result(
    status: Status, selected: seq<Selected>, stores: seq<StorePlan>, missing: seq<MissingCard>,
    totals: Totals, optimal: bool, evaluated: nat)

  function PriceOf(s: Selected): real { s.price }
  function ConditionPenaltyOf(s: Selected): real { s.conditionPenalty }
  function ValuePenaltyOf(s: Selected): real { s.valuePenalty }
  function SetPenaltyOf(s: Selected): real { s.setPenalty }

  function Total(items: seq<Selected>, amount: Selected -> real): real {
    if items == [] then 0.0 else Total(items[..|items| - 1], amount) + amount(items[|items| - 1])
  }

  function PlanShipping(plans: seq<StorePlan>): real {
    if plans == [] then 0.0 else PlanShipping(plans[..|plans| - 1]) + plans[|plans| - 1].shippingCost
  }

  function SelectedKeys(items: seq<Selected>): set<string> {
    set i | 0 <= i < |items| :: items[i].wantedKey
  }

  function RawFor(card: WantedCard, raw: seq<Candidate>): seq<Candidate> {
    if raw == [] then []
    else
      var last := raw[|raw| - 1];
      RawFor(card, raw[..|raw| - 1]) + (if last.wantedKey == BeforeColon(card.key) then [last] else [])
  }

  function WhyMissing(card: WantedCard, group: seq<Selected>, raw: seq<Candidate>, settings: Settings): Reason {
    var own := RawFor(card, raw);
    if own == [] then NoCandidates
    else if forall c :: c in own ==> !SetAccepted(card, c) then SetMismatchOnly
    else if forall c :: c in own && SetAccepted(card, c) ==>
              DowngradeSteps(MinimumFor(card, settings), c.offer.condition) > 0 then BelowMinimumOnly
    else if group != [] then CapacityExhausted else InvalidCandidates
  }

  function MissingCards(wanted: seq<WantedCard>, groups: seq<seq<Selected>>, raw: seq<Candidate>,
                        keys: set<string>, settings: Settings): seq<MissingCard>
    requires |wanted| == |groups|
  {
    if wanted == [] then []
    else
      var n := |wanted| - 1;
      MissingCards(wanted[..n], groups[..n], raw, keys, settings)
      + (if wanted[n].key in keys then []
         else [MissingCard(wanted[n].key, wanted[n].name, MinimumFor(wanted[n], settings),
                           WhyMissing(wanted[n], groups[n], raw, settings))])
  }

  /** Selected offers of one store, in selection order. */
  function InStore(items: seq<Selected>, store: string): (r: seq<Selected>)
    ensures store in OfferStores(items) ==> r != []
    ensures forall s :: s in r <==> s in items && s.storeKey == store
  {
    if items == [] then []
    else
      var init, last := items[..|items| - 1], items[|items| - 1];
      assert items == init + [last];
      assert OfferStores(items) == OfferStores(init) + [last.storeKey];
      InStore(init, store) + (if last.storeKey == store then [last] else [])
  }

  function PlanFor(items: seq<Selected>, store: string, settings: Settings): StorePlan
    requires items != []
  {
    var subtotal := Total(items, PriceOf);
    StorePlan(store, items[0].offer.storeName, ShippingFor(store, settings), subtotal,
              subtotal + ShippingFor(store, settings), items)
  }

  function Plans(items: seq<Selected>, settings: Settings): seq<StorePlan> {
    var stores := Uniq(OfferStores(items));
    seq(|stores|, i requires 0 <= i < |stores| =>
      assert stores[i] in stores;
      PlanFor(InStore(items, stores[i]), stores[i], settings))
  }

  function Assemble(wanted: seq<WantedCard>, missing: seq<MissingCard>, plans: seq<StorePlan>, items: seq<Selected>,
                    optimal: bool, evaluated: nat): Result {
    var subtotal, shipping := Total(items, PriceOf), PlanShipping(plans);
    var condition, value, sets :=
      Total(items, ConditionPenaltyOf), Total(items, ValuePenaltyOf), Total(items, SetPenaltyOf);
    Result(if wanted == [] then Empty else if missing == [] then Complete else if items == [] then Empty else Partial,
           items, plans, missing,
           Totals(subtotal, shipping, subtotal + shipping, condition, value, sets,
                  subtotal + shipping + condition + value + sets),
           optimal, evaluated)
  }

  function Report(wanted: seq<WantedCard>, groups: seq<seq<Selected>>, raw: seq<Candidate>, items: seq<Selected>,
                  settings: Settings, optimal: bool, evaluated: nat): Result
    requires |wanted| == |groups|
  {
    Assemble(wanted, MissingCards(wanted, groups, raw, SelectedKeys(items), settings), Plans(items, settings), items,
             optimal, evaluated)
  }

  // ----- The grouping loop -----

  /** Insertion-ordered map entries, as a JavaScript `Map` keeps them. */
  datatype StoreGroup = StoreGroup(store: string, items: seq<Selected>)

  function IndexOf(entries: seq<StoreGroup>, store: string): (i: nat)
    ensures i <= |entries|
    ensures i < |entries| ==> entries[i].store == store
    ensures forall k :: 0 <= k < i ==> entries[k].store != store
  {
    if entries == [] || entries[0].store == store then 0 else 1 + IndexOf(entries[1..], store)
  }

  function Put(entries: seq<StoreGroup>, item: Selected): seq<StoreGroup> {
    var i := IndexOf(entries, item.storeKey);
    if i < |entries| then entries[i := StoreGroup(item.storeKey, entries[i].items + [item])]
    else entries + [StoreGroup(item.storeKey, [item])]
  }

  ghost predicate EntriesMatch(entries: seq<StoreGroup>, items: seq<Selected>) {
    var stores := Uniq(OfferStores(items));
    |entries| == |stores| && forall i :: 0 <= i < |stores| ==> entries[i] == StoreGroup(stores[i], InStore(items, stores[i]))
  }

  lemma InStoreStep(items: seq<Selected>, n: nat, store: string)
    requires n < |items|
    ensures InStore(items[..n + 1], store)
            == InStore(items[..n], store) + if items[n].storeKey == store then [items[n]] else []
  {
    assert items[..n + 1][..n] == items[..n];
  }

  lemma StoresStep(items: seq<Selected>, n: nat)
    requires n < |items|
    ensures var stores := Uniq(OfferStores(items[..n]));
            Uniq(OfferStores(items[..n + 1])) == stores + if items[n].storeKey in stores then [] else [items[n].storeKey]
  {
    var next := OfferStores(items[..n + 1]);
    assert next[..n] == OfferStores(items[..n]) && next[n] == items[n].storeKey;
  }

  lemma PutGroups(entries: seq<StoreGroup>, items: seq<Selected>, n: nat)
    requires n < |items| && EntriesMatch(entries, items[..n])
    ensures EntriesMatch(Put(entries, items[n]), items[..n + 1])
  {
    var item := items[n];
    var stores, stores' := Uniq(OfferStores(items[..n])), Uniq(OfferStores(items[..n + 1]));
    StoresStep(items, n);
    var i := IndexOf(entries, item.storeKey);
    assert i < |entries| ==> stores[i] == item.storeKey;
    if i == |entries| {
      assert forall k :: 0 <= k < |stores| ==> entries[k].store == stores[k];
      NoneInStore(items[..n], item.storeKey);
    }
    forall k | 0 <= k < |stores'| ensures Put(entries, item)[k] == StoreGroup(stores'[k], InStore(items[..n + 1], stores'[k])) {
      InStoreStep(items, n, stores'[k]);
    }
  }

  lemma {:induction false} NoneInStore(items: seq<Selected>, store: string)
    requires store !in OfferStores(items)
    ensures InStore(items, store) == []
  {
    if items != [] {
      assert OfferStores(items) == OfferStores(items[..|items| - 1]) + [items[|items| - 1].storeKey];
      NoneInStore(items[..|items| - 1], store);
    }
  }

  method BuildResult(wanted: seq<WantedCard>, groups: seq<seq<Selected>>, raw: seq<Candidate>, items: seq<Selected>,
                     settings: Settings, optimal: bool, evaluated: nat)
    returns (r: Result)
    requires |wanted| == |groups|
    ensures r == Report(wanted, groups, raw, items, settings, optimal, evaluated)
  {
    var missing := MissingCards(wanted, groups, raw, SelectedKeys(items), settings);
    var grouped: seq<StoreGroup> := [];
    for n := 0 to |items|
      invariant EntriesMatch(grouped, items[..n])
    {
      PutGroups(grouped, items, n);
      grouped := Put(grouped, items[n]);
    }
    assert items[..|items|] == items;
    GroupedPlans(grouped, items, settings);
    r := Assemble(wanted, missing, PlansOf(grouped, settings), items, optimal, evaluated);
  }

  function PlansOf(entries: seq<StoreGroup>, settings: Settings): seq<StorePlan>
    requires forall i :: 0 <= i < |entries| ==> entries[i].items != []
  {
    seq(|entries|, i requires 0 <= i < |entries| => PlanFor(entries[i].items, entries[i].store, settings))
  }

  lemma GroupedPlans(entries: seq<StoreGroup>, items: seq<Selected>, settings: Settings)
    requires EntriesMatch(entries, items)
    ensures forall i :: 0 <= i < |entries| ==> entries[i].items != []
    ensures PlansOf(entries, settings) == Plans(items, settings)
  {
    var stores := Uniq(OfferStores(items));
    forall i | 0 <= i < |entries| ensures entries[i].items != [] {
      assert stores[i] in stores;
    }
  }

  // ----- The entry point -----

  function WantedGroups(input: Input, normalize: string -> string): seq<seq<Selected>> {
    Groups(WantedToBuy(input, normalize), input.candidates, input.settings)
  }

  /** Everything a caller can rely on about one call. */
  ghost predicate IsOutcome(input: Input, normalize: string -> string, clock: nat -> real, r: Result) {
    var groups := WantedGroups(input, normalize);
    var stores := StoreList(groups);
    && r == Report(WantedToBuy(input, normalize), groups, input.candidates, r.selected, input.settings, r.optimal, r.evaluated)
    && r.evaluated <= Pow2(|stores|)
    && OnTime(clock, input.settings, r.evaluated)
    && (r.optimal <==> |stores| <= EXACT_BITS && r.evaluated == Pow2(|stores|))
    && (!r.optimal ==> StoppedByClock(clock, input.settings, r.evaluated))
    && (r.evaluated == 0 ==> r.selected == [])
    && (r.evaluated > 0 ==> FirstBest(groups, stores, input.initialCart, input.settings, r.evaluated, r.selected))
  }

  method OptimizeCart(input: Input, normalize: string -> string, clock: nat -> real) returns (r: Result)
    requires Ends(clock, input.settings, StoreList(WantedGroups(input, normalize)))
    ensures IsOutcome(input, normalize, clock, r)
  {
    var wanted := WantedToBuy(input, normalize);
    var groups := PrepareCandidates(wanted, input.candidates, input.settings);
    var stores := StoreList(groups);
    var best, optimal, evaluated := SearchSubsets(groups, stores, input.initialCart, input.settings, clock);
    r := BuildResult(wanted, groups, input.candidates, if best.Some? then best.value.items else [], input.settings, optimal, evaluated);
  }
}
