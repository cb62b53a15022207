/**
 * What the optimizer reads off a request: which copies are still to be bought, and which raw
 * candidates become offers for them, in the caller's own fields.
 */
module CartInputs {
  import opened Options
  import opened Sequences
  import opened Text
  import opened CartOptimizer
  import opened CartOptimality
  import opened CartReport
  import opened CartGuarantees

  // ----- Which copies are to be bought -----

  /** Some item of the initial cart has this name, titles and names compared normalised. */
  ghost predicate InCart(input: Input, normalize: string -> string, name: string) {
    exists i :: 0 <= i < |input.initialCart| && normalize(input.initialCart[i].title) == normalize(name)
  }

  /** `positions` picks, in order, exactly the elements of `all` that are not in the cart. */
  ghost predicate KeepsTheRest(input: Input, normalize: string -> string, all: seq<WantedCard>, kept: seq<WantedCard>, positions: seq<nat>) {
    && |positions| == |kept| && Rising(positions, |all|)
    && (forall k :: 0 <= k < |positions| ==> kept[k] == all[positions[k]])
    && (forall p :: 0 <= p < |all| ==> (p in positions <==> !InCart(input, normalize, all[p].name)))
  }

  lemma OwnedAreInCart(input: Input, normalize: string -> string, name: string)
    ensures normalize(name) in OwnedNames(input.initialCart, normalize) <==> InCart(input, normalize, name)
  {
  }

  lemma KeepsOneMore(input: Input, normalize: string -> string, all: seq<WantedCard>, kept: seq<WantedCard>, before: seq<nat>, c: WantedCard)
    requires KeepsTheRest(input, normalize, all, kept, before)
    ensures InCart(input, normalize, c.name) ==> KeepsTheRest(input, normalize, all + [c], kept, before)
    ensures !InCart(input, normalize, c.name) ==> KeepsTheRest(input, normalize, all + [c], kept + [c], before + [|all|])
  {
    RisingWithLast(before, |all|);
    forall k | 0 <= k < |before| ensures before[k] < |all| && kept[k] == (all + [c])[before[k]] {
    }
    forall p | 0 <= p < |all| + 1 ensures (all + [c])[p] == if p < |all| then all[p] else c {
    }
  }

  lemma KeptOneMore(input: Input, normalize: string -> string, init: seq<WantedCard>, last: WantedCard)
    ensures var owned := OwnedNames(input.initialCart, normalize);
            NotInCart(init + [last], owned, normalize)
            == NotInCart(init, owned, normalize) + if InCart(input, normalize, last.name) then [] else [last]
  {
    assert (init + [last])[..|init|] == init;
    OwnedAreInCart(input, normalize, last.name);
  }

  lemma {:induction false} NotInCartKeepsTheRest(input: Input, normalize: string -> string, cards: seq<WantedCard>)
    returns (positions: seq<nat>)
    ensures KeepsTheRest(input, normalize, cards, NotInCart(cards, OwnedNames(input.initialCart, normalize), normalize), positions)
  {
    if cards == [] {
      positions := [];
    } else {
      var init, last := cards[..|cards| - 1], cards[|cards| - 1];
      var before := NotInCartKeepsTheRest(input, normalize, init);
      KeepsOneMore(input, normalize, init, NotInCart(init, OwnedNames(input.initialCart, normalize), normalize), before, last);
      KeptOneMore(input, normalize, init, last);
      assert init + [last] == cards;
      positions := if InCart(input, normalize, last.name) then before else before + [|init|];
    }
  }

  /** The copies to be bought are, in order, exactly those no cart item's title names. */
  lemma WantedToBuyExactly(input: Input, normalize: string -> string) returns (positions: seq<nat>)
    ensures KeepsTheRest(input, normalize, ExpandWanted(input.wanted), WantedToBuy(input, normalize), positions)
    ensures forall c: WantedCard :: c in WantedToBuy(input, normalize) <==>
              c in ExpandWanted(input.wanted)
              && !exists i :: 0 <= i < |input.initialCart| && normalize(input.initialCart[i].title) == normalize(c.name)
  {
    positions := NotInCartKeepsTheRest(input, normalize, ExpandWanted(input.wanted));
    forall c: WantedCard ensures normalize(c.name) in OwnedNames(input.initialCart, normalize) <==> InCart(input, normalize, c.name) {
      OwnedAreInCart(input, normalize, c.name);
    }
  }

  /** Copies asked for: the whole part of the quantity, one if that is missing or less. */
  function CopiesAsked(card: WantedCard): nat {
    var whole := card.quantity.GetOr(1.0).Floor;
    if whole < 1 then 1 else whole
  }

  /** Where the copies of card i start. */
  function FirstCopy(cards: seq<WantedCard>, i: nat): nat
    requires i <= |cards|
  {
    if i == 0 then 0 else FirstCopy(cards, i - 1) + CopiesAsked(cards[i - 1])
  }

  lemma {:induction false} FirstCopyOfPrefix(cards: seq<WantedCard>, n: nat, i: nat)
    requires i <= n <= |cards|
    ensures FirstCopy(cards[..n], i) == FirstCopy(cards, i)
  {
    if i > 0 {
      FirstCopyOfPrefix(cards, n, i - 1);
    }
  }

  lemma {:induction false} ExpandedLength(cards: seq<WantedCard>)
    ensures |ExpandWanted(cards)| == FirstCopy(cards, |cards|)
  {
    if cards != [] {
      ExpandedLength(cards[..|cards| - 1]);
      FirstCopyOfPrefix(cards, |cards| - 1, |cards| - 1);
    }
  }

  /** Copy k of card i differs from the card in its key at most: numbered from one if more than one is asked for. */
  lemma {:induction false} CopiesExactly(cards: seq<WantedCard>, i: nat, k: nat)
    requires i < |cards| && k < CopiesAsked(cards[i])
    ensures |ExpandWanted(cards)| == FirstCopy(cards, |cards|)
    ensures FirstCopy(cards, i) + k < |ExpandWanted(cards)|
    ensures ExpandWanted(cards)[FirstCopy(cards, i) + k]
            == cards[i].(key := if cards[i].quantity.GetOr(1.0) > 1.0 then cards[i].key + ":" + Decimal(k + 1) else cards[i].key)
  {
    var n := |cards| - 1;
    ExpandedLength(cards);
    ExpandedLength(cards[..n]);
    FirstCopyOfPrefix(cards, n, n);
    if i < n {
      CopiesExactly(cards[..n], i, k);
      FirstCopyOfPrefix(cards, n, i);
    }
  }

  // ----- Lifted to results -----

  lemma {:induction false} MissingAreWanted(wanted: seq<WantedCard>, groups: seq<seq<Selected>>, raw: seq<Candidate>,
                                            keys: set<string>, settings: Settings)
    requires |wanted| == |groups|
    ensures forall m :: m in MissingCards(wanted, groups, raw, keys, settings) ==>
              exists c :: c in wanted && m.wantedKey == c.key && m.wantedName == c.name
  {
    if wanted != [] {
      var n := |wanted| - 1;
      MissingAreWanted(wanted[..n], groups[..n], raw, keys, settings);
      assert wanted == wanted[..n] + [wanted[n]];
    }
  }

  /** Every selected offer is one prepared for a copy still to be bought. */
  lemma SelectedForWanted(input: Input, normalize: string -> string, clock: nat -> real, r: Result, s: Selected)
    returns (c: WantedCard)
    requires IsOutcome(input, normalize, clock, r) && s in r.selected
    ensures c in WantedToBuy(input, normalize) && s in Group(c, input.candidates, input.settings)
    ensures s.wantedKey == c.key && s.wantedName == c.name
  {
    var wanted := WantedToBuy(input, normalize);
    var a := OutcomeIsAnAssignment(input, normalize, clock, r);
    ChosenMembers(a);
    var i :| 0 <= i < |a| && a[i] == Some(s);
    c := wanted[i];
    assert s in WantedGroups(input, normalize)[i];
    GroupOffersCarryTheCard(c, input.candidates, input.settings);
  }

  /** Nothing the initial cart holds is bought again or reported missing. */
  lemma NothingOwnedIsBought(input: Input, normalize: string -> string, clock: nat -> real, r: Result)
    requires IsOutcome(input, normalize, clock, r)
    ensures forall s, i :: s in r.selected && 0 <= i < |input.initialCart| ==>
              normalize(s.wantedName) != normalize(input.initialCart[i].title)
    ensures forall m, i :: m in r.missing && 0 <= i < |input.initialCart| ==>
              normalize(m.wantedName) != normalize(input.initialCart[i].title)
  {
    var wanted, groups := WantedToBuy(input, normalize), WantedGroups(input, normalize);
    var positions := WantedToBuyExactly(input, normalize);
    forall s, i | s in r.selected && 0 <= i < |input.initialCart|
      ensures normalize(s.wantedName) != normalize(input.initialCart[i].title)
    {
      var c := SelectedForWanted(input, normalize, clock, r, s);
    }
    MissingAreWanted(wanted, groups, input.candidates, SelectedKeys(r.selected), input.settings);
  }

  // ----- Which candidates become offers -----

  /** From worst to best. */
  const GRADES: seq<Condition> := [UNKNOWN, DMG, HP, MP, LP, NM]

  lemma GradesAreRanks(c: Condition)
    ensures Rank(c) < |GRADES| && GRADES[Rank(c)] == c
  {
  }

  /** How many grades the offered condition lies below the minimum. */
  ghost predicate GradesBelow(minimum: Condition, offered: Condition, steps: nat) {
    exists m, o :: 0 <= m < |GRADES| && 0 <= o < |GRADES| && GRADES[m] == minimum && GRADES[o] == offered
                   && steps == if o < m then m - o else 0
  }

  lemma DowngradesAreGrades(minimum: Condition, offered: Condition, steps: nat)
    ensures GradesBelow(minimum, offered, steps) <==> steps == DowngradeSteps(minimum, offered)
  {
    GradesAreRanks(minimum);
    GradesAreRanks(offered);
    if GradesBelow(minimum, offered, steps) {
      var m, o :| 0 <= m < |GRADES| && 0 <= o < |GRADES| && GRADES[m] == minimum && GRADES[o] == offered
                  && steps == if o < m then m - o else 0;
      assert m == Rank(minimum) && o == Rank(offered);
    }
  }

  /** A raw candidate is of the card: its key is the card's up to the first colon, and its set is the preferred one if one is preferred. */
  predicate IsOfCard(card: WantedCard, c: Candidate) {
    && c.wantedKey == BeforeColon(card.key)
    && (card.preferredSetCode.GetOr("") != "" ==> c.setCode.Some? && Lower(c.setCode.value) == Lower(card.preferredSetCode.value))
  }

  /** The policy takes an offer this many grades down: none without a flexible mode, and never more than the bound. */
  predicate TakesDowngrade(settings: Settings, steps: nat) {
    match settings.flexibility
    case None => steps == 0
    case Some(f) => (steps == 0 || f.mode != Strict) && (f.maxDowngradeSteps.Some? ==> steps <= f.maxDowngradeSteps.value)
  }

  /** What such a downgrade is charged: the amount listed for the step count, otherwise so much per step. */
  function Charge(settings: Settings, steps: nat): real {
    if steps == 0 then 0.0
    else match settings.flexibility
      case None => 0.0
      case Some(f) => if steps in f.penaltyByStep then f.penaltyByStep[steps] else steps as real * f.penaltyPerStep.GetOr(0.0)
  }

  /** `s` is the offer a raw candidate makes for a card. */
  ghost predicate IsOfferOf(card: WantedCard, settings: Settings, c: Candidate, s: Selected) {
    && IsOfCard(card, c) && c.offer.storeKey != "" && c.offer.price.Finite? && c.offer.price.amount >= 0.0
    && s.wantedKey == card.key && s.wantedName == card.name && s.offer == c.offer
    && s.storeKey == c.offer.storeKey && s.price == c.offer.price.amount && s.condition == c.offer.condition
    && s.minimum == card.minimumCondition.GetOr(settings.defaultMinimum.GetOr(DMG))
    && GradesBelow(s.minimum, s.condition, s.steps) && TakesDowngrade(settings, s.steps)
    && s.conditionPenalty == Charge(settings, s.steps) && s.valuePenalty == 0.0 && s.setPenalty == 0.0
  }

  lemma OfferOfOne(card: WantedCard, settings: Settings, c: Candidate, s: Selected)
    ensures PrepareOne(card, c, settings) == Some(s) <==> IsOfferOf(card, settings, c, s)
  {
    var minimum := MinimumFor(card, settings);
    DowngradesAreGrades(minimum, c.offer.condition, DowngradeSteps(minimum, c.offer.condition));
    DowngradesAreGrades(s.minimum, s.condition, s.steps);
  }

  /** `positions` picks, in order, exactly the candidates that make an offer for the card, and `offers` are those offers. */
  ghost predicate OffersAt(card: WantedCard, settings: Settings, raw: seq<Candidate>, offers: seq<Selected>, positions: seq<nat>) {
    && |positions| == |offers| && Rising(positions, |raw|)
    && (forall k :: 0 <= k < |positions| ==> IsOfferOf(card, settings, raw[positions[k]], offers[k]))
    && (forall p, s :: 0 <= p < |raw| && IsOfferOf(card, settings, raw[p], s) ==> p in positions)
  }

  lemma OffersOneMore(card: WantedCard, settings: Settings, raw: seq<Candidate>, offers: seq<Selected>, before: seq<nat>,
                      c: Candidate, o: Option<Selected>)
    requires OffersAt(card, settings, raw, offers, before)
    requires forall s :: IsOfferOf(card, settings, c, s) <==> o == Some(s)
    ensures o.None? ==> OffersAt(card, settings, raw + [c], offers, before)
    ensures o.Some? ==> OffersAt(card, settings, raw + [c], offers + [o.value], before + [|raw|])
  {
    RisingWithLast(before, |raw|);
    forall k | 0 <= k < |before| ensures before[k] < |raw| && raw[before[k]] == (raw + [c])[before[k]] {
    }
    forall p | 0 <= p < |raw| + 1 ensures (raw + [c])[p] == if p < |raw| then raw[p] else c {
    }
  }

  /** The prepared offers are exactly those the raw candidates make, in the candidates' order. */
  lemma {:induction false} OffersExactly(card: WantedCard, raw: seq<Candidate>, settings: Settings) returns (positions: seq<nat>)
    ensures OffersAt(card, settings, raw, Prepared(card, raw, settings), positions)
  {
    positions := [];
    if raw != [] {
      var init, last := raw[..|raw| - 1], raw[|raw| - 1];
      var before := OffersExactly(card, init, settings);
      forall s ensures IsOfferOf(card, settings, last, s) <==> PrepareOne(card, last, settings) == Some(s) {
        OfferOfOne(card, settings, last, s);
      }
      OffersOneMore(card, settings, init, Prepared(card, init, settings), before, last, PrepareOne(card, last, settings));
      assert raw == init + [last];
      positions := if PrepareOne(card, last, settings).Some? then before + [|init|] else before;
    }
  }

  /** A cheapest offer at or above the minimum. */
  ghost predicate IsBaseline(offers: seq<Selected>, b: Selected) {
    b in offers && b.steps == 0 && forall s :: s in offers && s.steps == 0 ==> b.price <= s.price
  }

  /**
   * Which prepared offers stay: all, but in allow-if-cheaper mode a downgrade only from moderately played up, and next to
   * a satisfying copy only if the cheapest such costs two dollars or more and the downgrade saves a quarter and a dollar.
   */
  ghost predicate Stays(offers: seq<Selected>, settings: Settings, s: Selected) {
    settings.flexibility.Some? && settings.flexibility.value.mode == AllowIfCheaper && s.steps != 0 ==>
      && s.condition in {NM, LP, MP}
      && forall b :: IsBaseline(offers, b) ==> b.price >= 2.0 && 4.0 * s.price <= 3.0 * b.price && s.price + 1.0 <= b.price
  }

  lemma StaysIfWorthwhile(offers: seq<Selected>, settings: Settings, s: Selected)
    ensures Stays(offers, settings, s)
            <==> !(settings.flexibility.Some? && settings.flexibility.value.mode.AllowIfCheaper?) || WorthDowngrading(s, Baseline(offers))
  {
    var b := Baseline(offers);
    assert b.Some? ==> IsBaseline(offers, b.value);
    assert forall c :: IsBaseline(offers, c) ==> b.Some? && c.price == b.value.price;
    assert Rank(s.condition) >= Rank(MP) <==> s.condition in {NM, LP, MP};
    assert 1.0 - MIN_DOWNGRADE_SAVINGS_PERCENT == 0.75;
  }

  /** `positions` picks, in order, exactly the offers that stay next to `offers`. */
  ghost predicate StaysAt(offers: seq<Selected>, settings: Settings, all: seq<Selected>, kept: seq<Selected>, positions: seq<nat>) {
    && |positions| == |kept| && Rising(positions, |all|)
    && (forall k :: 0 <= k < |positions| ==> kept[k] == all[positions[k]])
    && (forall p :: 0 <= p < |all| ==> (p in positions <==> Stays(offers, settings, all[p])))
  }

  lemma StaysOneMore(offers: seq<Selected>, settings: Settings, all: seq<Selected>, kept: seq<Selected>, before: seq<nat>, s: Selected)
    requires StaysAt(offers, settings, all, kept, before)
    ensures !Stays(offers, settings, s) ==> StaysAt(offers, settings, all + [s], kept, before)
    ensures Stays(offers, settings, s) ==> StaysAt(offers, settings, all + [s], kept + [s], before + [|all|])
  {
    RisingWithLast(before, |all|);
    forall k | 0 <= k < |before| ensures before[k] < |all| && kept[k] == (all + [s])[before[k]] {
    }
    forall p | 0 <= p < |all| + 1 ensures (all + [s])[p] == if p < |all| then all[p] else s {
    }
  }

  lemma {:induction false} WorthwhileAt(offers: seq<Selected>, settings: Settings, all: seq<Selected>) returns (positions: seq<nat>)
    requires settings.flexibility.Some? && settings.flexibility.value.mode.AllowIfCheaper?
    ensures StaysAt(offers, settings, all, KeepWorthwhile(all, Baseline(offers)), positions)
  {
    if all == [] {
      positions := [];
    } else {
      var init, last := all[..|all| - 1], all[|all| - 1];
      var before := WorthwhileAt(offers, settings, init);
      StaysOneMore(offers, settings, init, KeepWorthwhile(init, Baseline(offers)), before, last);
      StaysIfWorthwhile(offers, settings, last);
      assert init + [last] == all;
      positions := if Stays(offers, settings, last) then before + [|init|] else before;
    }
  }

  lemma AllAt(offers: seq<Selected>, settings: Settings) returns (positions: seq<nat>)
    requires !(settings.flexibility.Some? && settings.flexibility.value.mode.AllowIfCheaper?)
    ensures StaysAt(offers, settings, offers, offers, positions)
  {
    positions := seq(|offers|, i => i);
    forall p: nat | p < |offers| ensures p in positions {
      assert positions[p] == p;
    }
  }

  /** The savings rule keeps, in order, exactly the offers that stay. */
  lemma SavingsExactly(offers: seq<Selected>, settings: Settings) returns (positions: seq<nat>)
    ensures StaysAt(offers, settings, offers, SavingsPolicy(offers, settings), positions)
  {
    if settings.flexibility.Some? && settings.flexibility.value.mode.AllowIfCheaper? {
      positions := WorthwhileAt(offers, settings, offers);
    } else {
      positions := AllAt(offers, settings);
    }
  }

  /**
   * `s` is the offer as the condition-value pass leaves it: only its value penalty may differ, and it is the premium of a
   * cheapest better copy and a millionth where the policy asks for one and that premium is in its band.
   */
  ghost predicate IsSurcharged(eligible: seq<Selected>, settings: Settings, before: Selected, s: Selected) {
    && s == before.(valuePenalty := s.valuePenalty)
    && if settings.conditionValue.Some? && settings.conditionValue.value.preferHigher
          && InBand(eligible, before, settings.conditionValue.value)
       then exists h :: CheapestBetter(eligible, before, h) && s.valuePenalty == h.price - before.price + 0.000001
       else s.valuePenalty == before.valuePenalty
  }

  lemma SurchargeExactly(eligible: seq<Selected>, settings: Settings, before: Selected)
    ensures IsSurcharged(eligible, settings, before, Penalized(eligible, before, settings))
  {
    if settings.conditionValue.Some? && settings.conditionValue.value.preferHigher {
      PenalisedInBand(eligible, before, settings.conditionValue.value);
      if h :| CheapestBetter(eligible, before, h) && Banded(h.price, before.price, settings.conditionValue.value) {
        PenaltyBy(eligible, before, h, settings.conditionValue.value);
      }
    }
  }

  /** A card's group: the offers its candidates make, those of them that stay, and the surcharge on each of these. */
  lemma GroupExactly(card: WantedCard, raw: seq<Candidate>, settings: Settings)
    returns (offers: seq<Selected>, made: seq<nat>, eligible: seq<Selected>, kept: seq<nat>)
    ensures OffersAt(card, settings, raw, offers, made)
    ensures StaysAt(offers, settings, offers, eligible, kept)
    ensures |Group(card, raw, settings)| == |eligible|
    ensures forall k :: 0 <= k < |eligible| ==> IsSurcharged(eligible, settings, eligible[k], Group(card, raw, settings)[k])
  {
    offers, eligible := Prepared(card, raw, settings), SavingsPolicy(Prepared(card, raw, settings), settings);
    made := OffersExactly(card, raw, settings);
    kept := SavingsExactly(offers, settings);
    forall k | 0 <= k < |eligible| ensures IsSurcharged(eligible, settings, eligible[k], Group(card, raw, settings)[k]) {
      SurchargeExactly(eligible, settings, eligible[k]);
    }
  }

  /** An offer's whole cost. */
  function Cost(s: Selected): real {
    s.price + s.conditionPenalty + s.valuePenalty + s.setPenalty
  }

  /** The pick is the first of the allowed offers with the least cost, and among those the least price. */
  lemma {:induction false} PickExactly(group: seq<Selected>, allowed: set<string>) returns (i: nat)
    requires exists s :: s in group && s.storeKey in allowed
    ensures i < |group| && Cheapest(group, allowed) == Some(group[i]) && group[i].storeKey in allowed
    ensures forall j :: 0 <= j < |group| && group[j].storeKey in allowed ==>
              Cost(group[i]) < Cost(group[j])
              || (Cost(group[i]) == Cost(group[j])
                  && (group[i].price < group[j].price || (group[i].price == group[j].price && i <= j)))
  {
    var n := |group| - 1;
    var init, last := group[..n], group[n];
    var before := Cheapest(init, allowed);
    if before.None? {
      i := n;
      assert forall j :: 0 <= j < n ==> group[j] in init;
    } else {
      i := PickExactly(init, allowed);
      if last.storeKey in allowed && Before(last, before.value) {
        i := n;
      }
      assert forall j :: 0 <= j < n ==> group[j] == init[j];
    }
  }

  /** One store's charge: its own, else the default given, else three. */
  lemma ShippingExactly(store: string, settings: Settings)
    ensures store in settings.shippingByStore ==> ShippingFor(store, settings) == settings.shippingByStore[store]
    ensures store !in settings.shippingByStore ==>
              ShippingFor(store, settings) == if settings.defaultShipping.Some? then settings.defaultShipping.value else 3.0
  {
  }

  /** The search stops before a mask exactly once the budget, a minute unless given and never less than none, has passed since the start. */
  lemma DeadlineExactly(clock: nat -> real, settings: Settings, k: nat)
    ensures Expired(clock, settings, k) <==>
              var budget := if settings.timeBudgetMs.Some? then settings.timeBudgetMs.value else 60000.0;
              clock(k + 1) - clock(0) >= budget && clock(k + 1) >= clock(0)
  {
  }
}
