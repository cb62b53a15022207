/**
 * The cart optimizer: every subset of stores is tried as a bit mask, the cheapest
 * allowed offer is taken for each wanted card, shipping is charged once per used store,
 * and the best (missing cards, cost) pair seen before the deadline wins.
 */
module CartOptimizer {
  import opened Numbers
  import opened Options
  import opened Text

  // ----- Data -----

  datatype Condition = NM | LP | MP | HP | DMG | UNKNOWN

  function Rank(c: Condition): nat {
    match c
    case NM => 5
    case LP => 4
    case MP => 3
    case HP => 2
    case DMG => 1
    case UNKNOWN => 0
  }

  function DowngradeSteps(minimum: Condition, offered: Condition): nat {
    if Rank(minimum) > Rank(offered) then Rank(minimum) - Rank(offered) else 0
  }

  /** What `Number(offer.price)` can be. */
  datatype Price = NotFinite | Finite(amount: real)

  datatype Offer = Offer(id: int, price: Price, condition: Condition, storeKey: string, storeName: string)

  datatype Candidate = Candidate(wantedKey: string, offer: Offer, setCode: Option<string>)

  datatype WantedCard = WantedCard(
    key: string, name: string, quantity: Option<real>,
    minimumCondition: Option<Condition>, preferredSetCode: Option<string>)

  datatype Mode = Strict | AllowIfNeeded | AllowIfCheaper

  datatype Flexibility = Flexibility(
    mode: Mode, maxDowngradeSteps: Option<int>,
    penaltyPerStep: Option<real>, penaltyByStep: map<nat, real>)

  datatype ConditionValue = ConditionValue(
    preferHigher: bool, minimumHigherPrice: Option<real>,
    minPremium: Option<real>, maxPremium: Option<real>)

  datatype Settings = Settings(
    defaultMinimum: Option<Condition>, defaultShipping: Option<real>, shippingByStore: map<string, real>,
    flexibility: Option<Flexibility>, conditionValue: Option<ConditionValue>, timeBudgetMs: Option<real>)

  datatype CartItem = CartItem(title: string, storeKey: string)

  datatype Input = Input(
    wanted: seq<WantedCard>, candidates: seq<Candidate>, initialCart: seq<CartItem>, settings: Settings)

  datatype Selected = Selected(
    wantedKey: string, wantedName: string, offer: Offer, storeKey: string,
    price: real, minimum: Condition, condition: Condition, steps: nat,
    conditionPenalty: real, valuePenalty: real, setPenalty: real)

  function EffectiveCost(item: Selected): real {
    item.price + item.conditionPenalty + item.valuePenalty + item.setPenalty
  }

  const DEFAULT_SHIPPING := 3.0
  const DEFAULT_BUDGET_MS := 60000.0
  const MIN_DOWNGRADE_SAVINGS_PERCENT := 0.25
  const MIN_DOWNGRADE_SAVINGS_AMOUNT := 1.0
  const MIN_BASELINE_PRICE_FOR_DOWNGRADE := 2.0

  function ShippingFor(store: string, settings: Settings): real {
    if store in settings.shippingByStore then settings.shippingByStore[store]
    else settings.defaultShipping.GetOr(DEFAULT_SHIPPING)
  }

  // ----- Wanted cards -----

  function Quantity(card: WantedCard): real {
    card.quantity.GetOr(1.0)
  }

  function CopyCount(card: WantedCard): nat {
    if Quantity(card).Floor > 1 then Quantity(card).Floor else 1
  }

  function CopyKey(card: WantedCard, i: nat): string {
    if Quantity(card) > 1.0 then card.key + ":" + Decimal(i + 1) else card.key
  }

  function Copies(card: WantedCard): seq<WantedCard> {
    seq(CopyCount(card), i requires 0 <= i => card.(key := CopyKey(card, i)))
  }

  function ExpandWanted(cards: seq<WantedCard>): seq<WantedCard> {
    if cards == [] then [] else ExpandWanted(cards[..|cards| - 1]) + Copies(cards[|cards| - 1])
  }

  /** Drops the cards the initial cart already holds. `normalize` strips a trailing `[set]` and lower-cases. */
  function NotInCart(cards: seq<WantedCard>, owned: set<string>, normalize: string -> string): (r: seq<WantedCard>)
    ensures forall c :: c in r <==> c in cards && normalize(c.name) !in owned
  {
    if cards == [] then []
    else
      var last := cards[|cards| - 1];
      var init := NotInCart(cards[..|cards| - 1], owned, normalize);
      assert cards == cards[..|cards| - 1] + [last];
      if normalize(last.name) in owned then init else init + [last]
  }

  function OwnedNames(cart: seq<CartItem>, normalize: string -> string): set<string> {
    set i | 0 <= i < |cart| :: normalize(cart[i].title)
  }

  function WantedToBuy(input: Input, normalize: string -> string): seq<WantedCard> {
    NotInCart(ExpandWanted(input.wanted), OwnedNames(input.initialCart, normalize), normalize)
  }

  // ----- Candidate preparation -----

  function RequiredSet(card: WantedCard): Option<string> {
    if card.preferredSetCode.Some? && card.preferredSetCode.value != ""
    then Some(Lower(card.preferredSetCode.value)) else None
  }

  function SetAccepted(card: WantedCard, candidate: Candidate): bool {
    RequiredSet(card).Some? ==>
      candidate.setCode.Some? && Lower(candidate.setCode.value) == RequiredSet(card).value
  }

  function MinimumFor(card: WantedCard, settings: Settings): Condition {
    card.minimumCondition.GetOr(settings.defaultMinimum.GetOr(DMG))
  }

  /** Whether the flexibility policy lets an offer `steps` ranks below the minimum through. */
  function StepsAccepted(steps: nat, settings: Settings): bool {
    && !(steps > 0 && (settings.flexibility.None? || settings.flexibility.value.mode.Strict?))
    && (settings.flexibility.Some? && settings.flexibility.value.maxDowngradeSteps.Some? ==>
          steps <= settings.flexibility.value.maxDowngradeSteps.value)
  }

  function ConditionPenalty(steps: nat, settings: Settings): real {
    if steps == 0 || settings.flexibility.None? then 0.0
    else
      var f := settings.flexibility.value;
      if steps in f.penaltyByStep then f.penaltyByStep[steps]
      else steps as real * f.penaltyPerStep.GetOr(0.0)
  }

  function PrepareOne(card: WantedCard, candidate: Candidate, settings: Settings): Option<Selected> {
    var offer := candidate.offer;
    var minimum := MinimumFor(card, settings);
    var steps := DowngradeSteps(minimum, offer.condition);
    if candidate.wantedKey != BeforeColon(card.key) || !StepsAccepted(steps, settings)
       || !SetAccepted(card, candidate) || offer.price.NotFinite? || offer.price.amount < 0.0
       || offer.storeKey == ""
    then None
    else Some(Selected(card.key, card.name, offer, offer.storeKey, offer.price.amount, minimum,
                       offer.condition, steps, ConditionPenalty(steps, settings), 0.0, 0.0))
  }

  function Prepared(card: WantedCard, raw: seq<Candidate>, settings: Settings): (r: seq<Selected>)
    ensures forall s :: s in r <==> exists i :: 0 <= i < |raw| && PrepareOne(card, raw[i], settings) == Some(s)
  {
    if raw == [] then []
    else
      var init := Prepared(card, raw[..|raw| - 1], settings);
      var last := PrepareOne(card, raw[|raw| - 1], settings);
      if last.Some? then init + [last.value] else init
  }

  /** `sort((a, b) => a.price - b.price)[0]` of the items that satisfy the requested condition. */
  function Baseline(items: seq<Selected>): (r: Option<Selected>)
    ensures r.None? <==> forall s :: s in items ==> s.steps != 0
    ensures r.Some? ==> r.value in items && r.value.steps == 0
    ensures r.Some? ==> forall s :: s in items && s.steps == 0 ==> r.value.price <= s.price
  {
    if items == [] then None
    else
      var init := Baseline(items[..|items| - 1]);
      var last := items[|items| - 1];
      assert items == items[..|items| - 1] + [last];
      if last.steps == 0 && (init.None? || last.price < init.value.price) then Some(last) else init
  }

  function WorthDowngrading(item: Selected, baseline: Option<Selected>): bool {
    || item.steps == 0
    || (&& Rank(item.condition) >= Rank(MP)
        && (baseline.Some? ==>
              && baseline.value.price >= MIN_BASELINE_PRICE_FOR_DOWNGRADE
              && item.price <= baseline.value.price * (1.0 - MIN_DOWNGRADE_SAVINGS_PERCENT)
              && baseline.value.price - item.price >= MIN_DOWNGRADE_SAVINGS_AMOUNT))
  }

  function KeepWorthwhile(items: seq<Selected>, baseline: Option<Selected>): (r: seq<Selected>)
    ensures forall s :: s in r <==> s in items && WorthDowngrading(s, baseline)
  {
    if items == [] then []
    else
      var init := KeepWorthwhile(items[..|items| - 1], baseline);
      var last := items[|items| - 1];
      assert items == items[..|items| - 1] + [last];
      if WorthDowngrading(last, baseline) then init + [last] else init
  }

  function SavingsPolicy(items: seq<Selected>, settings: Settings): seq<Selected> {
    if settings.flexibility.Some? && settings.flexibility.value.mode.AllowIfCheaper?
    then KeepWorthwhile(items, Baseline(items)) else items
  }

  /** Price of `sort((a, b) => a.price - b.price)[0]` of the strictly better copies in the same store. */
  function HigherPrice(items: seq<Selected>, lower: Selected): Option<real> {
    if items == [] then None
    else
      var init := HigherPrice(items[..|items| - 1], lower);
      var last := items[|items| - 1];
      if Better(last, lower) && (init.None? || last.price < init.value) then Some(last.price) else init
  }

  lemma {:induction false} HigherPriceIsTheLowest(items: seq<Selected>, lower: Selected)
    ensures var r := HigherPrice(items, lower);
            && (r.None? <==> forall s :: s in items ==> !Better(s, lower))
            && (r.Some? ==> exists s :: s in items && Better(s, lower) && s.price == r.value)
            && (r.Some? ==> forall s :: s in items && Better(s, lower) ==> r.value <= s.price)
  {
    if items != [] {
      var init, last := items[..|items| - 1], items[|items| - 1];
      assert items == init + [last];
      HigherPriceIsTheLowest(init, lower);
    }
  }

  predicate Better(item: Selected, lower: Selected) {
    item.storeKey == lower.storeKey && Rank(item.condition) > Rank(lower.condition)
  }

  function PenaltyFor(items: seq<Selected>, lower: Selected, policy: ConditionValue): Option<real> {
    var higher := HigherPrice(items, lower);
    if higher.None? || higher.value < policy.minimumHigherPrice.GetOr(50.0) then None
    else
      var premium := higher.value - lower.price;
      if premium < policy.minPremium.GetOr(10.0) || premium > policy.maxPremium.GetOr(30.0) then None
      else Some(premium + 0.000001)
  }

  function Penalized(items: seq<Selected>, lower: Selected, settings: Settings): Selected {
    if settings.conditionValue.None? || !settings.conditionValue.value.preferHigher then lower
    else
      match PenaltyFor(items, lower, settings.conditionValue.value)
      case Some(p) => lower.(valuePenalty := p)
      case None => lower
  }

  function WithConditionValue(items: seq<Selected>, settings: Settings): seq<Selected> {
    seq(|items|, i requires 0 <= i < |items| => Penalized(items, items[i], settings))
  }

  /** Only the penalty may differ; what `HigherPrice` reads is untouched. */
  ghost predicate SameButPenalty(a: seq<Selected>, b: seq<Selected>) {
    |a| == |b| && forall i :: 0 <= i < |a| ==> a[i] == b[i].(valuePenalty := a[i].valuePenalty)
  }

  lemma {:induction false} HigherPriceIgnoresPenalty(a: seq<Selected>, b: seq<Selected>, lower: Selected)
    requires SameButPenalty(a, b)
    ensures HigherPrice(a, lower) == HigherPrice(b, lower)
  {
    if a != [] {
      HigherPriceIgnoresPenalty(a[..|a| - 1], b[..|b| - 1], lower);
    }
  }

  /** Items rewritten up to `i`, untouched from there on. */
  ghost predicate PenalizedUpTo(now: seq<Selected>, before: seq<Selected>, settings: Settings, i: nat) {
    && |now| == |before|
    && forall k :: 0 <= k < |now| ==> now[k] == if k < i then Penalized(before, before[k], settings) else before[k]
  }

  lemma PenalizeNext(now: seq<Selected>, before: seq<Selected>, settings: Settings, i: nat)
    requires i < |now| && PenalizedUpTo(now, before, settings, i)
    ensures PenalizedUpTo(now[i := Penalized(now, now[i], settings)], before, settings, i + 1)
  {
    assert SameButPenalty(now, before);
    HigherPriceIgnoresPenalty(now, before, now[i]);
  }

  /** Writes the penalties in place, reading items already rewritten earlier in the same pass. */
  method ApplyConditionValue(items: array<Selected>, settings: Settings)
    modifies items
    ensures items[..] == WithConditionValue(old(items[..]), settings)
  {
    ghost var before := items[..];
    if settings.conditionValue.None? || !settings.conditionValue.value.preferHigher {
      assert items[..] == WithConditionValue(before, settings);
      return;
    }
    var i := 0;
    while i < items.Length
      invariant 0 <= i <= items.Length
      invariant PenalizedUpTo(items[..], before, settings, i)
    {
      ghost var now := items[..];
      var penalty := PenaltyFor(items[..], items[i], settings.conditionValue.value);
      PenalizeNext(now, before, settings, i);
      if penalty.Some? {
        items[i] := items[i].(valuePenalty := penalty.value);
      }
      assert items[..] == now[i := Penalized(now, now[i], settings)];
      i := i + 1;
    }
    assert items[..] == WithConditionValue(before, settings);
  }

  function Group(card: WantedCard, raw: seq<Candidate>, settings: Settings): seq<Selected> {
    WithConditionValue(SavingsPolicy(Prepared(card, raw, settings), settings), settings)
  }

  function Groups(wanted: seq<WantedCard>, raw: seq<Candidate>, settings: Settings): seq<seq<Selected>> {
    seq(|wanted|, i requires 0 <= i < |wanted| => Group(wanted[i], raw, settings))
  }

  method PrepareCandidates(wanted: seq<WantedCard>, raw: seq<Candidate>, settings: Settings)
    returns (groups: seq<seq<Selected>>)
    ensures groups == Groups(wanted, raw, settings)
  {
    groups := [];
    for i := 0 to |wanted|
      invariant |groups| == i
      invariant forall k :: 0 <= k < i ==> groups[k] == Group(wanted[k], raw, settings)
    {
      var eligible := SavingsPolicy(Prepared(wanted[i], raw, settings), settings);
      var items := new Selected[|eligible|](k requires 0 <= k < |eligible| => eligible[k]);
      assert items[..] == eligible;
      ApplyConditionValue(items, settings);
      groups := groups + [items[..]];
    }
  }

  // ----- The subset search -----

  function AllStores(groups: seq<seq<Selected>>): (r: seq<string>)
    ensures forall k :: k in r <==> exists i, j :: 0 <= i < |groups| && 0 <= j < |groups[i]| && groups[i][j].storeKey == k
  {
    if groups == [] then []
    else
      var init := AllStores(groups[..|groups| - 1]);
      var last := groups[|groups| - 1];
      var keys := seq(|last|, j requires 0 <= j < |last| => last[j].storeKey);
      assert forall k :: k in keys <==> exists j :: 0 <= j < |last| && last[j].storeKey == k by {
        forall j | 0 <= j < |last| ensures last[j].storeKey in keys {
          assert keys[j] == last[j].storeKey;
        }
      }
      assert forall i :: 0 <= i < |groups| - 1 ==> groups[..|groups| - 1][i] == groups[i];
      init + keys
  }

  function StoreList(groups: seq<seq<Selected>>): seq<string> {
    SortedSet(AllStores(groups))
  }

  function Bit(mask: nat, i: nat): bool {
    if i == 0 then mask % 2 == 1 else Bit(mask / 2, i - 1)
  }

  /** `(mask & (1 << index)) !== 0`: JavaScript takes the shift count modulo 32. */
  function MaskHas(mask: nat, index: nat): bool {
    Bit(mask, index % 32)
  }

  function Allowed(stores: seq<string>, mask: nat): set<string> {
    set i | 0 <= i < |stores| && MaskHas(mask, i) :: stores[i]
  }

  predicate Before(a: Selected, b: Selected) {
    EffectiveCost(a) < EffectiveCost(b) || (EffectiveCost(a) == EffectiveCost(b) && a.price < b.price)
  }

  /** First element of the filtered, stably sorted group. */
  function Cheapest(group: seq<Selected>, allowed: set<string>): (r: Option<Selected>)
    ensures r.None? <==> forall s :: s in group ==> s.storeKey !in allowed
    ensures r.Some? ==> r.value in group && r.value.storeKey in allowed
    ensures r.Some? ==> forall s :: s in group && s.storeKey in allowed ==> !Before(s, r.value)
  {
    if group == [] then None
    else
      var init := Cheapest(group[..|group| - 1], allowed);
      var last := group[|group| - 1];
      assert group == group[..|group| - 1] + [last];
      if last.storeKey in allowed && (init.None? || Before(last, init.value)) then Some(last) else init
  }

  /** One optional offer per wanted card. */
  type Assignment = seq<Option<Selected>>

  function Choices(groups: seq<seq<Selected>>, allowed: set<string>): Assignment {
    seq(|groups|, i requires 0 <= i < |groups| => Cheapest(groups[i], allowed))
  }

  function Chosen(a: Assignment): seq<Selected> {
    if a == [] then []
    else Chosen(a[..|a| - 1]) + (if a[|a| - 1].Some? then [a[|a| - 1].value] else [])
  }

  function EffectiveTotal(items: seq<Selected>): real {
    if items == [] then 0.0 else EffectiveTotal(items[..|items| - 1]) + EffectiveCost(items[|items| - 1])
  }

  function ShippingTotal(stores: seq<string>, settings: Settings): real {
    if stores == [] then 0.0
    else ShippingTotal(stores[..|stores| - 1], settings) + ShippingFor(stores[|stores| - 1], settings)
  }

  function CartStores(cart: seq<CartItem>): seq<string> {
    seq(|cart|, i requires 0 <= i < |cart| => cart[i].storeKey)
  }

  function OfferStores(items: seq<Selected>): seq<string> {
    seq(|items|, i requires 0 <= i < |items| => items[i].storeKey)
  }

  function UsedStores(cart: seq<CartItem>, items: seq<Selected>): seq<string> {
    Uniq(CartStores(cart) + OfferStores(items))
  }

  /** What the search minimises after the number of missing cards. */
  function Objective(items: seq<Selected>, cart: seq<CartItem>, settings: Settings): real {
    EffectiveTotal(items) + ShippingTotal(UsedStores(cart, items), settings)
  }

  predicate ScoreLess(missing: int, cost: real, missing': int, cost': real) {
    missing < missing' || (missing == missing' && cost < cost')
  }

  /** `a` misses more cards than `b`, or as many at a higher or equal cost. */
  predicate NoBetter(a: seq<Selected>, b: seq<Selected>, cart: seq<CartItem>, settings: Settings) {
    |a| < |b| || (|a| == |b| && Objective(a, cart, settings) >= Objective(b, cart, settings))
  }

  function Pick(groups: seq<seq<Selected>>, stores: seq<string>, mask: nat): seq<Selected> {
    Chosen(Choices(groups, Allowed(stores, mask)))
  }

  /** `items` is the pick of the first mask below `bound` with the best score. */
  ghost predicate FirstBest(groups: seq<seq<Selected>>, stores: seq<string>, cart: seq<CartItem>,
                            settings: Settings, bound: nat, items: seq<Selected>) {
    exists m: nat :: m < bound && items == Pick(groups, stores, m) && BestMask(groups, stores, cart, settings, bound, m)
  }

  ghost predicate BestMask(groups: seq<seq<Selected>>, stores: seq<string>, cart: seq<CartItem>,
                           settings: Settings, bound: nat, m: nat) {
    forall k: nat :: k < bound ==>
      && NoBetter(Pick(groups, stores, k), Pick(groups, stores, m), cart, settings)
      && (k < m ==> !NoBetter(Pick(groups, stores, m), Pick(groups, stores, k), cart, settings))
  }

  lemma BestMaskExtends(groups: seq<seq<Selected>>, stores: seq<string>, cart: seq<CartItem>,
                        settings: Settings, bound: nat, m: nat)
    requires m < bound && BestMask(groups, stores, cart, settings, bound, m)
    ensures var next := if NoBetter(Pick(groups, stores, bound), Pick(groups, stores, m), cart, settings) then m else bound;
            BestMask(groups, stores, cart, settings, bound + 1, next)
  {
    var next := if NoBetter(Pick(groups, stores, bound), Pick(groups, stores, m), cart, settings) then m else bound;
    forall k: nat | k < bound + 1
      ensures NoBetter(Pick(groups, stores, k), Pick(groups, stores, next), cart, settings)
      ensures k < next ==> !NoBetter(Pick(groups, stores, next), Pick(groups, stores, k), cart, settings)
    {
      if k < bound {
        NoBetterChains(Pick(groups, stores, k), Pick(groups, stores, m), Pick(groups, stores, bound), cart, settings);
      }
    }
  }

  /** What the loop's running variables stand for after the masks below `bound`. */
  ghost predicate Leads(groups: seq<seq<Selected>>, stores: seq<string>, cart: seq<CartItem>, settings: Settings,
                        bound: nat, m: nat, lead: Lead) {
    && m < bound && lead == LeadOf(groups, stores, cart, settings, m)
    && BestMask(groups, stores, cart, settings, bound, m)
  }

  ghost function LeadOf(groups: seq<seq<Selected>>, stores: seq<string>, cart: seq<CartItem>, settings: Settings,
                        mask: nat): Lead {
    var p := Pick(groups, stores, mask);
    Lead(p, |groups| - |p|, Objective(p, cart, settings))
  }

  /** Some mask below `bound` leads. */
  ghost predicate SomeLeads(groups: seq<seq<Selected>>, stores: seq<string>, cart: seq<CartItem>, settings: Settings,
                            bound: nat, lead: Lead) {
    exists m: nat :: Leads(groups, stores, cart, settings, bound, m, lead)
  }

  lemma FirstLeads(groups: seq<seq<Selected>>, stores: seq<string>, cart: seq<CartItem>, settings: Settings)
    ensures SomeLeads(groups, stores, cart, settings, 1, LeadOf(groups, stores, cart, settings, 0))
  {
    assert Leads(groups, stores, cart, settings, 1, 0, LeadOf(groups, stores, cart, settings, 0));
  }

  lemma LeadPassesOn(groups: seq<seq<Selected>>, stores: seq<string>, cart: seq<CartItem>, settings: Settings,
                     bound: nat, lead: Lead)
    requires SomeLeads(groups, stores, cart, settings, bound, lead)
    ensures var next := LeadOf(groups, stores, cart, settings, bound);
            SomeLeads(groups, stores, cart, settings, bound + 1,
                      if ScoreLess(next.missing, next.cost, lead.missing, lead.cost) then next else lead)
  {
    var m: nat :| Leads(groups, stores, cart, settings, bound, m, lead);
    BestMaskExtends(groups, stores, cart, settings, bound, m);
    var next := LeadOf(groups, stores, cart, settings, bound);
    if ScoreLess(next.missing, next.cost, lead.missing, lead.cost) {
      assert Leads(groups, stores, cart, settings, bound + 1, bound, next);
    } else {
      assert Leads(groups, stores, cart, settings, bound + 1, m, lead);
    }
  }

  lemma LeaderIsFirstBest(groups: seq<seq<Selected>>, stores: seq<string>, cart: seq<CartItem>, settings: Settings,
                          bound: nat, lead: Lead)
    requires SomeLeads(groups, stores, cart, settings, bound, lead)
    ensures FirstBest(groups, stores, cart, settings, bound, lead.items)
  {
    var m: nat :| Leads(groups, stores, cart, settings, bound, m, lead);
  }

  lemma NoBetterChains(a: seq<Selected>, b: seq<Selected>, c: seq<Selected>, cart: seq<CartItem>, settings: Settings)
    requires NoBetter(a, b, cart, settings)
    ensures !NoBetter(c, b, cart, settings) ==> NoBetter(a, c, cart, settings) && !NoBetter(c, a, cart, settings)
    ensures NoBetter(b, c, cart, settings) ==> NoBetter(a, c, cart, settings)
  {
  }

  lemma ChosenStep(a: Assignment)
    requires a != []
    ensures var n := |a| - 1;
            if a[n].Some? then
              && Chosen(a) == Chosen(a[..n]) + [a[n].value]
              && EffectiveTotal(Chosen(a)) == EffectiveTotal(Chosen(a[..n])) + EffectiveCost(a[n].value)
            else Chosen(a) == Chosen(a[..n])
  {
    var n := |a| - 1;
    if a[n].Some? {
      assert Chosen(a)[..|Chosen(a)| - 1] == Chosen(a[..n]);
    }
  }

  /** The inner loop: one pick per card, then one shipping charge per used store. */
  method EvaluateMask(groups: seq<seq<Selected>>, stores: seq<string>, cart: seq<CartItem>,
                      settings: Settings, mask: nat)
    returns (selected: seq<Selected>, objective: real)
    ensures selected == Pick(groups, stores, mask)
    ensures objective == Objective(selected, cart, settings)
  {
    var allowed := Allowed(stores, mask);
    selected, objective := [], 0.0;
    var index := 0;
    while index < |groups|
      invariant 0 <= index <= |groups|
      invariant selected == Chosen(Choices(groups, allowed)[..index])
      invariant objective == EffectiveTotal(selected)
    {
      var choice := Cheapest(groups[index], allowed);
      assert Choices(groups, allowed)[..index + 1][..index] == Choices(groups, allowed)[..index];
      ChosenStep(Choices(groups, allowed)[..index + 1]);
      if choice.Some? {
        selected := selected + [choice.value];
        objective := objective + EffectiveCost(choice.value);
      }
      index := index + 1;
    }
    assert Choices(groups, allowed)[..index] == Choices(groups, allowed);
    var used := UsedStores(cart, selected);
    var n := 0;
    while n < |used|
      invariant 0 <= n <= |used|
      invariant objective == EffectiveTotal(selected) + ShippingTotal(used[..n], settings)
    {
      assert used[..n + 1][..n] == used[..n];
      objective := objective + ShippingFor(used[n], settings);
      n := n + 1;
    }
    assert used[..n] == used;
  }

  /** `deadline` reading of an injectable clock: reading 0 starts the budget, reading k + 1 precedes mask k. */
  predicate Expired(clock: nat -> real, settings: Settings, k: nat) {
    var budget := settings.timeBudgetMs.GetOr(DEFAULT_BUDGET_MS);
    clock(k + 1) >= clock(0) + (if budget > 0.0 then budget else 0.0)
  }

  /** The best pick so far with its two numbers. */
  datatype Lead = Lead(items: seq<Selected>, missing: int, cost: real)

  /** One turn of the mask loop: evaluate a mask and keep the better of it and the lead. */
  method TryMask(groups: seq<seq<Selected>>, stores: seq<string>, cart: seq<CartItem>, settings: Settings,
                 mask: nat, best: Option<Lead>)
    returns (best': Option<Lead>)
    requires mask <= Pow2(EXACT_BITS)
    requires if mask == 0 then best.None? else best.Some? && SomeLeads(groups, stores, cart, settings, mask, best.value)
    ensures best'.Some? && SomeLeads(groups, stores, cart, settings, Increment(mask), best'.value)
  {
    var selected, objective := EvaluateMask(groups, stores, cart, settings, mask);
    var missing := |groups| - |selected|;
    if best.None? {
      FirstLeads(groups, stores, cart, settings);
    } else if mask == Pow2(EXACT_BITS) {
      LeadOutlivesStall(groups, stores, cart, settings, best.value);
    } else {
      LeadPassesOn(groups, stores, cart, settings, mask, best.value);
    }
    if best.None? || ScoreLess(missing, objective, best.value.missing, best.value.cost) {
      best' := Some(Lead(selected, missing, objective));
    } else {
      best' := best;
    }
  }

  ghost predicate OnTime(clock: nat -> real, settings: Settings, n: nat) {
    forall k: nat :: k < n ==> !Expired(clock, settings, k)
  }

  lemma StillOnTime(clock: nat -> real, settings: Settings, n: nat)
    requires OnTime(clock, settings, n) && !Expired(clock, settings, n)
    ensures OnTime(clock, settings, n + 1)
  {
  }

  /** Counters are doubles: from 2^53 on, adding one changes nothing. */
  const EXACT_BITS: nat := 53

  function Increment(n: nat): nat {
    if n < Pow2(EXACT_BITS) then n + 1 else n
  }

  lemma {:induction false} PowersHaveNoLowBits(n: nat, i: nat)
    requires i < n
    ensures !Bit(Pow2(n), i)
  {
    assert Pow2(n) / 2 == Pow2(n - 1);
    if i > 0 {
      PowersHaveNoLowBits(n - 1, i - 1);
    }
  }

  lemma {:induction false} ZeroHasNoBits(i: nat)
    ensures !Bit(0, i)
  {
    if i > 0 {
      ZeroHasNoBits(i - 1);
    }
  }

  /** The mask a stalled loop keeps evaluating allows no store, like the first one. */
  lemma StalledMaskIsEmpty(groups: seq<seq<Selected>>, stores: seq<string>)
    ensures Pick(groups, stores, Pow2(EXACT_BITS)) == Pick(groups, stores, 0)
  {
    forall i: nat | i < |stores| ensures !MaskHas(Pow2(EXACT_BITS), i) && !MaskHas(0, i) {
      PowersHaveNoLowBits(EXACT_BITS, i % 32);
      ZeroHasNoBits(i % 32);
    }
    assert Allowed(stores, Pow2(EXACT_BITS)) == {} == Allowed(stores, 0);
  }

  /** The first expired reading stops the search; a stalled one may count fewer turns than it took. */
  ghost predicate StoppedByClock(clock: nat -> real, settings: Settings, evaluated: nat) {
    exists turns: nat :: OnTime(clock, settings, turns) && Expired(clock, settings, turns) && evaluated == Min(turns, Pow2(EXACT_BITS))
  }

  /** A search over more stores than masks can be counted for ends only by the clock. */
  ghost predicate Ends(clock: nat -> real, settings: Settings, stores: seq<string>) {
    |stores| > EXACT_BITS ==> exists n: nat :: Expired(clock, settings, n)
  }

  lemma LeadOutlivesStall(groups: seq<seq<Selected>>, stores: seq<string>, cart: seq<CartItem>, settings: Settings, lead: Lead)
    requires SomeLeads(groups, stores, cart, settings, Pow2(EXACT_BITS), lead)
    ensures var next := LeadOf(groups, stores, cart, settings, Pow2(EXACT_BITS));
            !ScoreLess(next.missing, next.cost, lead.missing, lead.cost)
  {
    StalledMaskIsEmpty(groups, stores);
    var m: nat :| Leads(groups, stores, cart, settings, Pow2(EXACT_BITS), m, lead);
    assert NoBetter(Pick(groups, stores, 0), Pick(groups, stores, m), cart, settings);
  }

  /** How many turns the loop can take: all masks, or up to an expired reading. */
  ghost predicate IsLimit(clock: nat -> real, settings: Settings, stores: seq<string>, limit: nat) {
    if |stores| <= EXACT_BITS then limit == Pow2(|stores|) <= Pow2(EXACT_BITS)
    else Expired(clock, settings, limit) && Pow2(|stores|) > Pow2(EXACT_BITS)
  }

  lemma TurnLimit(clock: nat -> real, settings: Settings, stores: seq<string>) returns (limit: nat)
    requires Ends(clock, settings, stores)
    ensures IsLimit(clock, settings, stores, limit)
  {
    if |stores| <= EXACT_BITS {
      limit := Pow2(|stores|);
      if |stores| < EXACT_BITS {
        Pow2Grows(|stores|, EXACT_BITS);
      }
    } else {
      limit :| Expired(clock, settings, limit);
      Pow2Grows(EXACT_BITS, |stores|);
    }
  }

  lemma BelowTheLimit(clock: nat -> real, settings: Settings, stores: seq<string>, limit: nat, turns: nat)
    requires IsLimit(clock, settings, stores, limit) && turns <= limit
    requires OnTime(clock, settings, turns) && !Expired(clock, settings, turns) && Min(turns, Pow2(EXACT_BITS)) < Pow2(|stores|)
    ensures turns < limit
  {
  }

  /** The mask loop under the deadline. */
  method SearchSubsets(groups: seq<seq<Selected>>, stores: seq<string>, cart: seq<CartItem>,
                       settings: Settings, clock: nat -> real)
    returns (best: Option<Lead>, optimal: bool, evaluated: nat)
    requires Ends(clock, settings, stores)
    ensures evaluated <= Pow2(|stores|)
    ensures OnTime(clock, settings, evaluated)
    ensures optimal <==> |stores| <= EXACT_BITS && evaluated == Pow2(|stores|)
    ensures !optimal ==> StoppedByClock(clock, settings, evaluated)
    ensures best.None? <==> evaluated == 0
    ensures best.Some? ==> FirstBest(groups, stores, cart, settings, evaluated, best.value.items)
  {
    var subsetCount := Pow2(|stores|);
    best, optimal, evaluated := None, true, 0;
    var mask := 0;
    var turns: nat := 0;
    ghost var limit := TurnLimit(clock, settings, stores);
    while mask < subsetCount
      invariant 0 <= mask == evaluated <= subsetCount && evaluated == Min(turns, Pow2(EXACT_BITS))
      invariant optimal && turns <= limit && OnTime(clock, settings, turns)
      invariant best.None? <==> mask == 0
      invariant best.Some? ==> SomeLeads(groups, stores, cart, settings, mask, best.value)
      decreases limit - turns
    {
      if Expired(clock, settings, turns) {
        optimal := false;
        break;
      }
      StillOnTime(clock, settings, turns);
      BelowTheLimit(clock, settings, stores, limit, turns);
      evaluated := Increment(evaluated);
      best := TryMask(groups, stores, cart, settings, mask, best);
      mask := Increment(mask);
      turns := turns + 1;
    }
    if best.Some? {
      LeaderIsFirstBest(groups, stores, cart, settings, mask, best.value);
    }
  }
}
