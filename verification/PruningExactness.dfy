/**
 * Exactly which requests the database prune is harmless for: complete searches over the
 * pruned and over the full rows agree on every input if and only if the request is neutral.
 */
module PruningExactness {
  import opened Numbers
  import opened Options
  import opened Text
  import opened CartOptimizer
  import opened CartOptimality
  import opened CartReport
  import opened CartGuarantees
  import opened CardOptimization
  import opened CandidatePruning
  import opened OrderedPruning

  /** A search over some rows and one over what the prune leaves of them, each under its own clock. */
  datatype Searches = Searches(
    entries: seq<Entry>, rows: seq<Row>, pruned: seq<Row>, normalize: string -> string,
    clock: nat -> real, clock': nat -> real, full: Result, few: Result)

  ghost predicate BothComplete(request: Request, s: Searches) {
    && FromDatabase(s.entries, s.rows, request) && IsPruned(s.rows, s.pruned)
    && IsOutcome(InputFor(s.entries, s.rows, request), s.normalize, s.clock, s.full) && s.full.optimal
    && IsOutcome(InputFor(s.entries, s.pruned, request), s.normalize, s.clock', s.few) && s.few.optimal
  }

  ghost predicate InQueryOrder(s: Searches, rank: string -> int) {
    DistinctPositions(s.entries) && OrderedRows(s.rows, rank) && OrderedRows(s.pruned, rank)
  }

  ghost predicate FewPaidStores(request: Request, s: Searches) {
    var stores := StoreList(WantedGroups(InputFor(s.entries, s.rows, request), s.normalize));
    |stores| <= 32 && NonNegativeShipping(SettingsOf(request), stores)
  }

  /** As many cards are missing, at the same objective. */
  ghost predicate Agree(request: Request, s: Searches) {
    SameScore(s.full.selected, s.few.selected, request.initialCart, SettingsOf(request))
  }

  /** With the rows in the query's order, whatever the stores and their shipping. */
  ghost predicate HarmlessInOrder(request: Request, rank: string -> int) {
    forall s: Searches :: BothComplete(request, s) && InQueryOrder(s, rank) ==> Agree(request, s)
  }

  /** With the rows in any order, over at most 32 stores that charge no negative shipping. */
  ghost predicate HarmlessInAnyOrder(request: Request) {
    forall s: Searches :: BothComplete(request, s) && FewPaidStores(request, s) ==> Agree(request, s)
  }

  // ----- Neutral requests -----

  lemma NeutralIsHarmless(request: Request, rank: string -> int)
    requires Neutral(request) && Collation(rank)
    ensures HarmlessInOrder(request, rank) && HarmlessInAnyOrder(request)
  {
    forall s: Searches | BothComplete(request, s)
      ensures InQueryOrder(s, rank) ==> Agree(request, s)
      ensures FewPaidStores(request, s) ==> Agree(request, s)
    {
      if InQueryOrder(s, rank) {
        OrderedPruningChangesNothing(s.entries, s.rows, s.pruned, request, rank, s.normalize, s.clock, s.clock', s.full, s.few);
      }
      if FewPaidStores(request, s) {
        PruningKeepsTheOptimum(s.entries, s.rows, s.pruned, request, s.normalize, s.clock, s.clock', s.full, s.few);
      }
    }
  }

  // ----- A name no cart and no shipping table holds -----

  lemma {:induction false} LengthBound(used: set<string>) returns (n: nat)
    ensures forall s :: s in used ==> |s| < n
  {
    n := 1;
    if used != {} {
      var s :| s in used;
      var m := LengthBound(used - {s});
      n := m + |s| + 1;
      assert forall x :: x in used ==> x == s || x in used - {s};
    }
  }

  lemma UnusedName(used: set<string>) returns (name: string)
    ensures name != "" && name !in used
  {
    var n := LengthBound(used);
    name := seq(n + 1, _ => 'a');
  }

  // ----- One card, one store -----

  /** What a complete search over one card's offers in one store finds. */
  ghost predicate IsCheapestOf(items: seq<Selected>, group: seq<Selected>) {
    if group == [] then items == []
    else |items| == 1 && items[0] in group && forall s :: s in group ==> EffectiveCost(items[0]) <= EffectiveCost(s)
  }

  lemma SingleObjective(x: Selected, cart: seq<CartItem>, settings: Settings)
    ensures Objective([x], cart, settings)
            == EffectiveCost(x) + ShippingTotal(Uniq(CartStores(cart) + [x.storeKey]), settings)
  {
    assert [x][..0] == [];
    assert EffectiveTotal([x]) == EffectiveCost(x);
    assert OfferStores([x]) == [x.storeKey];
  }

  lemma SingleChosen(x: Option<Selected>)
    ensures Chosen([x]) == if x.Some? then [x.value] else []
  {
    assert [x][..0] == [];
  }

  ghost predicate SoldBy(group: seq<Selected>, store: string) {
    forall s :: s in group ==> s.storeKey == store
  }

  lemma SoleStore(group: seq<Selected>, store: string)
    requires SoldBy(group, store)
    ensures |StoreList([group])| <= 1 && forall k :: k in StoreList([group]) ==> k == store
  {
    forall k | k in StoreList([group]) ensures k == store {
      assert k in AllStores([group]);
      var j :| 0 <= j < |group| && group[j].storeKey == k;
    }
    var stores := StoreList([group]);
    if |stores| > 1 {
      assert stores[0] in stores && stores[1] in stores;
      LessTotal(store, store);
    }
  }

  lemma BestOfOneIsCheapest(x: Selected, s: Selected, cart: seq<CartItem>, settings: Settings)
    requires x.storeKey == s.storeKey && NoBetter([s], [x], cart, settings)
    ensures EffectiveCost(x) <= EffectiveCost(s)
  {
    SingleObjective(s, cart, settings);
    SingleObjective(x, cart, settings);
  }

  lemma SoloSearch(group: seq<Selected>, store: string, cart: seq<CartItem>, settings: Settings, items: seq<Selected>)
    requires SoldBy(group, store) && ShippingFor(store, settings) >= 0.0
    requires FirstBest([group], StoreList([group]), cart, settings, Pow2(|StoreList([group])|), items)
    ensures IsCheapestOf(items, group)
  {
    var a := CompleteSearchMissesOnlyOfferless([group], cart, settings, items);
    SingleChosen(a[0]);
    assert a == [a[0]];
    SoleStore(group, store);
    CompleteSearchIsGloballyBest([group], cart, settings, items);
    forall s | s in group ensures EffectiveCost(items[0]) <= EffectiveCost(s) {
      assert IsAssignment([Some(s)], [group]);
      SingleChosen(Some(s));
      BestOfOneIsCheapest(items[0], s, cart, settings);
    }
  }

  // ----- A request that is not neutral: two copies of one card in one store -----

  function GroupFor(request: Request, e: Entry, rows: seq<Row>): seq<Selected> {
    Group(WantedOf(e, request), MappedCandidates([e], rows), SettingsOf(request))
  }

  /** A card and a store that neither the initial cart nor the shipping table knows. */
  ghost predicate Unknown(request: Request, e: Entry, store: string) {
    && e.position == "1" && e.preferredSetCode.None? && e.name !in OwnedNames(request.initialCart, Unchanged)
    && store != "" && store !in request.shippingByStore
  }

  predicate Offers(request: Request, e: Entry, store: string, x: Row) {
    && x.position == e.position && x.store == store && x.price >= 0.0
    && x.condition in EligibleConditions(request.minimum, request.mode, request.maxDowngradeSteps)
  }

  lemma SingleCardToBuy(input: Input, card: WantedCard)
    requires input.wanted == [card] && card.quantity.None? && card.name !in OwnedNames(input.initialCart, Unchanged)
    ensures WantedToBuy(input, Unchanged) == [card]
    ensures WantedGroups(input, Unchanged) == [Group(card, input.candidates, input.settings)]
  {
    SingleCopiesExpand(input.wanted);
    NothingOwned(input.wanted, OwnedNames(input.initialCart, Unchanged), Unchanged);
  }

  lemma OneCardToBuy(request: Request, e: Entry, store: string, rows: seq<Row>)
    requires Unknown(request, e, store)
    ensures WantedGroups(InputFor([e], rows, request), Unchanged) == [GroupFor(request, e, rows)]
  {
    var input := InputFor([e], rows, request);
    assert input.wanted == [WantedOf(e, request)];
    SingleCardToBuy(input, WantedOf(e, request));
  }

  lemma NoValuePolicy(items: seq<Selected>, request: Request)
    ensures WithConditionValue(items, SettingsOf(request)) == items
  {
  }

  lemma OneSeller(request: Request, e: Entry, store: string, rows: seq<Row>)
    requires forall x :: x in rows ==> Offers(request, e, store, x)
    ensures SoldBy(GroupFor(request, e, rows), store)
  {
    var card, raw, settings := WantedOf(e, request), MappedCandidates([e], rows), SettingsOf(request);
    var prepared := Prepared(card, raw, settings);
    NoValuePolicy(SavingsPolicy(prepared, settings), request);
    forall s | s in prepared ensures s.storeKey == store {
      var i :| 0 <= i < |raw| && PrepareOne(card, raw[i], settings) == Some(s);
      assert raw[i] in raw;
    }
  }

  lemma OffersAreStored(request: Request, e: Entry, store: string, rows: seq<Row>)
    requires Unknown(request, e, store) && forall x :: x in rows ==> Offers(request, e, store, x)
    ensures FromDatabase([e], rows, request)
  {
    assert ':' !in e.position;
  }

  lemma SoloStores(request: Request, e: Entry, store: string, rows: seq<Row>)
    requires Unknown(request, e, store) && SoldBy(GroupFor(request, e, rows), store)
    ensures var stores := StoreList(WantedGroups(InputFor([e], rows, request), Unchanged));
            |stores| <= 1 && NonNegativeShipping(SettingsOf(request), stores)
  {
    OneCardToBuy(request, e, store, rows);
    SoleStore(GroupFor(request, e, rows), store);
  }

  lemma SoloFacts(request: Request, e: Entry, store: string, rows: seq<Row>)
    requires Unknown(request, e, store) && forall x :: x in rows ==> Offers(request, e, store, x)
    ensures var stores := StoreList(WantedGroups(InputFor([e], rows, request), Unchanged));
            && FromDatabase([e], rows, request) && SoldBy(GroupFor(request, e, rows), store)
            && |stores| <= 1 && NonNegativeShipping(SettingsOf(request), stores)
  {
    OffersAreStored(request, e, store, rows);
    OneSeller(request, e, store, rows);
    SoloStores(request, e, store, rows);
  }

  lemma SoloResult(request: Request, e: Entry, store: string, rows: seq<Row>) returns (r: Result)
    requires Unknown(request, e, store) && SoldBy(GroupFor(request, e, rows), store)
    ensures IsOutcome(InputFor([e], rows, request), Unchanged, Stopped, r) && r.optimal
    ensures IsCheapestOf(r.selected, GroupFor(request, e, rows))
  {
    var group, settings := GroupFor(request, e, rows), SettingsOf(request);
    SoloStores(request, e, store, rows);
    r := CompleteOutcomeExists(InputFor([e], rows, request), Unchanged);
    assert FirstBest([group], StoreList([group]), request.initialCart, settings, Pow2(|StoreList([group])|), r.selected) by {
      OneCardToBuy(request, e, store, rows);
    }
    SoloSearch(group, store, request.initialCart, settings, r.selected);
  }

  /** Equal scores of one store's offers mean equal costs. */
  lemma CostsDecide(request: Request, a: seq<Selected>, b: seq<Selected>, store: string)
    requires |a| == |b| == 1 && a[0].storeKey == b[0].storeKey == store
    ensures SameScore(a, b, request.initialCart, SettingsOf(request)) <==> EffectiveCost(a[0]) == EffectiveCost(b[0])
  {
    assert a == [a[0]] && b == [b[0]];
    SingleObjective(a[0], request.initialCart, SettingsOf(request));
    SingleObjective(b[0], request.initialCart, SettingsOf(request));
  }

  /** The copy at the minimum condition, or one step below it. */
  function CopyAt(request: Request, store: string, id: int, price: real, worn: bool): Row
  {
    Row("1", id, price, if worn then StepBelow(request.minimum) else request.minimum, store, "", None)
  }

  function StepBelow(c: Condition): Condition {
    match c
    case NM => LP
    case LP => MP
    case MP => HP
    case _ => DMG
  }

  function OfferOf(request: Request, e: Entry, x: Row): Option<Selected> {
    PrepareOne(WantedOf(e, request), CandidateOf(x), SettingsOf(request))
  }

  lemma CopyIsAccepted(request: Request, worn: bool)
    requires !Neutral(request)
    ensures var c := if worn then StepBelow(request.minimum) else request.minimum;
            && c in EligibleConditions(request.minimum, request.mode, request.maxDowngradeSteps)
            && DowngradeSteps(request.minimum, c) == (if worn then 1 else 0)
            && StepsAccepted(DowngradeSteps(request.minimum, c), SettingsOf(request))
  {
    DescendingPosition(request.minimum);
    FlexibleConditions(request, if worn then StepBelow(request.minimum) else request.minimum);
  }

  lemma CopyIsOffered(request: Request, e: Entry, store: string, id: int, price: real, worn: bool)
    requires !Neutral(request) && Unknown(request, e, store) && price >= 0.0
    ensures var x := CopyAt(request, store, id, price, worn);
            var s := OfferOf(request, e, x);
            && Offers(request, e, store, x)
            && s.Some? && s.value.price == price && s.value.condition == x.condition && s.value.storeKey == store
            && s.value.steps == (if worn then 1 else 0)
            && EffectiveCost(s.value) == price + if worn then request.penaltyPerStep.GetOr(0.0) else 0.0
  {
    BeforeColonOfColonFree("1", "");
    CopyIsAccepted(request, worn);
  }

  lemma PreparedRows(request: Request, e: Entry, a: Row, b: Row)
    requires a.position == b.position == e.position && OfferOf(request, e, a).Some? && OfferOf(request, e, b).Some?
    ensures Prepared(WantedOf(e, request), MappedCandidates([e], [a]), SettingsOf(request)) == [OfferOf(request, e, a).value]
    ensures Prepared(WantedOf(e, request), MappedCandidates([e], [a, b]), SettingsOf(request))
            == [OfferOf(request, e, a).value, OfferOf(request, e, b).value]
  {
    assert [e][..0] == [] && [a][..0] == [] && [a, b][..1] == [a];
    assert RowsAt([a], e.position) == [a] && RowsAt([a, b], e.position) == [a, b];
    assert MappedCandidates([e], [a]) == [CandidateOf(a)];
    assert MappedCandidates([e], [a, b]) == [CandidateOf(a), CandidateOf(b)];
    var card, settings := WantedOf(e, request), SettingsOf(request);
    assert [CandidateOf(a)][..0] == [] && [CandidateOf(a), CandidateOf(b)][..1] == [CandidateOf(a)];
    assert Prepared(card, [CandidateOf(a)], settings) == [OfferOf(request, e, a).value];
  }

  lemma GroupIsPrepared(request: Request, e: Entry, rows: seq<Row>)
    requires request.mode == Some(AllowIfNeeded)
    ensures GroupFor(request, e, rows) == Prepared(WantedOf(e, request), MappedCandidates([e], rows), SettingsOf(request))
  {
    NoValuePolicy(Prepared(WantedOf(e, request), MappedCandidates([e], rows), SettingsOf(request)), request);
  }

  /** Without the savings rule both copies stand; the prune keeps the first. */
  lemma NeededGroups(request: Request, e: Entry, a: Row, b: Row)
    requires request.mode == Some(AllowIfNeeded)
    requires a.position == b.position == e.position && OfferOf(request, e, a).Some? && OfferOf(request, e, b).Some?
    ensures GroupFor(request, e, [a]) == [OfferOf(request, e, a).value]
    ensures GroupFor(request, e, [a, b]) == [OfferOf(request, e, a).value, OfferOf(request, e, b).value]
  {
    PreparedRows(request, e, a, b);
    GroupIsPrepared(request, e, [a]);
    GroupIsPrepared(request, e, [a, b]);
  }

  /** Next to a satisfying copy below two dollars the savings rule drops every worn one. */
  lemma WornIsDropped(w: Selected, m: Selected)
    requires w.steps > 0 && m.steps == 0 && m.price == 1.0
    ensures KeepWorthwhile([w, m], Baseline([w, m])) == [m]
  {
    assert [w][..0] == [] && [w, m][..1] == [w];
    assert Baseline([w]) == None && Baseline([w, m]) == Some(m);
    assert KeepWorthwhile([w], Some(m)) == [];
  }

  /** A worn copy alone may stay or go. */
  lemma WornAlone(w: Selected)
    ensures KeepWorthwhile([w], Baseline([w])) in [[], [w]]
  {
    assert [w][..0] == [] && [] + [w] == [w];
  }

  lemma GroupIsKept(request: Request, e: Entry, rows: seq<Row>, prepared: seq<Selected>)
    requires request.mode == Some(AllowIfCheaper)
    requires Prepared(WantedOf(e, request), MappedCandidates([e], rows), SettingsOf(request)) == prepared
    ensures GroupFor(request, e, rows) == KeepWorthwhile(prepared, Baseline(prepared))
  {
    NoValuePolicy(KeepWorthwhile(prepared, Baseline(prepared)), request);
  }

  lemma CheaperGroups(request: Request, e: Entry, worn: Row, mint: Row)
    requires request.mode == Some(AllowIfCheaper)
    requires worn.position == mint.position == e.position && OfferOf(request, e, worn).Some? && OfferOf(request, e, mint).Some?
    requires OfferOf(request, e, worn).value.steps > 0 && OfferOf(request, e, mint).value.steps == 0
    requires OfferOf(request, e, mint).value.price == 1.0
    ensures GroupFor(request, e, [worn]) in [[], [OfferOf(request, e, worn).value]]
    ensures GroupFor(request, e, [worn, mint]) == [OfferOf(request, e, mint).value]
  {
    PreparedRows(request, e, worn, mint);
    var w, m := OfferOf(request, e, worn).value, OfferOf(request, e, mint).value;
    WornIsDropped(w, m);
    WornAlone(w);
    GroupIsKept(request, e, [worn], [w]);
    GroupIsKept(request, e, [worn, mint], [w, m]);
  }

  /** Whatever is cheapest of each of the two groups, the two differ in number or cost. */
  ghost predicate CheapestDiffer(full: seq<Selected>, few: seq<Selected>) {
    && full != []
    && forall x, y :: x in full && (forall s :: s in full ==> EffectiveCost(x) <= EffectiveCost(s)) && y in few ==>
         EffectiveCost(x) != EffectiveCost(y)
  }

  lemma DearerAlone(a: Selected, b: Selected)
    requires EffectiveCost(b) < EffectiveCost(a)
    ensures CheapestDiffer([a, b], [a])
  {
    assert b in [a, b];
  }

  lemma OtherAlone(m: Selected, few: seq<Selected>)
    requires forall y :: y in few ==> EffectiveCost(y) != EffectiveCost(m)
    ensures CheapestDiffer([m], few)
  {
  }

  lemma ResultsDiffer(request: Request, e: Entry, store: string, a: Row, b: Row) returns (s: Searches)
    requires Unknown(request, e, store) && Offers(request, e, store, a) && Offers(request, e, store, b) && a.price < b.price
    requires CheapestDiffer(GroupFor(request, e, [a, b]), GroupFor(request, e, [a]))
    ensures BothComplete(request, s) && FewPaidStores(request, s) && !Agree(request, s)
    ensures |s.entries| == 1 && s.pruned == [a] && s.rows == [a, b]
  {
    SoloFacts(request, e, store, [a, b]);
    SoloFacts(request, e, store, [a]);
    var full := SoloResult(request, e, store, [a, b]);
    var few := SoloResult(request, e, store, [a]);
    PairIsPruned(a, b);
    if |few.selected| == 1 {
      CostsDecide(request, full.selected, few.selected, store);
    }
    s := Searches([e], [a, b], [a], Unchanged, Stopped, Stopped, full, few);
  }

  lemma HarmInOrder(request: Request, s: Searches, rank: string -> int)
    requires BothComplete(request, s) && InQueryOrder(s, rank) && !Agree(request, s)
    ensures !HarmlessInOrder(request, rank)
  {
  }

  lemma HarmInAnyOrder(request: Request, s: Searches)
    requires BothComplete(request, s) && FewPaidStores(request, s) && !Agree(request, s)
    ensures !HarmlessInAnyOrder(request)
  {
  }

  lemma PairInOrder(s: Searches, rank: string -> int)
    requires |s.entries| == 1 && |s.rows| == 2 && |s.pruned| == 1 && s.rows[0].store == s.rows[1].store
    ensures InQueryOrder(s, rank)
  {
  }

  lemma SearchesDisagree(request: Request, e: Entry, store: string, a: Row, b: Row, rank: string -> int)
    requires Unknown(request, e, store) && Offers(request, e, store, a) && Offers(request, e, store, b) && a.price < b.price
    requires CheapestDiffer(GroupFor(request, e, [a, b]), GroupFor(request, e, [a]))
    ensures !HarmlessInOrder(request, rank) && !HarmlessInAnyOrder(request)
  {
    var s := ResultsDiffer(request, e, store, a, b);
    PairInOrder(s, rank);
    HarmInOrder(request, s, rank);
    HarmInAnyOrder(request, s);
  }

  /** A penalty per step hides the copy that costs less with it. */
  lemma PenaltyIsHarmful(request: Request, e: Entry, store: string, rank: string -> int)
    requires !Neutral(request) && request.mode == Some(AllowIfNeeded) && Unknown(request, e, store)
    ensures !HarmlessInOrder(request, rank) && !HarmlessInAnyOrder(request)
  {
    var p := request.penaltyPerStep.GetOr(0.0);
    var wornFirst, high := p > 0.0, if p > 0.0 then p / 2.0 else -p / 2.0;
    var a, b := CopyAt(request, store, 1, 0.0, wornFirst), CopyAt(request, store, 2, high, !wornFirst);
    CopyIsOffered(request, e, store, 1, 0.0, wornFirst);
    CopyIsOffered(request, e, store, 2, high, !wornFirst);
    NeededGroups(request, e, a, b);
    DearerAlone(OfferOf(request, e, a).value, OfferOf(request, e, b).value);
    SearchesDisagree(request, e, store, a, b, rank);
  }

  /** The savings rule needs the satisfying copy to judge by, and the prune hides it. */
  lemma SavingsRuleDiffers(request: Request, e: Entry, worn: Row, mint: Row)
    requires request.mode == Some(AllowIfCheaper)
    requires worn.position == mint.position == e.position && OfferOf(request, e, worn).Some? && OfferOf(request, e, mint).Some?
    requires OfferOf(request, e, worn).value.steps > 0 && OfferOf(request, e, mint).value.steps == 0
    requires OfferOf(request, e, mint).value.price == 1.0
    requires EffectiveCost(OfferOf(request, e, worn).value) != EffectiveCost(OfferOf(request, e, mint).value)
    ensures CheapestDiffer(GroupFor(request, e, [worn, mint]), GroupFor(request, e, [worn]))
  {
    CheaperGroups(request, e, worn, mint);
    OtherAlone(OfferOf(request, e, mint).value, GroupFor(request, e, [worn]));
  }

  lemma SavingsRuleIsHarmful(request: Request, e: Entry, store: string, rank: string -> int)
    requires !Neutral(request) && request.mode == Some(AllowIfCheaper) && Unknown(request, e, store)
    ensures !HarmlessInOrder(request, rank) && !HarmlessInAnyOrder(request)
  {
    var low := if request.penaltyPerStep.GetOr(0.0) == 1.0 then 0.5 else 0.0;
    var a, b := CopyAt(request, store, 1, low, true), CopyAt(request, store, 2, 1.0, false);
    CopyIsOffered(request, e, store, 1, low, true);
    CopyIsOffered(request, e, store, 2, 1.0, false);
    SavingsRuleDiffers(request, e, a, b);
    SearchesDisagree(request, e, store, a, b, rank);
  }

  lemma OtherRequestsAreNot(request: Request, rank: string -> int)
    requires !Neutral(request)
    ensures !HarmlessInOrder(request, rank) && !HarmlessInAnyOrder(request)
  {
    var name := UnusedName(OwnedNames(request.initialCart, Unchanged));
    var store := UnusedName(request.shippingByStore.Keys);
    if request.mode == Some(AllowIfCheaper) {
      SavingsRuleIsHarmful(request, Entry("1", name, None), store, rank);
    } else {
      PenaltyIsHarmful(request, Entry("1", name, None), store, rank);
    }
  }

  /** The prune is harmless on every input if and only if the request is neutral. */
  lemma PruningIsHarmlessExactly(request: Request, rank: string -> int)
    requires Collation(rank)
    ensures HarmlessInOrder(request, rank) <==> Neutral(request)
    ensures HarmlessInAnyOrder(request) <==> Neutral(request)
  {
    if Neutral(request) {
      NeutralIsHarmless(request, rank);
    } else {
      OtherRequestsAreNot(request, rank);
    }
  }
}
