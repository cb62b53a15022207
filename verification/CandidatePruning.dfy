/**
 * Keeping only the cheapest offer per (position, store) changes neither the number of
 * missing cards nor the objective of a complete search under a neutral request.
 */
module CandidatePruning {
  import opened Options
  import opened Text
  import opened CartOptimizer
  import opened CartOptimality
  import opened CartReport
  import opened CartGuarantees
  import opened CardOptimization

  /** No condition that the request admits is ever charged for, or ever weighed against another. */
  predicate Neutral(request: Request) {
    || IsStrict(request)
    || request.minimum in {UNKNOWN, DMG}
    || request.maxDowngradeSteps.GetOr(4) <= 0
    || (request.mode == Some(AllowIfNeeded) && request.penaltyPerStep.GetOr(0.0) == 0.0)
  }

  /** What the database guarantees of the rows and entries it returns. */
  ghost predicate FromDatabase(entries: seq<Entry>, rows: seq<Row>, request: Request) {
    && PassedFilter(request, entries, rows)
    && (forall e :: e in entries ==> ':' !in e.position)
    && (forall r :: r in rows ==> r.price >= 0.0)
  }

  lemma {:induction false} AllWorthKeeping(items: seq<Selected>, baseline: Option<Selected>)
    requires forall s :: s in items ==> WorthDowngrading(s, baseline)
    ensures KeepWorthwhile(items, baseline) == items
  {
    if items != [] {
      var init, last := items[..|items| - 1], items[|items| - 1];
      assert items == init + [last];
      AllWorthKeeping(init, baseline);
    }
  }

  /** Every admitted condition is accepted alike, free of charge; the savings rule never judges one. */
  lemma NeutralSteps(request: Request, c: Condition)
    requires Neutral(request) && c in EligibleConditions(request.minimum, request.mode, request.maxDowngradeSteps)
    ensures var steps, settings := DowngradeSteps(request.minimum, c), SettingsOf(request);
            && (StepsAccepted(steps, settings) <==> request.maxDowngradeSteps.GetOr(4) >= 0)
            && (StepsAccepted(steps, settings) ==>
                  ConditionPenalty(steps, settings) == 0.0 && (request.mode == Some(AllowIfCheaper) ==> steps == 0))
  {
    DescendingPosition(request.minimum);
    if IsStrict(request) {
      StrictConditions(request, c);
    } else {
      FlexibleConditions(request, c);
    }
  }

  lemma SetFilterSuffices(entries: seq<Entry>, rows: seq<Row>, request: Request, e: Entry, x: Row)
    requires PassedFilter(request, entries, rows) && e in entries && x in rows && x.position == e.position
    ensures SetAccepted(WantedOf(e, request), CandidateOf(x))
  {
    assert |Lower(x.setCode.GetOr(""))| == |x.setCode.GetOr("")|;
    assert e.preferredSetCode.Some? ==> |Lower(e.preferredSetCode.value)| == |e.preferredSetCode.value|;
  }

  /** A row is accepted whatever its condition and costs its price; the savings rule has nothing to drop. */
  lemma NeutralPreparation(entries: seq<Entry>, rows: seq<Row>, request: Request, e: Entry, x: Row)
    requires Neutral(request) && FromDatabase(entries, rows, request) && e in entries && x in rows
    ensures var s := PrepareOne(WantedOf(e, request), CandidateOf(x), SettingsOf(request));
            && (s.Some? <==> x.position == e.position && request.maxDowngradeSteps.GetOr(4) >= 0 && x.store != "")
            && (s.Some? ==> s.value.storeKey == x.store && EffectiveCost(s.value) == x.price)
            && (s.Some? && request.mode == Some(AllowIfCheaper) ==> s.value.steps == 0)
  {
    BeforeColonOfColonFree(e.position, "");
    NeutralSteps(request, x.condition);
    if x.position == e.position {
      SetFilterSuffices(entries, rows, request, e, x);
    }
  }

  lemma NeutralGroupIsPrepared(entries: seq<Entry>, rows: seq<Row>, request: Request, e: Entry)
    requires Neutral(request) && FromDatabase(entries, rows, request) && e in entries
    ensures var card, raw, settings := WantedOf(e, request), MappedCandidates(entries, rows), SettingsOf(request);
            && Group(card, raw, settings) == Prepared(card, raw, settings)
            && forall s :: s in Group(card, raw, settings) ==> EffectiveCost(s) == s.price
  {
    var card, raw, settings := WantedOf(e, request), MappedCandidates(entries, rows), SettingsOf(request);
    var prepared := Prepared(card, raw, settings);
    forall s | s in prepared
      ensures EffectiveCost(s) == s.price
      ensures request.mode == Some(AllowIfCheaper) ==> WorthDowngrading(s, Baseline(prepared))
    {
      var i :| 0 <= i < |raw| && PrepareOne(card, raw[i], settings) == Some(s);
      assert raw[i] in raw;
      var x :| x in rows && raw[i] == CandidateOf(x);
      NeutralPreparation(entries, rows, request, e, x);
    }
    if request.mode == Some(AllowIfCheaper) {
      AllWorthKeeping(prepared, Baseline(prepared));
    }
    assert SavingsPolicy(prepared, settings) == prepared;
    assert WithConditionValue(prepared, settings) == prepared;
  }

  lemma NeutralGroupMembers(entries: seq<Entry>, rows: seq<Row>, request: Request, e: Entry)
    requires Neutral(request) && FromDatabase(entries, rows, request) && e in entries
    ensures forall s :: s in Group(WantedOf(e, request), MappedCandidates(entries, rows), SettingsOf(request)) <==>
              exists x :: x in rows && PrepareOne(WantedOf(e, request), CandidateOf(x), SettingsOf(request)) == Some(s)
  {
    var card, raw, settings := WantedOf(e, request), MappedCandidates(entries, rows), SettingsOf(request);
    NeutralGroupIsPrepared(entries, rows, request, e);
    forall s ensures s in Prepared(card, raw, settings) <==> exists x :: x in rows && PrepareOne(card, CandidateOf(x), settings) == Some(s) {
      if s in Prepared(card, raw, settings) {
        var i :| 0 <= i < |raw| && PrepareOne(card, raw[i], settings) == Some(s);
        assert raw[i] in raw;
      }
      if x :| x in rows && PrepareOne(card, CandidateOf(x), settings) == Some(s) {
        NeutralPreparation(entries, rows, request, e, x);
        assert CandidateOf(x) in raw;
        var i :| 0 <= i < |raw| && raw[i] == CandidateOf(x);
      }
    }
  }

  /** The cards to buy are exactly the entries not already in the cart. */
  lemma {:induction false} ExpandedAreEntries(entries: seq<Entry>, request: Request)
    ensures forall c :: c in ExpandWanted(InputFor(entries, [], request).wanted) ==>
              exists e :: e in entries && c == WantedOf(e, request)
  {
    if entries != [] {
      var init, last := entries[..|entries| - 1], entries[|entries| - 1];
      ExpandedAreEntries(init, request);
      var wanted := InputFor(entries, [], request).wanted;
      assert wanted[..|wanted| - 1] == InputFor(init, [], request).wanted;
      assert wanted[|wanted| - 1] == WantedOf(last, request);
      assert Copies(WantedOf(last, request)) == [WantedOf(last, request)];
      assert last in entries;
      assert forall e :: e in init ==> e in entries;
    }
  }

  ghost predicate IsEntry(card: WantedCard, entries: seq<Entry>, request: Request) {
    exists e :: e in entries && card == WantedOf(e, request)
  }

  ghost predicate AreEntries(wanted: seq<WantedCard>, entries: seq<Entry>, request: Request) {
    forall i :: 0 <= i < |wanted| ==> IsEntry(wanted[i], entries, request)
  }

  lemma CardsToBuyAreEntries(entries: seq<Entry>, rows: seq<Row>, request: Request, normalize: string -> string)
    ensures AreEntries(WantedToBuy(InputFor(entries, rows, request), normalize), entries, request)
  {
    ExpandedAreEntries(entries, request);
    assert InputFor(entries, rows, request).wanted == InputFor(entries, [], request).wanted;
    var wanted := WantedToBuy(InputFor(entries, rows, request), normalize);
    forall i | 0 <= i < |wanted| ensures IsEntry(wanted[i], entries, request) {
      assert wanted[i] in wanted;
    }
  }

  /** The group holds an offer of the same store that is no dearer. */
  ghost predicate HasTwin(s: Selected, group: seq<Selected>) {
    exists t :: t in group && t.storeKey == s.storeKey && EffectiveCost(t) <= EffectiveCost(s)
  }

  /** `few` is a thinning of `full` that leaves a twin for everything it drops. */
  ghost predicate Thins(few: seq<seq<Selected>>, full: seq<seq<Selected>>) {
    && |few| == |full|
    && (forall i, s :: 0 <= i < |full| && s in full[i] ==> HasTwin(s, few[i]))
    && (forall i, s :: 0 <= i < |few| && s in few[i] ==> s in full[i])
  }

  lemma PrunedGroupHasATwin(entries: seq<Entry>, rows: seq<Row>, pruned: seq<Row>, request: Request, e: Entry, s: Selected)
    requires Neutral(request) && FromDatabase(entries, rows, request) && IsPruned(rows, pruned) && e in entries
    requires s in Group(WantedOf(e, request), MappedCandidates(entries, rows), SettingsOf(request))
    ensures HasTwin(s, Group(WantedOf(e, request), MappedCandidates(entries, pruned), SettingsOf(request)))
  {
    var card, settings := WantedOf(e, request), SettingsOf(request);
    NeutralGroupMembers(entries, rows, request, e);
    NeutralGroupMembers(entries, pruned, request, e);
    var x :| x in rows && PrepareOne(card, CandidateOf(x), settings) == Some(s);
    var y := PruningKeepsTheCheapest(rows, pruned, x);
    NeutralPreparation(entries, rows, request, e, x);
    NeutralPreparation(entries, rows, request, e, y);
    assert PrepareOne(card, CandidateOf(y), settings).value in Group(card, MappedCandidates(entries, pruned), settings);
  }

  lemma PrunedGroupIsSmaller(entries: seq<Entry>, rows: seq<Row>, pruned: seq<Row>, request: Request, e: Entry)
    requires Neutral(request) && FromDatabase(entries, rows, request) && IsPruned(rows, pruned) && e in entries
    ensures forall s :: s in Group(WantedOf(e, request), MappedCandidates(entries, pruned), SettingsOf(request)) ==>
              s in Group(WantedOf(e, request), MappedCandidates(entries, rows), SettingsOf(request))
  {
    NeutralGroupMembers(entries, rows, request, e);
    NeutralGroupMembers(entries, pruned, request, e);
  }

  /** The database prune thins the optimizer's candidate groups. */
  lemma PruningThins(entries: seq<Entry>, rows: seq<Row>, pruned: seq<Row>, request: Request, wanted: seq<WantedCard>)
    requires Neutral(request) && FromDatabase(entries, rows, request) && IsPruned(rows, pruned)
    requires AreEntries(wanted, entries, request)
    ensures Thins(Groups(wanted, MappedCandidates(entries, pruned), SettingsOf(request)),
                  Groups(wanted, MappedCandidates(entries, rows), SettingsOf(request)))
  {
    var full := Groups(wanted, MappedCandidates(entries, rows), SettingsOf(request));
    var few := Groups(wanted, MappedCandidates(entries, pruned), SettingsOf(request));
    forall i, s | 0 <= i < |full| && s in full[i] ensures HasTwin(s, few[i]) {
      assert IsEntry(wanted[i], entries, request);
      var e :| e in entries && wanted[i] == WantedOf(e, request);
      PrunedGroupHasATwin(entries, rows, pruned, request, e, s);
    }
    forall i, s | 0 <= i < |few| && s in few[i] ensures s in full[i] {
      assert IsEntry(wanted[i], entries, request);
      var e :| e in entries && wanted[i] == WantedOf(e, request);
      PrunedGroupIsSmaller(entries, rows, pruned, request, e);
    }
  }

  /** `b` makes the same stores' offers as `a`, none dearer. */
  ghost predicate IsTwin(a: Assignment, b: Assignment) {
    |a| == |b| && forall i :: 0 <= i < |a| ==>
      && (a[i].Some? <==> b[i].Some?)
      && (a[i].Some? ==> b[i].value.storeKey == a[i].value.storeKey
                         && EffectiveCost(b[i].value) <= EffectiveCost(a[i].value))
  }

  lemma OfferStoresGrow(items: seq<Selected>, x: Selected)
    ensures OfferStores(items + [x]) == OfferStores(items) + [x.storeKey]
  {
  }

  lemma {:induction false} TwinsUseTheSameStores(a: Assignment, b: Assignment)
    requires IsTwin(a, b)
    ensures OfferStores(Chosen(a)) == OfferStores(Chosen(b))
    ensures EffectiveTotal(Chosen(b)) <= EffectiveTotal(Chosen(a))
  {
    if a != [] {
      var n := |a| - 1;
      TwinsUseTheSameStores(a[..n], b[..n]);
      ChosenStep(a);
      ChosenStep(b);
      if a[n].Some? {
        OfferStoresGrow(Chosen(a[..n]), a[n].value);
        OfferStoresGrow(Chosen(b[..n]), b[n].value);
      }
    }
  }

  lemma TwinIsNoWorse(a: Assignment, b: Assignment, cart: seq<CartItem>, settings: Settings)
    requires IsTwin(a, b)
    ensures NoBetter(Chosen(a), Chosen(b), cart, settings)
  {
    TwinsUseTheSameStores(a, b);
    assert |Chosen(a)| == |OfferStores(Chosen(a))| == |Chosen(b)|;
  }

  lemma ThinsPrefix(few: seq<seq<Selected>>, full: seq<seq<Selected>>, n: nat)
    requires Thins(few, full) && n <= |few|
    ensures Thins(few[..n], full[..n])
  {
    forall i, s | 0 <= i < n && s in full[..n][i] ensures HasTwin(s, few[..n][i]) {
      assert s in full[i];
    }
    forall i, s | 0 <= i < n && s in few[..n][i] ensures s in full[..n][i] {
      assert s in few[i];
    }
  }

  lemma {:induction false} TwinAssignment(full: seq<seq<Selected>>, few: seq<seq<Selected>>, a: Assignment)
    returns (b: Assignment)
    requires Thins(few, full) && IsAssignment(a, full)
    ensures IsAssignment(b, few) && IsTwin(a, b)
  {
    if a == [] {
      b := [];
    } else {
      var n := |a| - 1;
      ThinsPrefix(few, full, n);
      b := TwinAssignment(full[..n], few[..n], a[..n]);
      var last := TwinOf(full, few, a, n);
      TwinStep(few, a, b, last);
      b := b + [last];
    }
  }

  lemma TwinOf(full: seq<seq<Selected>>, few: seq<seq<Selected>>, a: Assignment, n: nat) returns (t: Option<Selected>)
    requires Thins(few, full) && IsAssignment(a, full) && n < |a|
    ensures IsAssignment([t], [few[n]]) && IsTwin([a[n]], [t])
  {
    t := None;
    if a[n].Some? {
      assert HasTwin(a[n].value, few[n]);
      var s :| s in few[n] && s.storeKey == a[n].value.storeKey && EffectiveCost(s) <= EffectiveCost(a[n].value);
      t := Some(s);
    }
  }

  lemma TwinStep(few: seq<seq<Selected>>, a: Assignment, b: Assignment, last: Option<Selected>)
    requires |a| == |few| == |b| + 1
    requires IsAssignment(b, few[..|b|]) && IsTwin(a[..|b|], b)
    requires IsAssignment([last], [few[|b|]]) && IsTwin([a[|b|]], [last])
    ensures IsAssignment(b + [last], few) && IsTwin(a, b + [last])
  {
    var n := |b|;
    assert [last][0] == last && [a[n]][0] == a[n] && [few[n]][0] == few[n];
    forall i | 0 <= i < n ensures a[i] == a[..n][i] && few[i] == few[..n][i] {
    }
  }

  /** Offers of both searches come from the same stores. */
  lemma ThinningKeepsTheStores(few: seq<seq<Selected>>, full: seq<seq<Selected>>)
    requires Thins(few, full)
    ensures StoreList(few) == StoreList(full)
  {
    forall k | k in AllStores(full) ensures k in AllStores(few) {
      var i, j :| 0 <= i < |full| && 0 <= j < |full[i]| && full[i][j].storeKey == k;
      assert HasTwin(full[i][j], few[i]);
      var t :| t in few[i] && t.storeKey == full[i][j].storeKey;
      var j' :| 0 <= j' < |few[i]| && few[i][j'] == t;
    }
    forall k | k in AllStores(few) ensures k in AllStores(full) {
      var i, j :| 0 <= i < |few| && 0 <= j < |few[i]| && few[i][j].storeKey == k;
      assert few[i][j] in full[i];
      var j' :| 0 <= j' < |full[i]| && full[i][j'] == few[i][j];
    }
    SortedListsUnique(StoreList(full), StoreList(few));
  }

  /** Two complete searches over a family of groups and a thinning of it score the same. */
  lemma ThinningKeepsTheScore(
      few: seq<seq<Selected>>, full: seq<seq<Selected>>, cart: seq<CartItem>, settings: Settings,
      a': Assignment, a: Assignment)
    requires Thins(few, full) && IsAssignment(a', few) && IsAssignment(a, full)
    requires GloballyBest(Chosen(a'), few, cart, settings) && GloballyBest(Chosen(a), full, cart, settings)
    ensures |Chosen(a')| == |Chosen(a)| && Objective(Chosen(a'), cart, settings) == Objective(Chosen(a), cart, settings)
  {
    var b := TwinAssignment(full, few, a);
    TwinIsNoWorse(a, b, cart, settings);
    assert NoBetter(Chosen(b), Chosen(a'), cart, settings);
    assert IsAssignment(a', full);
    assert NoBetter(Chosen(a'), Chosen(a), cart, settings);
  }

  /** The prune is harmless under a neutral request: same missing count, same best objective. */
  lemma PruningKeepsTheOptimum(
      entries: seq<Entry>, rows: seq<Row>, pruned: seq<Row>, request: Request,
      normalize: string -> string, clock: nat -> real, clock': nat -> real, r: Result, r': Result)
    requires Neutral(request) && FromDatabase(entries, rows, request) && IsPruned(rows, pruned)
    requires IsOutcome(InputFor(entries, rows, request), normalize, clock, r) && r.optimal
    requires IsOutcome(InputFor(entries, pruned, request), normalize, clock', r') && r'.optimal
    requires var stores := StoreList(WantedGroups(InputFor(entries, rows, request), normalize));
             |stores| <= 32 && NonNegativeShipping(SettingsOf(request), stores)
    ensures |r'.selected| == |r.selected|
    ensures Objective(r'.selected, request.initialCart, SettingsOf(request))
            == Objective(r.selected, request.initialCart, SettingsOf(request))
  {
    var input, input' := InputFor(entries, rows, request), InputFor(entries, pruned, request);
    var wanted := WantedToBuy(input, normalize);
    assert wanted == WantedToBuy(input', normalize);
    CardsToBuyAreEntries(entries, rows, request, normalize);
    PruningThins(entries, rows, pruned, request, wanted);
    ThinningKeepsTheStores(WantedGroups(input', normalize), WantedGroups(input, normalize));
    OptimalResultsAreGloballyBest(input, normalize, clock, r);
    OptimalResultsAreGloballyBest(input', normalize, clock', r');
    var a := OutcomeIsAnAssignment(input, normalize, clock, r);
    var a' := OutcomeIsAnAssignment(input', normalize, clock', r');
    ThinningKeepsTheScore(WantedGroups(input', normalize), WantedGroups(input, normalize),
                          request.initialCart, SettingsOf(request), a', a);
  }

  // ----- Negative prices -----

  lemma PairIsPruned(a: Row, b: Row)
    requires SamePartition(a, b) && RanksBefore(a, b)
    ensures IsPruned([a, b], [a])
  {
    var rows := [a, b];
    assert rows[0] == a && rows[1] == b;
    assert RankOne(rows, 0);
    assert SamePartition(rows[0], rows[1]) && RanksBefore(rows[0], rows[1]);
  }

  /** A negative price would be rank 1, be rejected by the optimizer, and take its partition with it. */
  lemma NegativePricesWouldBePrunedInto()
    ensures var request := Request(NM, None, None, None, map[], []);
            var e := Entry("1", "Card", None);
            var bad, good := Row("1", 1, -1.0, NM, "s", "S", None), Row("1", 2, 12.0, NM, "s", "S", None);
            && IsPruned([bad, good], [bad])
            && PrepareOne(WantedOf(e, request), CandidateOf(bad), SettingsOf(request)).None?
            && PrepareOne(WantedOf(e, request), CandidateOf(good), SettingsOf(request)).Some?
  {
    var bad, good := Row("1", 1, -1.0, NM, "s", "S", None), Row("1", 2, 12.0, NM, "s", "S", None);
    PairIsPruned(bad, good);
    BeforeColonOfColonFree("1", "");
  }
}
