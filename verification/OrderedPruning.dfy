/**
 * With the row order the query asks for, the prune under a neutral request changes no mask's score at all:
 * the result is the same for any number of stores, any shipping charges and any deadline.
 */
module OrderedPruning {
  import opened Options
  import opened Text
  import opened CartOptimizer
  import opened CartReport
  import opened CardOptimization
  import opened CandidatePruning

  /** `rank` is the database's collation of store names. */
  ghost predicate Collation(rank: string -> int) {
    forall a, b :: rank(a) == rank(b) ==> a == b
  }

  /** ORDER BY ..., store_slug within each position. */
  ghost predicate OrderedRows(rows: seq<Row>, rank: string -> int) {
    forall i, j :: 0 <= i < j < |rows| && rows[i].position == rows[j].position ==> rank(rows[i].store) <= rank(rows[j].store)
  }

  ghost predicate InStoreOrder(group: seq<Selected>, rank: string -> int) {
    forall i, j :: 0 <= i < j < |group| ==> rank(group[i].storeKey) <= rank(group[j].storeKey)
  }

  ghost predicate PriceIsCost(group: seq<Selected>) {
    forall s :: s in group ==> EffectiveCost(s) == s.price
  }

  // ----- One card -----

  /** The sort is stable: whatever eligible offer stands earlier is strictly worse than the pick. */
  lemma {:induction false} CheapestIsEarliest(group: seq<Selected>, allowed: set<string>) returns (i: nat)
    requires Cheapest(group, allowed).Some?
    ensures i < |group| && group[i] == Cheapest(group, allowed).value
    ensures forall j :: 0 <= j < i && group[j].storeKey in allowed ==> Before(group[i], group[j])
  {
    var init, last := group[..|group| - 1], group[|group| - 1];
    var before := Cheapest(init, allowed);
    if last.storeKey in allowed && (before.None? || Before(last, before.value)) {
      i := |group| - 1;
      forall j | 0 <= j < i && group[j].storeKey in allowed ensures Before(group[i], group[j]) {
        assert init[j] in init;
      }
    } else {
      i := CheapestIsEarliest(init, allowed);
    }
  }

  /** An equally cheap eligible offer stands no earlier than the pick. */
  lemma TiesComeLater(group: seq<Selected>, allowed: set<string>, rank: string -> int, t: Selected)
    requires InStoreOrder(group, rank) && PriceIsCost(group) && t in group && t.storeKey in allowed
    requires Cheapest(group, allowed).Some? && EffectiveCost(t) == EffectiveCost(Cheapest(group, allowed).value)
    ensures rank(Cheapest(group, allowed).value.storeKey) <= rank(t.storeKey)
  {
    var i := CheapestIsEarliest(group, allowed);
    var k :| 0 <= k < |group| && group[k] == t;
    assert group[i] in group;
    assert k >= i;
  }

  /** The pick is never dearer than an eligible offer. */
  lemma PickIsNoDearer(group: seq<Selected>, allowed: set<string>, s: Selected)
    requires s in group && s.storeKey in allowed
    ensures Cheapest(group, allowed).Some? && EffectiveCost(Cheapest(group, allowed).value) <= EffectiveCost(s)
  {
    assert !Before(s, Cheapest(group, allowed).value);
  }

  /** The pick of the full group has its twin, and the pick of the thinned one comes from the full group. */
  ghost predicate PicksMeet(few: seq<Selected>, full: seq<Selected>, allowed: set<string>) {
    && (Cheapest(full, allowed).Some? ==> HasTwin(Cheapest(full, allowed).value, few))
    && (Cheapest(few, allowed).Some? ==> Cheapest(few, allowed).value in full)
  }

  /** The pick's twin in the thinned group costs what both picks cost. */
  lemma SameCost(few: seq<Selected>, full: seq<Selected>, allowed: set<string>) returns (t: Selected)
    requires PicksMeet(few, full, allowed) && Cheapest(full, allowed).Some?
    ensures Cheapest(few, allowed).Some? && t in few && t.storeKey == Cheapest(full, allowed).value.storeKey
    ensures EffectiveCost(t) == EffectiveCost(Cheapest(few, allowed).value) == EffectiveCost(Cheapest(full, allowed).value)
  {
    var x := Cheapest(full, allowed).value;
    t :| t in few && t.storeKey == x.storeKey && EffectiveCost(t) <= EffectiveCost(x);
    PickIsNoDearer(few, allowed, t);
    PickIsNoDearer(full, allowed, Cheapest(few, allowed).value);
  }

  /** A thinned group in the same store order picks the same store at the same cost. */
  lemma SamePick(few: seq<Selected>, full: seq<Selected>, allowed: set<string>, rank: string -> int)
    requires Collation(rank) && InStoreOrder(few, rank) && InStoreOrder(full, rank) && PriceIsCost(few) && PriceIsCost(full)
    requires PicksMeet(few, full, allowed)
    ensures var x, y := Cheapest(full, allowed), Cheapest(few, allowed);
            && (x.Some? <==> y.Some?)
            && (x.Some? ==> x.value.storeKey == y.value.storeKey && EffectiveCost(x.value) == EffectiveCost(y.value))
  {
    if Cheapest(full, allowed).Some? {
      var t := SameCost(few, full, allowed);
      TiesComeLater(few, allowed, rank, t);
      TiesComeLater(full, allowed, rank, Cheapest(few, allowed).value);
    }
  }

  // ----- All cards -----

  ghost predicate Comparable(few: seq<seq<Selected>>, full: seq<seq<Selected>>, rank: string -> int) {
    && Thins(few, full) && Collation(rank)
    && forall i :: 0 <= i < |full| ==> InStoreOrder(few[i], rank) && InStoreOrder(full[i], rank) && PriceIsCost(few[i]) && PriceIsCost(full[i])
  }

  lemma PicksOfThinned(few: seq<seq<Selected>>, full: seq<seq<Selected>>, allowed: set<string>, i: nat)
    requires Thins(few, full) && i < |full|
    ensures PicksMeet(few[i], full[i], allowed)
  {
  }

  lemma SameChoices(few: seq<seq<Selected>>, full: seq<seq<Selected>>, allowed: set<string>, rank: string -> int)
    requires Comparable(few, full, rank)
    ensures IsTwin(Choices(full, allowed), Choices(few, allowed)) && IsTwin(Choices(few, allowed), Choices(full, allowed))
  {
    forall i | 0 <= i < |full|
      ensures var x, y := Cheapest(full[i], allowed), Cheapest(few[i], allowed);
              && (x.Some? <==> y.Some?)
              && (x.Some? ==> x.value.storeKey == y.value.storeKey && EffectiveCost(x.value) == EffectiveCost(y.value))
    {
      PicksOfThinned(few, full, allowed, i);
      SamePick(few[i], full[i], allowed, rank);
    }
  }

  ghost predicate SameScore(a: seq<Selected>, b: seq<Selected>, cart: seq<CartItem>, settings: Settings) {
    |a| == |b| && Objective(a, cart, settings) == Objective(b, cart, settings)
  }

  /** Every mask scores the same on the pruned and on the full groups. */
  lemma MasksScoreAlike(few: seq<seq<Selected>>, full: seq<seq<Selected>>, stores: seq<string>, mask: nat,
                        cart: seq<CartItem>, settings: Settings, rank: string -> int)
    requires Comparable(few, full, rank)
    ensures SameScore(Pick(full, stores, mask), Pick(few, stores, mask), cart, settings)
  {
    var allowed := Allowed(stores, mask);
    SameChoices(few, full, allowed, rank);
    TwinIsNoWorse(Choices(full, allowed), Choices(few, allowed), cart, settings);
    TwinIsNoWorse(Choices(few, allowed), Choices(full, allowed), cart, settings);
  }

  /** So do the first best picks of as many masks. */
  lemma BestsScoreAlike(few: seq<seq<Selected>>, full: seq<seq<Selected>>, stores: seq<string>, bound: nat,
                        cart: seq<CartItem>, settings: Settings, rank: string -> int, a: seq<Selected>, b: seq<Selected>)
    requires Comparable(few, full, rank)
    requires FirstBest(full, stores, cart, settings, bound, a) && FirstBest(few, stores, cart, settings, bound, b)
    ensures SameScore(a, b, cart, settings)
  {
    var m: nat :| m < bound && a == Pick(full, stores, m) && BestMask(full, stores, cart, settings, bound, m);
    var n: nat :| n < bound && b == Pick(few, stores, n) && BestMask(few, stores, cart, settings, bound, n);
    MasksScoreAlike(few, full, stores, m, cart, settings, rank);
    MasksScoreAlike(few, full, stores, n, cart, settings, rank);
    assert NoBetter(Pick(full, stores, n), a, cart, settings);
    assert NoBetter(Pick(few, stores, m), b, cart, settings);
  }

  // ----- From rows to groups -----

  ghost predicate OrderedCandidates(raw: seq<Candidate>, key: string, rank: string -> int) {
    forall i, j :: 0 <= i < j < |raw| && raw[i].wantedKey == key && raw[j].wantedKey == key ==>
      rank(raw[i].offer.storeKey) <= rank(raw[j].offer.storeKey)
  }

  lemma {:induction false} RowsAtOrdered(rows: seq<Row>, position: string, rank: string -> int)
    requires OrderedRows(rows, rank)
    ensures forall i, j :: 0 <= i < j < |RowsAt(rows, position)| ==>
              rank(RowsAt(rows, position)[i].store) <= rank(RowsAt(rows, position)[j].store)
  {
    if rows != [] {
      var init, last := rows[..|rows| - 1], rows[|rows| - 1];
      RowsAtOrdered(init, position, rank);
      forall r | r in RowsAt(init, position) ensures last.position == position ==> rank(r.store) <= rank(last.store) {
        var i :| 0 <= i < |init| && init[i] == r;
        assert rows[i] == r;
      }
    }
  }

  ghost predicate DistinctPositions(entries: seq<Entry>) {
    forall i, j :: 0 <= i < j < |entries| ==> entries[i].position != entries[j].position
  }

  lemma {:induction false} MappedOrdered(entries: seq<Entry>, rows: seq<Row>, key: string, rank: string -> int)
    requires DistinctPositions(entries) && OrderedRows(rows, rank)
    ensures OrderedCandidates(MappedCandidates(entries, rows), key, rank)
  {
    if entries != [] {
      var init, last := entries[..|entries| - 1], entries[|entries| - 1];
      var before, own := MappedCandidates(init, rows), CandidatesFrom(RowsAt(rows, last.position));
      MappedOrdered(init, rows, key, rank);
      RowsAtOrdered(rows, last.position, rank);
      forall j | 0 <= j < |own| ensures own[j].wantedKey == last.position {
        assert RowsAt(rows, last.position)[j] in RowsAt(rows, last.position);
      }
      forall i | 0 <= i < |before| ensures before[i].wantedKey != last.position {
        assert before[i] in before;
      }
      OrderedTogether(before, own, key, rank, last.position);
    }
  }

  lemma OrderedTogether(before: seq<Candidate>, own: seq<Candidate>, key: string, rank: string -> int, position: string)
    requires OrderedCandidates(before, key, rank) && OrderedCandidates(own, key, rank)
    requires forall i :: 0 <= i < |before| ==> before[i].wantedKey != position
    requires forall j :: 0 <= j < |own| ==> own[j].wantedKey == position
    ensures OrderedCandidates(before + own, key, rank)
  {
  }

  lemma {:induction false} PreparedOrdered(card: WantedCard, raw: seq<Candidate>, settings: Settings, rank: string -> int)
    requires OrderedCandidates(raw, BeforeColon(card.key), rank)
    ensures InStoreOrder(Prepared(card, raw, settings), rank)
  {
    if raw != [] {
      var init, last := raw[..|raw| - 1], raw[|raw| - 1];
      PreparedOrdered(card, init, settings, rank);
      var next := PrepareOne(card, last, settings);
      forall s | s in Prepared(card, init, settings) ensures next.Some? ==> rank(s.storeKey) <= rank(next.value.storeKey) {
        var i :| 0 <= i < |init| && PrepareOne(card, init[i], settings) == Some(s);
        assert raw[i] == init[i];
      }
    }
  }

  lemma NeutralGroupOrdered(entries: seq<Entry>, rows: seq<Row>, request: Request, e: Entry, rank: string -> int)
    requires Neutral(request) && FromDatabase(entries, rows, request) && e in entries
    requires DistinctPositions(entries) && OrderedRows(rows, rank)
    ensures var group := Group(WantedOf(e, request), MappedCandidates(entries, rows), SettingsOf(request));
            InStoreOrder(group, rank) && PriceIsCost(group)
  {
    var card := WantedOf(e, request);
    NeutralGroupIsPrepared(entries, rows, request, e);
    MappedOrdered(entries, rows, BeforeColon(card.key), rank);
    PreparedOrdered(card, MappedCandidates(entries, rows), SettingsOf(request), rank);
  }

  lemma PrunedGroupsCompare(entries: seq<Entry>, rows: seq<Row>, pruned: seq<Row>, request: Request, wanted: seq<WantedCard>, rank: string -> int)
    requires Neutral(request) && FromDatabase(entries, rows, request) && IsPruned(rows, pruned) && AreEntries(wanted, entries, request)
    requires Collation(rank) && DistinctPositions(entries) && OrderedRows(rows, rank) && OrderedRows(pruned, rank)
    ensures Comparable(Groups(wanted, MappedCandidates(entries, pruned), SettingsOf(request)),
                       Groups(wanted, MappedCandidates(entries, rows), SettingsOf(request)), rank)
  {
    PruningThins(entries, rows, pruned, request, wanted);
    forall i | 0 <= i < |wanted|
      ensures InStoreOrder(Group(wanted[i], MappedCandidates(entries, pruned), SettingsOf(request)), rank)
      ensures InStoreOrder(Group(wanted[i], MappedCandidates(entries, rows), SettingsOf(request)), rank)
      ensures PriceIsCost(Group(wanted[i], MappedCandidates(entries, pruned), SettingsOf(request)))
      ensures PriceIsCost(Group(wanted[i], MappedCandidates(entries, rows), SettingsOf(request)))
    {
      assert IsEntry(wanted[i], entries, request);
      var e :| e in entries && wanted[i] == WantedOf(e, request);
      NeutralGroupOrdered(entries, rows, request, e, rank);
      NeutralGroupOrdered(entries, pruned, request, e, rank);
    }
  }

  /** Results on pruned and full rows agree after equally many masks, complete or not. */
  lemma OrderedPruningChangesNothing(
      entries: seq<Entry>, rows: seq<Row>, pruned: seq<Row>, request: Request, rank: string -> int,
      normalize: string -> string, clock: nat -> real, clock': nat -> real, r: Result, r': Result)
    requires Neutral(request) && FromDatabase(entries, rows, request) && IsPruned(rows, pruned)
    requires Collation(rank) && DistinctPositions(entries) && OrderedRows(rows, rank) && OrderedRows(pruned, rank)
    requires IsOutcome(InputFor(entries, rows, request), normalize, clock, r)
    requires IsOutcome(InputFor(entries, pruned, request), normalize, clock', r')
    requires r'.evaluated == r.evaluated || (r.optimal && r'.optimal)
    ensures SameScore(r.selected, r'.selected, request.initialCart, SettingsOf(request))
    ensures r'.optimal == r.optimal
  {
    var input, input' := InputFor(entries, rows, request), InputFor(entries, pruned, request);
    var wanted := WantedToBuy(input, normalize);
    var full, few := WantedGroups(input, normalize), WantedGroups(input', normalize);
    assert wanted == WantedToBuy(input', normalize);
    CardsToBuyAreEntries(entries, rows, request, normalize);
    PrunedGroupsCompare(entries, rows, pruned, request, wanted, rank);
    ThinningKeepsTheStores(few, full);
    if r.evaluated > 0 {
      BestsScoreAlike(few, full, StoreList(full), r.evaluated, request.initialCart, SettingsOf(request), rank, r.selected, r'.selected);
    }
  }
}
