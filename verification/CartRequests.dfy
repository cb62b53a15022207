/** What a request to the service asks the optimizer for, and what the offers it buys are, in the rows' own fields. */
module CartRequests {
  import opened Options
  import opened Sequences
  import opened Text
  import opened CartOptimizer
  import opened CartReport
  import opened CartGuarantees
  import opened CartInputs
  import opened CardOptimization

  predicate IsCandidateOf(x: Row, c: Candidate) {
    && c.wantedKey == x.position && c.setCode == x.setCode
    && c.offer.id == x.variantId && c.offer.price == Finite(x.price) && c.offer.condition == x.condition
    && c.offer.storeKey == x.store && c.offer.storeName == x.storeName
  }

  /** `positions` picks, in order, exactly the rows of one position. */
  ghost predicate PicksRows(rows: seq<Row>, position: string, picked: seq<Row>, positions: seq<nat>) {
    && |positions| == |picked| && Rising(positions, |rows|)
    && (forall k :: 0 <= k < |positions| ==> picked[k] == rows[positions[k]])
    && (forall p :: 0 <= p < |rows| ==> (p in positions <==> rows[p].position == position))
  }

  lemma PicksOneMoreRow(rows: seq<Row>, position: string, picked: seq<Row>, before: seq<nat>, x: Row)
    requires PicksRows(rows, position, picked, before)
    ensures x.position != position ==> PicksRows(rows + [x], position, picked, before)
    ensures x.position == position ==> PicksRows(rows + [x], position, picked + [x], before + [|rows|])
  {
    RisingWithLast(before, |rows|);
    forall k | 0 <= k < |before| ensures before[k] < |rows| && picked[k] == (rows + [x])[before[k]] {
    }
    forall p | 0 <= p < |rows| + 1 ensures (rows + [x])[p] == if p < |rows| then rows[p] else x {
    }
  }

  lemma {:induction false} RowsAtExactly(rows: seq<Row>, position: string) returns (positions: seq<nat>)
    ensures PicksRows(rows, position, RowsAt(rows, position), positions)
  {
    if rows == [] {
      positions := [];
    } else {
      var init, last := rows[..|rows| - 1], rows[|rows| - 1];
      var before := RowsAtExactly(init, position);
      PicksOneMoreRow(init, position, RowsAt(init, position), before, last);
      assert init + [last] == rows;
      positions := if last.position == position then before + [|init|] else before;
    }
  }

  /** Where the candidates of entry i start. */
  function FirstCandidate(entries: seq<Entry>, rows: seq<Row>, i: nat): nat
    requires i <= |entries|
  {
    if i == 0 then 0 else FirstCandidate(entries, rows, i - 1) + |RowsAt(rows, entries[i - 1].position)|
  }

  lemma {:induction false} FirstCandidateOfPrefix(entries: seq<Entry>, rows: seq<Row>, n: nat, i: nat)
    requires i <= n <= |entries|
    ensures FirstCandidate(entries[..n], rows, i) == FirstCandidate(entries, rows, i)
  {
    if i > 0 {
      FirstCandidateOfPrefix(entries, rows, n, i - 1);
    }
  }

  lemma {:induction false} MappedLength(entries: seq<Entry>, rows: seq<Row>)
    ensures |MappedCandidates(entries, rows)| == FirstCandidate(entries, rows, |entries|)
  {
    if entries != [] {
      MappedLength(entries[..|entries| - 1], rows);
      FirstCandidateOfPrefix(entries, rows, |entries| - 1, |entries| - 1);
    }
  }

  /** Candidate k of entry i where the entry's candidates start at `first`. */
  ghost predicate CandidateAt(all: seq<Candidate>, own: seq<Row>, first: nat, k: nat) {
    k < |own| && first + k < |all| && IsCandidateOf(own[k], all[first + k])
  }

  lemma CandidateStays(before: seq<Candidate>, last: seq<Row>, own: seq<Row>, first: nat, k: nat)
    ensures CandidateAt(before, own, first, k) ==> CandidateAt(before + CandidatesFrom(last), own, first, k)
    ensures k < |last| ==> CandidateAt(before + CandidatesFrom(last), last, |before|, k)
  {
  }

  lemma MappedGrows(entries: seq<Entry>, rows: seq<Row>)
    requires entries != []
    ensures var n := |entries| - 1;
            MappedCandidates(entries, rows) == MappedCandidates(entries[..n], rows) + CandidatesFrom(RowsAt(rows, entries[n].position))
  {
  }

  /** The candidates handed over are, entry after entry, one for each row of the entry's position, in the rows' order. */
  lemma {:induction false} CandidatesExactly(entries: seq<Entry>, rows: seq<Row>, i: nat, k: nat)
    requires i < |entries| && k < |RowsAt(rows, entries[i].position)|
    ensures CandidateAt(MappedCandidates(entries, rows), RowsAt(rows, entries[i].position), FirstCandidate(entries, rows, i), k)
  {
    var n := |entries| - 1;
    MappedGrows(entries, rows);
    CandidateStays(MappedCandidates(entries[..n], rows), RowsAt(rows, entries[n].position), RowsAt(rows, entries[i].position),
                   FirstCandidate(entries, rows, i), k);
    FirstCandidateOfPrefix(entries, rows, n, i);
    if i < n {
      CandidatesExactly(entries[..n], rows, i, k);
    } else {
      MappedLength(entries[..n], rows);
    }
  }

  /** How far below the request's minimum an offer may be, what it is charged for it, and what shipping and time it is given. */
  lemma RequestExactly(entries: seq<Entry>, rows: seq<Row>, request: Request, steps: nat, store: string, clock: nat -> real, k: nat)
    ensures var input := InputFor(entries, rows, request);
            && input.initialCart == request.initialCart && |input.wanted| == |entries|
            && (forall i :: 0 <= i < |entries| ==>
                  && input.wanted[i].key == entries[i].position && input.wanted[i].name == entries[i].name
                  && CopiesAsked(input.wanted[i]) == 1 && input.wanted[i].preferredSetCode == entries[i].preferredSetCode
                  && input.wanted[i].minimumCondition == Some(request.minimum))
    ensures TakesDowngrade(SettingsOf(request), steps) <==>
              && (steps == 0 || (request.mode.Some? && request.mode.value != Strict))
              && (request.maxDowngradeSteps.Some? ==> steps <= request.maxDowngradeSteps.value)
    ensures Charge(SettingsOf(request), steps) == steps as real * request.penaltyPerStep.GetOr(0.0)
    ensures ShippingFor(store, SettingsOf(request))
            == if store in request.shippingByStore then request.shippingByStore[store] else 3.0
    ensures Expired(clock, SettingsOf(request), k) <==> clock(k + 1) >= clock(0) + 60000.0
    ensures SettingsOf(request).conditionValue.None?
    ensures SettingsOf(request).flexibility.value.mode == request.mode.GetOr(Strict)
  {
  }

  lemma EntriesAreNotCopied(entries: seq<Entry>, rows: seq<Row>, request: Request)
    ensures ExpandWanted(InputFor(entries, rows, request).wanted) == InputFor(entries, rows, request).wanted
  {
    SingleCopiesExpand(InputFor(entries, rows, request).wanted);
  }

  lemma BoughtIsPrepared(card: WantedCard, raw: seq<Candidate>, settings: Settings, s: Selected) returns (c: Candidate)
    requires s in Group(card, raw, settings)
    ensures c in raw && IsOfferOf(card, settings, c, s.(valuePenalty := 0.0))
  {
    var eligible := SavingsPolicy(Prepared(card, raw, settings), settings);
    var k :| 0 <= k < |eligible| && s == Penalized(eligible, eligible[k], settings);
    assert eligible[k] in Prepared(card, raw, settings);
    var i :| 0 <= i < |raw| && PrepareOne(card, raw[i], settings) == Some(eligible[k]);
    c := raw[i];
    OfferOfOne(card, settings, c, eligible[k]);
  }

  /** Every offer bought is a row's, for an entry whose position is the row's, no worse than asked, and of a card not in the cart. */
  ghost predicate BoughtFrom(e: Entry, x: Row, request: Request, s: Selected) {
    && s.wantedKey == e.position && s.wantedName == e.name && x.position == BeforeColon(e.position)
    && s.offer.id == x.variantId && s.price == x.price && s.condition == x.condition && s.storeKey == x.store
    && s.offer.storeName == x.storeName && x.price >= 0.0 && x.store != ""
    && (e.preferredSetCode.GetOr("") != "" ==> x.setCode.Some? && Lower(x.setCode.value) == Lower(e.preferredSetCode.value))
    && GradesBelow(request.minimum, x.condition, s.steps)
    && (s.steps > 0 ==> request.mode.Some? && request.mode.value != Strict)
    && (request.maxDowngradeSteps.Some? ==> s.steps <= request.maxDowngradeSteps.value)
    && s.conditionPenalty == s.steps as real * request.penaltyPerStep.GetOr(0.0)
  }

  lemma ReadsAsRow(e: Entry, x: Row, request: Request, s: Selected)
    requires IsOfferOf(WantedOf(e, request), SettingsOf(request), CandidateOf(x), s.(valuePenalty := 0.0))
    ensures BoughtFrom(e, x, request, s)
  {
  }

  lemma MappedFromRow(entries: seq<Entry>, rows: seq<Row>, c: Candidate) returns (x: Row)
    requires c in MappedCandidates(entries, rows)
    ensures x in rows && c == CandidateOf(x)
  {
    var e, y :| e in entries && y in rows && y.position == e.position && c == CandidateOf(y);
    x := y;
  }

  lemma OfferIsBoughtFrom(entries: seq<Entry>, rows: seq<Row>, request: Request, e: Entry, s: Selected) returns (x: Row)
    requires s in Group(WantedOf(e, request), MappedCandidates(entries, rows), SettingsOf(request))
    ensures x in rows && BoughtFrom(e, x, request, s)
  {
    var c := BoughtIsPrepared(WantedOf(e, request), MappedCandidates(entries, rows), SettingsOf(request), s);
    x := MappedFromRow(entries, rows, c);
    ReadsAsRow(e, x, request, s);
  }

  lemma WantedIsAnEntry(entries: seq<Entry>, rows: seq<Row>, request: Request, normalize: string -> string, c: WantedCard)
    returns (e: Entry)
    requires c in WantedToBuy(InputFor(entries, rows, request), normalize)
    ensures e in entries && c == WantedOf(e, request)
  {
    EntriesAreNotCopied(entries, rows, request);
    var wanted := InputFor(entries, rows, request).wanted;
    assert c in wanted;
    var j :| 0 <= j < |wanted| && wanted[j] == c;
    e := entries[j];
  }

  lemma BoughtAreRows(entries: seq<Entry>, rows: seq<Row>, request: Request, normalize: string -> string, clock: nat -> real, r: Result)
    requires IsOutcome(InputFor(entries, rows, request), normalize, clock, r)
    ensures forall s :: s in r.selected ==> exists e, x :: e in entries && x in rows && BoughtFrom(e, x, request, s)
    ensures forall s, i :: s in r.selected && 0 <= i < |request.initialCart| ==>
              normalize(s.wantedName) != normalize(request.initialCart[i].title)
  {
    NothingOwnedIsBought(InputFor(entries, rows, request), normalize, clock, r);
    forall s | s in r.selected ensures exists e, x :: e in entries && x in rows && BoughtFrom(e, x, request, s) {
      var c := SelectedForWanted(InputFor(entries, rows, request), normalize, clock, r, s);
      var e := WantedIsAnEntry(entries, rows, request, normalize, c);
      var x := OfferIsBoughtFrom(entries, rows, request, e, s);
    }
  }
}
