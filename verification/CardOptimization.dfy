/**
 * The service around the optimizer: it asks the database only for the cheapest eligible
 * offer per (wanted position, store). For exactly the neutral requests that cannot change the optimum.
 */
module CardOptimization {
  import opened Options
  import opened Text
  import opened CartOptimizer
  import opened CartReport

  datatype Entry = Entry(position: string, name: string, preferredSetCode: Option<string>)

  datatype Row = Row(position: string, variantId: int, price: real, condition: Condition,
                     store: string, storeName: string, setCode: Option<string>)

  datatype Request = Request(
    minimum: Condition, mode: Option<Mode>, maxDowngradeSteps: Option<int>, penaltyPerStep: Option<real>,
    shippingByStore: map<string, real>, initialCart: seq<CartItem>)

  // ----- The condition list sent to the database -----

  function IndexIn(order: seq<Condition>, c: Condition): (i: nat)
    ensures i <= |order|
    ensures i < |order| ==> order[i] == c
    ensures forall k :: 0 <= k < i ==> order[k] != c
  {
    if order == [] || order[0] == c then 0 else 1 + IndexIn(order[1..], c)
  }

  /** `Math.max(0, order.indexOf(c))` */
  function IndexOrZero(order: seq<Condition>, c: Condition): nat {
    if IndexIn(order, c) < |order| then IndexIn(order, c) else 0
  }

  /** `s.slice(0, n)`: a negative n counts from the end. */
  function SliceTo<T>(s: seq<T>, n: int): seq<T> {
    if n >= |s| then s else if n >= 0 then s[..n] else if |s| + n > 0 then s[..|s| + n] else []
  }

  const ASCENDING: seq<Condition> := [DMG, HP, MP, LP, NM]
  const DESCENDING: seq<Condition> := [NM, LP, MP, HP, DMG]

  function EligibleConditions(minimum: Condition, mode: Option<Mode>, maxSteps: Option<int>): seq<Condition> {
    if mode.None? || mode.value.Strict? then ASCENDING[IndexOrZero(ASCENDING, minimum)..]
    else
      var n := IndexOrZero(DESCENDING, minimum) + 1 + maxSteps.GetOr(4);
      SliceTo(DESCENDING, if n < |DESCENDING| then n else |DESCENDING|)
  }

  function SettingsOf(request: Request): Settings {
    Settings(Some(request.minimum), Some(3.0), request.shippingByStore,
             Some(Flexibility(request.mode.GetOr(Strict), request.maxDowngradeSteps, request.penaltyPerStep, map[])),
             None, Some(60000.0))
  }

  predicate IsStrict(request: Request) {
    request.mode.None? || request.mode.value.Strict?
  }

  lemma AscendingPosition(c: Condition)
    ensures IndexIn(ASCENDING, c) == if c == UNKNOWN then 5 else Rank(c) - 1
  {
    assert ASCENDING[0] == DMG && ASCENDING[1] == HP && ASCENDING[2] == MP && ASCENDING[3] == LP && ASCENDING[4] == NM;
  }

  lemma DescendingPosition(c: Condition)
    ensures IndexIn(DESCENDING, c) == 5 - Rank(c)
  {
    assert DESCENDING[0] == NM && DESCENDING[1] == LP && DESCENDING[2] == MP && DESCENDING[3] == HP && DESCENDING[4] == DMG;
  }

  lemma BestConditions(c: Condition, n: nat)
    requires n <= 5
    ensures c in DESCENDING[..n] <==> c != UNKNOWN && 5 - Rank(c) < n
  {
    assert forall k :: 0 <= k < 5 ==> Rank(DESCENDING[k]) == 5 - k;
    if c in DESCENDING[..n] {
      var k :| 0 <= k < n && DESCENDING[..n][k] == c;
      assert DESCENDING[k] == c;
    }
    if c != UNKNOWN && 5 - Rank(c) < n {
      assert DESCENDING[..n][5 - Rank(c)] == c;
    }
  }

  lemma ConditionsFrom(c: Condition, n: nat)
    requires n < 5
    ensures c in ASCENDING[n..] <==> c != UNKNOWN && Rank(c) > n
  {
    assert forall k :: 0 <= k < 5 ==> Rank(ASCENDING[k]) == k + 1;
    if c in ASCENDING[n..] {
      var k :| 0 <= k < 5 - n && ASCENDING[n..][k] == c;
      assert ASCENDING[n + k] == c;
    }
    if c != UNKNOWN && Rank(c) > n {
      assert ASCENDING[n..][Rank(c) - 1 - n] == c;
    }
  }

  /** How many of the best conditions a flexible request lets through. */
  function Admitted(request: Request): nat {
    var n := IndexOrZero(DESCENDING, request.minimum) + 1 + request.maxDowngradeSteps.GetOr(4);
    if n >= 5 then 5 else if n >= 0 then n else if 5 + n > 0 then 5 + n else 0
  }

  lemma FlexibleConditions(request: Request, c: Condition)
    requires !IsStrict(request)
    ensures c in EligibleConditions(request.minimum, request.mode, request.maxDowngradeSteps)
            <==> c != UNKNOWN && 5 - Rank(c) < Admitted(request)
  {
    BestConditions(c, Admitted(request));
    assert EligibleConditions(request.minimum, request.mode, request.maxDowngradeSteps) == DESCENDING[..Admitted(request)];
  }

  /** Strict mode asks for exactly the known conditions no worse than the minimum. */
  lemma StrictConditions(request: Request, c: Condition)
    requires IsStrict(request)
    ensures c in EligibleConditions(request.minimum, request.mode, request.maxDowngradeSteps)
            <==> c != UNKNOWN && DowngradeSteps(request.minimum, c) == 0
  {
    AscendingPosition(request.minimum);
    ConditionsFrom(c, IndexOrZero(ASCENDING, request.minimum));
  }

  predicate AcceptedByOptimizer(request: Request, c: Condition) {
    StepsAccepted(DowngradeSteps(request.minimum, c), SettingsOf(request))
  }

  /** With a known minimum the database never drops a known condition the optimizer would accept. */
  lemma NothingAcceptableIsFiltered(request: Request, c: Condition)
    requires request.minimum != UNKNOWN && c != UNKNOWN && AcceptedByOptimizer(request, c)
    ensures c in EligibleConditions(request.minimum, request.mode, request.maxDowngradeSteps)
  {
    if IsStrict(request) {
      StrictConditions(request, c);
    } else {
      DescendingPosition(request.minimum);
      FlexibleConditions(request, c);
    }
  }

  ghost predicate FiltersAgree(request: Request) {
    forall c :: c != UNKNOWN ==>
      (c in EligibleConditions(request.minimum, request.mode, request.maxDowngradeSteps) <==> AcceptedByOptimizer(request, c))
  }

  /** Known conditions the database lets through, as a rank bound. */
  lemma EligibleRanks(request: Request)
    ensures forall c :: c != UNKNOWN ==>
              (c in EligibleConditions(request.minimum, request.mode, request.maxDowngradeSteps)
               <==> if IsStrict(request) then Rank(c) >= Rank(request.minimum) else 5 - Rank(c) < Admitted(request))
  {
    forall c | c != UNKNOWN
      ensures c in EligibleConditions(request.minimum, request.mode, request.maxDowngradeSteps)
              <==> if IsStrict(request) then Rank(c) >= Rank(request.minimum) else 5 - Rank(c) < Admitted(request)
    {
      if IsStrict(request) {
        StrictConditions(request, c);
      } else {
        FlexibleConditions(request, c);
      }
    }
  }

  /**
   * When database and optimizer accept the same known conditions. A strict request needs a step bound that is absent or
   * not negative. A flexible one needs a bound not negative, or for an unknown minimum, which the database reads as near
   * mint, at least four; or a bound so negative that the slice is empty, since otherwise it counts from its end.
   */
  lemma FiltersAgreeExactly(request: Request)
    ensures FiltersAgree(request) <==>
              var top := IndexOrZero(DESCENDING, request.minimum) + 1;
              var bound := request.maxDowngradeSteps.GetOr(4);
              if IsStrict(request) then bound >= 0
              else bound >= (if request.minimum == UNKNOWN then 4 else 0) || top + bound == 0 || top + bound <= -5
  {
    DescendingPosition(request.minimum);
    EligibleRanks(request);
    assert Rank(NM) == 5 && Rank(DMG) == 1;
    assert request.maxDowngradeSteps.GetOr(4) < 0 ==> forall c :: !AcceptedByOptimizer(request, c);
    if request.minimum == UNKNOWN && request.maxDowngradeSteps.GetOr(4) >= 0 {
      assert AcceptedByOptimizer(request, DMG);
    }
    if IsStrict(request) {
      assert NM in EligibleConditions(request.minimum, request.mode, request.maxDowngradeSteps);
    }
  }

  // ----- Ranked rows -----

  predicate SamePartition(a: Row, b: Row) {
    a.position == b.position && a.store == b.store
  }

  predicate RanksBefore(a: Row, b: Row) {
    a.price < b.price || (a.price == b.price && a.variantId < b.variantId)
  }

  /** `price_rank = 1`; ROW_NUMBER breaks a complete tie by picking one row. */
  ghost predicate RankOne(rows: seq<Row>, i: nat)
    requires i < |rows|
  {
    forall j :: 0 <= j < |rows| && SamePartition(rows[j], rows[i]) ==>
      !RanksBefore(rows[j], rows[i]) && (j < i ==> RanksBefore(rows[i], rows[j]))
  }

  /** `pruned` is what `SELECT * FROM ranked WHERE price_rank = 1` returns, in any order. */
  ghost predicate IsPruned(rows: seq<Row>, pruned: seq<Row>) {
    forall r :: r in pruned <==> exists i :: 0 <= i < |rows| && RankOne(rows, i) && r == rows[i]
  }

  /** Rows that passed the WHERE clause of the query. */
  ghost predicate PassedFilter(request: Request, entries: seq<Entry>, rows: seq<Row>) {
    && (forall r :: r in rows ==> r.condition in EligibleConditions(request.minimum, request.mode, request.maxDowngradeSteps))
    && (forall r, e :: r in rows && e in entries && r.position == e.position && e.preferredSetCode.Some? ==>
          Lower(r.setCode.GetOr("")) == Lower(e.preferredSetCode.value))
  }

  lemma {:induction false} FirstRanked(rows: seq<Row>, i: nat, n: nat) returns (k: nat)
    requires i < n <= |rows|
    ensures k < n && SamePartition(rows[k], rows[i]) && rows[k].price <= rows[i].price
    ensures forall j :: 0 <= j < n && SamePartition(rows[j], rows[k]) ==>
              !RanksBefore(rows[j], rows[k]) && (j < k ==> RanksBefore(rows[k], rows[j]))
  {
    if n == 1 {
      k := 0;
    } else if i < n - 1 {
      k := FirstRanked(rows, i, n - 1);
      if SamePartition(rows[n - 1], rows[k]) && RanksBefore(rows[n - 1], rows[k]) {
        k := n - 1;
      }
    } else if j :| 0 <= j < n - 1 && SamePartition(rows[j], rows[i]) {
      k := FirstRanked(rows, j, n - 1);
      if RanksBefore(rows[n - 1], rows[k]) {
        k := n - 1;
      }
    } else {
      k := i;
    }
  }

  /** Each (position, store) keeps a row at least as cheap as any it loses. */
  lemma PruningKeepsTheCheapest(rows: seq<Row>, pruned: seq<Row>, r: Row) returns (kept: Row)
    requires IsPruned(rows, pruned) && r in rows
    ensures kept in pruned && kept in rows && SamePartition(kept, r) && kept.price <= r.price
  {
    var i :| 0 <= i < |rows| && rows[i] == r;
    var k := FirstRanked(rows, i, |rows|);
    assert RankOne(rows, k);
    kept := rows[k];
  }

  // ----- Calling the optimizer -----

  function WantedOf(entry: Entry, request: Request): WantedCard {
    WantedCard(entry.position, entry.name, None, Some(request.minimum), entry.preferredSetCode)
  }

  function CandidateOf(row: Row): Candidate {
    Candidate(row.position, Offer(row.variantId, Finite(row.price), row.condition, row.store, row.storeName), row.setCode)
  }

  function RowsAt(rows: seq<Row>, position: string): (r: seq<Row>)
    ensures forall x :: x in r <==> x in rows && x.position == position
  {
    if rows == [] then []
    else
      var init, last := rows[..|rows| - 1], rows[|rows| - 1];
      assert rows == init + [last];
      RowsAt(init, position) + (if last.position == position then [last] else [])
  }

  function CandidatesFrom(rows: seq<Row>): seq<Candidate> {
    seq(|rows|, i requires 0 <= i < |rows| => CandidateOf(rows[i]))
  }

  function MappedCandidates(entries: seq<Entry>, rows: seq<Row>): (r: seq<Candidate>)
    ensures forall c :: c in r <==> exists e, x :: e in entries && x in rows && x.position == e.position && c == CandidateOf(x)
  {
    if entries == [] then []
    else
      var init, last := entries[..|entries| - 1], entries[|entries| - 1];
      assert entries == init + [last];
      var own := CandidatesFrom(RowsAt(rows, last.position));
      assert forall c :: c in own <==> exists x :: x in rows && x.position == last.position && c == CandidateOf(x) by {
        forall c | exists x :: x in rows && x.position == last.position && c == CandidateOf(x) ensures c in own {
          var x :| x in rows && x.position == last.position && c == CandidateOf(x);
          var i :| 0 <= i < |RowsAt(rows, last.position)| && RowsAt(rows, last.position)[i] == x;
          assert own[i] == c;
        }
        forall c | c in own ensures exists x :: x in rows && x.position == last.position && c == CandidateOf(x) {
          var i :| 0 <= i < |own| && own[i] == c;
          assert RowsAt(rows, last.position)[i] in RowsAt(rows, last.position);
        }
      }
      MappedCandidates(init, rows) + own
  }

  function InputFor(entries: seq<Entry>, rows: seq<Row>, request: Request): Input {
    Input(seq(|entries|, i requires 0 <= i < |entries| => WantedOf(entries[i], request)),
          MappedCandidates(entries, rows), request.initialCart, SettingsOf(request))
  }

  ghost predicate Grouped(byPosition: map<string, seq<Row>>, rows: seq<Row>) {
    forall p :: RowsAt(rows, p) == if p in byPosition then byPosition[p] else []
  }

  lemma GroupedStep(byPosition: map<string, seq<Row>>, rows: seq<Row>, n: nat)
    requires n < |rows| && Grouped(byPosition, rows[..n])
    ensures var before := if rows[n].position in byPosition then byPosition[rows[n].position] else [];
            Grouped(byPosition[rows[n].position := before + [rows[n]]], rows[..n + 1])
  {
    assert rows[..n + 1][..n] == rows[..n];
    forall p ensures RowsAt(rows[..n + 1], p) == RowsAt(rows[..n], p) + if rows[n].position == p then [rows[n]] else [] {
    }
  }

  /** The `byPosition` map, filled row by row. */
  method GroupByPosition(rows: seq<Row>) returns (byPosition: map<string, seq<Row>>)
    ensures Grouped(byPosition, rows)
  {
    byPosition := map[];
    for n := 0 to |rows|
      invariant Grouped(byPosition, rows[..n])
    {
      var row := rows[n];
      var before := if row.position in byPosition then byPosition[row.position] else [];
      GroupedStep(byPosition, rows, n);
      byPosition := byPosition[row.position := before + [row]];
    }
    assert rows[..|rows|] == rows;
  }

  method Execute(entries: seq<Entry>, rows: seq<Row>, request: Request, normalize: string -> string, clock: nat -> real)
    returns (r: Result)
    requires Ends(clock, SettingsOf(request), StoreList(WantedGroups(InputFor(entries, rows, request), normalize)))
    ensures IsOutcome(InputFor(entries, rows, request), normalize, clock, r)
  {
    var byPosition := GroupByPosition(rows);
    var mapped: seq<Candidate> := [];
    for n := 0 to |entries|
      invariant mapped == MappedCandidates(entries[..n], rows)
    {
      assert entries[..n + 1][..n] == entries[..n];
      var own := if entries[n].position in byPosition then byPosition[entries[n].position] else [];
      mapped := mapped + CandidatesFrom(own);
    }
    assert entries[..|entries|] == entries;
    var wanted := seq(|entries|, i requires 0 <= i < |entries| => WantedOf(entries[i], request));
    r := OptimizeCart(Input(wanted, mapped, request.initialCart, SettingsOf(request)), normalize, clock);
  }
}
