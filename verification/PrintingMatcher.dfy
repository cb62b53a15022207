/**
 * Matching an extracted variant to a printing: the cached set-and-number lookup against the
 * name-based resolver, and what two sorted rows can decide.
 */
module PrintingMatcher {
  import opened Options
  import Text

  /** A printing joined with its set's code. */
  datatype Printing = Printing(id: nat, card: nat, setCode: string, number: string)

  datatype CardName = CardName(id: nat, normalized: string)

  datatype Db = Db(printings: seq<Printing>, names: seq<CardName>)

  datatype NameMatch = Exact | Fuzzy | FrontFace | NoName

  datatype SetMatch = CodeProvided | NameExact | NameFuzzy | NoSet

  datatype PrintingMatch = SetAndNumber | SetOnly | Any | Ambiguous | NoPrinting

  datatype Confidence = Sure | Likely | Unsure

  datatype MatchResult = MatchResult(
    printing: Option<nat>, card: Option<nat>, confidence: Confidence,
    nameMatch: NameMatch, setMatch: SetMatch, printingMatch: PrintingMatch)

  datatype PrintingEntry = PrintingEntry(printing: nat, card: nat)

  datatype NameEntry = NameEntry(card: Option<nat>, nameMatch: NameMatch)

  /** What resolving a set name answers; a missing code is empty. */
  datatype SetAnswer = SetAnswer(code: string, matchType: SetMatch)

  /** Keys of the tables: row ids, and one printing per set and collector number. */
  ghost predicate Keyed(db: Db) {
    forall i, j :: 0 <= i < j < |db.printings| ==>
      db.printings[i].id != db.printings[j].id
      && !(db.printings[i].setCode == db.printings[j].setCode && db.printings[i].number == db.printings[j].number)
  }

  predicate Truthy(s: Option<string>) {
    s.Some? && s.value != ""
  }

  // ----- The resolver's query -----

  function Priority(p: Printing, setCode: Option<string>, number: Option<string>): nat {
    if setCode == Some(p.setCode) && number == Some(p.number) then 1
    else if setCode == Some(p.setCode) then 2
    else 3
  }

  predicate Before(p: Printing, q: Printing, setCode: Option<string>, number: Option<string>) {
    Priority(p, setCode, number) < Priority(q, setCode, number)
    || (Priority(p, setCode, number) == Priority(q, setCode, number) && p.id <= q.id)
  }

  function Insert(p: Printing, rows: seq<Printing>, setCode: Option<string>, number: Option<string>): seq<Printing> {
    if rows == [] || Before(p, rows[0], setCode, number) then [p] + rows
    else [rows[0]] + Insert(p, rows[1..], setCode, number)
  }

  /** WHERE the card, ORDER BY priority and id. */
  function Sorted(printings: seq<Printing>, card: nat, setCode: Option<string>, number: Option<string>): seq<Printing> {
    if printings == [] then []
    else
      var rest := Sorted(printings[1..], card, setCode, number);
      if printings[0].card == card then Insert(printings[0], rest, setCode, number) else rest
  }

  /** The query's two rows decide. */
  function ResolvePrinting(db: Db, card: nat, setCode: Option<string>, number: Option<string>): (Option<nat>, PrintingMatch) {
    var sorted := Sorted(db.printings, card, setCode, number);
    var rows := if |sorted| > 2 then sorted[..2] else sorted;
    if rows == [] then (None, NoPrinting)
    else
      var top := Priority(rows[0], setCode, number);
      if top == 2 && |rows| > 1 && Priority(rows[1], setCode, number) == 2 then (None, Ambiguous)
      else (Some(rows[0].id), if top == 1 then SetAndNumber else if top == 2 then SetOnly else Any)
  }

  ghost predicate InOrder(rows: seq<Printing>, setCode: Option<string>, number: Option<string>) {
    forall i, j :: 0 <= i < j < |rows| ==> Before(rows[i], rows[j], setCode, number)
  }

  lemma {:induction false} InsertAdds(p: Printing, rows: seq<Printing>, setCode: Option<string>, number: Option<string>)
    ensures multiset(Insert(p, rows, setCode, number)) == multiset(rows) + multiset{p}
  {
    if rows != [] && !Before(p, rows[0], setCode, number) {
      assert rows == [rows[0]] + rows[1..];
      InsertAdds(p, rows[1..], setCode, number);
    }
  }

  lemma {:induction false} InsertOrders(p: Printing, rows: seq<Printing>, setCode: Option<string>, number: Option<string>)
    requires InOrder(rows, setCode, number)
    ensures InOrder(Insert(p, rows, setCode, number), setCode, number)
  {
    if rows != [] && !Before(p, rows[0], setCode, number) {
      InsertOrders(p, rows[1..], setCode, number);
      InsertAdds(p, rows[1..], setCode, number);
      var rest := Insert(p, rows[1..], setCode, number);
      forall j | 0 <= j < |rest| ensures Before(rows[0], rest[j], setCode, number) {
        assert rest[j] in multiset(rest);
        assert rest[j] == p || rest[j] in rows[1..];
      }
    }
  }

  lemma {:induction false} SortedOrders(printings: seq<Printing>, card: nat, setCode: Option<string>, number: Option<string>)
    ensures InOrder(Sorted(printings, card, setCode, number), setCode, number)
    ensures forall p :: multiset(Sorted(printings, card, setCode, number))[p] == if p.card == card then multiset(printings)[p] else 0
  {
    if printings != [] {
      assert printings == [printings[0]] + printings[1..];
      SortedOrders(printings[1..], card, setCode, number);
      InsertOrders(printings[0], Sorted(printings[1..], card, setCode, number), setCode, number);
      InsertAdds(printings[0], Sorted(printings[1..], card, setCode, number), setCode, number);
    }
  }

  // ----- What the resolver decides -----

  ghost predicate OfCard(db: Db, p: Printing, card: nat) {
    p in db.printings && p.card == card
  }

  ghost predicate InSet(db: Db, p: Printing, card: nat, setCode: Option<string>) {
    OfCard(db, p, card) && setCode == Some(p.setCode)
  }

  ghost predicate AtNumber(db: Db, p: Printing, card: nat, setCode: Option<string>, number: Option<string>) {
    InSet(db, p, card, setCode) && number == Some(p.number)
  }

  /** At least two different printings of the card in the set. */
  ghost predicate SeveralInSet(db: Db, card: nat, setCode: Option<string>) {
    exists p, q :: InSet(db, p, card, setCode) && InSet(db, q, card, setCode) && p != q
  }

  lemma {:induction false} OneOfEach(printings: seq<Printing>, p: Printing)
    requires forall i, j :: 0 <= i < j < |printings| ==> printings[i].id != printings[j].id
    ensures multiset(printings)[p] <= 1
  {
    if printings != [] {
      assert printings == [printings[0]] + printings[1..];
      OneOfEach(printings[1..], p);
      assert forall j :: 0 <= j < |printings| - 1 ==> printings[1..][j] == printings[j + 1];
      assert printings[0] !in printings[1..];
    }
  }

  lemma SameRow(db: Db, p: Printing, q: Printing)
    requires Keyed(db) && p in db.printings && q in db.printings && p.setCode == q.setCode && p.number == q.number
    ensures p == q
  {
    var i :| 0 <= i < |db.printings| && db.printings[i] == p;
    var j :| 0 <= j < |db.printings| && db.printings[j] == q;
  }

  /** The sorted rows are the card's printings, each once, in order. */
  lemma SortedRows(db: Db, card: nat, setCode: Option<string>, number: Option<string>) returns (rows: seq<Printing>)
    requires Keyed(db)
    ensures rows == Sorted(db.printings, card, setCode, number) && InOrder(rows, setCode, number)
    ensures forall p :: p in rows <==> OfCard(db, p, card)
    ensures forall i, j :: 0 <= i < j < |rows| ==> rows[i] != rows[j]
  {
    rows := Sorted(db.printings, card, setCode, number);
    SortedOrders(db.printings, card, setCode, number);
    forall p ensures p in rows <==> OfCard(db, p, card) {
      assert p in rows <==> multiset(rows)[p] > 0;
      assert p in db.printings <==> multiset(db.printings)[p] > 0;
    }
    forall i, j | 0 <= i < j < |rows| ensures rows[i] != rows[j] {
      OneOfEach(db.printings, rows[i]);
      TwiceCounts(rows, i, j);
    }
  }

  lemma TwiceCounts(rows: seq<Printing>, i: nat, j: nat)
    requires i < j < |rows|
    ensures rows[i] == rows[j] ==> multiset(rows)[rows[i]] >= 2
  {
    assert rows == rows[..j] + rows[j..];
    assert rows[..j][i] == rows[i] && rows[j..][0] == rows[j];
    assert rows[i] in multiset(rows[..j]) && rows[j] in multiset(rows[j..]);
  }

  /** Two sorted rows suffice: each kind of answer is exactly its condition on all the card's printings. */
  lemma ResolverDecides(db: Db, card: nat, setCode: Option<string>, number: Option<string>)
    requires Keyed(db)
    ensures var r := ResolvePrinting(db, card, setCode, number);
            && (r.1 == NoPrinting <==> forall p :: !OfCard(db, p, card))
            && (r.1 == SetAndNumber <==> exists p :: AtNumber(db, p, card, setCode, number))
            && (r.1 == Ambiguous <==> (forall p :: !AtNumber(db, p, card, setCode, number)) && SeveralInSet(db, card, setCode))
            && (r.1 == SetOnly <==> (forall p :: !AtNumber(db, p, card, setCode, number))
                                    && (exists p :: InSet(db, p, card, setCode)) && !SeveralInSet(db, card, setCode))
            && (r.0.None? <==> r.1 == NoPrinting || r.1 == Ambiguous)
  {
    var rows := SortedRows(db, card, setCode, number);
    if rows == [] {
      assert forall p :: !OfCard(db, p, card);
    } else {
      assert rows[0] in rows;
      forall p | OfCard(db, p, card) ensures Before(rows[0], p, setCode, number) {
        var k :| 0 <= k < |rows| && rows[k] == p;
      }
      TopDecides(db, card, setCode, number, rows);
    }
  }

  lemma TopDecides(db: Db, card: nat, setCode: Option<string>, number: Option<string>, rows: seq<Printing>)
    requires rows != [] && InOrder(rows, setCode, number)
    requires forall p :: p in rows <==> OfCard(db, p, card)
    requires forall i, j :: 0 <= i < j < |rows| ==> rows[i] != rows[j]
    ensures var top := Priority(rows[0], setCode, number);
            && (top == 1 <==> exists p :: AtNumber(db, p, card, setCode, number))
            && (top == 3 <==> forall p :: !InSet(db, p, card, setCode))
            && (top == 2 ==> ((|rows| > 1 && Priority(rows[1], setCode, number) == 2) <==> SeveralInSet(db, card, setCode)))
  {
    var top := Priority(rows[0], setCode, number);
    assert OfCard(db, rows[0], card) by { assert rows[0] in rows; }
    if p :| AtNumber(db, p, card, setCode, number) {
      var k :| 0 <= k < |rows| && rows[k] == p;
    }
    if p :| InSet(db, p, card, setCode) {
      var k :| 0 <= k < |rows| && rows[k] == p;
    }
    if top == 1 { assert AtNumber(db, rows[0], card, setCode, number); }
    if top <= 2 { assert InSet(db, rows[0], card, setCode); }
    if top == 2 { SecondDecides(db, card, setCode, number, rows); }
  }

  lemma SecondDecides(db: Db, card: nat, setCode: Option<string>, number: Option<string>, rows: seq<Printing>)
    requires rows != [] && InOrder(rows, setCode, number) && Priority(rows[0], setCode, number) == 2
    requires forall p :: p in rows <==> OfCard(db, p, card)
    requires forall i, j :: 0 <= i < j < |rows| ==> rows[i] != rows[j]
    ensures (|rows| > 1 && Priority(rows[1], setCode, number) == 2) <==> SeveralInSet(db, card, setCode)
  {
    if |rows| > 1 && Priority(rows[1], setCode, number) == 2 {
      assert rows[0] in rows && rows[1] in rows && rows[0] != rows[1];
      assert InSet(db, rows[0], card, setCode) && InSet(db, rows[1], card, setCode);
    }
    if SeveralInSet(db, card, setCode) {
      var p, q :| InSet(db, p, card, setCode) && InSet(db, q, card, setCode) && p != q;
      var k :| 0 <= k < |rows| && rows[k] == p;
      var l :| 0 <= l < |rows| && rows[l] == q;
      var m := if k > 0 then k else l;
      assert 1 <= m && Priority(rows[m], setCode, number) <= 2;
      assert m == 1 || Before(rows[1], rows[m], setCode, number);
      assert Before(rows[0], rows[1], setCode, number);
    }
  }

  /** The printing returned is one of the card's; with set and number it is the one there, in a lone set the only one, otherwise the oldest row. */
  lemma ResolvedPrinting(db: Db, card: nat, setCode: Option<string>, number: Option<string>) returns (p: Printing)
    requires Keyed(db) && ResolvePrinting(db, card, setCode, number).0.Some?
    ensures OfCard(db, p, card) && p.id == ResolvePrinting(db, card, setCode, number).0.value
    ensures forall q :: OfCard(db, q, card) ==> Before(p, q, setCode, number)
  {
    var rows := SortedRows(db, card, setCode, number);
    p := rows[0];
    assert p in rows;
    forall q | OfCard(db, q, card) ensures Before(p, q, setCode, number) {
      var k :| 0 <= k < |rows| && rows[k] == q;
    }
  }

  // ----- The fast path -----

  /** The first printing of a set with a collector number. */
  function FindRow(printings: seq<Printing>, setCode: string, number: string): (r: Option<PrintingEntry>)
    ensures r.Some? ==> exists p :: p in printings && p.setCode == setCode && p.number == number && r.value == PrintingEntry(p.id, p.card)
    ensures r.None? ==> forall p :: p in printings ==> !(p.setCode == setCode && p.number == number)
  {
    if printings == [] then None
    else if printings[0].setCode == setCode && printings[0].number == number then Some(PrintingEntry(printings[0].id, printings[0].card))
    else FindRow(printings[1..], setCode, number)
  }

  /** Leading zeros go, but not all of them. */
  function StripZeros(s: string): string {
    if s != [] && s[0] == '0' then StripZeros(s[1..]) else s
  }

  function NormalizeNumber(number: Option<string>): Option<string> {
    if Truthy(number) then Some(if StripZeros(number.value) == "" then "0" else StripZeros(number.value)) else number
  }

  lemma {:induction false} StrippedHasNoZero(s: string)
    ensures StripZeros(s) == "" || StripZeros(s)[0] != '0'
    ensures StripZeros(StripZeros(s)) == StripZeros(s)
    ensures exists k :: 0 <= k <= |s| && StripZeros(s) == s[k..] && forall i :: 0 <= i < k ==> s[i] == '0'
  {
    if s != [] && s[0] == '0' {
      StrippedHasNoZero(s[1..]);
      var k :| 0 <= k <= |s[1..]| && StripZeros(s[1..]) == s[1..][k..] && forall i :: 0 <= i < k ==> s[1..][i] == '0';
      assert s[1..][k..] == s[k + 1..];
      assert forall i :: 0 < i < k + 1 ==> s[i] == s[1..][i - 1];
    } else {
      assert s == s[0..];
    }
  }

  /** A collector number in use keeps its digits but no leading zero, except zero itself; doing it again changes nothing. */
  lemma NumbersNormalizeOnce(number: Option<string>)
    ensures NormalizeNumber(NormalizeNumber(number)) == NormalizeNumber(number)
    ensures Truthy(number) ==>
              Truthy(NormalizeNumber(number)) && (NormalizeNumber(number) == Some("0") || NormalizeNumber(number).value[0] != '0')
  {
    if Truthy(number) {
      StrippedHasNoZero(number.value);
      assert StripZeros("0") == "" by { assert "0"[1..] == ""; }
    }
  }

  /** The set code used, and how it was arrived at. */
  function EffectiveSet(setCode: Option<string>, setName: Option<string>, answer: SetAnswer): (Option<string>, SetMatch) {
    if Truthy(setCode) then (setCode, CodeProvided)
    else if Truthy(setName) && answer.code != "" then (Some(answer.code), answer.matchType)
    else (setCode, NoSet)
  }

  function LowerSet(setCode: Option<string>): Option<string> {
    if setCode.Some? then Some(Text.Lower(setCode.value)) else None
  }

  function ConfidenceOf(nameMatch: NameMatch): Confidence {
    match nameMatch
    case Fuzzy => Likely
    case NoName => Unsure
    case _ => Sure
  }

  /** The name-based resolver alone. */
  function SlowMatch(db: Db, name: NameEntry, setCode: Option<string>, setMatch: SetMatch, number: Option<string>): MatchResult {
    if name.card.None? then MatchResult(None, None, Unsure, NoName, setMatch, NoPrinting)
    else
      var r := ResolvePrinting(db, name.card.value, LowerSet(setCode), number);
      if r.1 == Ambiguous then MatchResult(None, name.card, Unsure, name.nameMatch, setMatch, Ambiguous)
      else MatchResult(r.0, name.card, ConfidenceOf(name.nameMatch), name.nameMatch, setMatch, r.1)
  }

  /** The set-and-number hit, accepted only when it is the named card. */
  function FastHit(db: Db, name: NameEntry, setCode: Option<string>, number: Option<string>): Option<PrintingEntry> {
    if name.card.Some? && Truthy(setCode) && Truthy(number) then
      var entry := FindRow(db.printings, Text.Lower(setCode.value), number.value);
      if entry.Some? && Some(entry.value.card) == name.card then entry else None
    else None
  }

  /** The whole match, from a resolved name. */
  function Matched(db: Db, name: NameEntry, setCode: Option<string>, collectorNumber: Option<string>, setName: Option<string>, answer: SetAnswer): MatchResult {
    var number := NormalizeNumber(collectorNumber);
    var (code, setMatch) := EffectiveSet(setCode, setName, answer);
    var hit := FastHit(db, name, code, number);
    if hit.Some? then MatchResult(Some(hit.value.printing), Some(hit.value.card), Sure, name.nameMatch, setMatch, SetAndNumber)
    else SlowMatch(db, name, code, setMatch, number)
  }

  /** A resolved name names a card, and says how. */
  predicate Sensible(name: NameEntry) {
    name.card.None? <==> name.nameMatch.NoName?
  }

  /**
   * The fast path answers what the name-based resolver would, down to the printing. Only the confidence
   * can differ, and exactly when it hits on a fuzzy name.
   */
  lemma FastPathAgrees(db: Db, name: NameEntry, setCode: Option<string>, collectorNumber: Option<string>, setName: Option<string>, answer: SetAnswer)
    requires Keyed(db) && Sensible(name)
    ensures var (code, setMatch) := EffectiveSet(setCode, setName, answer);
            var number := NormalizeNumber(collectorNumber);
            var fast, slow := Matched(db, name, setCode, collectorNumber, setName, answer), SlowMatch(db, name, code, setMatch, number);
            && fast == slow.(confidence := fast.confidence)
            && (fast.confidence != slow.confidence <==> name.nameMatch.Fuzzy? && FastHit(db, name, code, number).Some?)
  {
    var (code, setMatch) := EffectiveSet(setCode, setName, answer);
    var number := NormalizeNumber(collectorNumber);
    var hit := FastHit(db, name, code, number);
    if hit.Some? {
      HitIsResolved(db, name.card.value, Text.Lower(code.value), number.value);
    }
  }

  lemma HitIsResolved(db: Db, card: nat, setCode: string, number: string)
    requires Keyed(db) && FindRow(db.printings, setCode, number).Some? && FindRow(db.printings, setCode, number).value.card == card
    ensures ResolvePrinting(db, card, Some(setCode), Some(number)) == (Some(FindRow(db.printings, setCode, number).value.printing), SetAndNumber)
  {
    var entry := FindRow(db.printings, setCode, number).value;
    var p :| p in db.printings && p.setCode == setCode && p.number == number && entry == PrintingEntry(p.id, p.card);
    assert AtNumber(db, p, card, Some(setCode), Some(number));
    ResolverDecides(db, card, Some(setCode), Some(number));
    var q := ResolvedPrinting(db, card, Some(setCode), Some(number));
    assert Before(q, p, Some(setCode), Some(number));
    SameRow(db, p, q);
  }

  /** Any printing returned belongs to the returned card. */
  lemma PrintingBelongsToCard(db: Db, name: NameEntry, setCode: Option<string>, collectorNumber: Option<string>, setName: Option<string>, answer: SetAnswer)
    requires Keyed(db) && Sensible(name)
    ensures var m := Matched(db, name, setCode, collectorNumber, setName, answer);
            m.card == name.card
            && (m.printing.Some? ==> exists p :: p in db.printings && p.id == m.printing.value && Some(p.card) == m.card)
  {
    FastPathAgrees(db, name, setCode, collectorNumber, setName, answer);
    var (code, _) := EffectiveSet(setCode, setName, answer);
    if name.card.Some? && ResolvePrinting(db, name.card.value, LowerSet(code), NormalizeNumber(collectorNumber)).0.Some? {
      var p := ResolvedPrinting(db, name.card.value, LowerSet(code), NormalizeNumber(collectorNumber));
    }
  }

  /** "ambiguous" exactly when the name resolves, the set is known, no printing of the card has that number there, and at least two are there. */
  lemma AmbiguousExactly(db: Db, name: NameEntry, setCode: Option<string>, collectorNumber: Option<string>, setName: Option<string>, answer: SetAnswer)
    requires Keyed(db) && Sensible(name)
    ensures var code := LowerSet(EffectiveSet(setCode, setName, answer).0);
            Matched(db, name, setCode, collectorNumber, setName, answer).printingMatch == Ambiguous
            <==> && name.card.Some? && code.Some?
                 && (forall p :: !AtNumber(db, p, name.card.value, code, NormalizeNumber(collectorNumber)))
                 && SeveralInSet(db, name.card.value, code)
  {
    FastPathAgrees(db, name, setCode, collectorNumber, setName, answer);
    if name.card.Some? {
      ResolverDecides(db, name.card.value, LowerSet(EffectiveSet(setCode, setName, answer).0), NormalizeNumber(collectorNumber));
    }
  }

  // ----- Names -----

  function FindName(names: seq<CardName>, normalized: string): Option<nat> {
    if names == [] then None else if names[0].normalized == normalized then Some(names[0].id) else FindName(names[1..], normalized)
  }

  /** Pattern and trigram search are the database's; here they are any functions of the name. */
  datatype Searches = Searches(frontFace: string -> Option<nat>, trigram: string -> Option<nat>)

  function ResolveName(db: Db, searches: Searches, name: string): (r: NameEntry)
    ensures Sensible(r)
  {
    var exact := FindName(db.names, name);
    if exact.Some? then NameEntry(exact, Exact)
    else
      var front := searches.frontFace(name);
      if front.Some? then NameEntry(front, FrontFace)
      else
        var fuzzy := searches.trigram(name);
        if fuzzy.Some? then NameEntry(fuzzy, Fuzzy) else NameEntry(None, NoName)
  }

  // ----- Caches -----

  function Key(setCode: string, number: string): string {
    setCode + ":" + number
  }

  /** Every entry was read from the tables; anything may be missing. */
  ghost predicate CoherentPrintings(db: Db, cache: map<string, PrintingEntry>) {
    forall key :: key in cache ==>
      exists p :: p in db.printings && key == Key(p.setCode, p.number) && cache[key] == PrintingEntry(p.id, p.card)
  }

  ghost predicate CoherentNames(db: Db, searches: Searches, cache: map<string, NameEntry>) {
    forall name :: name in cache ==> cache[name] == ResolveName(db, searches, name)
  }

  ghost predicate ColonFree(db: Db) {
    forall p :: p in db.printings ==> ':' !in p.setCode && ':' !in p.number
  }

  lemma KeysDiffer(a: string, b: string, c: string, d: string)
    requires Key(a, b) == Key(c, d) && ':' !in c && ':' !in d
    ensures a == c && b == d
  {
    var k := Key(c, d);
    assert k[|c|] == ':' && Key(a, b)[|a|] == ':';
    assert forall i :: 0 <= i < |c| ==> k[i] == c[i] && c[i] in c;
    assert forall i :: |c| < i < |k| ==> k[i] == d[i - |c| - 1] && d[i - |c| - 1] in d;
    assert |a| == |c|;
    assert a == k[..|a|] && c == k[..|c|];
    assert b == k[|a| + 1..] && d == k[|c| + 1..];
  }

  /** A coherent cache never changes a lookup, provided no set code or number holds the separator. */
  lemma CacheIsTransparent(db: Db, cache: map<string, PrintingEntry>, setCode: string, number: string)
    requires Keyed(db) && ColonFree(db) && CoherentPrintings(db, cache) && Key(setCode, number) in cache
    ensures FindRow(db.printings, setCode, number) == Some(cache[Key(setCode, number)])
  {
    var key := Key(setCode, number);
    var p :| p in db.printings && key == Key(p.setCode, p.number) && cache[key] == PrintingEntry(p.id, p.card);
    KeysDiffer(setCode, number, p.setCode, p.number);
    var entry := FindRow(db.printings, setCode, number);
    var q :| q in db.printings && q.setCode == setCode && q.number == number && entry == Some(PrintingEntry(q.id, q.card));
    SameRow(db, p, q);
  }

  /** Whatever was cached, a cached answer is the table's. */
  ghost predicate Transparent(db: Db) {
    forall cache: map<string, PrintingEntry>, setCode: string, number: string ::
      CoherentPrintings(db, cache) && Key(setCode, number) in cache ==>
        FindRow(db.printings, setCode, number) == Some(cache[Key(setCode, number)])
  }

  /** A separator inside a row's set code or number splits its key a second way. */
  lemma SplitAgain(p: Printing) returns (setCode: string, number: string)
    requires ':' in p.setCode || ':' in p.number
    ensures Key(setCode, number) == Key(p.setCode, p.number) && setCode != p.setCode
  {
    var key := Key(p.setCode, p.number);
    if ':' in p.setCode {
      var i :| 0 <= i < |p.setCode| && p.setCode[i] == ':';
      assert key[i] == ':';
      setCode, number := key[..i], key[i + 1..];
    } else {
      var i :| 0 <= i < |p.number| && p.number[i] == ':';
      assert key[|p.setCode| + 1 + i] == ':';
      setCode, number := key[..|p.setCode| + 1 + i], key[|p.setCode| + 2 + i..];
    }
  }

  /** The row's entry then answers for the other set and number, whose row, if any, is another one. */
  lemma ColonsConfuseTheCache(db: Db, p: Printing)
    requires Keyed(db) && p in db.printings && (':' in p.setCode || ':' in p.number)
    ensures !Transparent(db)
  {
    var setCode, number := SplitAgain(p);
    var cache := map[Key(setCode, number) := PrintingEntry(p.id, p.card)];
    assert CoherentPrintings(db, cache);
    var entry := FindRow(db.printings, setCode, number);
    if entry.Some? {
      var q :| q in db.printings && q.setCode == setCode && q.number == number && entry == Some(PrintingEntry(q.id, q.card));
      assert q.id != p.id;
    }
  }

  /** Cached lookups are the table's, whatever was cached, if and only if no set code or number holds the separator. */
  lemma CacheIsTransparentExactly(db: Db)
    requires Keyed(db)
    ensures Transparent(db) <==> ColonFree(db)
  {
    if ColonFree(db) {
      forall cache: map<string, PrintingEntry>, setCode: string, number: string |
        CoherentPrintings(db, cache) && Key(setCode, number) in cache
        ensures FindRow(db.printings, setCode, number) == Some(cache[Key(setCode, number)])
      {
        CacheIsTransparent(db, cache, setCode, number);
      }
    } else {
      var p :| p in db.printings && (':' in p.setCode || ':' in p.number);
      ColonsConfuseTheCache(db, p);
    }
  }

  class PrintingMatcherService {
    const db: Db
    const searches: Searches
    var printingCache: map<string, PrintingEntry>
    var nameCache: map<string, NameEntry>

    ghost predicate Valid()
      reads this
    {
      Keyed(db) && ColonFree(db) && CoherentPrintings(db, printingCache) && CoherentNames(db, searches, nameCache)
    }

    constructor (db: Db, searches: Searches)
      requires Keyed(db) && ColonFree(db)
      ensures Valid() && this.db == db && this.searches == searches
    {
      this.db, this.searches := db, searches;
      printingCache, nameCache := map[], map[];
    }

    /** Least-recently-used entries may leave at any time. */
    method Evict(keys: set<string>, names: set<string>)
      requires Valid()
      modifies this`printingCache, this`nameCache
      ensures Valid() && printingCache == old(printingCache) - keys && nameCache == old(nameCache) - names
    {
      printingCache := printingCache - keys;
      nameCache := nameCache - names;
    }

    /** Every stored name resolves exactly, so warming only adds what a lookup would have found. */
    method WarmNames()
      requires Valid() && forall i, j :: 0 <= i < j < |db.names| ==> db.names[i].normalized != db.names[j].normalized
      modifies this`nameCache
      ensures Valid() && forall n :: n in db.names ==> n.normalized in nameCache
    {
      for i := 0 to |db.names|
        invariant Valid() && forall j :: 0 <= j < i ==> db.names[j].normalized in nameCache
      {
        NameFoundAt(db.names, i);
        nameCache := nameCache[db.names[i].normalized := NameEntry(Some(db.names[i].id), Exact)];
      }
    }

    method FindBySetAndNumber(setCode: string, number: string) returns (entry: Option<PrintingEntry>)
      requires Valid()
      modifies this`printingCache
      ensures Valid() && entry == FindRow(db.printings, Text.Lower(setCode), number)
    {
      var code := Text.Lower(setCode);
      var cacheKey := Key(code, number);
      if cacheKey in printingCache {
        CacheIsTransparent(db, printingCache, code, number);
        return Some(printingCache[cacheKey]);
      }
      entry := FindRow(db.printings, code, number);
      if entry.Some? {
        printingCache := printingCache[cacheKey := entry.value];
      }
    }

    method ResolveCardName(name: string) returns (entry: NameEntry)
      requires Valid()
      modifies this`nameCache
      ensures Valid() && entry == ResolveName(db, searches, name)
    {
      if name in nameCache {
        return nameCache[name];
      }
      entry := ResolveName(db, searches, name);
      nameCache := nameCache[name := entry];
    }

    /** Whatever the caches hold, the answer is the uncached one. `answer` is what the set name resolves to. */
    method Match(normalizedName: string, setCode: Option<string>, collectorNumber: Option<string>, setName: Option<string>, answer: SetAnswer)
      returns (m: MatchResult)
      requires Valid()
      modifies this`printingCache, this`nameCache
      ensures Valid()
      ensures m == Matched(db, ResolveName(db, searches, normalizedName), setCode, collectorNumber, setName, answer)
    {
      var number := NormalizeNumber(collectorNumber);
      var code, setMatch := setCode, if Truthy(setCode) then CodeProvided else NoSet;
      var name := ResolveCardName(normalizedName);
      if Truthy(code) && Truthy(number) && name.card.Some? {
        var entry := FindBySetAndNumber(code.value, number.value);
        if entry.Some? && Some(entry.value.card) == name.card {
          return MatchResult(Some(entry.value.printing), Some(entry.value.card), Sure, name.nameMatch, setMatch, SetAndNumber);
        }
      }
      if !Truthy(code) && Truthy(setName) && answer.code != "" {
        code, setMatch := Some(answer.code), answer.matchType;
        if Truthy(number) && name.card.Some? {
          var entry := FindBySetAndNumber(answer.code, number.value);
          if entry.Some? && Some(entry.value.card) == name.card {
            return MatchResult(Some(entry.value.printing), Some(entry.value.card), Sure, name.nameMatch, setMatch, SetAndNumber);
          }
        }
      }
      if name.card.None? {
        return MatchResult(None, None, Unsure, NoName, setMatch, NoPrinting);
      }
      var r := ResolvePrinting(db, name.card.value, LowerSet(code), number);
      if r.1 == Ambiguous {
        return MatchResult(None, name.card, Unsure, name.nameMatch, setMatch, Ambiguous);
      }
      return MatchResult(r.0, name.card, ConfidenceOf(name.nameMatch), name.nameMatch, setMatch, r.1);
    }
  }

  lemma {:induction false} NameFoundAt(names: seq<CardName>, i: nat)
    requires i < |names| && forall a, b :: 0 <= a < b < |names| ==> names[a].normalized != names[b].normalized
    ensures FindName(names, names[i].normalized) == Some(names[i].id)
  {
    if i > 0 {
      assert names[1..][i - 1] == names[i];
      NameFoundAt(names[1..], i - 1);
    }
  }
}
