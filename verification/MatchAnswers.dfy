/** What a match answers, field by field, in terms of the printings and names in the tables. */
module MatchAnswers {
  import opened Options
  import Text
  import opened PrintingMatcher

  /** What is looked for: the card, the lower-cased set code and the collector number. */
  datatype Wanted = Wanted(card: nat, setCode: Option<string>, number: Option<string>)

  /** The printing at the set and number, else the card's only one in the set, else without any in the set its lowest id. */
  ghost predicate Answers(db: Db, w: Wanted, printing: Option<nat>, how: PrintingMatch) {
    match how
    case SetAndNumber => exists p :: AtNumber(db, p, w.card, w.setCode, w.number) && printing == Some(p.id)
    case SetOnly =>
      && (forall p :: !AtNumber(db, p, w.card, w.setCode, w.number))
      && exists p :: InSet(db, p, w.card, w.setCode) && printing == Some(p.id) && forall q :: InSet(db, q, w.card, w.setCode) ==> q == p
    case Any =>
      && (forall p :: !InSet(db, p, w.card, w.setCode))
      && exists p :: OfCard(db, p, w.card) && printing == Some(p.id) && forall q :: OfCard(db, q, w.card) ==> p.id <= q.id
    case Ambiguous =>
      && printing == None && (forall p :: !AtNumber(db, p, w.card, w.setCode, w.number))
      && exists p, q :: InSet(db, p, w.card, w.setCode) && InSet(db, q, w.card, w.setCode) && p != q
    case NoPrinting => printing == None && forall p :: !OfCard(db, p, w.card)
  }

  lemma BestIsAnswer(db: Db, w: Wanted, p: Printing)
    requires Keyed(db) && OfCard(db, p, w.card) && (forall q :: OfCard(db, q, w.card) ==> Before(p, q, w.setCode, w.number))
    ensures (exists q :: AtNumber(db, q, w.card, w.setCode, w.number)) ==> AtNumber(db, p, w.card, w.setCode, w.number)
    ensures (exists q :: InSet(db, q, w.card, w.setCode)) ==> InSet(db, p, w.card, w.setCode)
    ensures (forall q :: !InSet(db, q, w.card, w.setCode)) ==> forall q :: OfCard(db, q, w.card) ==> p.id <= q.id
  {
    if q :| AtNumber(db, q, w.card, w.setCode, w.number) {
      assert OfCard(db, q, w.card);
    }
    if q :| InSet(db, q, w.card, w.setCode) {
      assert OfCard(db, q, w.card);
    }
    if forall q :: !InSet(db, q, w.card, w.setCode) {
      assert !InSet(db, p, w.card, w.setCode);
      forall q | OfCard(db, q, w.card) ensures p.id <= q.id {
        assert !InSet(db, q, w.card, w.setCode);
      }
    }
  }

  lemma ResolverAnswers(db: Db, w: Wanted)
    requires Keyed(db)
    ensures var r := ResolvePrinting(db, w.card, w.setCode, w.number); Answers(db, w, r.0, r.1)
  {
    var r := ResolvePrinting(db, w.card, w.setCode, w.number);
    ResolverDecides(db, w.card, w.setCode, w.number);
    if r.0.Some? {
      var p := ResolvedPrinting(db, w.card, w.setCode, w.number);
      BestIsAnswer(db, w, p);
      SomeAnswer(db, w, p, r.1);
    }
  }

  lemma SomeAnswer(db: Db, w: Wanted, p: Printing, how: PrintingMatch)
    requires how == SetAndNumber || how == SetOnly || how == Any
    requires (how == SetAndNumber <==> exists q :: AtNumber(db, q, w.card, w.setCode, w.number))
    requires (how == SetOnly ==> !SeveralInSet(db, w.card, w.setCode) && exists q :: InSet(db, q, w.card, w.setCode))
    requires (how == Any ==> forall q :: !InSet(db, q, w.card, w.setCode))
    requires OfCard(db, p, w.card) && ((exists q :: AtNumber(db, q, w.card, w.setCode, w.number)) ==> AtNumber(db, p, w.card, w.setCode, w.number))
    requires (exists q :: InSet(db, q, w.card, w.setCode)) ==> InSet(db, p, w.card, w.setCode)
    requires (forall q :: !InSet(db, q, w.card, w.setCode)) ==> forall q :: OfCard(db, q, w.card) ==> p.id <= q.id
    ensures Answers(db, w, Some(p.id), how)
  {
  }

  // ----- What is looked for -----

  /** The first k characters are zeros, and the next one, if any, is not. */
  ghost predicate StartsAt(number: string, k: nat) {
    k <= |number| && (forall i :: 0 <= i < k ==> number[i] == '0') && (k < |number| ==> number[k] != '0')
  }

  /** Leading zeros are dropped, all but the last of a number that has nothing else; an absent or empty number stays. */
  ghost predicate NumberUsed(given: Option<string>, used: Option<string>) {
    if given.None? || given.value == "" then used == given
    else used.Some? && exists k: nat :: StartsAt(given.value, k) && used.value == if k < |given.value| then given.value[k..] else "0"
  }

  lemma NumberExactly(given: Option<string>)
    ensures NumberUsed(given, NormalizeNumber(given))
  {
    if given.Some? && given.value != "" {
      StrippedHasNoZero(given.value);
      var k :| 0 <= k <= |given.value| && StripZeros(given.value) == given.value[k..] && forall i :: 0 <= i < k ==> given.value[i] == '0';
      assert StartsAt(given.value, k);
    }
  }

  /** A set code given counts as provided; otherwise the code a set name given resolves to, if any. */
  ghost predicate SetUsed(setCode: Option<string>, setName: Option<string>, answer: SetAnswer, used: Option<string>, how: SetMatch) {
    if setCode.Some? && setCode.value != "" then used == setCode && how == CodeProvided
    else if setName.Some? && setName.value != "" && answer.code != "" then used == Some(answer.code) && how == answer.matchType
    else used == setCode && how == NoSet
  }

  ghost predicate IsFirstName(names: seq<CardName>, name: string, i: nat) {
    i < |names| && names[i].normalized == name && forall j :: 0 <= j < i ==> names[j].normalized != name
  }

  /** The first row of the name itself, else what the front-face search finds, else what the trigram search finds. */
  ghost predicate NameUsed(db: Db, searches: Searches, name: string, r: NameEntry) {
    if exists i :: 0 <= i < |db.names| && db.names[i].normalized == name then
      r.nameMatch == Exact && exists i: nat :: IsFirstName(db.names, name, i) && r.card == Some(db.names[i].id)
    else if searches.frontFace(name).Some? then r == NameEntry(searches.frontFace(name), FrontFace)
    else if searches.trigram(name).Some? then r == NameEntry(searches.trigram(name), Fuzzy)
    else r == NameEntry(None, NoName)
  }

  lemma {:induction false} FirstName(names: seq<CardName>, name: string) returns (i: Option<nat>)
    ensures i.Some? ==> IsFirstName(names, name, i.value) && FindName(names, name) == Some(names[i.value].id)
    ensures i.None? ==> FindName(names, name) == None && forall j :: 0 <= j < |names| ==> names[j].normalized != name
  {
    if names == [] {
      i := None;
    } else if names[0].normalized == name {
      i := Some(0);
    } else {
      var rest := FirstName(names[1..], name);
      assert forall j :: 0 < j < |names| ==> names[j] == names[1..][j - 1];
      i := if rest.Some? then Some(rest.value + 1) else None;
    }
  }

  lemma NameExactly(db: Db, searches: Searches, name: string)
    ensures NameUsed(db, searches, name, ResolveName(db, searches, name))
  {
    var i := FirstName(db.names, name);
  }

  // ----- The whole answer -----

  function SureOf(how: NameMatch): Confidence {
    match how
    case Exact => Sure
    case FrontFace => Sure
    case Fuzzy => Likely
    case NoName => Unsure
  }

  /** Without a card nothing else is answered. With one, its printing is; a hit on a given set and number is sure, an ambiguity is not. */
  ghost predicate Explains(db: Db, name: NameEntry, m: MatchResult, used: Option<string>, number: Option<string>) {
    if name.card.None? then m.printing == None && m.card == None && m.confidence == Unsure && m.nameMatch == NoName && m.printingMatch == NoPrinting
    else
      var w := Wanted(name.card.value, if used.Some? then Some(Text.Lower(used.value)) else None, number);
      && m.card == name.card && m.nameMatch == name.nameMatch && Answers(db, w, m.printing, m.printingMatch)
      && m.confidence == (if m.printingMatch == Ambiguous then Unsure
                          else if m.printingMatch == SetAndNumber && used != Some("") && number != Some("") then Sure
                          else SureOf(name.nameMatch))
  }

  lemma HitAnswers(db: Db, name: NameEntry, used: Option<string>, number: Option<string>)
    requires Keyed(db) && FastHit(db, name, used, number).Some?
    ensures var hit := FastHit(db, name, used, number).value;
            Answers(db, Wanted(name.card.value, Some(Text.Lower(used.value)), number), Some(hit.printing), SetAndNumber)
            && Some(hit.card) == name.card
  {
    var p :| p in db.printings && p.setCode == Text.Lower(used.value) && p.number == number.value
             && FindRow(db.printings, Text.Lower(used.value), number.value) == Some(PrintingEntry(p.id, p.card));
    assert AtNumber(db, p, name.card.value, Some(Text.Lower(used.value)), number);
  }

  lemma MissHasNoRow(db: Db, name: NameEntry, used: Option<string>, number: Option<string>, p: Printing)
    requires Keyed(db) && name.card.Some? && FastHit(db, name, used, number).None?
    requires used.Some? && used.value != "" && number.Some? && number.value != ""
    ensures !AtNumber(db, p, name.card.value, Some(Text.Lower(used.value)), number)
  {
    if AtNumber(db, p, name.card.value, Some(Text.Lower(used.value)), number) {
      var entry := FindRow(db.printings, Text.Lower(used.value), number.value);
      var q :| q in db.printings && q.setCode == Text.Lower(used.value) && q.number == number.value && entry == Some(PrintingEntry(q.id, q.card));
      SameRow(db, p, q);
      assert false;
    }
  }

  /** A match answers what its fields say, from the name, set and number it used. */
  lemma MatchExactly(db: Db, name: NameEntry, setCode: Option<string>, collectorNumber: Option<string>, setName: Option<string>, answer: SetAnswer)
    returns (used: Option<string>, number: Option<string>)
    requires Keyed(db) && Sensible(name)
    ensures var m := Matched(db, name, setCode, collectorNumber, setName, answer);
            && NumberUsed(collectorNumber, number) && SetUsed(setCode, setName, answer, used, m.setMatch)
            && Explains(db, name, m, used, number)
  {
    number := NormalizeNumber(collectorNumber);
    NumberExactly(collectorNumber);
    used := EffectiveSet(setCode, setName, answer).0;
    if name.card.Some? {
      var w := Wanted(name.card.value, LowerSet(used), number);
      if FastHit(db, name, used, number).Some? {
        HitAnswers(db, name, used, number);
      } else {
        ResolverAnswers(db, w);
        if used.Some? && used.value != "" && number.Some? && number.value != "" {
          forall p ensures !AtNumber(db, p, w.card, w.setCode, w.number) {
            MissHasNoRow(db, name, used, number, p);
          }
        }
      }
    }
  }
}
