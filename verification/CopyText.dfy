/**
 * The tab-delimited text the seeder streams to COPY, and a reader of PostgreSQL's COPY text
 * format that gives the rows back. Octal and hexadecimal escapes, which the printer never
 * writes, are not part of the reader.
 */
module CopyText {
  import opened Options

  type Value = Option<string>

  type Row = seq<Value>

  // ----- Printing -----

  /** `s.replace(/c/g, with)` for a one-character pattern. */
  function Replace(s: string, c: char, with: string): string {
    if s == [] then [] else (if s[0] == c then with else [s[0]]) + Replace(s[1..], c, with)
  }

  /** The chained replacements, in the source's order. */
  function CopyEscape(value: Value): string {
    match value
    case None => "\\N"
    case Some(s) => Replace(Replace(Replace(Replace(s, '\\', "\\\\"), '\t', "\\t"), '\n', "\\n"), '\r', "\\r")
  }

  function JoinTabs(fields: seq<string>): string {
    if fields == [] then []
    else if |fields| == 1 then fields[0]
    else fields[0] + "\t" + JoinTabs(fields[1..])
  }

  function Fields(row: Row): seq<string> {
    seq(|row|, i requires 0 <= i < |row| => CopyEscape(row[i]))
  }

  function PrintRow(row: Row): string {
    JoinTabs(Fields(row)) + "\n"
  }

  function Print(rows: seq<Row>): string {
    if rows == [] then [] else PrintRow(rows[0]) + Print(rows[1..])
  }

  // ----- One pass instead of four -----

  function EscapeChar(c: char): string {
    if c == '\\' then "\\\\" else if c == '\t' then "\\t" else if c == '\n' then "\\n" else if c == '\r' then "\\r" else [c]
  }

  predicate Special(c: char) {
    c == '\\' || c == '\t' || c == '\n' || c == '\r'
  }

  function EscapeAll(s: string): string {
    if s == [] then [] else EscapeChar(s[0]) + EscapeAll(s[1..])
  }

  lemma {:induction false} ReplaceConcat(a: string, b: string, c: char, with: string)
    ensures Replace(a + b, c, with) == Replace(a, c, with) + Replace(b, c, with)
  {
    if a == [] {
      assert a + b == b;
    } else {
      assert (a + b)[1..] == a[1..] + b;
      ReplaceConcat(a[1..], b, c, with);
    }
  }

  lemma ReplaceOne(x: char, c: char, with: string)
    ensures Replace([x], c, with) == if x == c then with else [x]
  {
    assert [x][1..] == [];
  }

  lemma ReplacePair(x: char, y: char, c: char, with: string)
    requires x != c && y != c
    ensures Replace([x, y], c, with) == [x, y]
  {
    assert [x, y] == [x] + [y];
    ReplaceConcat([x], [y], c, with);
    ReplaceOne(x, c, with);
    ReplaceOne(y, c, with);
  }

  /** The four passes over one character, in order. */
  lemma EscapesOneChar(x: char)
    ensures CopyEscape(Some([x])) == EscapeChar(x)
  {
    ReplaceOne(x, '\\', "\\\\");
    ReplaceOne(x, '\t', "\\t");
    ReplaceOne(x, '\n', "\\n");
    ReplaceOne(x, '\r', "\\r");
    ReplacePair('\\', '\\', '\t', "\\t");
    ReplacePair('\\', '\\', '\n', "\\n");
    ReplacePair('\\', '\\', '\r', "\\r");
    ReplacePair('\\', 't', '\n', "\\n");
    ReplacePair('\\', 't', '\r', "\\r");
    ReplacePair('\\', 'n', '\r', "\\r");
  }

  lemma EscapeConcat(a: string, b: string)
    ensures CopyEscape(Some(a + b)) == CopyEscape(Some(a)) + CopyEscape(Some(b))
  {
    var a1, b1 := Replace(a, '\\', "\\\\"), Replace(b, '\\', "\\\\");
    var a2, b2 := Replace(a1, '\t', "\\t"), Replace(b1, '\t', "\\t");
    var a3, b3 := Replace(a2, '\n', "\\n"), Replace(b2, '\n', "\\n");
    ReplaceConcat(a, b, '\\', "\\\\");
    ReplaceConcat(a1, b1, '\t', "\\t");
    ReplaceConcat(a2, b2, '\n', "\\n");
    ReplaceConcat(a3, b3, '\r', "\\r");
  }

  /** The chained replacements are one character-by-character escape. */
  lemma {:induction false} ChainIsOnePass(s: string)
    ensures CopyEscape(Some(s)) == EscapeAll(s)
  {
    if s != [] {
      assert s == [s[0]] + s[1..];
      EscapeConcat([s[0]], s[1..]);
      EscapesOneChar(s[0]);
      ChainIsOnePass(s[1..]);
    }
  }

  /** Every backslash written starts one of the escapes `\\`, `\t`, `\n`, `\r`, and nothing raw remains. */
  predicate Clean(s: string) {
    s == [] ||
    (s[0] != '\t' && s[0] != '\n' && s[0] != '\r' &&
     if s[0] == '\\' then |s| > 1 && (s[1] == '\\' || s[1] == 't' || s[1] == 'n' || s[1] == 'r') && Clean(s[2..]) else Clean(s[1..]))
  }

  lemma {:induction false} EscapedIsClean(s: string)
    ensures Clean(EscapeAll(s))
    ensures EscapeAll(s) != "\\N"
  {
    if s != [] {
      EscapedIsClean(s[1..]);
      var e := EscapeAll(s);
      assert e == EscapeChar(s[0]) + EscapeAll(s[1..]);
      if Special(s[0]) {
        assert e[2..] == EscapeAll(s[1..]);
      } else {
        assert e[1..] == EscapeAll(s[1..]);
      }
    }
  }

  lemma {:induction false} CleanHasNoRaw(s: string)
    requires Clean(s)
    ensures '\t' !in s && '\n' !in s && '\r' !in s
  {
    if s != [] {
      if s[0] == '\\' {
        assert s == [s[0], s[1]] + s[2..];
        CleanHasNoRaw(s[2..]);
      } else {
        assert s == [s[0]] + s[1..];
        CleanHasNoRaw(s[1..]);
      }
    }
  }

  /** No escaped field holds a raw tab, newline or carriage return, and no string looks like NULL. */
  lemma EscapedFieldIsSafe(value: Value)
    ensures '\t' !in CopyEscape(value) && '\n' !in CopyEscape(value) && '\r' !in CopyEscape(value)
    ensures CopyEscape(value) == "\\N" <==> value.None?
  {
    if value.Some? {
      ChainIsOnePass(value.value);
      EscapedIsClean(value.value);
      CleanHasNoRaw(EscapeAll(value.value));
    }
  }

  // ----- Reading -----

  /** Length of the raw field at the front: up to a tab or newline that no backslash guards. */
  function RawLength(s: string): (n: nat)
    ensures n <= |s|
  {
    if s == [] || s[0] == '\t' || s[0] == '\n' then 0
    else if s[0] == '\\' && |s| > 1 then 2 + RawLength(s[2..])
    else 1 + RawLength(s[1..])
  }

  function Unescaped(c: char): char {
    if c == 'b' then 8 as char else if c == 'f' then 12 as char else if c == 'n' then '\n'
    else if c == 'r' then '\r' else if c == 't' then '\t' else if c == 'v' then 11 as char else c
  }

  function Unescape(raw: string): string {
    if raw == [] then []
    else if raw[0] == '\\' && |raw| > 1 then [Unescaped(raw[1])] + Unescape(raw[2..])
    else [raw[0]] + Unescape(raw[1..])
  }

  function ReadField(raw: string): Value {
    if raw == "\\N" then None else Some(Unescape(raw))
  }

  /** The fields of the line at the front, and what follows the line. */
  function ReadRow(s: string): (r: (Row, string))
    ensures s != [] ==> |r.1| < |s|
    decreases |s|
  {
    var n := RawLength(s);
    var field := ReadField(s[..n]);
    if n == |s| then ([field], [])
    else if s[n] == '\t' then
      var rest := s[n + 1..];
      if rest == [] then ([field, Some("")], [])
      else
        var more := ReadRow(rest);
        ([field] + more.0, more.1)
    else ([field], s[n + 1..])
  }

  /** A line holding only `\.` ends the data. */
  predicate IsEndMarker(s: string) {
    |s| >= 2 && s[0] == '\\' && s[1] == '.' && (|s| == 2 || s[2] == '\n')
  }

  function Read(s: string): seq<Row>
    decreases |s|
  {
    if s == [] || IsEndMarker(s) then []
    else
      var r := ReadRow(s);
      [r.0] + Read(r.1)
  }

  // ----- Round trip -----

  lemma {:induction false} RawLengthOfClean(e: string, t: char, rest: string)
    requires Clean(e) && (t == '\t' || t == '\n')
    ensures RawLength(e + [t] + rest) == |e|
  {
    var s := e + [t] + rest;
    if e == [] {
      assert s[0] == t;
    } else if e[0] == '\\' {
      assert s[2..] == e[2..] + [t] + rest;
      RawLengthOfClean(e[2..], t, rest);
    } else {
      assert s[1..] == e[1..] + [t] + rest;
      RawLengthOfClean(e[1..], t, rest);
    }
  }

  lemma UnescapeOne(c: char, rest: string)
    ensures Unescape(EscapeChar(c) + rest) == [c] + Unescape(rest)
  {
    var e := EscapeChar(c) + rest;
    if Special(c) {
      assert e[2..] == rest;
    } else {
      assert e[1..] == rest;
    }
  }

  lemma {:induction false} UnescapeUndoes(s: string)
    ensures Unescape(EscapeAll(s)) == s
  {
    if s != [] {
      UnescapeOne(s[0], EscapeAll(s[1..]));
      UnescapeUndoes(s[1..]);
    }
  }

  /** A printed field is read back whole, and reading stops at its separator. */
  lemma FieldRoundTrip(value: Value, t: char, rest: string)
    requires t == '\t' || t == '\n'
    ensures RawLength(CopyEscape(value) + [t] + rest) == |CopyEscape(value)|
    ensures ReadField(CopyEscape(value)) == value
  {
    match value {
      case None =>
        var s := "\\N" + [t] + rest;
        assert s[2..] == [t] + rest && s[0] == '\\';
      case Some(text) =>
        ChainIsOnePass(text);
        EscapedIsClean(text);
        RawLengthOfClean(EscapeAll(text), t, rest);
        UnescapeUndoes(text);
    }
  }

  lemma {:induction false} RowRoundTrip(row: Row, rest: string)
    requires row != []
    ensures ReadRow(PrintRow(row) + rest) == (row, rest)
  {
    var s := PrintRow(row) + rest;
    var e := CopyEscape(row[0]);
    if |row| == 1 {
      assert s == e + ['\n'] + rest;
      FieldRoundTrip(row[0], '\n', rest);
      assert row == [row[0]];
      assert s[..|e|] == e && s[|e| + 1..] == rest;
    } else {
      var more := PrintRow(row[1..]) + rest;
      assert Fields(row)[1..] == Fields(row[1..]);
      assert s == e + ['\t'] + more;
      FieldRoundTrip(row[0], '\t', more);
      assert s[..|e|] == e && s[|e| + 1..] == more;
      RowRoundTrip(row[1..], rest);
      assert row == [row[0]] + row[1..];
    }
  }

  lemma PrintedRowIsNoEndMarker(row: Row, rest: string)
    requires row != []
    ensures !IsEndMarker(PrintRow(row) + rest)
  {
    var s, e := PrintRow(row) + rest, CopyEscape(row[0]);
    var t := if |row| == 1 then '\n' else '\t';
    assert e + [t] <= s;
    if row[0].Some? {
      ChainIsOnePass(row[0].value);
      EscapedIsClean(row[0].value);
    }
  }

  /** Reading the printed text gives back exactly the rows, NULL apart from every string, for rows with at least one field. */
  lemma {:induction false} CopyRoundTrip(rows: seq<Row>)
    requires forall i :: 0 <= i < |rows| ==> rows[i] != []
    ensures Read(Print(rows)) == rows
  {
    if rows != [] {
      RowRoundTrip(rows[0], Print(rows[1..]));
      PrintedRowIsNoEndMarker(rows[0], Print(rows[1..]));
      CopyRoundTrip(rows[1..]);
    }
  }

  /** So no two lists of rows print alike. */
  lemma PrintIsInjective(a: seq<Row>, b: seq<Row>)
    requires forall i :: 0 <= i < |a| ==> a[i] != []
    requires forall i :: 0 <= i < |b| ==> b[i] != []
    requires Print(a) == Print(b)
    ensures a == b
  {
    CopyRoundTrip(a);
    CopyRoundTrip(b);
  }
}
