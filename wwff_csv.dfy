/**
 * The WWFF row parser: the regular expression `(?:"((?:[^"]|"")*)"|([^",]*))(?:,|\s*$)` applied with
 * `matchAll`, written as a scanner that tries the alternatives in the order the regular-expression
 * engine does (left alternative first, greedy repetitions longest first, then shorter).
 * Every function reads the line `t` from position `i` on, as the engine does from `lastIndex`; the
 * pattern never looks behind, and `$` is the end of the line.
 */
module WwffCsv {
  import opened Wrappers
  import opened Text
  import opened CsvObject

  /** One match: the value the parser maps it to, and the number of characters it consumed. */
  datatype Match = Match(field: string, length: nat)

  /** `(?:,|\s*$)` at position `i`: the number of characters it consumes. */
  function SeparatorAt(t: string, i: nat): (r: Option<nat>)
    requires i <= |t|
    ensures r.Some? <==> (i < |t| && t[i] == ',') || SpaceFrom(t, i)
    ensures r.Some? ==> i + r.value <= |t|
    ensures i < |t| && t[i] == ',' ==> r == Some(1)
    ensures i == |t| ==> r == Some(0)
  {
    if i < |t| && t[i] == ',' then Some(1) else if SpaceFrom(t, i) then Some(|t| - i) else None
  }

  /** The closing quote at position `i`, followed by a separator. */
  function CloseQuoteAt(t: string, i: nat): (r: Option<(nat, nat)>)
    requires i <= |t|
    ensures r.Some? ==> r.value.0 == 0 && 1 <= r.value.1 && i + r.value.1 <= |t|
  {
    if i < |t| && t[i] == '"' then
      match SeparatorAt(t, i + 1)
      case Some(n) => Some((0, 1 + n))
      case None => None
    else None
  }

  /**
   * `((?:[^"]|"")*)"(?:,|\s*$)` from position `i`, just after an opening quote: the length of the
   * captured text and the length of the rest of the match. One more repetition is tried before the
   * closing quote.
   */
  function QuotedTailAt(t: string, i: nat): (r: Option<(nat, nat)>)
    requires i <= |t|
    ensures r.Some? ==> r.value.0 < r.value.1 && i + r.value.1 <= |t|
    decreases |t| - i
  {
    if i < |t| && t[i] != '"' then
      match QuotedTailAt(t, i + 1)
      case Some((k, n)) => Some((k + 1, n + 1))
      case None => None
    else if i + 1 < |t| && t[i + 1] == '"' then
      match QuotedTailAt(t, i + 2)
      case Some((k, n)) => Some((k + 2, n + 2))
      case None => CloseQuoteAt(t, i)
    else CloseQuoteAt(t, i)
  }

  /** `([^",]*)(?:,|\s*$)` from position `i`: the length of the captured run and of the whole match. */
  function BareRunAt(t: string, i: nat): (r: Option<(nat, nat)>)
    requires i <= |t|
    ensures r.Some? ==> r.value.0 <= r.value.1 && i + r.value.1 <= |t|
    decreases |t| - i
  {
    var here := match SeparatorAt(t, i) case Some(n) => Some((0, n)) case None => None;
    if i < |t| && t[i] != '"' && t[i] != ',' then
      match BareRunAt(t, i + 1)
      case Some((k, n)) => Some((k + 1, n + 1))
      case None => here
    else here
  }

  /**
   * The match of the row pattern at position `i`, mapped as the parser maps it:
   * `match[1]?.replaceAll('""', '"') ?? match[2] ?? ''`.
   */
  function MatchAt(t: string, i: nat): (r: Option<Match>)
    requires i <= |t|
    ensures r.Some? ==> i + r.value.length <= |t|
  {
    var quoted := if i < |t| && t[i] == '"' then QuotedTailAt(t, i + 1) else None;
    if quoted.Some? then
      Some(Match(Unquoted(t, i + 1, quoted.value.0), 1 + quoted.value.1))
    else
      match BareRunAt(t, i)
      case Some((k, n)) => Some(Match(t[i..i + k], n))
      case None => None
  }

  /**
   * `[...t.matchAll(CSV_ROW_REGEX)]` from position `i`: a failed attempt moves on one character, a
   * match moves past itself, and an empty match moves on one character; nothing is found past the end.
   */
  function PartsFrom(t: string, i: nat): seq<string>
    requires i <= |t|
    decreases |t| - i
  {
    match MatchAt(t, i)
    case None => if i == |t| then [] else PartsFrom(t, i + 1)
    case Some(m) =>
      [m.field] + (if 0 < m.length then PartsFrom(t, i + m.length)
                   else if i == |t| then []
                   else PartsFrom(t, i + 1))
  }

  /** `parseWWFFCSVRow(line)`: the fields of one line. */
  function ParseRow(line: string): seq<string> {
    PartsFrom(line, 0)
  }

  /** `parseWWFFCSVRow(line, { headers })`: the line as an object keyed by the header names. */
  function ParseRowWithHeaders(line: string, headers: seq<string>): ParsedRow {
    ToObject(headers, ParseRow(line))
  }

  /**
   * The empty match at end of line: whatever the line, the last part is the empty string that the
   * `\s*$` alternative matches once the scan reaches the end.
   */
  lemma {:induction false} EndsWithEmptyMatch(t: string, i: nat)
    requires i <= |t|
    ensures PartsFrom(t, i) != [] && PartsFrom(t, i)[|PartsFrom(t, i)| - 1] == ""
    decreases |t| - i
  {
    if i == |t| {
      PartsAtEnd(t);
    } else {
      var r := MatchAt(t, i);
      var next := if r.Some? && 0 < r.value.length then i + r.value.length else i + 1;
      EndsWithEmptyMatch(t, next);
      PartsStep(t, i);
    }
  }

  /** Before the end of the line, the scan keeps what it finds at position `i` and goes on. */
  lemma PartsStep(t: string, i: nat)
    requires i < |t|
    ensures var r := MatchAt(t, i);
            var next := if r.Some? && 0 < r.value.length then i + r.value.length else i + 1;
            PartsFrom(t, i) == (if r.Some? then [r.value.field] else []) + PartsFrom(t, next)
  {
  }

  /** A field as written in a line: quoted (quotes doubled inside) or bare. */
  datatype Field = Quoted(text: string) | Bare(text: string)

  /** A bare field cannot hold a quote or a comma. */
  predicate WellFormed(f: Field) {
    f.Bare? ==> '"' !in f.text && ',' !in f.text
  }

  function Encode(f: Field): string {
    match f
    case Quoted(t) => "\"" + EscapeQuotes(t) + "\""
    case Bare(t) => t
  }

  /** The fields joined by commas. */
  function Serialize(fields: seq<Field>): string
    requires |fields| > 0
  {
    if |fields| == 1 then Encode(fields[0]) else Encode(fields[0]) + "," + Serialize(fields[1..])
  }

  function Values(fields: seq<Field>): (r: seq<string>)
    ensures |r| == |fields|
  {
    if fields == [] then [] else [fields[0].text] + Values(fields[1..])
  }

  /** The `k`-th value is the `k`-th field's text. */
  lemma {:induction false} ValuesIndex(fields: seq<Field>, k: nat)
    requires k < |fields|
    ensures Values(fields)[k] == fields[k].text
    decreases k
  {
    if k > 0 {
      ValuesIndex(fields[1..], k - 1);
    }
  }

  /** A bare empty field: the text the end-of-line match also gives. */
  predicate EmptyBare(f: Field) {
    f.Bare? && |f.text| == 0
  }

  /** The end-of-line match that follows the last field's text, unless the two coincide. */
  function Trailer(fields: seq<Field>): seq<string>
    requires |fields| > 0
  {
    if EmptyBare(fields[|fields| - 1]) then [] else [""]
  }

  /** A field ends at position `j`: the line ends there or a comma follows. */
  predicate FieldEnds(t: string, j: nat) {
    j == |t| || (j < |t| && t[j] == ',')
  }

  /** The separator a field that ends at `j` is matched with: the comma, or nothing at the end. */
  function SeparatorLength(t: string, j: nat): nat {
    if j < |t| then 1 else 0
  }

  /** A closing quote at position `i` that the separator accepts ends the quoted alternative there. */
  lemma QuotedTailClosing(t: string, i: nat, m: nat)
    requires i <= |t| && CloseQuoteAt(t, i) == Some((0, m))
    ensures QuotedTailAt(t, i) == Some((0, m))
  {
    if i + 1 < |t| {
      assert t[i + 1] == ',' || IsSpace(t[i + 1]);
    }
  }

  /**
   * An escaped text read at position `i`, followed by a closing quote that the separator accepts:
   * the quoted alternative reads the whole escaped text and closes after it.
   */
  lemma {:induction false} QuotedTailEscaped(t: string, i: nat, text: string, m: nat)
    requires ReadsAt(t, i, EscapeQuotes(text))
    requires i + |EscapeQuotes(text)| <= |t|
    requires CloseQuoteAt(t, i + |EscapeQuotes(text)|) == Some((0, m))
    ensures QuotedTailAt(t, i) == Some((|EscapeQuotes(text)|, |EscapeQuotes(text)| + m))
    decreases |text|
  {
    if text == [] {
      QuotedTailClosing(t, i, m);
    } else {
      var p := if text[0] == '"' then "\"\"" else [text[0]];
      var e := EscapeQuotes(text[1..]);
      EscapeQuotesCons(text);
      ReadsAtSplit(t, i, p, e);
      QuotedTailEscaped(t, i + |p|, text[1..], m);
      QuotedTailStep(t, i, p, |e|, m, |EscapeQuotes(text)|);
    }
  }

  /**
   * One repetition of the quoted alternative, a doubled quote or another character, in front of a
   * rest that the alternative reads as `k` characters and `m` more: together `total` and `m` more.
   */
  lemma QuotedTailStep(t: string, i: nat, p: string, k: nat, m: nat, total: nat)
    requires p == "\"\"" || (|p| == 1 && p[0] != '"')
    requires ReadsAt(t, i, p) && total == |p| + k
    requires i + |p| <= |t| && QuotedTailAt(t, i + |p|) == Some((k, k + m))
    ensures QuotedTailAt(t, i) == Some((total, total + m))
  {
    ReadsAtIndex(t, i, p, 0);
    if |p| == 2 {
      ReadsAtIndex(t, i, p, 1);
      QuotedTailDoubled(t, i, k, k + m);
    } else {
      QuotedTailPlain(t, i, k, k + m);
    }
  }

  /** A character other than a quote is one repetition of the quoted alternative. */
  lemma QuotedTailPlain(t: string, i: nat, k: nat, n: nat)
    requires i < |t| && t[i] != '"' && QuotedTailAt(t, i + 1) == Some((k, n))
    ensures QuotedTailAt(t, i) == Some((k + 1, n + 1))
  {
    var r := QuotedTailAt(t, i).value;
    assert r.0 == k + 1 && r.1 == n + 1;
    assert r == (k + 1, n + 1);
  }

  /** Two quotes are one repetition of the quoted alternative when the rest matches. */
  lemma QuotedTailDoubled(t: string, i: nat, k: nat, n: nat)
    requires i + 1 < |t| && t[i] == '"' && t[i + 1] == '"' && QuotedTailAt(t, i + 2) == Some((k, n))
    ensures QuotedTailAt(t, i) == Some((k + 2, n + 2))
  {
    var r := QuotedTailAt(t, i).value;
    assert r.0 == k + 2 && r.1 == n + 2;
    assert r == (k + 2, n + 2);
  }

  /** The bare alternative reads a comma-free, quote-free text up to the end of its field. */
  lemma {:induction false} BareRunPlain(t: string, i: nat, text: string)
    requires '"' !in text && ',' !in text
    requires ReadsAt(t, i, text) && i + |text| <= |t| && FieldEnds(t, i + |text|)
    ensures BareRunAt(t, i) == Some((|text|, |text| + SeparatorLength(t, i + |text|)))
    decreases |text|
  {
    if text != [] {
      assert text[0] in text;
      assert forall c :: c in text[1..] ==> c in text;
      BareRunPlain(t, i + 1, text[1..]);
    }
  }

  /** A quoted field read at position `i` that ends a field matches as its text. */
  lemma QuotedFieldMatch(t: string, i: nat, text: string)
    requires ReadsAt(t, i, Encode(Quoted(text)))
    requires FieldEnds(t, i + |Encode(Quoted(text))|)
    ensures i + |Encode(Quoted(text))| <= |t|
    ensures MatchAt(t, i)
         == Some(Match(text, |Encode(Quoted(text))| + SeparatorLength(t, i + |Encode(Quoted(text))|)))
  {
    var e := EscapeQuotes(text);
    QuotedReads(t, i, e);
    var length := |Encode(Quoted(text))| + SeparatorLength(t, i + |Encode(Quoted(text))|);
    QuotedMatchAt(t, i, text, i + 1 + |e|, length);
  }

  /**
   * An opening quote at `i`, the escaped text, and at `j` a closing quote that ends a field:
   * the match is the text, with `length` the quotes, the escaped text and the separator.
   */
  lemma QuotedMatchAt(t: string, i: nat, text: string, j: nat, length: nat)
    requires i < |t| && t[i] == '"' && ReadsAt(t, i + 1, EscapeQuotes(text))
    requires j == i + 1 + |EscapeQuotes(text)| && j < |t| && t[j] == '"' && FieldEnds(t, j + 1)
    requires length == j + 1 - i + SeparatorLength(t, j + 1)
    ensures MatchAt(t, i) == Some(Match(text, length))
  {
    var e := EscapeQuotes(text);
    CloseQuoteAtEnd(t, j);
    var m := 1 + SeparatorLength(t, j + 1);
    QuotedTailEscaped(t, i + 1, text, m);
    UnquotedReads(t, i + 1, text);
    MatchAtQuoted(t, i, |e|, |e| + m, text, length);
  }

  /** A closing quote that ends a field: the separator accepts what follows it. */
  lemma CloseQuoteAtEnd(t: string, j: nat)
    requires j < |t| && t[j] == '"' && FieldEnds(t, j + 1)
    ensures CloseQuoteAt(t, j) == Some((0, 1 + SeparatorLength(t, j + 1)))
  {
    var r := CloseQuoteAt(t, j).value;
    assert r.0 == 0 && r.1 == 1 + SeparatorLength(t, j + 1);
    assert r == (0, 1 + SeparatorLength(t, j + 1));
  }

  /** An opening quote whose quoted alternative matches: the match is the unescaped captured text. */
  lemma MatchAtQuoted(t: string, i: nat, k: nat, n: nat, field: string, length: nat)
    requires i < |t| && t[i] == '"' && QuotedTailAt(t, i + 1) == Some((k, n))
    requires i + 1 + k <= |t| && Unquoted(t, i + 1, k) == field && length == 1 + n
    ensures MatchAt(t, i) == Some(Match(field, length))
  {
    var m := MatchAt(t, i).value;
    assert m.field == field && m.length == length;
    assert m == Match(field, length);
  }

  /** A bare field read at position `i` that ends a field matches as its text. */
  lemma BareFieldMatch(t: string, i: nat, text: string)
    requires '"' !in text && ',' !in text
    requires ReadsAt(t, i, text) && FieldEnds(t, i + |text|)
    ensures i + |text| <= |t|
    ensures MatchAt(t, i) == Some(Match(text, |text| + SeparatorLength(t, i + |text|)))
  {
    ReadsAtBound(t, i, text);
    BareRunPlain(t, i, text);
    ReadsAtSlice(t, i, text);
    if text != [] {
      ReadsAtIndex(t, i, text, 0);
      assert text[0] in text;
    }
    var n := |text| + SeparatorLength(t, i + |text|);
    MatchAtBare(t, i, |text|, n, text, n);
  }

  /** Without an opening quote the bare alternative decides: the match is the captured run. */
  lemma MatchAtBare(t: string, i: nat, k: nat, n: nat, field: string, length: nat)
    requires i <= |t| && !(i < |t| && t[i] == '"') && BareRunAt(t, i) == Some((k, n))
    requires i + k <= |t| && t[i..i + k] == field && length == n
    ensures MatchAt(t, i) == Some(Match(field, length))
  {
    var m := MatchAt(t, i).value;
    assert m.field == field && m.length == length;
    assert m == Match(field, length);
  }

  /** One encoded field read at position `i` that ends a field matches as that field's text. */
  lemma FieldMatch(t: string, i: nat, f: Field)
    requires WellFormed(f)
    requires ReadsAt(t, i, Encode(f)) && FieldEnds(t, i + |Encode(f)|)
    ensures i + |Encode(f)| <= |t|
    ensures MatchAt(t, i) == Some(Match(f.text, |Encode(f)| + SeparatorLength(t, i + |Encode(f)|)))
  {
    match f
    case Quoted(text) =>
      QuotedFieldMatch(t, i, text);
    case Bare(text) =>
      BareFieldMatch(t, i, text);
  }

  /** A non-empty match contributes its field and the scan resumes after it, at `next`. */
  lemma PartsAfterMatch(t: string, i: nat, field: string, length: nat, next: nat)
    requires i <= |t| && MatchAt(t, i) == Some(Match(field, length)) && 0 < length && next == i + length
    ensures next <= |t| && PartsFrom(t, i) == [field] + PartsFrom(t, next)
  {
  }

  /** At the end of the line the bare alternative matches the empty string. */
  lemma MatchAtEnd(t: string)
    ensures MatchAt(t, |t|) == Some(Match("", 0))
  {
    assert t[|t|..|t|] == [];
  }

  /** At the end of the line there is the single empty match. */
  lemma PartsAtEnd(t: string)
    ensures PartsFrom(t, |t|) == [""]
  {
    MatchAtEnd(t);
  }

  /** The last field of a line, read at position `i`. */
  lemma LastField(t: string, i: nat, f: Field)
    requires WellFormed(f)
    requires ReadsAt(t, i, Encode(f)) && i + |Encode(f)| == |t|
    ensures PartsFrom(t, i) == [f.text] + (if EmptyBare(f) then [] else [""])
  {
    FieldMatch(t, i, f);
    if !EmptyBare(f) {
      assert |Encode(f)| > 0 by {
        if f.Bare? { assert f.text != ""; }
      }
      PartsAfterMatch(t, i, f.text, |Encode(f)| + SeparatorLength(t, i + |Encode(f)|), |t|);
      PartsAtEnd(t);
    } else {
      MatchAtEnd(t);
    }
  }

  /** A field, a comma and the rest of the line: the field's text, then the parts after the comma. */
  lemma FieldThenRest(t: string, i: nat, f: Field, next: nat)
    requires WellFormed(f)
    requires ReadsAt(t, i, Encode(f) + ",") && next == i + |Encode(f)| + 1
    ensures next <= |t|
    ensures PartsFrom(t, i) == [f.text] + PartsFrom(t, next)
  {
    ReadsAtSplit(t, i, Encode(f), ",");
    ReadsAtIndex(t, i + |Encode(f)|, ",", 0);
    FieldMatch(t, i, f);
    PartsAfterMatch(t, i, f.text, |Encode(f)| + SeparatorLength(t, i + |Encode(f)|), next);
  }

  /**
   * Parsing well-formed fields read from position `i` to the end of the line gives back their
   * texts, followed by the empty end-of-line match, which coincides with the last field when that
   * field is bare and empty.
   */
  lemma {:induction false} RoundTripAt(t: string, i: nat, fields: seq<Field>)
    requires |fields| > 0
    requires forall k :: 0 <= k < |fields| ==> WellFormed(fields[k])
    requires ReadsAt(t, i, Serialize(fields)) && i + |Serialize(fields)| == |t|
    ensures PartsFrom(t, i) == Values(fields) + Trailer(fields)
    decreases |fields|
  {
    if |fields| == 1 {
      LastField(t, i, fields[0]);
    } else {
      var next := i + |Encode(fields[0])| + 1;
      SerializedSplit(t, i, fields, next);
      RoundTripAt(t, next, fields[1..]);
      FieldThenRest(t, i, fields[0], next);
      ValuesTrailerCons(fields, PartsFrom(t, next));
    }
  }

  /** A line of several fields read at position `i`: the first field and a comma, then the others. */
  lemma SerializedSplit(t: string, i: nat, fields: seq<Field>, next: nat)
    requires |fields| > 1
    requires forall k :: 0 <= k < |fields| ==> WellFormed(fields[k])
    requires ReadsAt(t, i, Serialize(fields)) && i + |Serialize(fields)| == |t|
    requires next == i + |Encode(fields[0])| + 1
    ensures WellFormed(fields[0]) && ReadsAt(t, i, Encode(fields[0]) + ",")
    ensures forall k :: 0 <= k < |fields[1..]| ==> WellFormed(fields[1..][k])
    ensures ReadsAt(t, next, Serialize(fields[1..])) && next + |Serialize(fields[1..])| == |t|
  {
    var head := Encode(fields[0]) + ",";
    assert Serialize(fields) == head + Serialize(fields[1..]);
    ReadsAtSplit(t, i, head, Serialize(fields[1..]));
  }

  /** The texts and trailer of the fields after the first, behind the first field's text. */
  lemma ValuesTrailerCons(fields: seq<Field>, rest: seq<string>)
    requires |fields| > 1 && rest == Values(fields[1..]) + Trailer(fields[1..])
    ensures [fields[0].text] + rest == Values(fields) + Trailer(fields)
  {
    TrailerTail(fields);
    ConsAppend(fields[0].text, Values(fields[1..]), Trailer(fields));
  }

  /** The fields after the first end in the same field. */
  lemma TrailerTail(fields: seq<Field>)
    requires |fields| > 1
    ensures Trailer(fields[1..]) == Trailer(fields)
  {
    assert fields[1..][|fields| - 2] == fields[|fields| - 1];
  }

  /**
   * Parsing a line written from well-formed fields gives back their texts, followed by the empty
   * end-of-line match, which coincides with the last field when that field is bare and empty.
   */
  lemma RoundTrip(fields: seq<Field>)
    requires |fields| > 0
    requires forall k :: 0 <= k < |fields| ==> WellFormed(fields[k])
    ensures ParseRow(Serialize(fields)) == Values(fields) + Trailer(fields)
  {
    var t := Serialize(fields);
    ReadsSuffix(t, 0);
    assert t[0..] == t;
    RoundTripAt(t, 0, fields);
  }

  /**
   * With the header row read from a well-formed line of non-empty names, the name filter removes
   * exactly the end-of-line match and the names come back in order.
   */
  lemma HeaderRowNames(fields: seq<Field>)
    requires |fields| > 0
    requires forall i :: 0 <= i < |fields| ==> WellFormed(fields[i]) && fields[i].text != ""
    ensures HeaderNames(ParseRow(Serialize(fields))) == Values(fields)
  {
    RoundTrip(fields);
    assert fields[|fields| - 1].text != "";
    forall k | 0 <= k < |fields|
      ensures Values(fields)[k] != ""
    {
      ValuesIndex(fields, k);
    }
    HeaderNamesOfLine(Values(fields));
  }

  /** `a,,b`: an empty field between two commas is kept as an empty string. */
  lemma EmptyFieldKept(a: string, b: string)
    requires '"' !in a && ',' !in a && '"' !in b && ',' !in b && b != ""
    ensures ParseRow(a + ",," + b) == [a, "", b, ""]
  {
    var fields := [Bare(a), Bare(""), Bare(b)];
    RoundTrip(fields);
    assert fields[1..] == [Bare(""), Bare(b)];
    assert fields[1..][1..] == [Bare(b)];
    assert Serialize(fields[1..]) == "" + "," + b;
    assert Serialize(fields) == a + ",," + b;
    assert Values(fields[1..][1..]) == [b];
    assert Values(fields[1..]) == [""] + [b];
    assert Values(fields) == [a] + ["", b];
  }
}
