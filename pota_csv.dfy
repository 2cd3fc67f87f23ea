/**
 * The POTA row parser: the regular expression `"(([^"]|"")*)",{0,1}` applied with `matchAll`,
 * written as a scanner over positions of the line that tries the alternatives in the order the
 * regular-expression engine does. Unlike the WWFF pattern, the continuation after the closing quote
 * cannot fail, so backtracking can end a field at the first quote of a doubled pair when the field
 * is never closed.
 */
module PotaCsv {
  import opened Wrappers
  import opened Text
  import opened CsvObject

  /** One match: the unescaped text of the quoted field and the number of characters consumed. */
  datatype Match = Match(field: string, length: nat)

  /** `,{0,1}` at position `i`: one comma if there is one. */
  function CommaLength(t: string, i: nat): (r: nat)
    ensures r <= 1 && (r == 1 <==> i < |t| && t[i] == ',')
  {
    if i < |t| && t[i] == ',' then 1 else 0
  }

  /** The closing quote at position `i`, and `,{0,1}` after it. */
  function CloseQuoteAt(t: string, i: nat): (r: Option<(nat, nat)>)
    requires i <= |t|
    ensures r.Some? <==> i < |t| && t[i] == '"'
    ensures r.Some? ==> r.value.0 == 0 && i + r.value.1 <= |t| && r.value.1 == 1 + CommaLength(t, i + 1)
  {
    if i < |t| && t[i] == '"' then Some((0, 1 + CommaLength(t, i + 1))) else None
  }

  /**
   * `(([^"]|"")*)",{0,1}` from position `i`, just after an opening quote: the length of the
   * captured text and of the rest of the match. One more repetition is tried before the closing quote.
   */
  function QuotedTailAt(t: string, i: nat): (r: Option<(nat, nat)>)
    requires i <= |t|
    ensures r.Some? ==> r.value.0 < r.value.1 && i + r.value.1 <= |t|
    decreases |t| - i
  {
    if i < |t| && t[i] != '"' then
      match QuotedTailAt(t, i + 1)
      case Some((k, n)) => Some((k + 1, n + 1))
      case None => None
    else if i + 1 < |t| && t[i + 1] == '"' then
      match QuotedTailAt(t, i + 2)
      case Some((k, n)) => Some((k + 2, n + 2))
      case None => CloseQuoteAt(t, i)
    else CloseQuoteAt(t, i)
  }

  /** The match at position `i`, mapped as the parser maps it: `match[1].replaceAll('""', '"')`. */
  function MatchAt(t: string, i: nat): (r: Option<Match>)
    requires i <= |t|
    ensures r.Some? ==> 2 <= r.value.length && i + r.value.length <= |t| && t[i] == '"'
  {
    if i < |t| && t[i] == '"' then
      match QuotedTailAt(t, i + 1)
      case Some((k, n)) => Some(Match(Unquoted(t, i + 1, k), 1 + n))
      case None => None
    else None
  }

  /** `[...t.matchAll(QUOTED_CSV_ROW_REGEX)]` from position `i`: a failed attempt moves on one character. */
  function PartsFrom(t: string, i: nat): seq<string>
    requires i <= |t|
    decreases |t| - i
  {
    if i == |t| then []
    else
      match MatchAt(t, i)
      case None => PartsFrom(t, i + 1)
      case Some(m) => [m.field] + PartsFrom(t, i + m.length)
  }

  /** `parsePOTACSVRow(line)`: the fields of one line. */
  function ParseRow(line: string): seq<string> {
    PartsFrom(line, 0)
  }

  /** `parsePOTACSVRow(line, { headers })`: the line as an object keyed by the header names. */
  function ParseRowWithHeaders(line: string, headers: seq<string>): ParsedRow {
    ToObject(headers, ParseRow(line))
  }

  /** No quote between positions `i` and `j`. */
  predicate NoQuoteBetween(t: string, i: nat, j: nat)
    requires i <= j <= |t|
  {
    forall k :: i <= k < j ==> t[k] != '"'
  }

  /** A quote-free text read at position `i` puts no quote there. */
  lemma NoQuoteReads(t: string, i: nat, x: string)
    requires '"' !in x && ReadsAt(t, i, x)
    ensures i + |x| <= |t| && NoQuoteBetween(t, i, i + |x|)
  {
    ReadsAtSlice(t, i, x);
    forall k | i <= k < i + |x|
      ensures t[k] != '"'
    {
      assert t[i..i + |x|][k - i] == t[k];
      assert x[k - i] in x;
    }
  }

  /** Without a quote up to the end of the line nothing can close. */
  lemma {:induction false} QuotedTailNoQuote(t: string, i: nat)
    requires i <= |t| && NoQuoteBetween(t, i, |t|)
    ensures QuotedTailAt(t, i) == None
    decreases |t| - i
  {
    if i < |t| {
      QuotedTailNoQuote(t, i + 1);
    }
  }

  /** Text without quotes yields no field: the scan reaches its end unchanged. */
  lemma {:induction false} SkipUnquoted(t: string, i: nat, j: nat)
    requires i <= j <= |t| && NoQuoteBetween(t, i, j)
    ensures PartsFrom(t, i) == PartsFrom(t, j)
    decreases j - i
  {
    if i < j {
      assert MatchAt(t, i) == None;
      SkipUnquoted(t, i + 1, j);
    }
  }

  /** A line without quotes has no fields at all. */
  lemma NoQuoteNoField(x: string)
    requires '"' !in x
    ensures ParseRow(x) == []
  {
    ReadsSuffix(x, 0);
    assert x[0..] == x;
    NoQuoteReads(x, 0, x);
    SkipUnquoted(x, 0, |x|);
  }

  /** A character other than a quote is one repetition of the quoted alternative. */
  lemma QuotedTailPlain(t: string, i: nat, k: nat, n: nat)
    requires i < |t| && t[i] != '"' && QuotedTailAt(t, i + 1) == Some((k, n))
    ensures QuotedTailAt(t, i) == Some((k + 1, n + 1))
  {
    var r := QuotedTailAt(t, i).value;
    assert r.0 == k + 1 && r.1 == n + 1;
    assert r == (k + 1, n + 1);
  }

  /** Two quotes are one repetition of the quoted alternative when the rest matches. */
  lemma QuotedTailDoubled(t: string, i: nat, k: nat, n: nat)
    requires i + 1 < |t| && t[i] == '"' && t[i + 1] == '"' && QuotedTailAt(t, i + 2) == Some((k, n))
    ensures QuotedTailAt(t, i) == Some((k + 2, n + 2))
  {
    var r := QuotedTailAt(t, i).value;
    assert r.0 == k + 2 && r.1 == n + 2;
    assert r == (k + 2, n + 2);
  }

  /**
   * One repetition of the quoted alternative, a doubled quote or another character, in front of a
   * rest that the alternative reads as `k` characters and `m` more: together `total` and `m` more.
   */
  lemma QuotedTailStep(t: string, i: nat, p: string, k: nat, m: nat, total: nat)
    requires p == "\"\"" || (|p| == 1 && p[0] != '"')
    requires ReadsAt(t, i, p) && total == |p| + k
    requires i + |p| <= |t| && QuotedTailAt(t, i + |p|) == Some((k, k + m))
    ensures QuotedTailAt(t, i) == Some((total, total + m))
  {
    ReadsAtIndex(t, i, p, 0);
    if |p| == 2 {
      ReadsAtIndex(t, i, p, 1);
      QuotedTailDoubled(t, i, k, k + m);
    } else {
      QuotedTailPlain(t, i, k, k + m);
    }
  }

  /**
   * An escaped text read at position `i`, followed by a closing of the quoted alternative: the
   * alternative reads the whole escaped text and closes where its rest closes.
   */
  lemma {:induction false} QuotedTailEscaped(t: string, i: nat, text: string, m: nat)
    requires ReadsAt(t, i, EscapeQuotes(text))
    requires i + |EscapeQuotes(text)| <= |t|
    requires QuotedTailAt(t, i + |EscapeQuotes(text)|) == Some((0, m))
    ensures QuotedTailAt(t, i) == Some((|EscapeQuotes(text)|, |EscapeQuotes(text)| + m))
    decreases |text|
  {
    if text != [] {
      var p := if text[0] == '"' then "\"\"" else [text[0]];
      var e := EscapeQuotes(text[1..]);
      EscapeQuotesCons(text);
      ReadsAtSplit(t, i, p, e);
      QuotedTailEscaped(t, i + |p|, text[1..], m);
      QuotedTailStep(t, i, p, |e|, m, |EscapeQuotes(text)|);
    }
  }

  /** A closing quote that no second quote follows: the match ends there, with one comma if present. */
  lemma QuotedTailClosing(t: string, j: nat)
    requires j < |t| && t[j] == '"' && !(j + 1 < |t| && t[j + 1] == '"')
    ensures QuotedTailAt(t, j) == Some((0, 1 + CommaLength(t, j + 1)))
  {
    var r := QuotedTailAt(t, j).value;
    assert r.0 == 0 && r.1 == 1 + CommaLength(t, j + 1);
    assert r == (0, 1 + CommaLength(t, j + 1));
  }

  /** An opening quote whose quoted alternative matches: the match is the unescaped captured text. */
  lemma MatchAtQuoted(t: string, i: nat, k: nat, n: nat, field: string, length: nat)
    requires i < |t| && t[i] == '"' && QuotedTailAt(t, i + 1) == Some((k, n))
    requires i + 1 + k <= |t| && Unquoted(t, i + 1, k) == field && length == 1 + n
    ensures MatchAt(t, i) == Some(Match(field, length))
  {
    var m := MatchAt(t, i).value;
    assert m.field == field && m.length == length;
    assert m == Match(field, length);
  }

  /** A quoted field as written by the exporter: quotes around, quotes doubled inside. */
  function Quote(text: string): string {
    "\"" + EscapeQuotes(text) + "\""
  }

  /**
   * An opening quote at `i`, the escaped text, and at `j` a closing quote whose inner match ends
   * after `m` characters: the match is the text, with `length` the opening quote, the escaped text
   * and those `m` characters.
   */
  lemma QuotedMatchAt(t: string, i: nat, text: string, j: nat, m: nat, length: nat)
    requires i < |t| && t[i] == '"' && ReadsAt(t, i + 1, EscapeQuotes(text))
    requires j == i + 1 + |EscapeQuotes(text)| && j <= |t| && QuotedTailAt(t, j) == Some((0, m))
    requires length == j - i + m
    ensures MatchAt(t, i) == Some(Match(text, length))
  {
    var e := EscapeQuotes(text);
    QuotedTailEscaped(t, i + 1, text, m);
    UnquotedReads(t, i + 1, text);
    MatchAtQuoted(t, i, |e|, |e| + m, text, length);
  }

  /** A quoted field read at `i`, followed by anything but a quote, matches as its text; one comma is consumed. */
  lemma FieldMatch(t: string, i: nat, text: string)
    requires ReadsAt(t, i, Quote(text))
    requires !(i + |Quote(text)| < |t| && t[i + |Quote(text)|] == '"')
    ensures i + |Quote(text)| <= |t|
    ensures MatchAt(t, i) == Some(Match(text, |Quote(text)| + CommaLength(t, i + |Quote(text)|)))
  {
    var e := EscapeQuotes(text);
    var j := i + 1 + |e|;
    QuotedReads(t, i, e);
    QuotedTailClosing(t, j);
    QuotedMatchAt(t, i, text, j, 1 + CommaLength(t, j + 1), |Quote(text)| + CommaLength(t, i + |Quote(text)|));
  }

  /** A match contributes its field and the scan resumes after it, at `next`. */
  lemma PartsAfterMatch(t: string, i: nat, field: string, length: nat, next: nat)
    requires i < |t| && MatchAt(t, i) == Some(Match(field, length)) && next == i + length
    ensures next <= |t| && PartsFrom(t, i) == [field] + PartsFrom(t, next)
  {
  }

  /** A quoted field, a comma and the rest of the line: the field's text, then the rest's parts. */
  lemma FieldThenRest(t: string, i: nat, text: string, next: nat)
    requires ReadsAt(t, i, Quote(text) + ",") && next == i + |Quote(text)| + 1
    ensures next <= |t|
    ensures PartsFrom(t, i) == [text] + PartsFrom(t, next)
  {
    ReadsAtSplit(t, i, Quote(text), ",");
    ReadsAtIndex(t, i + |Quote(text)|, ",", 0);
    FieldMatch(t, i, text);
    PartsAfterMatch(t, i, text, |Quote(text)| + CommaLength(t, i + |Quote(text)|), next);
  }

  /** The last quoted field of a line. */
  lemma LastField(t: string, i: nat, text: string)
    requires ReadsAt(t, i, Quote(text)) && i + |Quote(text)| == |t|
    ensures PartsFrom(t, i) == [text]
  {
    FieldMatch(t, i, text);
    PartsAfterMatch(t, i, text, |Quote(text)| + CommaLength(t, i + |Quote(text)|), |t|);
  }

  /** Quoted fields joined by commas. */
  function JoinQuoted(texts: seq<string>): string {
    if texts == [] then ""
    else if |texts| == 1 then Quote(texts[0])
    else Quote(texts[0]) + "," + JoinQuoted(texts[1..])
  }

  /** Several fields read at position `i`: the first quoted field and a comma, then the others. */
  lemma JoinedSplit(t: string, i: nat, texts: seq<string>, next: nat)
    requires |texts| > 1 && ReadsAt(t, i, JoinQuoted(texts))
    requires next == i + |Quote(texts[0])| + 1
    ensures ReadsAt(t, i, Quote(texts[0]) + ",") && ReadsAt(t, next, JoinQuoted(texts[1..]))
    ensures next + |JoinQuoted(texts[1..])| == i + |JoinQuoted(texts)|
  {
    var head := Quote(texts[0]) + ",";
    assert JoinQuoted(texts) == head + JoinQuoted(texts[1..]);
    ReadsAtSplit(t, i, head, JoinQuoted(texts[1..]));
  }

  /** Quoted fields read from position `i` to the end of the line parse back to their texts. */
  lemma {:induction false} RoundTripAt(t: string, i: nat, texts: seq<string>)
    requires ReadsAt(t, i, JoinQuoted(texts)) && i + |JoinQuoted(texts)| == |t|
    ensures PartsFrom(t, i) == texts
    decreases |texts|
  {
    if |texts| == 1 {
      LastField(t, i, texts[0]);
    } else if |texts| > 1 {
      var next := i + |Quote(texts[0])| + 1;
      JoinedSplit(t, i, texts, next);
      RoundTripAt(t, next, texts[1..]);
      FieldThenRest(t, i, texts[0], next);
      assert [texts[0]] + texts[1..] == texts;
    }
  }

  /** Writing texts as quoted fields and parsing the line gives the texts back. */
  lemma RoundTrip(texts: seq<string>)
    ensures ParseRow(JoinQuoted(texts)) == texts
  {
    var t := JoinQuoted(texts);
    ReadsSuffix(t, 0);
    assert t[0..] == t;
    RoundTripAt(t, 0, texts);
  }

  /**
   * After the fields read at position `i`, a comma: their texts, then the parts after the comma,
   * which starts at `end`; one comma is consumed and nothing else.
   */
  lemma {:induction false} JoinedThen(t: string, i: nat, texts: seq<string>, end: nat)
    requires |texts| > 0 && ReadsAt(t, i, JoinQuoted(texts) + ",")
    requires end == i + |JoinQuoted(texts)| + 1
    ensures end <= |t| && PartsFrom(t, i) == texts + PartsFrom(t, end)
    decreases |texts|
  {
    ReadsAtSplit(t, i, JoinQuoted(texts), ",");
    ReadsAtBound(t, i + |JoinQuoted(texts)|, ",");
    if |texts| == 1 {
      FieldThenRest(t, i, texts[0], end);
    } else {
      var next := i + |Quote(texts[0])| + 1;
      JoinedSplit(t, i, texts, next);
      ReadsAtSplit(t, i, JoinQuoted(texts), ",");
      JoinedThenTail(t, i, texts, next, end);
      JoinedThen(t, next, texts[1..], end);
      FieldThenRest(t, i, texts[0], next);
      ConsAppend(texts[0], texts[1..], PartsFrom(t, end));
      assert [texts[0]] + texts[1..] == texts;
    }
  }

  /** The comma after all fields is also the comma after the fields but the first. */
  lemma JoinedThenTail(t: string, i: nat, texts: seq<string>, next: nat, end: nat)
    requires |texts| > 1 && ReadsAt(t, next, JoinQuoted(texts[1..]))
    requires next + |JoinQuoted(texts[1..])| == i + |JoinQuoted(texts)|
    requires ReadsAt(t, i + |JoinQuoted(texts)|, ",") && end == i + |JoinQuoted(texts)| + 1
    ensures ReadsAt(t, next, JoinQuoted(texts[1..]) + ",")
    ensures end == next + |JoinQuoted(texts[1..])| + 1
  {
    ReadsAtJoin(t, next, JoinQuoted(texts[1..]), ",");
  }

  /** A trailing comma before the end of the line changes nothing. */
  lemma TrailingCommaTolerated(texts: seq<string>)
    requires |texts| > 0
    ensures ParseRow(JoinQuoted(texts) + ",") == texts
  {
    var t := JoinQuoted(texts) + ",";
    ReadsSuffix(t, 0);
    assert t[0..] == t;
    JoinedThen(t, 0, texts, |t|);
    assert texts + [] == texts;
  }

  /** `"a",,"b"`: a second comma is text outside quotes, so no empty field appears between them. */
  lemma SecondCommaDropped(a: string, b: string)
    ensures ParseRow(Quote(a) + ",," + Quote(b)) == [a, b]
  {
    var t := Quote(a) + ",," + Quote(b);
    ReadsSuffix(t, 0);
    assert t[0..] == t;
    assert t == (Quote(a) + ",") + ("," + Quote(b));
    ReadsAtSplit(t, 0, Quote(a) + ",", "," + Quote(b));
    SecondCommaAt(t, a, b);
  }

  /** Two quoted fields with two commas between them, read from the start of `t`. */
  lemma SecondCommaAt(t: string, a: string, b: string)
    requires ReadsAt(t, 0, Quote(a) + ",") && ReadsAt(t, |Quote(a)| + 1, "," + Quote(b))
    requires |t| == |Quote(a)| + 2 + |Quote(b)|
    ensures PartsFrom(t, 0) == [a, b]
  {
    var next := |Quote(a)| + 1;
    FieldThenRest(t, 0, a, next);
    CommaThenField(t, next, b);
    assert [a] + [b] == [a, b];
  }

  /** A comma and the last quoted field: the comma yields nothing, the field its text. */
  lemma CommaThenField(t: string, i: nat, b: string)
    requires ReadsAt(t, i, "," + Quote(b)) && |t| == i + 1 + |Quote(b)|
    ensures PartsFrom(t, i) == [b]
  {
    ReadsAtSplit(t, i, ",", Quote(b));
    ReadsAtIndex(t, i, ",", 0);
    SkipUnquoted(t, i, i + 1);
    LastField(t, i + 1, b);
  }

  /**
   * An unclosed field ending in a doubled quote: backtracking closes it at the first quote of the
   * pair, and the lone quote left over opens nothing.
   */
  lemma UnclosedDoubledQuote(a: string, x: string)
    requires '"' !in x
    ensures ParseRow("\"" + EscapeQuotes(a) + "\"\"" + x) == [a]
  {
    var e := EscapeQuotes(a);
    var t := "\"" + e + "\"\"" + x;
    ReadsSuffix(t, 0);
    assert t[0..] == t;
    assert t == ("\"" + e + "\"") + ("\"" + x);
    ReadsAtSplit(t, 0, "\"" + e + "\"", "\"" + x);
    UnclosedAt(t, a, x);
  }

  /** The line of an unclosed field ending in a doubled quote, read from the start of `t`. */
  lemma UnclosedAt(t: string, a: string, x: string)
    requires '"' !in x
    requires ReadsAt(t, 0, "\"" + EscapeQuotes(a) + "\"")
    requires ReadsAt(t, |EscapeQuotes(a)| + 2, "\"" + x) && |t| == |EscapeQuotes(a)| + 3 + |x|
    ensures PartsFrom(t, 0) == [a]
  {
    var j := 1 + |EscapeQuotes(a)|;
    UnclosedReads(t, EscapeQuotes(a), x);
    UnclosedMatch(t, a, j);
    PartsAfterMatch(t, 0, a, j + 1, j + 1);
    LoneQuoteOpensNothing(t, j + 1);
  }

  /** What such a line holds: the opening quote, the escaped text, two quotes, and no quote after them. */
  lemma UnclosedReads(t: string, e: string, x: string)
    requires '"' !in x
    requires ReadsAt(t, 0, "\"" + e + "\"") && ReadsAt(t, |e| + 2, "\"" + x) && |t| == |e| + 3 + |x|
    ensures t[0] == '"' && ReadsAt(t, 1, e) && t[1 + |e|] == '"' && t[|e| + 2] == '"'
    ensures NoQuoteBetween(t, |e| + 3, |t|)
  {
    QuotedReads(t, 0, e);
    QuoteThenNoQuote(t, |e| + 2, x);
  }

  /** A quote read at `p` and then a quote-free rest of the line. */
  lemma QuoteThenNoQuote(t: string, p: nat, x: string)
    requires '"' !in x && ReadsAt(t, p, "\"" + x) && |t| == p + 1 + |x|
    ensures t[p] == '"' && NoQuoteBetween(t, p + 1, |t|)
  {
    ReadsAtSplit(t, p, "\"", x);
    ReadsAtIndex(t, p, "\"", 0);
    NoQuoteReads(t, p + 1, x);
  }

  /** The opening quote, the escaped text and two quotes with no quote after them match as the text. */
  lemma UnclosedMatch(t: string, a: string, j: nat)
    requires j == 1 + |EscapeQuotes(a)| && j + 1 < |t|
    requires t[0] == '"' && ReadsAt(t, 1, EscapeQuotes(a)) && t[j] == '"' && t[j + 1] == '"'
    requires NoQuoteBetween(t, j + 2, |t|)
    ensures MatchAt(t, 0) == Some(Match(a, j + 1))
  {
    QuotedTailNoQuote(t, j + 2);
    LoneQuoteCloses(t, j);
    QuotedMatchAt(t, 0, a, j, 1, j + 1);
  }

  /** A quote with no quote after it opens nothing, and the rest of the line yields no field. */
  lemma LoneQuoteOpensNothing(t: string, i: nat)
    requires i < |t| && NoQuoteBetween(t, i + 1, |t|)
    ensures PartsFrom(t, i) == []
  {
    QuotedTailNoQuote(t, i + 1);
    PartsNoMatch(t, i);
    SkipUnquoted(t, i + 1, |t|);
  }

  /** A failed attempt at `i` moves the scan on one character. */
  lemma PartsNoMatch(t: string, i: nat)
    requires i < |t| && MatchAt(t, i) == None
    ensures PartsFrom(t, i) == PartsFrom(t, i + 1)
  {
  }

  /** Two quotes with nothing able to close after them: the first one closes the field. */
  lemma LoneQuoteCloses(t: string, j: nat)
    requires j + 1 < |t| && t[j] == '"' && t[j + 1] == '"' && QuotedTailAt(t, j + 2) == None
    ensures QuotedTailAt(t, j) == Some((0, 1))
  {
    var r := QuotedTailAt(t, j).value;
    assert r.0 == 0 && r.1 == 1;
    assert r == (0, 1);
  }
}
