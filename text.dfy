/** The string operations of JavaScript that the feed code relies on, written out for `seq<char>`. */
module Text {
  import opened Wrappers

  /** A JavaScript string that is truthy: defined and not empty. */
  predicate Truthy(s: Option<string>) {
    s.Some? && s.value != ""
  }

  /** The characters matched by the regular-expression class `\s` (white space and line terminators). */
  predicate IsSpace(c: char) {
    || c == ' ' || c == '\t' || c == '\n' || c == '\r'
    || c == '\U{000B}' || c == '\U{000C}' || c == '\U{00A0}' || c == '\U{1680}'
    || ('\U{2000}' <= c <= '\U{200A}')
    || c == '\U{2028}' || c == '\U{2029}' || c == '\U{202F}' || c == '\U{205F}'
    || c == '\U{3000}' || c == '\U{FEFF}'
  }

  /** `\s*$` matches everything in `s` from position `i` on. */
  predicate SpaceFrom(s: string, i: nat)
    decreases |s| - i
  {
    i >= |s| || (IsSpace(s[i]) && SpaceFrom(s, i + 1))
  }

  predicate IsAsciiUpper(c: char) { 'A' <= c <= 'Z' }

  predicate IsAsciiLower(c: char) { 'a' <= c <= 'z' }

  function UpperChar(c: char): char {
    if IsAsciiLower(c) then (c as int - 32) as char else c
  }

  function LowerChar(c: char): char {
    if IsAsciiUpper(c) then (c as int + 32) as char else c
  }

  /** `String.prototype.toUpperCase`, for the ASCII letters. */
  function AsciiUpper(s: string): (r: string)
    ensures |r| == |s|
    ensures forall i :: 0 <= i < |s| ==> r[i] == UpperChar(s[i])
    ensures forall i :: 0 <= i < |s| && IsAsciiLower(s[i]) ==> r[i] as int == s[i] as int - 32
    ensures forall i :: 0 <= i < |s| && !IsAsciiLower(s[i]) ==> r[i] == s[i]
    ensures forall i :: 0 <= i < |r| ==> !IsAsciiLower(r[i])
  {
    if s == [] then [] else [UpperChar(s[0])] + AsciiUpper(s[1..])
  }

  /** `String.prototype.toLowerCase`, for the ASCII letters. */
  function AsciiLower(s: string): (r: string)
    ensures |r| == |s|
    ensures forall i :: 0 <= i < |s| && IsAsciiUpper(s[i]) ==> r[i] as int == s[i] as int + 32
    ensures forall i :: 0 <= i < |s| && !IsAsciiUpper(s[i]) ==> r[i] == s[i]
    ensures forall i :: 0 <= i < |r| ==> !IsAsciiUpper(r[i])
  {
    if s == [] then [] else [LowerChar(s[0])] + AsciiLower(s[1..])
  }

  /** Upper-casing twice is upper-casing once. */
  lemma AsciiUpperIdempotent(s: string)
    ensures AsciiUpper(AsciiUpper(s)) == AsciiUpper(s)
  {
    var u := AsciiUpper(s);
    assert forall i :: 0 <= i < |u| ==> AsciiUpper(u)[i] == u[i];
  }

  /** `s.replaceAll('""', '"')`: non-overlapping pairs of quotes, scanned left to right, become one quote. */
  function ReplaceDoubledQuotes(s: string): (r: string)
    ensures |r| <= |s|
    decreases |s|
  {
    if |s| == 0 then []
    else if |s| >= 2 && s[0] == '"' && s[1] == '"' then ['"'] + ReplaceDoubledQuotes(s[2..])
    else [s[0]] + ReplaceDoubledQuotes(s[1..])
  }

  /** The CSV escaping of a field's text: every quote is doubled. */
  function EscapeQuotes(s: string): (r: string)
    ensures |r| >= |s|
  {
    if s == [] then [] else (if s[0] == '"' then "\"\"" else [s[0]]) + EscapeQuotes(s[1..])
  }

  /** Escaping one more character puts its escape in front of the escaped rest. */
  lemma EscapeQuotesCons(s: string)
    requires s != []
    ensures EscapeQuotes(s) == (if s[0] == '"' then "\"\"" else [s[0]]) + EscapeQuotes(s[1..])
  {
  }

  /** `s` can be read in `t` from position `i` on. */
  predicate ReadsAt(t: string, i: nat, s: string)
    decreases |s|
  {
    if |s| == 0 then i <= |t| else i < |t| && t[i] == s[0] && ReadsAt(t, i + 1, s[1..])
  }

  /** What is read fits in the line. */
  lemma {:induction false} ReadsAtBound(t: string, i: nat, s: string)
    requires ReadsAt(t, i, s)
    ensures i + |s| <= |t|
    decreases |s|
  {
    if |s| > 0 {
      ReadsAtBound(t, i + 1, s[1..]);
    }
  }

  /** Reading `a + b` is reading `a` and then `b` right after it. */
  lemma {:induction false} ReadsAtSplit(t: string, i: nat, a: string, b: string)
    requires ReadsAt(t, i, a + b)
    ensures ReadsAt(t, i, a) && ReadsAt(t, i + |a|, b)
    decreases |a|
  {
    if |a| == 0 {
      assert a + b == b;
    } else {
      assert (a + b)[1..] == a[1..] + b;
      ReadsAtSplit(t, i + 1, a[1..], b);
    }
  }

  /** The `k`-th character read is the character at position `i + k`. */
  /** Reading `a` and then `b` right after it is reading `a + b`. */
  lemma {:induction false} ReadsAtJoin(t: string, i: nat, a: string, b: string)
    requires ReadsAt(t, i, a) && ReadsAt(t, i + |a|, b)
    ensures ReadsAt(t, i, a + b)
    decreases |a|
  {
    if |a| == 0 {
      assert a + b == b;
    } else {
      assert (a + b)[1..] == a[1..] + b;
      ReadsAtJoin(t, i + 1, a[1..], b);
    }
  }

  lemma {:induction false} ReadsAtIndex(t: string, i: nat, s: string, k: nat)
    requires ReadsAt(t, i, s) && k < |s|
    ensures i + k < |t| && t[i + k] == s[k]
    decreases k
  {
    if k > 0 {
      ReadsAtIndex(t, i + 1, s[1..], k - 1);
    }
  }

  /** What is read is the slice of the line at that position. */
  lemma ReadsAtSlice(t: string, i: nat, s: string)
    requires ReadsAt(t, i, s)
    ensures i + |s| <= |t| && t[i..i + |s|] == s
  {
    ReadsAtBound(t, i, s);
    forall k | 0 <= k < |s|
      ensures t[i..i + |s|][k] == s[k]
    {
      ReadsAtIndex(t, i, s, k);
    }
  }

  /** The rest of the line can be read from any position. */
  lemma {:induction false} ReadsSuffix(t: string, i: nat)
    requires i <= |t|
    ensures ReadsAt(t, i, t[i..])
    decreases |t| - i
  {
    if i < |t| {
      assert t[i..][1..] == t[i + 1..];
      ReadsSuffix(t, i + 1);
    }
  }

  /** Un-escaping inverts escaping. */
  lemma {:induction false} UnescapeEscape(s: string)
    ensures ReplaceDoubledQuotes(EscapeQuotes(s)) == s
  {
    if s != [] {
      UnescapeEscape(s[1..]);
      var e := EscapeQuotes(s);
      if s[0] == '"' {
        assert e[2..] == EscapeQuotes(s[1..]);
      } else {
        assert e[1..] == EscapeQuotes(s[1..]);
      }
    }
  }

  /** `s.split('-')[0]`: the text before the first dash, or all of `s` when it has none. */
  function BeforeDash(s: string): (r: string)
    ensures |r| <= |s| && r == s[..|r|]
    ensures '-' !in r
    ensures |r| < |s| ==> s[|r|] == '-'
  {
    if s == [] || s[0] == '-' then [] else [s[0]] + BeforeDash(s[1..])
  }

  /** `s.replace(/[A-Z]{2}$/, x => x.toLowerCase())`: two trailing capital letters become small letters. */
  function LowerTrailingPair(s: string): (r: string)
    ensures |r| == |s|
    ensures |s| >= 2 ==> r[..|s| - 2] == s[..|s| - 2]
    ensures r != s <==> |s| >= 2 && IsAsciiUpper(s[|s| - 2]) && IsAsciiUpper(s[|s| - 1])
    ensures r != s ==> r[|s| - 2] == LowerChar(s[|s| - 2]) && r[|s| - 1] == LowerChar(s[|s| - 1])
    ensures r != s ==> AsciiUpper(r[|s| - 2..]) == s[|s| - 2..]
  {
    var n := |s|;
    if n >= 2 && IsAsciiUpper(s[n - 2]) && IsAsciiUpper(s[n - 1]) then
      var r := s[..n - 2] + [LowerChar(s[n - 2]), LowerChar(s[n - 1])];
      assert r[n - 1] != s[n - 1];
      assert AsciiUpper(r[n - 2..]) == [UpperChar(r[n - 2]), UpperChar(r[n - 1])];
      r
    else s
  }

  /** A grid lowered once has no trailing capital pair left, so lowering again changes nothing. */
  lemma LowerTrailingPairIdempotent(s: string)
    ensures LowerTrailingPair(LowerTrailingPair(s)) == LowerTrailingPair(s)
  {
    var r := LowerTrailingPair(s);
    if r != s {
      assert !IsAsciiUpper(r[|s| - 1]);
    }
  }

  lemma UpperOfLower(c: char)
    requires IsAsciiUpper(c)
    ensures UpperChar(LowerChar(c)) == c
  {
  }

  /** Lowering the trailing pair changes the text only in case. */
  lemma LowerTrailingPairUpper(s: string)
    ensures AsciiUpper(LowerTrailingPair(s)) == AsciiUpper(s)
  {
    var r := LowerTrailingPair(s);
    var n := |s|;
    if r != s {
      forall i | 0 <= i < n
        ensures AsciiUpper(r)[i] == AsciiUpper(s)[i]
      {
        if i < n - 2 {
          assert r[..n - 2][i] == s[..n - 2][i];
        } else {
          UpperOfLower(s[i]);
        }
      }
    }
  }

  /** `h` contains `n` as a contiguous substring. */
  predicate Contains(h: string, n: string) {
    exists i :: 0 <= i <= |h| - |n| && OccursAt(h, n, i)
  }

  predicate OccursAt(h: string, n: string, i: nat)
    requires i + |n| <= |h|
  {
    h[i..i + |n|] == n
  }

  function DigitChar(d: nat): (c: char)
    requires d < 10
    ensures '0' <= c <= '9'
  {
    ('0' as int + d) as char
  }

  /** The decimal digits of `n`, without leading zeros. */
  function NatToString(n: nat): (r: string)
    ensures r != []
  {
    if n < 10 then [DigitChar(n)] else NatToString(n / 10) + [DigitChar(n % 10)]
  }

  /** The decimal text of a natural number is all digits, with no leading zero. */
  lemma {:induction false} NatToStringDigits(n: nat)
    ensures var r := NatToString(n);
            && (forall i :: 0 <= i < |r| ==> '0' <= r[i] <= '9')
            && (|r| > 1 ==> r[0] != '0')
  {
    if n >= 10 {
      NatToStringDigits(n / 10);
    }
  }

  /** The template-literal conversion `${n}` of an integer. */
  function IntToString(n: int): (r: string)
    ensures r != []
    ensures n < 0 <==> r[0] == '-'
  {
    NatToStringDigits(if n < 0 then -n else n);
    if n < 0 then "-" + NatToString(-n) else NatToString(n)
  }

  /** The number a text of decimal digits stands for, most significant digit first. */
  function DigitsValue(s: string): int {
    if s == [] then 0 else DigitsValue(s[..|s| - 1]) * 10 + (s[|s| - 1] as int - '0' as int)
  }

  /** Reading the decimal text of `n` back gives `n`. */
  lemma {:induction false} NatToStringValue(n: nat)
    ensures DigitsValue(NatToString(n)) == n
  {
    if n >= 10 {
      NatToStringValue(n / 10);
      var r := NatToString(n);
      assert r[..|r| - 1] == NatToString(n / 10);
    }
  }

  /** Different integers have different texts, so `${code}` identifies the code. */
  lemma IntToStringInjective(a: int, b: int)
    ensures IntToString(a) == IntToString(b) ==> a == b
  {
    if IntToString(a) == IntToString(b) {
      var ma := if a < 0 then -a else a;
      var mb := if b < 0 then -b else b;
      NatToStringValue(ma);
      NatToStringValue(mb);
      if a < 0 {
        assert IntToString(a)[1..] == NatToString(ma);
        assert IntToString(b)[1..] == NatToString(mb);
      }
    }
  }

  /** The captured text of a quoted field, `k` characters from position `a`, with doubled quotes made single. */
  function Unquoted(t: string, a: nat, k: nat): string
    requires a + k <= |t|
  {
    ReplaceDoubledQuotes(t[a..a + k])
  }

  /** An escaped text read at position `a` is captured back as that text. */
  lemma UnquotedReads(t: string, a: nat, text: string)
    requires ReadsAt(t, a, EscapeQuotes(text))
    ensures a + |EscapeQuotes(text)| <= |t| && Unquoted(t, a, |EscapeQuotes(text)|) == text
  {
    var e := EscapeQuotes(text);
    ReadsAtSlice(t, a, e);
    assert t[a..a + |e|] == e;
    UnescapeEscape(text);
  }

  /** A quoted text read at position `i`: the opening quote, the text and the closing quote. */
  lemma QuotedReads(t: string, i: nat, e: string)
    requires ReadsAt(t, i, "\"" + e + "\"")
    ensures i + 1 + |e| < |t| && t[i] == '"' && t[i + 1 + |e|] == '"'
    ensures ReadsAt(t, i + 1, e)
  {
    ReadsAtSplit(t, i, "\"" + e, "\"");
    ReadsAtSplit(t, i, "\"", e);
    ReadsAtIndex(t, i + 1 + |e|, "\"", 0);
  }

  lemma ConsAppend<T>(x: T, a: seq<T>, b: seq<T>)
    ensures [x] + (a + b) == ([x] + a) + b
  {
  }
}
