/**
 * What both row parsers do once a header list is known: the header row's names are filtered for
 * empty ones, and every later row becomes an object keyed by those names.
 */
module CsvObject {
  import opened Wrappers

  /** A parsed row: column name to field text; `None` is a field the row did not have (`undefined`). */
  type ParsedRow = map<string, Option<string>>

  /** `parts[i]`, or `undefined` past the end. */
  function At(parts: seq<string>, i: nat): (r: Option<string>)
    ensures r.Some? <==> i < |parts|
    ensures r.Some? ==> r.value == parts[i]
  {
    if i < |parts| then Some(parts[i]) else None
  }

  /** Reading a property of the row object: absent properties read as `undefined`. */
  function Get(row: ParsedRow, column: string): Option<string> {
    if column in row then row[column] else None
  }

  /** `headers.forEach((column, index) => { obj[column] = parts[index] })`. */
  function ToObject(headers: seq<string>, parts: seq<string>): ParsedRow
  {
    if |headers| == 0 then map[]
    else ToObject(headers[..|headers| - 1], parts)[headers[|headers| - 1] := At(parts, |headers| - 1)]
  }

  /** `i` is the last position of its column name, the one whose assignment stays in the object. */
  ghost predicate LastOccurrence(headers: seq<string>, i: nat)
    requires i < |headers|
  {
    forall j :: i < j < |headers| ==> headers[j] != headers[i]
  }

  /**
   * The object has exactly the header names as keys, and the entry for a name is the part at the
   * name's last position: missing trailing parts read `undefined`, extra parts are ignored.
   */
  lemma {:induction false} ToObjectAt(headers: seq<string>, parts: seq<string>, i: nat)
    requires i < |headers| && LastOccurrence(headers, i)
    ensures headers[i] in ToObject(headers, parts)
    ensures ToObject(headers, parts)[headers[i]] == At(parts, i)
  {
    var n := |headers| - 1;
    if i < n {
      ToObjectAt(headers[..n], parts, i);
    }
  }

  /** The object's keys are exactly the header names. */
  lemma {:induction false} ToObjectKeys(headers: seq<string>, parts: seq<string>)
    ensures ToObject(headers, parts).Keys == set i | 0 <= i < |headers| :: headers[i]
  {
    if |headers| > 0 {
      var n := |headers| - 1;
      ToObjectKeys(headers[..n], parts);
      var prev := set i | 0 <= i < n :: headers[..n][i];
      assert prev == set i | 0 <= i < n :: headers[i];
      assert (set i | 0 <= i < |headers| :: headers[i]) == prev + {headers[n]};
    }
  }

  /** With distinct header names, column `headers[i]` holds `parts[i]`. */
  lemma ToObjectDistinct(headers: seq<string>, parts: seq<string>, i: nat)
    requires i < |headers|
    requires forall j, k :: 0 <= j < k < |headers| ==> headers[j] != headers[k]
    ensures Get(ToObject(headers, parts), headers[i]) == At(parts, i)
  {
    ToObjectAt(headers, parts, i);
  }

  /** `parts.filter(x => x)`: the header row without its empty names. */
  function HeaderNames(parts: seq<string>): (r: seq<string>)
    ensures |r| <= |parts|
    ensures forall i :: 0 <= i < |r| ==> r[i] != ""
    ensures forall i :: 0 <= i < |r| ==> r[i] in parts
    ensures forall i :: 0 <= i < |parts| && parts[i] != "" ==> parts[i] in r
  {
    if parts == [] then []
    else if parts[0] == "" then HeaderNames(parts[1..])
    else [parts[0]] + HeaderNames(parts[1..])
  }

  /** Dropping a trailing empty name, such as the one the WWFF parser yields at end of line, changes nothing. */
  lemma {:induction false} HeaderNamesDropTrailingEmpty(parts: seq<string>)
    ensures HeaderNames(parts + [""]) == HeaderNames(parts)
  {
    if parts != [] {
      assert (parts + [""])[1..] == parts[1..] + [""];
      HeaderNamesDropTrailingEmpty(parts[1..]);
    }
  }

  /** Names that are all non-empty pass the filter unchanged. */
  lemma {:induction false} HeaderNamesKeepsNonEmpty(parts: seq<string>)
    requires forall i :: 0 <= i < |parts| ==> parts[i] != ""
    ensures HeaderNames(parts) == parts
  {
    if parts != [] {
      HeaderNamesKeepsNonEmpty(parts[1..]);
    }
  }

  /** A line of non-empty names followed by the end-of-line empty match yields exactly the names. */
  lemma HeaderNamesOfLine(names: seq<string>)
    requires forall i :: 0 <= i < |names| ==> names[i] != ""
    ensures HeaderNames(names + [""]) == names
  {
    HeaderNamesDropTrailingEmpty(names);
    HeaderNamesKeepsNonEmpty(names);
  }
}
