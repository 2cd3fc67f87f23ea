/**
 * The exchange and validation logic of the RSGB 144MHz Backpackers contest extension:
 * the ADIF fields written for each QSO, the export option it suggests, the early return
 * of its Cabrillo row builder and the classification of the postcode prefix entered by
 * the operator. `findRef` and the list of UK postcode prefixes are not part of this
 * model: the references it finds and the prefix list are parameters.
 */
module RsgbBackpackers {
  import opened Wrappers
  import opened Text

  const Key := "rsgb-backpackers"
  const Name := "RSGB 144MHz Backpackers (Experimental)"
  const ShortName := "RSGB Backpackers"
  const ContestId := "RSGB-BACKPACKERS"

  /** A contest reference attached to an operation or a QSO (`{ type, location, postcode }`). */
  datatype Ref = Ref(refType: Option<string>, location: Option<string>, postcode: Option<string>)

  /** What the callsign lookup guessed about the other station. */
  datatype Guess = Guess(entityCode: Option<string>, state: Option<string>)

  /** `qso.their`: the state the operator typed and the guess. */
  datatype Station = Station(state: Option<string>, guess: Option<Guess>)

  /** One entry of the array returned to the ADIF writer: `{ [name]: value }`. */
  datatype AdifField = AdifField(name: string, value: Option<string>)

  /** `ref?.location` */
  function Location(ref: Option<Ref>): Option<string> {
    if ref.Some? then ref.value.location else None
  }

  /** `qso?.their?.guess?.entityCode` */
  function EntityCode(their: Option<Station>): Option<string> {
    if their.Some? && their.value.guess.Some? then their.value.guess.value.entityCode else None
  }

  /** The other station is in the USA or Canada (`entityCode === 'K' || entityCode === 'VE'`). */
  predicate InNorthAmerica(their: Option<Station>) {
    EntityCode(their) == Some("K") || EntityCode(their) == Some("VE")
  }

  /** `qso?.their?.state ?? qso?.their?.guess?.state`: `??` falls back only on `undefined`. */
  function TheirState(their: Option<Station>): (r: Option<string>)
    ensures r.None? <==> (their.None? || (their.value.state.None? && (their.value.guess.None? || their.value.guess.value.state.None?)))
    ensures their.Some? && their.value.state.Some? ==> r == their.value.state
    ensures their.Some? && their.value.state.None? && r.Some? ==> their.value.guess.Some? && r == their.value.guess.value.state
  {
    if their.None? then None
    else if their.value.state.Some? then their.value.state
    else if their.value.guess.Some? then their.value.guess.value.state
    else None
  }

  /** The value of `SRX_STRING`: the QSO reference's location, else a North American state, else `DX`. */
  function SrxString(qsoRef: Option<Ref>, their: Option<Station>): Option<string> {
    if Truthy(Location(qsoRef)) then Location(qsoRef)
    else if InNorthAmerica(their) then TheirState(their)
    else Some("DX")
  }

  /** The three ADIF fields written for one QSO, in order. */
  function AdifRecord(ref: Option<Ref>, qsoRef: Option<Ref>, their: Option<Station>): seq<AdifField> {
    [AdifField("CONTEST_ID", Some(ContestId)),
     AdifField("STX_STRING", Location(ref)),
     AdifField("SRX_STRING", SrxString(qsoRef, their))]
  }

  /** `adifFieldsForOneQSO`: starts from the contest id and our location, then pushes one `SRX_STRING`. */
  method AdifFieldsForOneQso(ref: Option<Ref>, qsoRef: Option<Ref>, their: Option<Station>) returns (fields: seq<AdifField>)
    ensures fields == AdifRecord(ref, qsoRef, their)
  {
    fields := [AdifField("CONTEST_ID", Some(ContestId)), AdifField("STX_STRING", Location(ref))];
    if Truthy(Location(qsoRef)) {
      fields := fields + [AdifField("SRX_STRING", Location(qsoRef))];
    } else {
      if InNorthAmerica(their) {
        fields := fields + [AdifField("SRX_STRING", TheirState(their))];
      } else {
        fields := fields + [AdifField("SRX_STRING", Some("DX"))];
      }
    }
  }

  /** Reads a record back: the value of the first entry named `name`, `None` when there is none. */
  function FieldValue(fields: seq<AdifField>, name: string): Option<Option<string>> {
    if fields == [] then None
    else if fields[0].name == name then Some(fields[0].value)
    else FieldValue(fields[1..], name)
  }

  /** No two entries of the record share a name. */
  predicate DistinctNames(fields: seq<AdifField>) {
    forall i, j :: 0 <= i < j < |fields| ==> fields[i].name != fields[j].name
  }

  /** Every record has exactly the three fields, under distinct names, and reading each back gives its value. */
  lemma AdifRecordReadBack(ref: Option<Ref>, qsoRef: Option<Ref>, their: Option<Station>, name: string)
    ensures var r := AdifRecord(ref, qsoRef, their);
      && |r| == 3 && DistinctNames(r)
      && FieldValue(r, "CONTEST_ID") == Some(Some(ContestId))
      && FieldValue(r, "STX_STRING") == Some(Location(ref))
      && FieldValue(r, "SRX_STRING") == Some(SrxString(qsoRef, their))
      && (name !in {"CONTEST_ID", "STX_STRING", "SRX_STRING"} ==> FieldValue(r, name) == None)
  {
    var r := AdifRecord(ref, qsoRef, their);
    var srx := r[1..][1..];
    assert srx == [AdifField("SRX_STRING", SrxString(qsoRef, their))];
    assert FieldValue(srx, "SRX_STRING") == Some(SrxString(qsoRef, their));
    assert srx[1..] == [];
    if name !in {"CONTEST_ID", "STX_STRING", "SRX_STRING"} {
      assert FieldValue(srx, name) == FieldValue(srx[1..], name) == None;
    }
  }

  /** A truthy location on the QSO's own reference always wins, whatever is known about the station. */
  lemma SrxPrefersQsoLocation(qsoRef: Option<Ref>, their: Option<Station>, other: Option<Station>)
    requires Truthy(Location(qsoRef))
    ensures SrxString(qsoRef, their) == SrxString(qsoRef, other) == Location(qsoRef)
  {}

  /** `SRX_STRING` is always one of: the QSO's location, the typed state, the guessed state, or `DX`. */
  lemma SrxSources(qsoRef: Option<Ref>, their: Option<Station>)
    ensures var s := SrxString(qsoRef, their);
      || s == Location(qsoRef)
      || (their.Some? && s == their.value.state)
      || (their.Some? && their.value.guess.Some? && s == their.value.guess.value.state)
      || s == Some("DX")
  {}

  /** `SRX_STRING` is left undefined exactly for a North American station with no location and no known state. */
  lemma SrxUndefined(qsoRef: Option<Ref>, their: Option<Station>)
    ensures SrxString(qsoRef, their).None? <==>
      (!Truthy(Location(qsoRef)) && InNorthAmerica(their) && their.value.state.None? && their.value.guess.value.state.None?)
  {}

  /** `DX` is sent for any station outside North America that has no location of its own. */
  lemma SrxDx(qsoRef: Option<Ref>, their: Option<Station>)
    requires !Truthy(Location(qsoRef)) && !InNorthAmerica(their)
    ensures SrxString(qsoRef, their) == Some("DX")
  {}

  /** `??` keeps a typed state even when it is empty; only an undefined one falls back to the guess. */
  lemma TheirStateKeepsEmpty(guessed: Option<string>)
    ensures TheirState(Some(Station(Some(""), Some(Guess(Some("K"), guessed))))) == Some("")
    ensures TheirState(Some(Station(None, Some(Guess(Some("K"), guessed))))) == guessed
  {}

  /** One export option offered for an operation. */
  datatype ExportOption = ExportOption(format: string, nameTemplate: string, exportType: string, titleTemplate: string)

  /** The file-name template, compact or not as the settings ask. */
  function NameTemplate(useCompactFileNames: bool): string {
    if useCompactFileNames then "{call}-" + ShortName + "-{compactDate}" else "{date} {call} for " + ShortName
  }

  /** `suggestExportOptions`: one Cabrillo export for a reference of this contest, `undefined` for any other. */
  function SuggestExportOptions(ref: Option<Ref>, useCompactFileNames: bool): (r: Option<seq<ExportOption>>)
    ensures r.Some? <==> ref.Some? && ref.value.refType == Some(Key)
    ensures r.Some? ==> |r.value| == 1 && r.value[0].format == "cabrillo" && r.value[0].exportType == "rsgb-backpackers-cabrillo"
  {
    if ref.Some? && ref.value.refType == Some(Key) then
      Some([ExportOption("cabrillo", NameTemplate(useCompactFileNames), "rsgb-backpackers-cabrillo",
                         "{call}: " + Name + " on {date}")])
    else None
  }

  /** `b` occurs in `a + b + c` right after `a`, and at the start of `b + c`. */
  lemma OccursInConcat(a: string, b: string, c: string)
    ensures Contains(a + b + c, b) && Contains(b + c, b)
  {
    assert (a + b + c)[|a|..|a| + |b|] == b;
    assert OccursAt(a + b + c, b, |a|);
    assert (b + c)[0..|b|] == b;
    assert OccursAt(b + c, b, 0);
  }

  /** Both file-name templates carry the `{call}` placeholder and the contest's short name; the title carries its full name. */
  lemma ExportTemplates(ref: Option<Ref>, useCompactFileNames: bool)
    requires ref.Some? && ref.value.refType == Some(Key)
    ensures var o := SuggestExportOptions(ref, useCompactFileNames).value[0];
      && Contains(o.nameTemplate, "{call}") && Contains(o.nameTemplate, ShortName)
      && Contains(o.titleTemplate, "{call}") && Contains(o.titleTemplate, Name)
  {
    if useCompactFileNames {
      assert NameTemplate(true) == "{call}" + ("-" + ShortName + "-{compactDate}");
      OccursInConcat("", "{call}", "-" + ShortName + "-{compactDate}");
      OccursInConcat("{call}-", ShortName, "-{compactDate}");
    } else {
      assert NameTemplate(false) == "{date} " + "{call}" + (" for " + ShortName);
      OccursInConcat("{date} ", "{call}", " for " + ShortName);
      assert NameTemplate(false) == "{date} {call} for " + ShortName + "";
      OccursInConcat("{date} {call} for ", ShortName, "");
    }
    assert "{call}: " + Name + " on {date}" == "{call}" + (": " + Name + " on {date}");
    OccursInConcat("", "{call}", ": " + Name + " on {date}");
    OccursInConcat("{call}: ", Name, " on {date}");
  }

  /** The error `qsoToCabrilloParts` throws when it reads `ref.location` of an undefined reference. */
  /**
   * For a station in the USA or Canada and no location on the QSO's reference, the SRX is the
   * typed state when there is one, and otherwise the guessed state.
   */
  lemma SrxNorthAmerica(qsoRef: Option<Ref>, their: Option<Station>)
    requires !Truthy(Location(qsoRef)) && InNorthAmerica(their)
    ensures their.Some?
    ensures their.value.state.Some? ==> SrxString(qsoRef, their) == their.value.state
    ensures their.value.state.None? ==>
      SrxString(qsoRef, their) == (if their.value.guess.Some? then their.value.guess.value.state else None)
  {}

  datatype CabrilloError = RefUndefined

  /** A flag of the source that is still `undefined` or `false` counts as not set (`!flag`). */
  predicate IsSet(flag: Option<bool>) {
    flag == Some(true)
  }

  /**
   * `qsoToCabrilloParts`: rows are only built when we or they are in the state, and neither
   * flag is ever assigned, so every call that does not throw returns no rows.
   */
  method QsoToCabrilloParts(ref: Option<Ref>) returns (r: Result<seq<seq<string>>, CabrilloError>)
    ensures r.Err? <==> ref.None?
    ensures r.Ok? ==> r.value == []
  {
    if ref.None? {
      return Err(RefUndefined);
    }
    var weAreInState: Option<bool> := None;
    var theyAreInState: Option<bool> := None;
    if !IsSet(weAreInState) && !IsSet(theyAreInState) {
      return Ok([]);
    }
    // Neither flag is ever assigned, so the row-building code after the early return is unreachable.
    assert false;
    r := Ok([]);
  }

  /** The length JavaScript reports for a string: its UTF-16 code units, two for a character beyond the BMP. */
  function Utf16Length(s: string): nat {
    if s == [] then 0 else (if s[0] as int >= 0x1_0000 then 2 else 1) + Utf16Length(s[1..])
  }

  /** A character is in the Basic Multilingual Plane. */
  predicate InBmp(c: char) {
    c as int < 0x1_0000
  }

  /** The UTF-16 length lies between the number of characters and twice it, and equals it for BMP text. */
  lemma {:induction false} Utf16LengthBounds(s: string)
    ensures |s| <= Utf16Length(s) <= 2 * |s|
    ensures (forall i :: 0 <= i < |s| ==> InBmp(s[i])) ==> Utf16Length(s) == |s|
  {
    if s != [] {
      Utf16LengthBounds(s[1..]);
      if forall i :: 0 <= i < |s| ==> InBmp(s[i]) {
        assert forall i :: 0 <= i < |s[1..]| ==> InBmp(s[1..][i]) by {
          forall i | 0 <= i < |s[1..]| ensures InBmp(s[1..][i]) {
            assert s[1..][i] == s[i + 1];
          }
        }
      }
    }
  }

  /** A postcode is two UTF-16 units long exactly when it is two BMP characters or one character beyond the BMP. */
  lemma Utf16LengthTwo(s: string)
    ensures Utf16Length(s) == 2 <==> (|s| == 2 && InBmp(s[0]) && InBmp(s[1])) || (|s| == 1 && !InBmp(s[0]))
  {
    Utf16LengthBounds(s);
    if |s| == 2 {
      assert s[1..][1..] == [];
    }
  }

  const Prompt := "Please enter a two-letter UK postcode prefix, or \"GY\", \"JE\" or \"IM\" for crown dependencies, or \"DX\"."
  const DxSelected := "DX selected, your station is outside the UK."

  /** The description shown under the postcode field and whether the field is valid. */
  datatype PostcodeStatus = PostcodeStatus(description: string, valid: bool)

  /** The classification memoised in `ActivityOptions`, given the list of UK postcode prefixes. */
  function ClassifyPostcode(prefixes: seq<string>, postcode: Option<string>): (r: PostcodeStatus)
    ensures r.valid <==> postcode.Some? && (postcode.value in prefixes || postcode.value == "DX")
  {
    if postcode.Some? && postcode.value in prefixes then PostcodeStatus("Postcode prefix: " + postcode.value, true)
    else if postcode == Some("DX") then PostcodeStatus(DxSelected, true)
    else if postcode.Some? && Utf16Length(postcode.value) == 2 then
      PostcodeStatus(postcode.value + " not valid! " + Prompt, false)
    else PostcodeStatus(Prompt, false)
  }

  /** An accepted prefix is echoed back after `Postcode prefix: `, so it can be read off the description. */
  lemma PostcodeAcceptedReadBack(prefixes: seq<string>, postcode: Option<string>)
    requires postcode.Some? && postcode.value in prefixes
    ensures var d := ClassifyPostcode(prefixes, postcode).description;
      && |d| >= 17 && d[..17] == "Postcode prefix: " && d[17..] == postcode.value
  {}

  /** `DX` is accepted with its own message unless the prefix list itself holds `DX`. */
  lemma PostcodeDx(prefixes: seq<string>)
    requires "DX" !in prefixes
    ensures ClassifyPostcode(prefixes, Some("DX")) == PostcodeStatus(DxSelected, true)
  {}

  /**
   * Every rejected postcode's description ends with the generic prompt; it is preceded by
   * `<postcode> not valid! ` exactly when the postcode is two UTF-16 units long.
   */
  lemma PostcodeRejected(prefixes: seq<string>, postcode: Option<string>)
    requires !ClassifyPostcode(prefixes, postcode).valid
    ensures var d := ClassifyPostcode(prefixes, postcode).description;
      && |d| >= |Prompt| && d[|d| - |Prompt|..] == Prompt
      && (d != Prompt <==> postcode.Some? && Utf16Length(postcode.value) == 2)
      && (d != Prompt ==> d == postcode.value + " not valid! " + Prompt)
  {
    var d := ClassifyPostcode(prefixes, postcode).description;
    if d != Prompt {
      assert d == (postcode.value + " not valid! ") + Prompt;
    }
  }

  /** A single character beyond the BMP, such as an emoji, counts as two characters and gets the `not valid!` message. */
  lemma PostcodeAstralCharacter(prefixes: seq<string>)
    requires "\U{1F600}" !in prefixes
    ensures ClassifyPostcode(prefixes, Some("\U{1F600}")).description == "\U{1F600}" + " not valid! " + Prompt
  {
    Utf16LengthTwo("\U{1F600}");
  }
}
