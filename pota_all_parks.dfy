/**
 * The POTA "all parks" feed: reading the streamed CSV in batches of lines, keeping every row with a
 * reference and a DXCC entity, counting the parks and the active parks, building the DXCC prefix
 * index, storing the parks in the `lookups` table under the staleness protocol, and the cached
 * summary and queries the rest of the program uses.
 */
module PotaAllParks {
  import opened Wrappers
  import opened Text
  import opened CsvObject
  import PotaCsv
  import opened Library
  import opened Lookups
  import opened PrefixIndex
  import opened Progress
  import opened Batches

  /** The table category of the feed. */
  const Category: string := "pota"

  /** The guessed number of parks, used for the progress fraction. */
  const ExpectedReferences: nat := 62000

  /** One kept park, as `rowData` is built; a missing column is `None`. */
  datatype PotaRecord = PotaRecord(
    ref: string, dxccCode: int, name: Option<string>, active: bool,
    grid: Option<string>, lat: real, lon: real, location: Option<string>)

  /** The one exception the feed code can throw: the first batch has no line to take the header row from. */
  datatype FetchError = HeaderLineMissing

  /** What `fetch` returns. */
  datatype Summary = Summary(totalParks: nat, totalActiveParks: nat, prefixByDXCCCode: Index, etag: Option<string>)

  /** The park of one row, kept when `rowData.ref && rowData.dxccCode`. */
  function MapRow(ext: Externals<PotaRecord>, row: ParsedRow): (r: Option<PotaRecord>)
    ensures r.Some? <==> Truthy(Get(row, "reference")) && IntOrZero(ext, Get(row, "entityId")) != 0
    ensures r.Some? ==>
      var rec := r.value;
      && rec.ref == Get(row, "reference").value && rec.ref != ""
      && rec.dxccCode == IntOrZero(ext, Get(row, "entityId")) && rec.dxccCode != 0
      && (rec.active <==> Get(row, "active") == Some("1"))
      && rec.name == Get(row, "name") && rec.grid == Get(row, "grid") && rec.location == Get(row, "locationDesc")
      && rec.lat == FloatOrZero(ext, Get(row, "latitude")) && rec.lon == FloatOrZero(ext, Get(row, "longitude"))
  {
    var dxcc := IntOrZero(ext, Get(row, "entityId"));
    if Truthy(Get(row, "reference")) && dxcc != 0 then
      Some(PotaRecord(
        Get(row, "reference").value, dxcc, Get(row, "name"), Get(row, "active") == Some("1"), Get(row, "grid"),
        FloatOrZero(ext, Get(row, "latitude")), FloatOrZero(ext, Get(row, "longitude")), Get(row, "locationDesc")))
    else None
  }

  /** The park of one line, parsed against the header names. */
  function MapLine(ext: Externals<PotaRecord>, headers: seq<string>, line: string): Option<PotaRecord> {
    MapRow(ext, PotaCsv.ParseRowWithHeaders(line, headers))
  }

  /** A record the filter lets through. */
  predicate Kept(rec: PotaRecord) {
    rec.ref != "" && rec.dxccCode != 0
  }

  /** The lines of a batch after the header: the kept parks, in order. */
  function ScanLines(ext: Externals<PotaRecord>, headers: seq<string>, lines: seq<string>): (rs: seq<PotaRecord>)
    ensures |rs| <= |lines|
  {
    if lines == [] then []
    else
      var n := |lines| - 1;
      var rs := ScanLines(ext, headers, lines[..n]);
      match MapLine(ext, headers, lines[n])
      case None => rs
      case Some(rec) => rs + [rec]
  }

  /** Every park the lines give passes the filter: a non-empty reference and a non-zero DXCC code. */
  lemma {:induction false} ScanLinesKept(ext: Externals<PotaRecord>, headers: seq<string>, lines: seq<string>, i: nat)
    requires i < |ScanLines(ext, headers, lines)|
    ensures Kept(ScanLines(ext, headers, lines)[i])
  {
    var n := |lines| - 1;
    var rs := ScanLines(ext, headers, lines[..n]);
    if i < |rs| {
      ScanLinesKept(ext, headers, lines[..n], i);
    }
  }

  /** The reading state between batches: the header names once read, and the parks kept so far. */
  datatype Scan = Scan(headers: Option<seq<string>>, records: seq<PotaRecord>)

  /** `parsePOTACSVRow(lines.shift()).filter(x => x)` */
  function HeaderRow(line: string): seq<string> {
    HeaderNames(PotaCsv.ParseRow(line))
  }

  /** The lines of a batch read against known header names. */
  function StepLines(ext: Externals<PotaRecord>, s: Scan, body: seq<string>): Scan
    requires s.headers.Some?
  {
    s.(records := s.records + ScanLines(ext, s.headers.value, body))
  }

  /** `processLineBatch(lines)`: the first batch gives up its first line as the header row. */
  function StepBatch(ext: Externals<PotaRecord>, s: Scan, lines: seq<string>): Result<Scan, FetchError> {
    if s.headers.Some? then Ok(StepLines(ext, s, lines))
    else if lines == [] then Err(HeaderLineMissing)
    else Ok(StepLines(ext, Scan(Some(HeaderRow(lines[0])), s.records), lines[1..]))
  }

  /** All batches in order. */
  function ScanFeed(ext: Externals<PotaRecord>, batches: seq<seq<string>>): Result<Scan, FetchError> {
    if batches == [] then Ok(Scan(None, []))
    else
      match ScanFeed(ext, batches[..|batches| - 1])
      case Err(e) => Err(e)
      case Ok(s) => StepBatch(ext, s, batches[|batches| - 1])
  }

  /** The whole feed read as one file: the header line, then every other line against its names. */
  function OneFile(ext: Externals<PotaRecord>, batches: seq<seq<string>>): Scan
    requires |batches| > 0 && batches[0] != []
  {
    var hs := HeaderRow(batches[0][0]);
    Scan(Some(hs), ScanLines(ext, hs, batches[0][1..] + Flatten(batches[1..])))
  }

  /** The number of active parks among `rs`: `if (rowData.active) totalActiveParks++`. */
  function ActiveParks(rs: seq<PotaRecord>): (r: nat)
    ensures r <= |rs|
  {
    if rs == [] then 0 else ActiveParks(rs[..|rs| - 1]) + (if rs[|rs| - 1].active then 1 else 0)
  }

  /** The values the upsert of one park binds. */
  function EntryOf(ext: Externals<PotaRecord>, rec: PotaRecord): Entry {
    Entry(rec.ref, IntToString(rec.dxccCode), rec.name, ext.stringify(rec), rec.lat, rec.lon, if rec.active then 1 else 0)
  }

  /** The upsert binds key `ref`, sub-category the DXCC code as text, the park's name, data and position, and `flags` the active flag. */
  lemma EntryColumns(ext: Externals<PotaRecord>, rec: PotaRecord)
    ensures var e := EntryOf(ext, rec);
            && e.key == rec.ref && e.subCategory == IntToString(rec.dxccCode) && e.name == rec.name
            && e.lat == rec.lat && e.lon == rec.lon && e.data == ext.stringify(rec)
            && (e.flags == 1 <==> rec.active) && (e.flags == 0 <==> !rec.active)
  {
  }

  /** The upserts of a run, one per kept park, in order. */
  function Entries(ext: Externals<PotaRecord>, rs: seq<PotaRecord>): (es: seq<Entry>)
    ensures |es| == |rs|
  {
    seq(|rs|, i requires 0 <= i < |rs| => EntryOf(ext, rs[i]))
  }

  /** The `i`-th upsert of a run is the one of its `i`-th park. */
  lemma EntriesAt(ext: Externals<PotaRecord>, rs: seq<PotaRecord>, i: nat)
    requires i < |rs|
    ensures Entries(ext, rs)[i] == EntryOf(ext, rs[i])
  {
  }

  function Sightings(rs: seq<PotaRecord>): (ss: seq<Sighting>)
    ensures |ss| == |rs|
  {
    seq(|rs|, i requires 0 <= i < |rs| => Sighting(rs[i].dxccCode, rs[i].ref))
  }

  /** The prefix index a run over the parks builds. */
  function Prefixes(rs: seq<PotaRecord>): Index {
    RecordAll(map[], Sightings(rs))
  }

  lemma PrefixesSnoc(rs: seq<PotaRecord>, rec: PotaRecord)
    ensures Prefixes(rs + [rec]) == Record(Prefixes(rs), rec.dxccCode, rec.ref)
  {
    var ss := Sightings(rs + [rec]);
    assert ss[..|ss| - 1] == Sightings(rs);
  }

  lemma ActiveParksSnoc(rs: seq<PotaRecord>, rec: PotaRecord)
    ensures ActiveParks(rs + [rec]) == ActiveParks(rs) + (if rec.active then 1 else 0)
  {
    assert (rs + [rec])[..|rs|] == rs;
  }

  /** Counting the active parks of two runs joined. */
  lemma {:induction false} ActiveParksAppend(a: seq<PotaRecord>, b: seq<PotaRecord>)
    ensures ActiveParks(a + b) == ActiveParks(a) + ActiveParks(b)
  {
    if b == [] {
      assert a + b == a;
    } else {
      var n := |b| - 1;
      ActiveParksAppend(a, b[..n]);
      assert (a + b)[..|a + b| - 1] == a + b[..n];
    }
  }

  /** The park one line gives: none, or the one it keeps. */
  function LineParks(ext: Externals<PotaRecord>, headers: seq<string>, line: string): (rs: seq<PotaRecord>)
    ensures |rs| <= 1
  {
    match MapLine(ext, headers, line)
    case None => []
    case Some(rec) => [rec]
  }

  /** Reading one more line adds the park it gives, if any. */
  lemma ScanLinesStep(ext: Externals<PotaRecord>, headers: seq<string>, lines: seq<string>, i: nat)
    requires i < |lines|
    ensures ScanLines(ext, headers, lines[..i + 1]) == ScanLines(ext, headers, lines[..i]) + LineParks(ext, headers, lines[i])
  {
    assert lines[..i + 1][..i] == lines[..i];
    assert lines[..i + 1][i] == lines[i];
  }

  /** Two runs of lines joined: the parks of both. */
  lemma {:induction false} ScanLinesAppend(ext: Externals<PotaRecord>, headers: seq<string>, a: seq<string>, b: seq<string>)
    ensures ScanLines(ext, headers, a + b) == ScanLines(ext, headers, a) + ScanLines(ext, headers, b)
  {
    if b == [] {
      assert a + b == a;
    } else {
      var n := |b| - 1;
      ScanLinesAppend(ext, headers, a, b[..n]);
      assert (a + b)[..|a + b| - 1] == a + b[..n];
      assert (a + b)[|a + b| - 1] == b[n];
    }
  }

  /** The feed fails exactly when its first batch has no line; every line after that is read. */
  lemma {:induction false} ScanFeedFails(ext: Externals<PotaRecord>, batches: seq<seq<string>>)
    ensures ScanFeed(ext, batches).Err? <==> |batches| > 0 && batches[0] == []
    ensures ScanFeed(ext, batches).Ok? ==> (ScanFeed(ext, batches).value.headers.Some? <==> batches != [])
  {
    if batches != [] {
      var n := |batches| - 1;
      var prefix := batches[..n];
      ScanFeedFails(ext, prefix);
      if n > 0 {
        assert prefix[0] == batches[0];
      }
    }
  }

  /**
   * The batch boundaries are invisible: the header row is the first line of the first batch, and
   * every later line, in whichever batch, is read against the same header names.
   */
  lemma {:induction false} FeedAsOneFile(ext: Externals<PotaRecord>, batches: seq<seq<string>>)
    requires |batches| > 0 && batches[0] != []
    ensures ScanFeed(ext, batches) == Ok(OneFile(ext, batches))
  {
    if |batches| == 1 {
      var hs := HeaderRow(batches[0][0]);
      assert batches[..0] == [] && batches[1..] == [];
      assert batches[0][1..] + Flatten(batches[1..]) == batches[0][1..];
      assert [] + ScanLines(ext, hs, batches[0][1..]) == ScanLines(ext, hs, batches[0][1..]);
    } else {
      var n := |batches| - 1;
      var prefix := batches[..n];
      assert prefix[0] == batches[0];
      FeedAsOneFile(ext, prefix);
      OneFileSnoc(ext, prefix, batches[n]);
      assert prefix + [batches[n]] == batches;
    }
  }

  /** One more batch read as more lines of the same file. */
  lemma OneFileSnoc(ext: Externals<PotaRecord>, prefix: seq<seq<string>>, b: seq<string>)
    requires |prefix| > 0 && prefix[0] != []
    ensures Ok(OneFile(ext, prefix + [b])) == StepBatch(ext, OneFile(ext, prefix), b)
  {
    var bs := prefix + [b];
    var hs := HeaderRow(prefix[0][0]);
    assert bs[0] == prefix[0];
    assert bs[1..] == prefix[1..] + [b];
    FlattenSnoc(prefix[1..], b);
    var earlier := prefix[0][1..] + Flatten(prefix[1..]);
    assert bs[0][1..] + Flatten(bs[1..]) == earlier + b;
    ScanLinesAppend(ext, hs, earlier, b);
  }

  /** The references of a run. */
  function Refs(rs: seq<PotaRecord>): set<string> {
    set i | 0 <= i < |rs| :: rs[i].ref
  }

  lemma RefsSnoc(rs: seq<PotaRecord>, rec: PotaRecord)
    ensures Refs(rs + [rec]) == Refs(rs) + {rec.ref}
  {
    var s := rs + [rec];
    assert forall i :: 0 <= i < |rs| ==> s[i] == rs[i];
    assert s[|rs|] == rec;
  }

  /** A run's parks give the table rows of exactly their references. */
  lemma EntriesKeys(ext: Externals<PotaRecord>, rs: seq<PotaRecord>)
    ensures KeysOf(Entries(ext, rs)) == Refs(rs)
  {
    var es := Entries(ext, rs);
    assert forall i :: 0 <= i < |rs| ==> es[i].key == rs[i].ref;
  }

  /** The last kept park with the given reference: the one whose upsert is not overwritten. */
  function LatestPark(rs: seq<PotaRecord>, ref: string): (r: PotaRecord)
    requires ref in Refs(rs)
    ensures r.ref == ref
    ensures exists i :: 0 <= i < |rs| && rs[i] == r && forall j :: i < j < |rs| ==> rs[j].ref != ref
  {
    var n := |rs| - 1;
    assert rs == rs[..n] + [rs[n]];
    RefsSnoc(rs[..n], rs[n]);
    if rs[n].ref == ref then rs[n]
    else
      var r := LatestPark(rs[..n], ref);
      assert exists i :: 0 <= i < |rs| && rs[i] == r && forall j :: i < j < |rs| ==> rs[j].ref != ref by {
        var i :| 0 <= i < n && rs[..n][i] == r && forall j :: i < j < n ==> rs[..n][j].ref != ref;
        assert rs[i] == r;
      }
      r
  }

  /** The last entry for a reference is the entry of the last park with it. */
  lemma {:induction false} LatestParkEntry(ext: Externals<PotaRecord>, rs: seq<PotaRecord>, ref: string)
    requires ref in Refs(rs)
    ensures ref in KeysOf(Entries(ext, rs))
    ensures Latest(Entries(ext, rs), ref) == EntryOf(ext, LatestPark(rs, ref))
  {
    EntriesKeys(ext, rs);
    var n := |rs| - 1;
    var es := Entries(ext, rs);
    assert es[..n] == Entries(ext, rs[..n]);
    if rs[n].ref != ref {
      assert rs == rs[..n] + [rs[n]];
      RefsSnoc(rs[..n], rs[n]);
      LatestParkEntry(ext, rs[..n], ref);
    }
  }

  /**
   * After a successful fetch the category holds exactly the references of the kept parks, each
   * fresh with the data of the last park with that reference; it is marked active (`flags = 1`,
   * as the location and name queries require) iff that park is; all other categories are as
   * they were.
   */
  lemma FetchedTable(ext: Externals<PotaRecord>, t: Table, rs: seq<PotaRecord>)
    ensures var s := Synced(t, Category, Entries(ext, rs));
            && (set k | k in s && k.category == Category :: k.key) == Refs(rs)
            && (forall k :: k in s && k.category == Category ==>
                  && k.key in Refs(rs)
                  && s[k].updated && s[k].data == ext.stringify(LatestPark(rs, k.key))
                  && (s[k].flags == 1 <==> LatestPark(rs, k.key).active))
            && WithoutCategory(s, Category) == WithoutCategory(t, Category)
  {
    var es := Entries(ext, rs);
    var s := Synced(t, Category, es);
    SyncedCategoryKeys(t, Category, es);
    EntriesKeys(ext, rs);
    SyncedOthersUnchanged(t, Category, es);
    forall k | k in s && k.category == Category
      ensures k.key in Refs(rs)
      ensures s[k].updated && s[k].data == ext.stringify(LatestPark(rs, k.key))
      ensures s[k].flags == 1 <==> LatestPark(rs, k.key).active
    {
      SyncedAt(t, Category, es, k);
      LatestParkEntry(ext, rs, k.key);
    }
  }

  /** The state of one `fetch` run: the local variables of the source, changed as batches arrive and parks are stored. */
  class PotaFetch {
    const ext: Externals<PotaRecord>
    const dbWorkRatio: nat
    const expectedSteps: nat
    var headers: Option<seq<string>>
    var dataRows: seq<PotaRecord>
    var completedSteps: nat
    var totalParks: nat
    var totalActiveParks: nat
    var prefixByDXCCCode: Index
    /** The progress messages sent so far. */
    var reports: seq<Report>
    /** Every park kept so far, including those already stored. */
    ghost var accepted: seq<PotaRecord>
    /** How many of them are stored. */
    ghost var stored: nat

    /** The counters, the queue and the index agree with the kept parks. */
    ghost predicate Valid()
      reads this
    {
      && (dbWorkRatio == 3 || dbWorkRatio == 7)
      && expectedSteps == ExpectedSteps(ExpectedReferences, dbWorkRatio)
      && stored <= |accepted|
      && completedSteps == |accepted| * FetchWorkRatio + stored * dbWorkRatio
      && Reported(reports, completedSteps, expectedSteps, dbWorkRatio)
    }

    /** The park counters and the prefix index agree with the kept parks. */
    ghost predicate Counted()
      reads this
    {
      totalParks == |accepted| && totalActiveParks == ActiveParks(accepted) && prefixByDXCCCode == Prefixes(accepted)
    }

    /** `dataRows` holds the kept parks not yet stored, in order. */
    ghost predicate Queued()
      reads this
    {
      stored <= |accepted| && dataRows == accepted[stored..]
    }

    constructor(ext: Externals<PotaRecord>, android: bool)
      ensures this.ext == ext && dbWorkRatio == DbWorkRatio(android)
      ensures headers == None && accepted == [] && dataRows == [] && stored == 0 && reports == []
      ensures Valid() && Counted() && Queued()
    {
      this.ext := ext;
      dbWorkRatio := DbWorkRatio(android);
      expectedSteps := ExpectedSteps(ExpectedReferences, DbWorkRatio(android));
      headers := None;
      dataRows := [];
      completedSteps := 0;
      totalParks := 0;
      totalActiveParks := 0;
      prefixByDXCCCode := map[];
      reports := [];
      accepted := [];
      stored := 0;
    }

    /** Keeping one park: count it, index it, queue it, count its fetch step. */
    method Accept(rec: PotaRecord)
      requires Valid() && Counted() && Queued() && stored == 0
      modifies this`totalParks, this`totalActiveParks, this`prefixByDXCCCode, this`dataRows, this`accepted, this`completedSteps
      ensures Valid() && Counted() && Queued()
      ensures accepted == old(accepted) + [rec]
    {
      ActiveParksSnoc(accepted, rec);
      PrefixesSnoc(accepted, rec);
      ReportedAdvance(reports, completedSteps, completedSteps + FetchWorkRatio, expectedSteps, dbWorkRatio);
      totalParks := totalParks + 1;
      if rec.active {
        totalActiveParks := totalActiveParks + 1;
      }
      prefixByDXCCCode := Record(prefixByDXCCCode, rec.dxccCode, rec.ref);
      dataRows := dataRows + [rec];
      accepted := accepted + [rec];
      completedSteps := completedSteps + FetchWorkRatio;
      assert Counted();
      assert Valid();
    }

    /** One turn of the loop: parse the line against the header names and keep the park it gives, if any. */
    method ReadLine(line: string)
      requires Valid() && Counted() && Queued() && stored == 0 && headers.Some?
      modifies this`totalParks, this`totalActiveParks, this`prefixByDXCCCode, this`dataRows, this`accepted, this`completedSteps
      ensures Valid() && Counted() && Queued()
      ensures accepted == old(accepted) + LineParks(ext, headers.value, line)
    {
      var m := MapLine(ext, headers.value, line);
      if m.Some? {
        Accept(m.value);
      }
    }

    /** The `for (const line of lines)` loop with known header names. */
    method ReadLines(body: seq<string>)
      requires Valid() && Counted() && Queued() && stored == 0 && headers.Some?
      modifies this`totalParks, this`totalActiveParks, this`prefixByDXCCCode, this`dataRows, this`accepted, this`completedSteps
      ensures accepted == old(accepted) + ScanLines(ext, headers.value, body)
      ensures Valid() && Counted() && Queued()
    {
      var hs := headers.value;
      ghost var before := accepted;
      assert body[..0] == [];
      for i := 0 to |body|
        invariant Valid() && Counted() && Queued()
        invariant accepted == before + ScanLines(ext, hs, body[..i])
      {
        ScanLinesStep(ext, hs, body, i);
        AppendAssoc(before, ScanLines(ext, hs, body[..i]), LineParks(ext, hs, body[i]));
        ReadLine(body[i]);
      }
      assert body[..|body|] == body;
    }

    /** The progress message after a batch: the current loaded count and fraction. */
    method SendReport()
      requires Valid()
      modifies this`reports
      ensures Valid() && reports == old(reports) + [ReportAt(completedSteps, expectedSteps, dbWorkRatio)]
    {
      ReportedSend(reports, completedSteps, expectedSteps, dbWorkRatio);
      reports := reports + [ReportAt(completedSteps, expectedSteps, dbWorkRatio)];
    }

    /** `processLineBatch(lines)`: the header row on the first call, then the lines, then a progress message. */
    method ProcessLineBatch(lines: seq<string>) returns (r: Result<(), FetchError>)
      requires Valid() && Counted() && Queued() && stored == 0
      modifies this`headers, this`reports, this`totalParks, this`totalActiveParks, this`prefixByDXCCCode, this`dataRows, this`accepted, this`completedSteps
      ensures var s := StepBatch(ext, Scan(old(headers), old(accepted)), lines);
              && (r.Ok? <==> s.Ok?)
              && (r.Err? ==> r.error == s.error)
              && (r.Ok? ==> Scan(headers, accepted) == s.value && Valid() && Counted() && Queued() && stored == 0)
      ensures r.Ok? ==> reports == old(reports) + [ReportAt(completedSteps, expectedSteps, dbWorkRatio)]
      ensures r.Err? ==> reports == old(reports)
    {
      var body := lines;
      if headers.None? {
        if |lines| == 0 {
          return Err(HeaderLineMissing);
        }
        headers := Some(HeaderRow(lines[0]));
        body := lines[1..];
      }
      ReadLines(body);
      SendReport();
      return Ok(());
    }

    /** The batches as they arrive: `processLineBatch` on each, until one fails. */
    method ReadBatches(batches: seq<seq<string>>) returns (r: Result<(), FetchError>)
      requires Valid() && Counted() && Queued() && stored == 0 && headers == None && accepted == []
      modifies this`headers, this`reports, this`totalParks, this`totalActiveParks, this`prefixByDXCCCode, this`dataRows, this`accepted, this`completedSteps
      ensures var s := ScanFeed(ext, batches);
              && (r.Ok? <==> s.Ok?)
              && (r.Err? ==> r.error == s.error)
              && (r.Ok? ==> Scan(headers, accepted) == s.value && Valid() && Counted() && Queued() && stored == 0)
    {
      for i := 0 to |batches|
        invariant Valid() && Counted() && Queued() && stored == 0
        invariant ScanFeed(ext, batches[..i]) == Ok(Scan(headers, accepted))
      {
        assert batches[..i + 1][..i] == batches[..i];
        r := ProcessLineBatch(batches[i]);
        if r.Err? {
          ScanFeedErrPersists(ext, batches, i + 1);
          return;
        }
      }
      assert batches[..|batches|] == batches;
      r := Ok(());
    }

    /** Counting one stored park: `completedSteps += dbWorkRatio`. */
    method CountStored()
      requires Valid() && stored < |accepted|
      modifies this`completedSteps, this`stored
      ensures Valid() && stored == old(stored) + 1 && completedSteps == old(completedSteps) + dbWorkRatio
    {
      ReportedAdvance(reports, completedSteps, completedSteps + dbWorkRatio, expectedSteps, dbWorkRatio);
      assert (stored + 1) * dbWorkRatio == stored * dbWorkRatio + dbWorkRatio;
      completedSteps := completedSteps + dbWorkRatio;
      stored := stored + 1;
    }

    /** One upsert of the drain: store the next queued park and count its step. */
    method StoreOne(store: LookupStore, rec: PotaRecord, ghost t0: Table)
      requires Valid() && stored < |accepted| && accepted[stored] == rec
      requires store.rows == UpsertedAll(t0, Category, Entries(ext, accepted)[..stored])
      modifies this`completedSteps, this`stored, store
      ensures Valid() && stored == old(stored) + 1 && completedSteps == old(completedSteps) + dbWorkRatio
      ensures store.rows == UpsertedAll(t0, Category, Entries(ext, accepted)[..stored])
    {
      UpsertedAllSnoc(t0, Category, Entries(ext, accepted), stored);
      store.Upsert(Category, EntryOf(ext, rec));
      CountStored();
    }

    /** One transaction of the drain: upsert each park of `batch`, in order. */
    method StoreBatch(store: LookupStore, batch: seq<PotaRecord>, ghost t0: Table)
      requires Valid() && stored + |batch| <= |accepted|
      requires batch == accepted[stored..stored + |batch|]
      requires store.rows == UpsertedAll(t0, Category, Entries(ext, accepted)[..stored])
      modifies this`completedSteps, this`stored, store
      ensures Valid() && stored == old(stored) + |batch| && completedSteps == old(completedSteps) + |batch| * dbWorkRatio
      ensures store.rows == UpsertedAll(t0, Category, Entries(ext, accepted)[..stored])
    {
      ghost var start := stored;
      ghost var all := accepted;
      for j := 0 to |batch|
        invariant Valid() && stored == start + j
        invariant store.rows == UpsertedAll(t0, Category, Entries(ext, accepted)[..stored])
      {
        ChunkAt(all, start, |batch|, j);
        StoreOne(store, batch[j], t0);
      }
    }

    /** One turn of the drain loop: `dataRows.splice(0, 223)`, store that batch, send a progress message. */
    method StoreNextBatch(store: LookupStore, ghost t0: Table)
      requires Valid() && Queued() && |dataRows| > 0
      requires store.rows == UpsertedAll(t0, Category, Entries(ext, accepted)[..stored])
      modifies this`dataRows, this`completedSteps, this`stored, this`reports, store
      ensures Valid() && Queued() && |dataRows| < old(|dataRows|)
      ensures stored - old(stored) == (if old(|dataRows|) < BatchSize then old(|dataRows|) else BatchSize)
      ensures store.rows == UpsertedAll(t0, Category, Entries(ext, accepted)[..stored])
      ensures reports == old(reports) + [ReportAt(completedSteps, expectedSteps, dbWorkRatio)]
    {
      var n := if |dataRows| < BatchSize then |dataRows| else BatchSize;
      Splice(accepted, stored, n);
      var batch := dataRows[..n];
      dataRows := dataRows[n..];
      StoreBatch(store, batch, t0);
      SendReport();
    }

    /** The drain loop: `while (dataRows.length > 0)`, 223 parks per transaction, a progress message after each. */
    method StoreQueued(store: LookupStore)
      requires Valid() && Queued() && stored == 0
      modifies this`dataRows, this`completedSteps, this`stored, this`reports, store
      ensures Valid() && Queued() && dataRows == [] && stored == |accepted|
      ensures store.rows == UpsertedAll(old(store.rows), Category, Entries(ext, accepted))
    {
      while |dataRows| > 0
        invariant Valid() && Queued()
        invariant store.rows == UpsertedAll(old(store.rows), Category, Entries(ext, accepted)[..stored])
        decreases |dataRows|
      {
        StoreNextBatch(store, old(store.rows));
      }
      assert Entries(ext, accepted)[..stored] == Entries(ext, accepted);
    }
  }

  /**
   * `fetch`: mark the category stale, read every batch, store the kept parks, delete what is still
   * stale. The exception leaves the category marked stale and deletes nothing.
   */
  method Fetch(store: LookupStore, batches: seq<seq<string>>, etag: Option<string>, android: bool, ext: Externals<PotaRecord>)
    returns (r: Result<Summary, FetchError>)
    modifies store
    ensures r.Ok? <==> ScanFeed(ext, batches).Ok?
    ensures r.Err? ==> r.error == HeaderLineMissing && store.rows == Stale(old(store.rows), Category)
    ensures r.Ok? ==>
      var rs := ScanFeed(ext, batches).value.records;
      && store.rows == Synced(old(store.rows), Category, Entries(ext, rs))
      && r.value == Summary(|rs|, ActiveParks(rs), Prefixes(rs), etag)
      && r.value.totalActiveParks <= r.value.totalParks
  {
    store.MarkStale(Category);
    var session := new PotaFetch(ext, android);
    var res := session.ReadBatches(batches);
    if res.Err? {
      return Err(res.error);
    }
    session.StoreQueued(store);
    store.DeleteStale(Category);
    return Ok(Summary(session.totalParks, session.totalActiveParks, session.prefixByDXCCCode, etag));
  }

  /** Once the exception occurs, later batches do not matter. */
  lemma {:induction false} ScanFeedErrPersists(ext: Externals<PotaRecord>, batches: seq<seq<string>>, k: nat)
    requires k <= |batches| && ScanFeed(ext, batches[..k]).Err?
    ensures ScanFeed(ext, batches) == ScanFeed(ext, batches[..k])
    decreases |batches|
  {
    if k < |batches| {
      var n := |batches| - 1;
      assert batches[..n][..k] == batches[..k];
      ScanFeedErrPersists(ext, batches[..n], k);
    } else {
      assert batches[..k] == batches;
    }
  }

  /** `onRemove`: the whole category is deleted. */
  method OnRemove(store: LookupStore)
    modifies store
    ensures store.rows == WithoutCategory(old(store.rows), Category)
  {
    store.DeleteCategory(Category);
  }

  /** The stored summary `onLoad` receives; `activeParks` is the truthiness of that field of the old format. */
  datatype StoredData = StoredData(activeParks: bool, prefixByDXCCCode: Option<Index>, totalParks: Option<int>, totalActiveParks: Option<int>)

  /** The summary of a run as it is stored. */
  function StoredOf(s: Summary): StoredData {
    StoredData(false, Some(s.prefixByDXCCCode), Some(s.totalParks), Some(s.totalActiveParks))
  }

  /** The module-level `POTAAllParks` object; `totalParks` and `totalActiveParks` are absent until the first load. */
  class PotaAllParksData {
    var prefixByDXCCCode: Index
    var totalParks: Option<int>
    var totalActiveParks: Option<int>

    /** `{ prefixByDXCCCode: {} }` */
    constructor()
      ensures prefixByDXCCCode == map[] && totalParks == None && totalActiveParks == None
    {
      prefixByDXCCCode := map[];
      totalParks := None;
      totalActiveParks := None;
    }

    /** `onLoad(data)`: old-format data is refused with `false`; otherwise its fields are copied, `{}` and 0 for missing ones. */
    method OnLoad(data: StoredData) returns (r: Option<bool>)
      modifies this
      ensures data.activeParks ==> r == Some(false) && unchanged(this)
      ensures !data.activeParks ==> r == None
      ensures !data.activeParks ==> prefixByDXCCCode == data.prefixByDXCCCode.GetOr(map[])
      ensures !data.activeParks ==> totalParks == Some(data.totalParks.GetOr(0)) && totalActiveParks == Some(data.totalActiveParks.GetOr(0))
    {
      if data.activeParks {
        return Some(false);
      }
      prefixByDXCCCode := data.prefixByDXCCCode.GetOr(map[]);
      totalParks := Some(data.totalParks.GetOr(0));
      totalActiveParks := Some(data.totalActiveParks.GetOr(0));
      return None;
    }

    /** `potaPrefixForDXCCCode(code)`. */
    function PrefixForDXCCCode(code: int): (r: string)
      reads this
      ensures code in prefixByDXCCCode ==> r == prefixByDXCCCode[code]
      ensures code !in prefixByDXCCCode ==> r == ""
    {
      if code in prefixByDXCCCode then prefixByDXCCCode[code] else ""
    }
  }

  /** After loading the summary of a run, each DXCC code gives the first non-empty prefix the run saw, or `""`. */
  lemma PrefixAfterLoad(rs: seq<PotaRecord>, code: int)
    ensures var idx := StoredOf(Summary(|rs|, ActiveParks(rs), Prefixes(rs), None)).prefixByDXCCCode.GetOr(map[]);
            (if code in idx then idx[code] else "") == FirstPrefix(Sightings(rs), code)
  {
    var ss := Sightings(rs);
    RecordAllKeys(map[], ss);
    if code in Codes(ss) {
      RecordAllFirstSeen(ss, code);
    } else {
      FirstPrefixAbsent(ss, code);
    }
  }

  /** `potaFindParkByReference(ref)`; `None` stands for `{}`. */
  function FindParkByReference(t: Table, ref: string): (r: Option<string>)
    ensures r.Some? <==> RowKey(Category, ref) in t && t[RowKey(Category, ref)].data != ""
  {
    Lookups.FindOneByReference(t, Category, ref)
  }

  /** `potaFindParksByName(dxccCode, name)`: only active parks are found. */
  function FindParksByName(t: Table, dxccCode: int, name: string): (r: set<RowKey>)
    ensures forall k :: k in r ==> k in t && k.category == Category && t[k].subCategory == IntToString(dxccCode) && t[k].flags == 1
  {
    Lookups.FindAllByName(t, Category, IntToString(dxccCode), name)
  }

  /** `potaFindParksByLocation(dxccCode, lat, lon, delta)`: only active parks in the box are found. */
  function FindParksByLocation(t: Table, dxccCode: int, lat: real, lon: real, delta: real): (r: set<RowKey>)
    ensures forall k :: k in r <==>
      k in t && k.category == Category && t[k].subCategory == IntToString(dxccCode)
      && lat - delta <= t[k].lat <= lat + delta && lon - delta <= t[k].lon <= lon + delta && t[k].flags == 1
  {
    Lookups.FindAllByLocation(t, Category, IntToString(dxccCode), lat, lon, delta)
  }

  /** The default `delta = 1`. */
  function FindParksByLocationDefault(t: Table, dxccCode: int, lat: real, lon: real): set<RowKey> {
    FindParksByLocation(t, dxccCode, lat, lon, 1.0)
  }
}
