/**
 * The WWFF directory feed: reading the streamed CSV in batches of lines, turning active rows into
 * records, building the DXCC prefix index, storing the records in the `lookups` table under the
 * staleness protocol, and the cached summary and queries the rest of the program uses.
 */
module WwffDataFile {
  import opened Wrappers
  import opened Text
  import opened CsvObject
  import WwffCsv
  import opened Library
  import opened Lookups
  import opened PrefixIndex
  import opened Progress
  import opened Batches

  /** The table category of the feed. */
  const Category: string := "wwff"

  /** The guessed number of references, used for the progress fraction. */
  const ExpectedReferences: nat := 63000

  /** One stored reference, as `rowData` is built. */
  datatype WwffRecord = WwffRecord(ref: string, dxccCode: int, name: Option<string>, grid: string, lat: real, lon: real)

  /** The exceptions the feed code can throw. */
  datatype FetchError =
    | HeaderLineMissing        // the first batch has no line: `lines.shift()` is `undefined`
    | ReferenceMissing(line: string)  // an active row without a `reference` column: `undefined.toUpperCase()`

  /** What `fetch` returns. */
  datatype Summary = Summary(totalReferences: nat, prefixByDXCCCode: Index, etag: Option<string>)

  /** `!row.iaruLocator ? locationToGrid6(lat, lon) : row.iaruLocator.replace(/[A-Z]{2}$/, ...)` */
  function Grid(ext: Externals<WwffRecord>, locator: Option<string>, lat: real, lon: real): (r: string)
    ensures !Truthy(locator) ==> r == ext.locationToGrid6(lat, lon)
    ensures Truthy(locator) ==> |r| == |locator.value| && AsciiUpper(r) == AsciiUpper(locator.value)
    ensures Truthy(locator) && |r| >= 2 ==> !IsAsciiUpper(r[|r| - 1]) || !IsAsciiUpper(r[|r| - 2])
  {
    if !Truthy(locator) then ext.locationToGrid6(lat, lon)
    else
      var g := LowerTrailingPair(locator.value);
      LowerTrailingPairUpper(locator.value);
      g
  }

  /**
   * The record of one row, if the row is active (`row.status === 'active'`); an active row
   * without a reference throws.
   */
  function MapRow(ext: Externals<WwffRecord>, line: string, row: ParsedRow): (r: Result<Option<WwffRecord>, FetchError>)
    ensures r.Err? <==> Get(row, "status") == Some("active") && Get(row, "reference").None?
    ensures r.Err? ==> r.error == ReferenceMissing(line)
    ensures r.Ok? && r.value.Some? <==> Get(row, "status") == Some("active") && Get(row, "reference").Some?
    ensures r.Ok? && r.value.Some? ==>
      var rec := r.value.value;
      var reference := Get(row, "reference").value;
      && |rec.ref| == |reference| && rec.ref == AsciiUpper(reference)
      && (forall i :: 0 <= i < |rec.ref| ==> !IsAsciiLower(rec.ref[i]))
      && rec.dxccCode == IntOrZero(ext, Get(row, "dxccEnum"))
      && rec.lat == FloatOrZero(ext, Get(row, "latitude"))
      && rec.lon == FloatOrZero(ext, Get(row, "longitude"))
      && rec.grid == Grid(ext, Get(row, "iaruLocator"), rec.lat, rec.lon)
      && rec.name == Get(row, "name")
  {
    if Get(row, "status") != Some("active") then Ok(None)
    else
      var lat := FloatOrZero(ext, Get(row, "latitude"));
      var lon := FloatOrZero(ext, Get(row, "longitude"));
      var grid := Grid(ext, Get(row, "iaruLocator"), lat, lon);
      match Get(row, "reference")
      case None => Err(ReferenceMissing(line))
      case Some(reference) =>
        Ok(Some(WwffRecord(AsciiUpper(reference), IntOrZero(ext, Get(row, "dxccEnum")), Get(row, "name"), grid, lat, lon)))
  }

  /** The record of one line, parsed against the header names. */
  function MapLine(ext: Externals<WwffRecord>, headers: seq<string>, line: string): Result<Option<WwffRecord>, FetchError> {
    MapRow(ext, line, WwffCsv.ParseRowWithHeaders(line, headers))
  }

  /** The lines of a batch after the header: the records of the active rows, or the first error. */
  function ScanLines(ext: Externals<WwffRecord>, headers: seq<string>, lines: seq<string>): Result<seq<WwffRecord>, FetchError> {
    if lines == [] then Ok([])
    else
      var n := |lines| - 1;
      match ScanLines(ext, headers, lines[..n])
      case Err(e) => Err(e)
      case Ok(rs) =>
        match MapLine(ext, headers, lines[n])
        case Err(e) => Err(e)
        case Ok(None) => Ok(rs)
        case Ok(Some(rec)) => Ok(rs + [rec])
  }

  /** The reading state between batches: the header names once read, and the records accepted so far. */
  datatype Scan = Scan(headers: Option<seq<string>>, records: seq<WwffRecord>)

  /** The header names of the header line. */
  function HeaderRow(line: string): seq<string> {
    HeaderNames(WwffCsv.ParseRow(line))
  }

  /** The lines of a batch read against known header names. */
  function StepLines(ext: Externals<WwffRecord>, s: Scan, body: seq<string>): Result<Scan, FetchError>
    requires s.headers.Some?
  {
    match ScanLines(ext, s.headers.value, body)
    case Err(e) => Err(e)
    case Ok(rs) => Ok(s.(records := s.records + rs))
  }

  /** `processLineBatch(lines)`: the first batch gives up its first line as the header row. */
  function StepBatch(ext: Externals<WwffRecord>, s: Scan, lines: seq<string>): Result<Scan, FetchError> {
    if s.headers.Some? then StepLines(ext, s, lines)
    else if lines == [] then Err(HeaderLineMissing)
    else StepLines(ext, Scan(Some(HeaderRow(lines[0])), s.records), lines[1..])
  }

  /** All batches in order. */
  function ScanFeed(ext: Externals<WwffRecord>, batches: seq<seq<string>>): Result<Scan, FetchError> {
    if batches == [] then Ok(Scan(None, []))
    else
      match ScanFeed(ext, batches[..|batches| - 1])
      case Err(e) => Err(e)
      case Ok(s) => StepBatch(ext, s, batches[|batches| - 1])
  }

  /** The whole feed read as one file: the header line, then every other line against its names. */
  function OneFile(ext: Externals<WwffRecord>, batches: seq<seq<string>>): Result<Scan, FetchError>
    requires |batches| > 0 && batches[0] != []
  {
    var hs := HeaderRow(batches[0][0]);
    match ScanLines(ext, hs, batches[0][1..] + Flatten(batches[1..]))
    case Err(e) => Err(e)
    case Ok(rs) => Ok(Scan(Some(hs), rs))
  }

  /** The values the upsert of one record binds. */
  function EntryOf(ext: Externals<WwffRecord>, rec: WwffRecord): Entry {
    Entry(rec.ref, IntToString(rec.dxccCode), rec.name, ext.stringify(rec), rec.lat, rec.lon, 1)
  }

  /** The upsert binds key `ref`, sub-category the DXCC code as text, and `flags = 1`. */
  lemma EntryColumns(ext: Externals<WwffRecord>, rec: WwffRecord)
    ensures var e := EntryOf(ext, rec);
            e.key == rec.ref && e.flags == 1 && e.subCategory == IntToString(rec.dxccCode)
  {
  }

  /** The upserts of a run, one per accepted record, in order. */
  function Entries(ext: Externals<WwffRecord>, rs: seq<WwffRecord>): (es: seq<Entry>)
    ensures |es| == |rs|
  {
    seq(|rs|, i requires 0 <= i < |rs| => EntryOf(ext, rs[i]))
  }

  /** The `i`-th upsert of a run is the one of its `i`-th record. */
  lemma EntriesAt(ext: Externals<WwffRecord>, rs: seq<WwffRecord>, i: nat)
    requires i < |rs|
    ensures Entries(ext, rs)[i] == EntryOf(ext, rs[i])
  {
  }

  function Sightings(rs: seq<WwffRecord>): (ss: seq<Sighting>)
    ensures |ss| == |rs|
  {
    seq(|rs|, i requires 0 <= i < |rs| => Sighting(rs[i].dxccCode, rs[i].ref))
  }

  /** The prefix index a run over the records builds. */
  function Prefixes(rs: seq<WwffRecord>): Index {
    RecordAll(map[], Sightings(rs))
  }

  lemma PrefixesSnoc(rs: seq<WwffRecord>, rec: WwffRecord)
    ensures Prefixes(rs + [rec]) == Record(Prefixes(rs), rec.dxccCode, rec.ref)
  {
    var ss := Sightings(rs + [rec]);
    assert ss[..|ss| - 1] == Sightings(rs);
  }

  /** Reading one more line. */
  lemma ScanLinesStep(ext: Externals<WwffRecord>, headers: seq<string>, lines: seq<string>, i: nat)
    requires i < |lines| && ScanLines(ext, headers, lines[..i]).Ok?
    ensures ScanLines(ext, headers, lines[..i + 1])
         == match MapLine(ext, headers, lines[i])
            case Err(e) => Err(e)
            case Ok(None) => ScanLines(ext, headers, lines[..i])
            case Ok(Some(rec)) => Ok(ScanLines(ext, headers, lines[..i]).value + [rec])
  {
    assert lines[..i + 1][..i] == lines[..i];
    assert lines[..i + 1][i] == lines[i];
  }

  /** Once an error occurs, later lines do not matter. */
  lemma {:induction false} ScanLinesErrPersists(ext: Externals<WwffRecord>, headers: seq<string>, lines: seq<string>, k: nat)
    requires k <= |lines| && ScanLines(ext, headers, lines[..k]).Err?
    ensures ScanLines(ext, headers, lines) == ScanLines(ext, headers, lines[..k])
    decreases |lines|
  {
    if k < |lines| {
      var n := |lines| - 1;
      assert lines[..n][..k] == lines[..k];
      ScanLinesErrPersists(ext, headers, lines[..n], k);
    } else {
      assert lines[..k] == lines;
    }
  }

  /** Once an error occurs, later batches do not matter. */
  lemma {:induction false} ScanFeedErrPersists(ext: Externals<WwffRecord>, batches: seq<seq<string>>, k: nat)
    requires k <= |batches| && ScanFeed(ext, batches[..k]).Err?
    ensures ScanFeed(ext, batches) == ScanFeed(ext, batches[..k])
    decreases |batches|
  {
    if k < |batches| {
      var n := |batches| - 1;
      assert batches[..n][..k] == batches[..k];
      ScanFeedErrPersists(ext, batches[..n], k);
    } else {
      assert batches[..k] == batches;
    }
  }

  /** Two runs of lines joined: the records of both, or the first error. */
  lemma {:induction false} ScanLinesAppend(ext: Externals<WwffRecord>, headers: seq<string>, a: seq<string>, b: seq<string>)
    ensures ScanLines(ext, headers, a + b)
         == match ScanLines(ext, headers, a)
            case Err(e) => Err(e)
            case Ok(x) => match ScanLines(ext, headers, b) case Err(e) => Err(e) case Ok(y) => Ok(x + y)
  {
    if b == [] {
      assert a + b == a;
      match ScanLines(ext, headers, a)
      case Err(e) =>
      case Ok(x) => assert x + [] == x;
    } else {
      var n := |b| - 1;
      ScanLinesAppend(ext, headers, a, b[..n]);
      assert (a + b)[..|a + b| - 1] == a + b[..n];
      assert (a + b)[|a + b| - 1] == b[n];
      match ScanLines(ext, headers, a)
      case Err(e) =>
      case Ok(x) =>
        match ScanLines(ext, headers, b[..n])
        case Err(e) =>
        case Ok(y) =>
          match MapLine(ext, headers, b[n])
          case Err(e) =>
          case Ok(None) =>
          case Ok(Some(rec)) => assert (x + y) + [rec] == x + (y + [rec]);
    }
  }

  /**
   * The batch boundaries are invisible: the header row is the first line of the first batch, and
   * every later line, in whichever batch, is read against the same header names.
   */
  lemma {:induction false} FeedAsOneFile(ext: Externals<WwffRecord>, batches: seq<seq<string>>)
    requires |batches| > 0 && batches[0] != []
    ensures ScanFeed(ext, batches) == OneFile(ext, batches)
  {
    if |batches| == 1 {
      OneBatchFile(ext, batches);
    } else {
      var n := |batches| - 1;
      var prefix := batches[..n];
      assert prefix[0] == batches[0];
      FeedAsOneFile(ext, prefix);
      OneFileSnoc(ext, prefix, batches[n]);
      assert prefix + [batches[n]] == batches;
    }
  }

  lemma OneBatchFile(ext: Externals<WwffRecord>, batches: seq<seq<string>>)
    requires |batches| == 1 && batches[0] != []
    ensures ScanFeed(ext, batches) == OneFile(ext, batches)
  {
    var hs := HeaderRow(batches[0][0]);
    assert batches[..0] == [] && batches[1..] == [];
    assert batches[0][1..] + Flatten(batches[1..]) == batches[0][1..];
    match ScanLines(ext, hs, batches[0][1..])
    case Err(e) =>
    case Ok(rs) => assert [] + rs == rs;
  }

  /** One more batch read as more lines of the same file. */
  lemma OneFileSnoc(ext: Externals<WwffRecord>, prefix: seq<seq<string>>, b: seq<string>)
    requires |prefix| > 0 && prefix[0] != []
    ensures var bs := prefix + [b];
            OneFile(ext, bs) == match OneFile(ext, prefix) case Err(e) => Err(e) case Ok(s) => StepBatch(ext, s, b)
  {
    var bs := prefix + [b];
    var hs := HeaderRow(prefix[0][0]);
    assert bs[0] == prefix[0];
    assert bs[1..] == prefix[1..] + [b];
    FlattenSnoc(prefix[1..], b);
    var earlier := prefix[0][1..] + Flatten(prefix[1..]);
    assert bs[0][1..] + Flatten(bs[1..]) == earlier + b;
    ScanLinesAppend(ext, hs, earlier, b);
    match ScanLines(ext, hs, earlier)
    case Err(e) =>
    case Ok(x) =>
  }

  /** A first batch without a line makes the whole feed fail. */
  lemma EmptyFirstBatchFails(ext: Externals<WwffRecord>, batches: seq<seq<string>>)
    requires |batches| > 0 && batches[0] == []
    ensures ScanFeed(ext, batches) == Err(HeaderLineMissing)
  {
    assert batches[..1][..0] == [];
    ScanFeedErrPersists(ext, batches, 1);
  }

  /** Some lines are active rows. */
  function ActiveCount(headers: seq<string>, lines: seq<string>): nat {
    if lines == [] then 0
    else
      var n := |lines| - 1;
      ActiveCount(headers, lines[..n])
        + (if Get(WwffCsv.ParseRowWithHeaders(lines[n], headers), "status") == Some("active") then 1 else 0)
  }

  /** Exactly the active rows become records: inactive rows produce none. */
  lemma {:induction false} ScanLinesCountsActive(ext: Externals<WwffRecord>, headers: seq<string>, lines: seq<string>)
    requires ScanLines(ext, headers, lines).Ok?
    ensures |ScanLines(ext, headers, lines).value| == ActiveCount(headers, lines)
  {
    if lines != [] {
      ScanLinesCountsActive(ext, headers, lines[..|lines| - 1]);
    }
  }

  /** A run's records give the table rows of exactly their references. */
  lemma EntriesKeys(ext: Externals<WwffRecord>, rs: seq<WwffRecord>)
    ensures KeysOf(Entries(ext, rs)) == set i | 0 <= i < |rs| :: rs[i].ref
  {
    var es := Entries(ext, rs);
    assert forall i :: 0 <= i < |rs| ==> es[i].key == rs[i].ref;
  }

  /**
   * After a successful fetch the category holds exactly the references of the accepted rows, each
   * active (`flags = 1`) and fresh, and all other categories are as they were.
   */
  lemma FetchedTable(ext: Externals<WwffRecord>, t: Table, rs: seq<WwffRecord>)
    ensures var s := Synced(t, Category, Entries(ext, rs));
            && (set k | k in s && k.category == Category :: k.key) == (set i | 0 <= i < |rs| :: rs[i].ref)
            && (forall k :: k in s && k.category == Category ==> s[k].flags == 1 && s[k].updated)
            && WithoutCategory(s, Category) == WithoutCategory(t, Category)
  {
    var es := Entries(ext, rs);
    var s := Synced(t, Category, es);
    SyncedCategoryKeys(t, Category, es);
    EntriesKeys(ext, rs);
    SyncedOthersUnchanged(t, Category, es);
    forall k | k in s && k.category == Category
      ensures s[k].flags == 1 && s[k].updated
    {
      SyncedAt(t, Category, es, k);
    }
  }

  /** The state of one `fetch` run: the local variables of the source, changed as batches arrive and rows are stored. */
  class WwffFetch {
    const ext: Externals<WwffRecord>
    const dbWorkRatio: nat
    const expectedSteps: nat
    var headers: Option<seq<string>>
    var dataRows: seq<WwffRecord>
    var completedSteps: nat
    var totalReferences: nat
    var prefixByDXCCCode: Index
    /** The progress messages sent so far. */
    var reports: seq<Report>
    /** Every record accepted so far, including those already stored. */
    ghost var accepted: seq<WwffRecord>

    /** The counters, the queue and the index agree with the accepted records. */
    ghost predicate Valid()
      reads this
    {
      && (dbWorkRatio == 3 || dbWorkRatio == 7)
      && expectedSteps == ExpectedSteps(ExpectedReferences, dbWorkRatio)
      && totalReferences <= |accepted|
      && completedSteps == |accepted| * FetchWorkRatio + totalReferences * dbWorkRatio
      && Reported(reports, completedSteps, expectedSteps, dbWorkRatio)
    }

    /** The prefix index agrees with the accepted records. */
    ghost predicate Indexed()
      reads this
    {
      prefixByDXCCCode == Prefixes(accepted)
    }

    /** `dataRows` holds the accepted records not yet stored, in order. */
    ghost predicate Queued()
      reads this
    {
      totalReferences <= |accepted| && dataRows == accepted[totalReferences..]
    }

    constructor(ext: Externals<WwffRecord>, android: bool)
      ensures this.ext == ext && dbWorkRatio == DbWorkRatio(android)
      ensures headers == None && accepted == [] && dataRows == [] && totalReferences == 0 && reports == []
      ensures Valid() && Indexed() && Queued()
    {
      this.ext := ext;
      dbWorkRatio := DbWorkRatio(android);
      expectedSteps := ExpectedSteps(ExpectedReferences, DbWorkRatio(android));
      headers := None;
      dataRows := [];
      completedSteps := 0;
      totalReferences := 0;
      prefixByDXCCCode := map[];
      reports := [];
      accepted := [];
    }

    /** Accepting one record: queue it, index it, count its fetch step. */
    method Accept(rec: WwffRecord)
      requires Valid() && Indexed() && Queued() && totalReferences == 0
      modifies this`prefixByDXCCCode, this`dataRows, this`accepted, this`completedSteps
      ensures Valid() && Indexed() && Queued()
      ensures accepted == old(accepted) + [rec]
    {
      PrefixesSnoc(accepted, rec);
      prefixByDXCCCode := Record(prefixByDXCCCode, rec.dxccCode, rec.ref);
      dataRows := dataRows + [rec];
      accepted := accepted + [rec];
      ReportedAdvance(reports, completedSteps, completedSteps + FetchWorkRatio, expectedSteps, dbWorkRatio);
      completedSteps := completedSteps + FetchWorkRatio;
    }

    /** One turn of the loop: parse the line against the header names and accept the record it gives, if any. */
    method ReadLine(line: string) returns (r: Result<(), FetchError>)
      requires Valid() && Indexed() && Queued() && totalReferences == 0 && headers.Some?
      modifies this`prefixByDXCCCode, this`dataRows, this`accepted, this`completedSteps
      ensures var m := MapLine(ext, headers.value, line);
              && (r.Err? <==> m.Err?)
              && (m.Err? ==> r.error == m.error)
              && (m.Ok? ==> Valid() && Indexed() && Queued())
              && (m.Ok? && m.value.None? ==> accepted == old(accepted))
              && (m.Ok? && m.value.Some? ==> accepted == old(accepted) + [m.value.value])
    {
      var m := MapLine(ext, headers.value, line);
      if m.Err? {
        return Err(m.error);
      }
      if m.value.Some? {
        Accept(m.value.value);
      }
      return Ok(());
    }

    /** The `for (const line of lines)` loop with known header names. */
    method ReadLines(body: seq<string>) returns (r: Result<(), FetchError>)
      requires Valid() && Indexed() && Queued() && totalReferences == 0 && headers.Some?
      modifies this`prefixByDXCCCode, this`dataRows, this`accepted, this`completedSteps
      ensures var s := StepLines(ext, Scan(headers, old(accepted)), body);
              && (r.Ok? <==> s.Ok?)
              && (r.Err? ==> r.error == s.error)
              && (r.Ok? ==> Scan(headers, accepted) == s.value && Valid() && Indexed() && Queued())
    {
      var hs := headers.value;
      ghost var before := accepted;
      assert body[..0] == [];
      for i := 0 to |body|
        invariant Valid() && Indexed() && Queued()
        invariant ScanLines(ext, hs, body[..i]).Ok?
        invariant accepted == before + ScanLines(ext, hs, body[..i]).value
      {
        ScanLinesStep(ext, hs, body, i);
        var res := ReadLine(body[i]);
        var m := MapLine(ext, hs, body[i]);
        if res.Err? {
          ScanLinesErrPersists(ext, hs, body, i + 1);
          return Err(res.error);
        }
        if m.value.Some? {
          SnocAppend(before, ScanLines(ext, hs, body[..i]).value, m.value.value);
        }
      }
      assert body[..|body|] == body;
      return Ok(());
    }

    /** `processLineBatch(lines)`: the header row on the first call, then the lines, then a progress message. */
    method ProcessLineBatch(lines: seq<string>) returns (r: Result<(), FetchError>)
      requires Valid() && Indexed() && Queued() && totalReferences == 0
      modifies this`headers, this`reports, this`prefixByDXCCCode, this`dataRows, this`accepted, this`completedSteps
      ensures var s := StepBatch(ext, Scan(old(headers), old(accepted)), lines);
              && (r.Ok? <==> s.Ok?)
              && (r.Err? ==> r.error == s.error)
              && (r.Ok? ==> Scan(headers, accepted) == s.value && Valid() && Indexed() && Queued() && totalReferences == 0)
      ensures r.Ok? ==> reports == old(reports) + [ReportAt(completedSteps, expectedSteps, dbWorkRatio)]
      ensures r.Err? ==> reports == old(reports)
    {
      var body := lines;
      if headers.None? {
        if |lines| == 0 {
          return Err(HeaderLineMissing);
        }
        headers := Some(HeaderRow(lines[0]));
        body := lines[1..];
      }
      r := ReadLines(body);
      if r.Ok? {
        SendReport();
      }
    }

    /** The batches as they arrive: `processLineBatch` on each, until one fails. */
    method ReadBatches(batches: seq<seq<string>>) returns (r: Result<(), FetchError>)
      requires Valid() && Indexed() && Queued() && totalReferences == 0 && headers == None && accepted == []
      modifies this`headers, this`reports, this`prefixByDXCCCode, this`dataRows, this`accepted, this`completedSteps
      ensures var s := ScanFeed(ext, batches);
              && (r.Ok? <==> s.Ok?)
              && (r.Err? ==> r.error == s.error)
              && (r.Ok? ==> Scan(headers, accepted) == s.value && Valid() && Indexed() && Queued() && totalReferences == 0)
    {
      for i := 0 to |batches|
        invariant Valid() && Indexed() && Queued() && totalReferences == 0
        invariant ScanFeed(ext, batches[..i]) == Ok(Scan(headers, accepted))
      {
        assert batches[..i + 1][..i] == batches[..i];
        r := ProcessLineBatch(batches[i]);
        if r.Err? {
          ScanFeedErrPersists(ext, batches, i + 1);
          return;
        }
      }
      assert batches[..|batches|] == batches;
      r := Ok(());
    }

    /** Counting one stored record: `completedSteps += dbWorkRatio`, `totalReferences++`. */
    method CountStored()
      requires Valid() && totalReferences < |accepted|
      modifies this`completedSteps, this`totalReferences
      ensures Valid() && totalReferences == old(totalReferences) + 1 && completedSteps == old(completedSteps) + dbWorkRatio
    {
      ReportedAdvance(reports, completedSteps, completedSteps + dbWorkRatio, expectedSteps, dbWorkRatio);
      assert (totalReferences + 1) * dbWorkRatio == totalReferences * dbWorkRatio + dbWorkRatio;
      completedSteps := completedSteps + dbWorkRatio;
      totalReferences := totalReferences + 1;
    }

    /** One upsert of the drain: store the next queued record and count its step. */
    method StoreOne(store: LookupStore, rec: WwffRecord, ghost t0: Table)
      requires Valid() && totalReferences < |accepted| && accepted[totalReferences] == rec
      requires store.rows == UpsertedAll(t0, Category, Entries(ext, accepted)[..totalReferences])
      modifies this`completedSteps, this`totalReferences, store
      ensures Valid() && totalReferences == old(totalReferences) + 1 && completedSteps == old(completedSteps) + dbWorkRatio
      ensures store.rows == UpsertedAll(t0, Category, Entries(ext, accepted)[..totalReferences])
    {
      UpsertedAllSnoc(t0, Category, Entries(ext, accepted), totalReferences);
      store.Upsert(Category, EntryOf(ext, rec));
      CountStored();
    }

    /** One transaction of the drain: upsert each record of `batch`, in order. */
    method StoreBatch(store: LookupStore, batch: seq<WwffRecord>, ghost t0: Table)
      requires Valid() && totalReferences + |batch| <= |accepted|
      requires batch == accepted[totalReferences..totalReferences + |batch|]
      requires store.rows == UpsertedAll(t0, Category, Entries(ext, accepted)[..totalReferences])
      modifies this`completedSteps, this`totalReferences, store
      ensures Valid() && totalReferences == old(totalReferences) + |batch| && completedSteps == old(completedSteps) + |batch| * dbWorkRatio
      ensures store.rows == UpsertedAll(t0, Category, Entries(ext, accepted)[..totalReferences])
    {
      ghost var start := totalReferences;
      ghost var all := accepted;
      for j := 0 to |batch|
        invariant Valid() && totalReferences == start + j
        invariant store.rows == UpsertedAll(t0, Category, Entries(ext, accepted)[..totalReferences])
      {
        ChunkAt(all, start, |batch|, j);
        StoreOne(store, batch[j], t0);
      }
    }

    /** The progress message after a batch: the current loaded count and fraction. */
    method SendReport()
      requires Valid()
      modifies this`reports
      ensures Valid() && reports == old(reports) + [ReportAt(completedSteps, expectedSteps, dbWorkRatio)]
    {
      ReportedSend(reports, completedSteps, expectedSteps, dbWorkRatio);
      reports := reports + [ReportAt(completedSteps, expectedSteps, dbWorkRatio)];
    }

    /** One turn of the drain loop: `dataRows.splice(0, 223)`, store that batch, send a progress message. */
    method StoreNextBatch(store: LookupStore, ghost t0: Table)
      requires Valid() && Queued() && |dataRows| > 0
      requires store.rows == UpsertedAll(t0, Category, Entries(ext, accepted)[..totalReferences])
      modifies this`dataRows, this`completedSteps, this`totalReferences, this`reports, store
      ensures Valid() && Queued() && |dataRows| < old(|dataRows|)
      ensures totalReferences - old(totalReferences) == (if old(|dataRows|) < BatchSize then old(|dataRows|) else BatchSize)
      ensures store.rows == UpsertedAll(t0, Category, Entries(ext, accepted)[..totalReferences])
      ensures reports == old(reports) + [ReportAt(completedSteps, expectedSteps, dbWorkRatio)]
    {
      var n := if |dataRows| < BatchSize then |dataRows| else BatchSize;
      Splice(accepted, totalReferences, n);
      var batch := dataRows[..n];
      dataRows := dataRows[n..];
      StoreBatch(store, batch, t0);
      SendReport();
    }

    /** The drain loop: `while (dataRows.length > 0)`, 223 rows per transaction, a progress message after each. */
    method StoreQueued(store: LookupStore)
      requires Valid() && Queued() && totalReferences == 0
      modifies this`dataRows, this`completedSteps, this`totalReferences, this`reports, store
      ensures Valid() && Queued() && dataRows == [] && totalReferences == |accepted|
      ensures store.rows == UpsertedAll(old(store.rows), Category, Entries(ext, accepted))
    {
      while |dataRows| > 0
        invariant Valid() && Queued()
        invariant store.rows == UpsertedAll(old(store.rows), Category, Entries(ext, accepted)[..totalReferences])
        decreases |dataRows|
      {
        StoreNextBatch(store, old(store.rows));
      }
      assert Entries(ext, accepted)[..totalReferences] == Entries(ext, accepted);
    }
  }

  /**
   * `fetch`: mark the category stale, read every batch, store the accepted records, delete what is
   * still stale. An exception leaves the category marked stale and deletes nothing.
   */
  method Fetch(store: LookupStore, batches: seq<seq<string>>, etag: Option<string>, android: bool, ext: Externals<WwffRecord>)
    returns (r: Result<Summary, FetchError>)
    modifies store
    ensures r.Ok? <==> ScanFeed(ext, batches).Ok?
    ensures r.Err? ==> r.error == ScanFeed(ext, batches).error && store.rows == Stale(old(store.rows), Category)
    ensures r.Ok? ==>
      var rs := ScanFeed(ext, batches).value.records;
      && store.rows == Synced(old(store.rows), Category, Entries(ext, rs))
      && r.value == Summary(|rs|, Prefixes(rs), etag)
  {
    store.MarkStale(Category);
    var session := new WwffFetch(ext, android);
    var res := session.ReadBatches(batches);
    if res.Err? {
      return Err(res.error);
    }
    session.StoreQueued(store);
    store.DeleteStale(Category);
    return Ok(Summary(session.totalReferences, session.prefixByDXCCCode, etag));
  }

  /** `onRemove`: the whole category is deleted. */
  method OnRemove(store: LookupStore)
    modifies store
    ensures store.rows == WithoutCategory(old(store.rows), Category)
  {
    store.DeleteCategory(Category);
  }

  /** The stored summary `onLoad` receives; `references` is the truthiness of that field of the old format. */
  datatype StoredData = StoredData(references: bool, prefixByDXCCCode: Option<Index>, totalReferences: Option<int>)

  /** The summary of a run as it is stored. */
  function StoredOf(s: Summary): StoredData {
    StoredData(false, Some(s.prefixByDXCCCode), Some(s.totalReferences))
  }

  /** `(prefixByDXCCCode && prefixByDXCCCode[code]) || ''` */
  function PrefixLookup(index: Option<Index>, code: int): (r: string)
    ensures index.Some? && code in index.value ==> r == index.value[code]
    ensures index.None? || code !in index.value ==> r == ""
  {
    if index.Some? && code in index.value then index.value[code] else ""
  }

  /** After loading the summary of a run, each DXCC code gives the first non-empty prefix the run saw, or `""`. */
  lemma PrefixAfterLoad(rs: seq<WwffRecord>, code: int)
    ensures PrefixLookup(StoredOf(Summary(|rs|, Prefixes(rs), None)).prefixByDXCCCode, code) == FirstPrefix(Sightings(rs), code)
  {
    var ss := Sightings(rs);
    RecordAllKeys(map[], ss);
    if code in Codes(ss) {
      RecordAllFirstSeen(ss, code);
    } else {
      FirstPrefixAbsent(ss, code);
    }
  }

  /** The module-level `WWFFData` object. */
  class WwffData {
    var prefixByDXCCCode: Option<Index>
    var totalReferences: Option<int>

    /** `{ prefixByDXCCCode: {} }` */
    constructor()
      ensures prefixByDXCCCode == Some(map[]) && totalReferences == None
    {
      prefixByDXCCCode := Some(map[]);
      totalReferences := None;
    }

    /** `onLoad(data)`: old-format data is refused with `false`; otherwise its fields are copied, without defaults. */
    method OnLoad(data: StoredData) returns (r: Option<bool>)
      modifies this
      ensures data.references ==> r == Some(false) && prefixByDXCCCode == old(prefixByDXCCCode) && totalReferences == old(totalReferences)
      ensures !data.references ==> r == None && prefixByDXCCCode == data.prefixByDXCCCode && totalReferences == data.totalReferences
    {
      if data.references {
        return Some(false);
      }
      prefixByDXCCCode := data.prefixByDXCCCode;
      totalReferences := data.totalReferences;
      return None;
    }

    /** `wwffPrefixForDXCCCode(code)`. */
    function PrefixForDXCCCode(code: int): (r: string)
      reads this
      ensures prefixByDXCCCode.Some? && code in prefixByDXCCCode.value ==> r == prefixByDXCCCode.value[code]
      ensures prefixByDXCCCode.None? || code !in prefixByDXCCCode.value ==> r == ""
    {
      PrefixLookup(prefixByDXCCCode, code)
    }
  }

  /** `wwffFindOneByReference(ref)`. */
  function FindOneByReference(t: Table, ref: string): Option<string> {
    Lookups.FindOneByReference(t, Category, ref)
  }

  /** `wwffFindAllByName(dxccCode, name)`. */
  function FindAllByName(t: Table, dxccCode: int, name: string): set<RowKey> {
    Lookups.FindAllByName(t, Category, IntToString(dxccCode), name)
  }

  /** `wwffFindAllByLocation(dxccCode, lat, lon, delta)`. */
  function FindAllByLocation(t: Table, dxccCode: int, lat: real, lon: real, delta: real): (r: set<RowKey>)
    ensures forall k :: k in r <==>
      k in t && k.category == Category && t[k].subCategory == IntToString(dxccCode)
      && lat - delta <= t[k].lat <= lat + delta && lon - delta <= t[k].lon <= lon + delta && t[k].flags == 1
  {
    Lookups.FindAllByLocation(t, Category, IntToString(dxccCode), lat, lon, delta)
  }

  /** The default `delta = 1`. */
  function FindAllByLocationDefault(t: Table, dxccCode: int, lat: real, lon: real): set<RowKey> {
    FindAllByLocation(t, dxccCode, lat, lon, 1.0)
  }
}
