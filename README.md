# Reference data feeds and the RSGB Backpackers exchange, in Dafny

This project models three parts of a ham-radio logging app.

- **The WWFF directory feed.** It streams the WWFF CSV in batches of lines. The first line of the
  first batch gives the header names. Every later line becomes an object keyed by those names.
  Rows with `status` `active` become records: an upper-case reference, a DXCC code (0 when
  unparsable), the name, a grid and a position (0 when unparsable). The feed also builds an index
  from DXCC code to reference prefix. It queues the records and drains the queue in transactions
  of 223 upserts. The `lookups` table gets a stale/upsert/prune pass, and progress messages are
  sent along the way.
- **The POTA "all parks" feed.** It works the same way with a different CSV pattern. A row is kept
  when it has a reference and a non-zero DXCC code. The feed counts parks and active parks, and
  the upsert's `flags` column is the park's active flag.
- **The exchange logic of the RSGB 144MHz Backpackers contest extension.** It covers:
  - the three ADIF fields written for each QSO;
  - the Cabrillo export option the extension suggests;
  - the early return of its Cabrillo row builder;
  - the classification of the postcode prefix the operator enters.

How the source's entities become Dafny:

- **The two row parsers** (`WwffCsv`, `PotaCsv`) are the source's regular expressions run by
  `matchAll`. They are written as scanners over positions that try the alternatives in the
  regular-expression engine's order. The lemmas prove round trips and the edge cases:
  - an empty field between commas;
  - the empty match at the end of a WWFF line;
  - text outside quotes in a POTA line;
  - unclosed quotes.
- **Each `fetch`** is a class (`WwffFetch`, `PotaFetch`) whose fields are the function's local
  variables: `headers`, `dataRows`, the counters, `prefixByDXCCCode` and the messages sent.
  - Its methods are the loops of the source. Each is proved against a specification function of
    its input, such as `ScanFeed` and `UpsertedAll`.
  - `Fetch` ties the whole run to `Synced`, the table after one complete staleness pass.
  - The results about the table are lemmas in `Lookups`. The category ends holding exactly the
    feed's keys, with the last record for each key, all fresh. Other categories are untouched.
- **The `lookups` table** is a class over a map keyed by (category, key).
- **The cached summaries** are classes with `OnLoad` and the prefix lookup.
- **The prefix index** is modelled as the code writes it:
  `if (!prefixByDXCCCode[code]) prefixByDXCCCode[code] = ref.split('-')[0]`.
  - An entry that holds the empty string is falsy and is written again. `EmptyPrefixReplaced`
    shows this with a concrete run.
  - "Never overwritten" therefore holds for entries with a non-empty prefix (`Settled`).
  - After a run, the index maps each code to the first non-empty prefix seen for it (`FirstPrefix`).
- **Library functions.** `parseFloat`, `parseInt`, `locationToGrid6` and `JSON.stringify` are
  function-valued parameters (`Library.Externals`). Only the `|| 0` defaulting around them is
  modelled.
- **Reference lookup and the postcode list.** The RSGB extension's `findRef` (from `refTools`) and
  `POSTCODE_PREFIXES` (from `RSGBBackpackersLocations`) are not part of this model. The references
  found and the prefix list are parameters.

## Model

| member | source | states |
|---|---|---|
| WwffCsv.SeparatorAt | src/extensions/activities/wwff/WWFFDataFile.js:175-181 | `(?:,\|\s*$)` matches exactly at a comma (one character) or where only white space is left; at the end of the line it matches the empty string |
| WwffCsv.MatchAt | src/extensions/activities/wwff/WWFFDataFile.js:175-184 | a match never runs past the end of the line |
| WwffCsv.EndsWithEmptyMatch | src/extensions/activities/wwff/WWFFDataFile.js:175-184 | the parts of every line end with the empty string of the final empty match |
| WwffCsv.PartsStep | src/extensions/activities/wwff/WWFFDataFile.js:175-184 | before the end of the line, matchAll keeps the match found at the current position and resumes after it, or after one more character when the match is empty |
| WwffCsv.QuotedTailEscaped | src/extensions/activities/wwff/WWFFDataFile.js:175-177 | the quoted alternative reads an escaped text (quotes doubled) up to a closing quote that a separator follows |
| WwffCsv.QuotedFieldMatch | src/extensions/activities/wwff/WWFFDataFile.js:175-184 | a quoted field that ends a field matches as its inner text with every `""` turned into `"` |
| WwffCsv.BareFieldMatch | src/extensions/activities/wwff/WWFFDataFile.js:175-184 | a field without quotes or commas matches as the run up to the next comma or the end of the line |
| WwffCsv.FieldMatch | src/extensions/activities/wwff/WWFFDataFile.js:175-184 | any well-formed field, quoted or bare, matches as its text and consumes its separator |
| WwffCsv.LastField | src/extensions/activities/wwff/WWFFDataFile.js:175-184 | the last field of a line gives its text, followed by the end-of-line empty string unless the field is itself empty and bare |
| WwffCsv.FieldThenRest | src/extensions/activities/wwff/WWFFDataFile.js:175-184 | a field and a comma give the field's text and then the parts of the rest of the line |
| WwffCsv.RoundTripAt | src/extensions/activities/wwff/WWFFDataFile.js:175-184 | fields written from any position to the end of the line parse back to their texts plus the trailing empty match |
| WwffCsv.RoundTrip | src/extensions/activities/wwff/WWFFDataFile.js:175-184 | parsing fields joined by commas gives the texts back, then `""` unless the last field is an empty bare one |
| WwffCsv.EmptyFieldKept | src/extensions/activities/wwff/WWFFDataFile.js:175-184 | `a,,b` gives `[a, "", b, ""]`: the empty field between two commas keeps its slot |
| WwffCsv.HeaderRowNames | src/extensions/activities/wwff/WWFFDataFile.js:62 | a header line of non-empty names, filtered for empty ones, gives exactly those names: the end-of-line empty match is dropped |
| CsvObject.At | src/extensions/activities/wwff/WWFFDataFile.js:189 | `parts[index]` is defined exactly when the index is in range, and is then that part |
| CsvObject.ToObjectAt | src/extensions/activities/wwff/WWFFDataFile.js:186-191 | the column whose name occurs last at position i holds part i, or undefined when the row is shorter |
| CsvObject.ToObjectKeys | src/extensions/activities/wwff/WWFFDataFile.js:186-191 | the object's keys are exactly the header names, however many parts the row has, so extra parts are ignored |
| CsvObject.ToObjectDistinct | src/extensions/activities/pota/POTAAllParksData.js:185-193 | with distinct header names, column `headers[i]` reads `parts[i]` or undefined |
| CsvObject.HeaderNames | src/extensions/activities/wwff/WWFFDataFile.js:62 | `filter(x => x)` keeps every non-empty name and only names of the row, none of them empty |
| CsvObject.HeaderNamesDropTrailingEmpty | src/extensions/activities/wwff/WWFFDataFile.js:62 | a trailing empty name changes nothing |
| CsvObject.HeaderNamesKeepsNonEmpty | src/extensions/activities/pota/POTAAllParksData.js:64 | names that are all non-empty pass the filter unchanged |
| PotaCsv.CommaLength | src/extensions/activities/pota/POTAAllParksData.js:181 | `,{0,1}` consumes one character exactly when a comma follows |
| PotaCsv.CloseQuoteAt | src/extensions/activities/pota/POTAAllParksData.js:181 | the closing quote matches exactly at a quote and consumes at most one following comma |
| PotaCsv.MatchAt | src/extensions/activities/pota/POTAAllParksData.js:181-183 | a match starts at a quote, is at least two characters long and stays inside the line |
| PotaCsv.NoQuoteNoField | src/extensions/activities/pota/POTAAllParksData.js:181-183 | a line without quotes yields no field at all |
| PotaCsv.SkipUnquoted | src/extensions/activities/pota/POTAAllParksData.js:181-183 | text without quotes contributes no field: the scan goes on after it unchanged |
| PotaCsv.FieldMatch | src/extensions/activities/pota/POTAAllParksData.js:181-183 | a quoted field that no quote follows matches as its text, with `""` unescaped and one comma consumed |
| PotaCsv.PartsAfterMatch | src/extensions/activities/pota/POTAAllParksData.js:181-183 | a match contributes its field and the scan resumes right after it |
| PotaCsv.PartsNoMatch | src/extensions/activities/pota/POTAAllParksData.js:181-183 | a failed attempt moves the scan on by one character |
| PotaCsv.RoundTripAt | src/extensions/activities/pota/POTAAllParksData.js:181-183 | quoted fields read from any position to the end of the line parse back to their texts |
| PotaCsv.RoundTrip | src/extensions/activities/pota/POTAAllParksData.js:181-183 | writing texts as quoted fields joined by commas and parsing the line gives exactly the texts back |
| PotaCsv.TrailingCommaTolerated | src/extensions/activities/pota/POTAAllParksData.js:181-183 | a trailing comma after the last field changes nothing |
| PotaCsv.SecondCommaDropped | src/extensions/activities/pota/POTAAllParksData.js:181-183 | `"a",,"b"` gives `[a, b]`: the second comma is outside quotes and yields no empty field |
| PotaCsv.UnclosedDoubledQuote | src/extensions/activities/pota/POTAAllParksData.js:181-183 | in a field that is never closed, backtracking ends the field at the first quote of a final doubled pair |
| PotaCsv.LoneQuoteOpensNothing | src/extensions/activities/pota/POTAAllParksData.js:181-183 | when no quote follows a position, the scan from there yields no field: a lone quote opens nothing |
| Library.FloatOrZero | src/extensions/activities/wwff/WWFFDataFile.js:68-69 | `parseFloat(v) \|\| 0` is 0 for undefined or unparsable input, otherwise the parsed value |
| Library.IntOrZero | src/extensions/activities/wwff/WWFFDataFile.js:73 | `parseInt(v, 10) \|\| 0` is 0 for undefined or unparsable input, otherwise the parsed value |
| Text.AsciiUpper | src/extensions/activities/wwff/WWFFDataFile.js:72 | `toUpperCase` keeps the length, raises each small letter by 32, keeps every other character, and leaves no small letter |
| Text.AsciiUpperIdempotent | src/extensions/activities/wwff/WWFFDataFile.js:72 | upper-casing twice is upper-casing once |
| Text.AsciiLower | src/extensions/activities/wwff/WWFFDataFile.js:159 | lower-casing keeps the length, lowers each capital and leaves no capital |
| Text.ReplaceDoubledQuotes | src/extensions/activities/wwff/WWFFDataFile.js:184 | `replaceAll('""', '"')` never makes the text longer |
| Text.UnescapeEscape | src/extensions/activities/wwff/WWFFDataFile.js:184 | un-escaping doubled quotes inverts doubling them |
| Text.BeforeDash | src/extensions/activities/wwff/WWFFDataFile.js:80 | `split('-')[0]` is the longest prefix without a dash, and a dash follows it when it is shorter than the text |
| Text.LowerTrailingPair | src/extensions/activities/wwff/WWFFDataFile.js:70 | `replace(/[A-Z]{2}$/, lower)` changes the text exactly when it ends in two capitals, lowers just those two, and keeps the rest |
| Text.LowerTrailingPairIdempotent | src/extensions/activities/wwff/WWFFDataFile.js:70 | lowering the trailing pair twice is lowering it once |
| Text.LowerTrailingPairUpper | src/extensions/activities/wwff/WWFFDataFile.js:70 | the lowered grid differs from the locator only in case |
| Text.NatToStringDigits | src/extensions/activities/wwff/WWFFDataFile.js:110 | the decimal text of a DXCC code is all digits with no leading zero |
| Text.IntToString | src/extensions/activities/wwff/WWFFDataFile.js:110 | `${code}` is non-empty and starts with `-` exactly for negative codes |
| Text.NatToStringValue | src/extensions/activities/wwff/WWFFDataFile.js:110 | reading the decimal text of a natural number back as digits gives the number |
| Text.IntToStringInjective | src/extensions/activities/wwff/WWFFDataFile.js:110 | different DXCC codes give different `${code}` texts, so a `subCategory` names exactly one code |
| PrefixIndex.Record | src/extensions/activities/wwff/WWFFDataFile.js:80 | one record adds its code; a settled entry is left as it is; otherwise the entry becomes the text before the first dash; other codes are untouched |
| PrefixIndex.RecordAllKeys | src/extensions/activities/wwff/WWFFDataFile.js:80 | after a run, the index has an entry for exactly the codes it started with and the codes recorded |
| PrefixIndex.NeverOverwritten | src/extensions/activities/wwff/WWFFDataFile.js:80 | an entry with a non-empty prefix is never overwritten by later records |
| PrefixIndex.NeverOverwrittenInRun | src/extensions/activities/pota/POTAAllParksData.js:84 | within one run, an entry settled by the first records keeps its value to the end |
| PrefixIndex.RecordAllAppend | src/extensions/activities/wwff/WWFFDataFile.js:80 | recording two runs one after the other is recording them joined |
| PrefixIndex.RecordAllFirstSeen | src/extensions/activities/pota/POTAAllParksData.js:84 | a run from the empty index maps each recorded code to the first non-empty prefix seen for it, or `""` when there is none |
| PrefixIndex.FirstPrefixAbsent | src/extensions/activities/wwff/WWFFDataFile.js:80 | a code that was never recorded has no prefix |
| PrefixIndex.EmptyPrefixReplaced | src/extensions/activities/wwff/WWFFDataFile.js:80 | an empty prefix (reference `-1`) does not settle its code: a later `DLFF-0001` takes the entry |
| Progress.DbWorkRatio | src/extensions/activities/wwff/WWFFDataFile.js:46 | the database work ratio is 7 on Android and 3 elsewhere |
| Progress.ExpectedSteps | src/extensions/activities/wwff/WWFFDataFile.js:41-47 | the expected step count is positive whenever the guessed number of references is |
| Progress.Fraction | src/extensions/activities/wwff/WWFFDataFile.js:90 | `min(completed / expected, 1)` lies in [0, 1], is 1 exactly when the work is done, and below 1 is the exact ratio |
| Progress.LoadedReferences | src/extensions/activities/wwff/WWFFDataFile.js:90 | `Math.round(completed / (fetch + db ratio))` is the nearest whole number, halves rounding up |
| Progress.FractionMonotone | src/extensions/activities/wwff/WWFFDataFile.js:90 | more completed steps never report a smaller fraction |
| Progress.LoadedReferencesMonotone | src/extensions/activities/wwff/WWFFDataFile.js:121 | more completed steps never report fewer loaded references |
| Progress.LoadedAfterRun | src/extensions/activities/wwff/WWFFDataFile.js:113-121 | once every accepted row is read and stored, the loaded count is exactly the number of rows |
| Progress.FractionAfterRun | src/extensions/activities/wwff/WWFFDataFile.js:47-121 | once every row is read and stored, the fraction is `min(rows / expectedReferences, 1)`: the work ratios cancel |
| Progress.InOrderAt | src/extensions/activities/wwff/WWFFDataFile.js:86-122 | in an ordered list of messages, each one shows no more than every later one |
| Progress.ReportedBounds | src/extensions/activities/wwff/WWFFDataFile.js:86-122 | every message sent shows a fraction within [0, 1], and none shows more than a later one or than the current state |
| Progress.ReportedAdvance | src/extensions/activities/wwff/WWFFDataFile.js:83-113 | completing more steps keeps the messages sent so far in order |
| Progress.ReportedSend | src/extensions/activities/wwff/WWFFDataFile.js:117-122 | sending the current message keeps the messages in order |
| Batches.Splice | src/extensions/activities/wwff/WWFFDataFile.js:96 | `splice(0, n)` on the queue takes its first n rows and leaves the rest |
| Batches.FlattenSnoc | src/extensions/activities/wwff/WWFFDataFile.js:60-65 | the lines of one more batch follow the lines of the batches before it |
| Lookups.Stale | src/extensions/activities/wwff/WWFFDataFile.js:35 | marking a category stale keeps every row key: nothing is added or deleted |
| Lookups.Upserted | src/extensions/activities/wwff/WWFFDataFile.js:102-110 | an upsert's keys are the old keys plus its (category, key): it inserts or updates that row and no other key appears |
| Lookups.Pruned | src/extensions/activities/wwff/WWFFDataFile.js:130 | deleting the stale rows of a category deletes and never adds |
| Lookups.WithoutCategory | src/extensions/activities/wwff/WWFFDataFile.js:144 | deleting a category deletes and never adds |
| Lookups.Latest | src/extensions/activities/wwff/WWFFDataFile.js:100-111 | the entry an upsert leaves for a key is the feed's last entry with that key: no later entry has it |
| Lookups.UpsertedAllAt | src/extensions/activities/wwff/WWFFDataFile.js:100-111 | after the upserts a row exists iff it existed or the feed has its key; it holds the feed's last entry for the key; any other row is untouched |
| Lookups.SyncedAt | src/extensions/activities/wwff/WWFFDataFile.js:35-130 | after a complete pass, other categories are exactly as before and the category has a row exactly for each feed key, holding the key's last entry |
| Lookups.SyncedCategoryKeys | src/extensions/activities/wwff/WWFFDataFile.js:35-130 | after a pass the category holds exactly the keys the feed supplied, with no duplicate |
| Lookups.SyncedOthersUnchanged | src/extensions/activities/pota/POTAAllParksData.js:36-133 | a pass leaves every other category untouched |
| Lookups.SyncedAllFresh | src/extensions/activities/wwff/WWFFDataFile.js:109-130 | every row left in the category after a pass is marked `updated = 1` |
| Lookups.SyncedIdempotent | src/extensions/activities/wwff/WWFFDataFile.js:35-130 | running the same pass twice leaves the table one pass leaves |
| Lookups.SyncedEmptyFeed | src/extensions/activities/wwff/WWFFDataFile.js:35-130 | a feed with no accepted record empties the category and nothing else |
| Lookups.InterruptedPassKeepsRows | src/extensions/activities/wwff/WWFFDataFile.js:35-127 | a pass stopped before its delete step has removed no row |
| Lookups.FindAllByLocationAfterSync | src/extensions/activities/wwff/WWFFDataFile.js:166-173 | after a pass, the by-location query finds a feed key exactly when its last entry has the sub-category, lies in the inclusive box and has `flags = 1` |
| Lookups.FindAllByLocationWidens | src/extensions/activities/wwff/WWFFDataFile.js:166-173 | a wider box finds at least as much, and a negative delta finds nothing |
| Lookups.FindAllByEmptyName | src/extensions/activities/wwff/WWFFDataFile.js:157-164 | `LIKE '%%'` matches every active row of the sub-category |
| Lookups.FindAllByNameFindsKey | src/extensions/activities/wwff/WWFFDataFile.js:157-164 | an active row whose key contains the search text, ignoring ASCII case, is found |
| Lookups.FindOneByReference | src/extensions/activities/wwff/WWFFDataFile.js:153-155 | a by-reference lookup gives the row's data exactly when the row exists and its data is non-empty, and `{}` otherwise |
| Lookups.FindOneAfterSync | src/extensions/activities/wwff/WWFFDataFile.js:153-155 | after a pass, looking up a feed key gives the payload of its last entry |
| Lookups.LookupStore.MarkStale | src/extensions/activities/wwff/WWFFDataFile.js:34-36 | the statement leaves the table `Stale` of the old one |
| Lookups.LookupStore.Upsert | src/extensions/activities/wwff/WWFFDataFile.js:102-111 | the statement leaves the table `Upserted` with the entry |
| Lookups.LookupStore.DeleteStale | src/extensions/activities/wwff/WWFFDataFile.js:129-131 | the statement leaves the table `Pruned` |
| Lookups.LookupStore.DeleteCategory | src/extensions/activities/wwff/WWFFDataFile.js:144 | the statement removes the category and leaves no row of it |
| WwffDataFile.Grid | src/extensions/activities/wwff/WWFFDataFile.js:70 | without a locator the grid is `locationToGrid6(lat, lon)`; otherwise it is the locator up to case, with no trailing pair of capitals left |
| WwffDataFile.MapRow | src/extensions/activities/wwff/WWFFDataFile.js:66-78 | a row gives a record exactly when its status is `active`; an active row without a reference throws; the record has the upper-cased reference, the DXCC code or 0, the name, the grid and the position or 0 |
| WwffDataFile.ScanLinesStep | src/extensions/activities/wwff/WWFFDataFile.js:65-85 | reading one more line adds its record, if it gives one, or stops at its error |
| WwffDataFile.ScanLinesErrPersists | src/extensions/activities/wwff/WWFFDataFile.js:65-85 | once a line throws, later lines do not matter |
| WwffDataFile.ScanLinesAppend | src/extensions/activities/wwff/WWFFDataFile.js:65-85 | the lines of two runs joined give the records of both, or the first error |
| WwffDataFile.ScanLinesCountsActive | src/extensions/activities/wwff/WWFFDataFile.js:67-84 | exactly the active rows become records; inactive rows give none |
| WwffDataFile.ScanFeedErrPersists | src/extensions/activities/wwff/WWFFDataFile.js:56-93 | once a batch throws, later batches do not matter |
| WwffDataFile.FeedAsOneFile | src/extensions/activities/wwff/WWFFDataFile.js:60-85 | the batch boundaries are invisible: the header row is the first line of the first batch, and every later line is read against those same names |
| WwffDataFile.OneBatchFile | src/extensions/activities/wwff/WWFFDataFile.js:60-85 | a feed of one batch reads as one file |
| WwffDataFile.OneFileSnoc | src/extensions/activities/wwff/WWFFDataFile.js:60-85 | one more batch reads as more lines of the same file |
| WwffDataFile.EmptyFirstBatchFails | src/extensions/activities/wwff/WWFFDataFile.js:61-62 | a first batch with no line makes the whole feed throw |
| WwffDataFile.PrefixesSnoc | src/extensions/activities/wwff/WWFFDataFile.js:80 | each accepted record is recorded in the prefix index in turn |
| WwffDataFile.EntryColumns | src/extensions/activities/wwff/WWFFDataFile.js:100-110 | the upsert of a record binds key `ref`, sub-category the DXCC code as text, and `flags = 1` |
| WwffDataFile.EntriesAt | src/extensions/activities/wwff/WWFFDataFile.js:100-110 | the i-th upsert of a run is the one of its i-th record |
| WwffDataFile.EntriesKeys | src/extensions/activities/wwff/WWFFDataFile.js:100-110 | the upserts of a run write the rows of exactly the records' references |
| WwffDataFile.FetchedTable | src/extensions/activities/wwff/WWFFDataFile.js:35-130 | after a successful fetch the category holds exactly the accepted references, each active and fresh, and other categories are as they were |
| WwffDataFile.WwffFetch.constructor | src/extensions/activities/wwff/WWFFDataFile.js:38-54 | a run starts with no headers, an empty queue and index, zero counters and no message |
| WwffDataFile.WwffFetch.Accept | src/extensions/activities/wwff/WWFFDataFile.js:80-83 | accepting a record queues it, records it in the index and adds `fetchWorkRatio` steps, keeping the invariants |
| WwffDataFile.WwffFetch.ReadLine | src/extensions/activities/wwff/WWFFDataFile.js:66-84 | one line throws exactly when `MapLine` does, accepts its record when it gives one, and accepts nothing otherwise |
| WwffDataFile.WwffFetch.ReadLines | src/extensions/activities/wwff/WWFFDataFile.js:65-85 | the loop over a batch accepts exactly the records `ScanLines` gives, or stops at the first error |
| WwffDataFile.WwffFetch.ProcessLineBatch | src/extensions/activities/wwff/WWFFDataFile.js:60-92 | a batch takes the header row only on the first call and reads its lines; when it succeeds it appends exactly one progress message, the report of the new step count, and when it throws it sends none |
| WwffDataFile.WwffFetch.ReadBatches | src/extensions/activities/wwff/WWFFDataFile.js:56-93 | reading every batch succeeds exactly when `ScanFeed` does, with its error or its headers and records |
| WwffDataFile.WwffFetch.CountStored | src/extensions/activities/wwff/WWFFDataFile.js:113-114 | a stored record adds `dbWorkRatio` steps and one to `totalReferences` |
| WwffDataFile.WwffFetch.StoreOne | src/extensions/activities/wwff/WWFFDataFile.js:100-115 | the next queued record is upserted and counted, so the table is the upserts of the records stored so far |
| WwffDataFile.WwffFetch.StoreBatch | src/extensions/activities/wwff/WWFFDataFile.js:99-116 | one transaction upserts each record of the batch once, in order, and adds `dbWorkRatio` steps for each |
| WwffDataFile.WwffFetch.SendReport | src/extensions/activities/wwff/WWFFDataFile.js:117-122 | the message sent shows the current loaded count and fraction |
| WwffDataFile.WwffFetch.StoreNextBatch | src/extensions/activities/wwff/WWFFDataFile.js:95-126 | one turn of the drain stores the front of the queue, so the queue shrinks and still holds exactly the records not yet stored, exactly min(queue length, 223) records are stored, the table is the upserts of those stored, and one progress message with the new step count is appended |
| WwffDataFile.WwffFetch.StoreQueued | src/extensions/activities/wwff/WWFFDataFile.js:95-127 | the drain empties the queue, upserts every accepted record exactly once in order, and ends with `totalReferences` equal to the number of records |
| WwffDataFile.Fetch | src/extensions/activities/wwff/WWFFDataFile.js:27-137 | fetch succeeds exactly when the feed scans; the table is then one complete staleness pass with the accepted records, and the summary is their count and prefix index with the etag; on an exception the category is only marked stale |
| WwffDataFile.OnRemove | src/extensions/activities/wwff/WWFFDataFile.js:143-145 | `onRemove` deletes the whole `wwff` category |
| WwffDataFile.PrefixLookup | src/extensions/activities/wwff/WWFFDataFile.js:149-151 | the lookup gives the mapped prefix, or `''` when there is no index or no entry |
| WwffDataFile.PrefixAfterLoad | src/extensions/activities/wwff/WWFFDataFile.js:136-151 | after loading a run's summary, each code gives the first non-empty prefix the run saw, or `''` |
| WwffDataFile.WwffData.constructor | src/extensions/activities/wwff/WWFFDataFile.js:16 | the cache starts with an empty prefix index |
| WwffDataFile.WwffData.OnLoad | src/extensions/activities/wwff/WWFFDataFile.js:138-142 | old-format data is refused with `false`; otherwise the prefix index and total are copied without defaults |
| WwffDataFile.WwffData.PrefixForDXCCCode | src/extensions/activities/wwff/WWFFDataFile.js:149-151 | `wwffPrefixForDXCCCode` gives the mapped prefix, or `''` when the code is absent |
| WwffDataFile.FindAllByLocation | src/extensions/activities/wwff/WWFFDataFile.js:166-173 | selects exactly the active `wwff` rows of the code's sub-category with lat and lon within delta, both bounds inclusive |
| PotaAllParks.MapRow | src/extensions/activities/pota/POTAAllParksData.js:68-80 | a row is kept exactly when its reference is non-empty and its DXCC code is non-zero (an unparsable `entityId` gives 0); the park has the reference, code, name, `active === '1'`, grid, position or 0, and location |
| PotaAllParks.ScanLinesKept | src/extensions/activities/pota/POTAAllParksData.js:67-89 | every park the lines give has a non-empty reference and a non-zero DXCC code |
| PotaAllParks.ScanLinesStep | src/extensions/activities/pota/POTAAllParksData.js:67-89 | reading one more line adds its park exactly when it is kept |
| PotaAllParks.ScanLinesAppend | src/extensions/activities/pota/POTAAllParksData.js:67-89 | the lines of two runs joined give the parks of both, in order |
| PotaAllParks.ScanFeedFails | src/extensions/activities/pota/POTAAllParksData.js:58-98 | the feed throws exactly when the first batch has no line; otherwise it has headers exactly when it had any batch |
| PotaAllParks.ScanFeedErrPersists | src/extensions/activities/pota/POTAAllParksData.js:58-98 | once a batch throws, later batches do not matter |
| PotaAllParks.FeedAsOneFile | src/extensions/activities/pota/POTAAllParksData.js:62-89 | the header row is consumed once from the first batch and reused for every later line of every batch |
| PotaAllParks.OneFileSnoc | src/extensions/activities/pota/POTAAllParksData.js:62-89 | one more batch reads as more lines of the same file |
| PotaAllParks.ActiveParks | src/extensions/activities/pota/POTAAllParksData.js:82 | the active parks are never more than the parks |
| PotaAllParks.ActiveParksAppend | src/extensions/activities/pota/POTAAllParksData.js:82 | the active parks of two runs joined are the sum of both |
| PotaAllParks.PrefixesSnoc | src/extensions/activities/pota/POTAAllParksData.js:84 | each kept park is recorded in the prefix index in turn |
| PotaAllParks.EntryColumns | src/extensions/activities/pota/POTAAllParksData.js:105-115 | the upsert binds key `ref`, sub-category the DXCC code as text, name, data, position, and `flags` 1 exactly for an active park |
| PotaAllParks.EntriesAt | src/extensions/activities/pota/POTAAllParksData.js:105-115 | the i-th upsert of a run is the one of its i-th park |
| PotaAllParks.EntriesKeys | src/extensions/activities/pota/POTAAllParksData.js:105-115 | the upserts of a run write the rows of exactly the parks' references |
| PotaAllParks.LatestPark | src/extensions/activities/pota/POTAAllParksData.js:105-118 | the park whose upsert stays for a reference is its last kept park |
| PotaAllParks.LatestParkEntry | src/extensions/activities/pota/POTAAllParksData.js:105-118 | the entry that stays for a reference is the entry of the last park with it |
| PotaAllParks.FetchedTable | src/extensions/activities/pota/POTAAllParksData.js:36-134 | after a successful fetch the category holds exactly the kept references, each fresh with its last park's data, with `flags = 1` iff that park is active; other categories are as they were |
| PotaAllParks.PotaFetch.constructor | src/extensions/activities/pota/POTAAllParksData.js:39-56 | a run starts with no headers, an empty queue and index, zero counters and no message |
| PotaAllParks.PotaFetch.Accept | src/extensions/activities/pota/POTAAllParksData.js:80-88 | keeping a park counts it, counts it as active when it is, records it in the index, queues it and adds `fetchWorkRatio` steps |
| PotaAllParks.PotaFetch.ReadLine | src/extensions/activities/pota/POTAAllParksData.js:68-88 | one line keeps its park exactly when `MapLine` gives one, and changes nothing otherwise |
| PotaAllParks.PotaFetch.ReadLines | src/extensions/activities/pota/POTAAllParksData.js:67-89 | the loop over a batch keeps exactly the parks `ScanLines` gives, keeping `totalActiveParks <= totalParks` |
| PotaAllParks.PotaFetch.SendReport | src/extensions/activities/pota/POTAAllParksData.js:91-96 | the message sent shows the current loaded count and fraction |
| PotaAllParks.PotaFetch.ProcessLineBatch | src/extensions/activities/pota/POTAAllParksData.js:62-97 | a batch takes the header row only on the first call, throws when that batch has no line, and reads its lines; when it succeeds it appends exactly one progress message, the report of the new step count, and when it throws it sends none |
| PotaAllParks.PotaFetch.ReadBatches | src/extensions/activities/pota/POTAAllParksData.js:58-98 | reading every batch succeeds exactly when `ScanFeed` does, with its headers and parks |
| PotaAllParks.PotaFetch.CountStored | src/extensions/activities/pota/POTAAllParksData.js:117 | a stored park adds `dbWorkRatio` steps |
| PotaAllParks.PotaFetch.StoreOne | src/extensions/activities/pota/POTAAllParksData.js:105-117 | the next queued park is upserted and counted, so the table is the upserts of the parks stored so far |
| PotaAllParks.PotaFetch.StoreBatch | src/extensions/activities/pota/POTAAllParksData.js:104-125 | one transaction upserts each park of the batch once, in order, and adds `dbWorkRatio` steps for each |
| PotaAllParks.PotaFetch.StoreNextBatch | src/extensions/activities/pota/POTAAllParksData.js:100-129 | one turn of the drain stores the front of the queue, so the queue shrinks and still holds exactly the parks not yet stored, exactly min(queue length, 223) parks are stored, the table is the upserts of those stored, and one progress message with the new step count is appended |
| PotaAllParks.PotaFetch.StoreQueued | src/extensions/activities/pota/POTAAllParksData.js:100-130 | the drain empties the queue and upserts every kept park exactly once, in order |
| PotaAllParks.Fetch | src/extensions/activities/pota/POTAAllParksData.js:27-141 | fetch succeeds exactly when the feed scans; the table is then one complete staleness pass with the kept parks, and the summary has their count, the active count (never larger) and the prefix index; on the exception the category is only marked stale |
| PotaAllParks.OnRemove | src/extensions/activities/pota/POTAAllParksData.js:149-151 | `onRemove` deletes the whole `pota` category |
| PotaAllParks.PotaAllParksData.constructor | src/extensions/activities/pota/POTAAllParksData.js:15 | the cache starts with an empty prefix index and no totals |
| PotaAllParks.PotaAllParksData.OnLoad | src/extensions/activities/pota/POTAAllParksData.js:142-148 | old-format data is refused with `false` and changes nothing; otherwise the fields are copied, with `{}` and 0 for missing ones |
| PotaAllParks.PotaAllParksData.PrefixForDXCCCode | src/extensions/activities/pota/POTAAllParksData.js:155-157 | `potaPrefixForDXCCCode` gives the mapped prefix, or `''` for an unknown code |
| PotaAllParks.PrefixAfterLoad | src/extensions/activities/pota/POTAAllParksData.js:140-157 | after loading a run's summary, each code gives the first non-empty prefix the run saw, or `''` |
| PotaAllParks.FindParkByReference | src/extensions/activities/pota/POTAAllParksData.js:159-161 | gives a park's data exactly when its `pota` row exists with non-empty data |
| PotaAllParks.FindParksByName | src/extensions/activities/pota/POTAAllParksData.js:163-170 | only active `pota` rows of the code's sub-category are found |
| PotaAllParks.FindParksByLocation | src/extensions/activities/pota/POTAAllParksData.js:172-179 | selects exactly the active `pota` rows of the sub-category within the inclusive box |
| RsgbBackpackers.TheirState | src/extensions/contests/rsgb-backpackers/RSGBBackpackersExtension.js:99 | `their.state ?? guess.state` is the typed state whenever it is defined (even empty), otherwise the guessed state, and is undefined exactly when both are undefined |
| RsgbBackpackers.AdifFieldsForOneQso | src/extensions/contests/rsgb-backpackers/RSGBBackpackersExtension.js:83-106 | the pushes build exactly the three-field ADIF record |
| RsgbBackpackers.AdifRecordReadBack | src/extensions/contests/rsgb-backpackers/RSGBBackpackersExtension.js:90-105 | the record has exactly three fields with distinct names: `CONTEST_ID` `RSGB-BACKPACKERS`, `STX_STRING` our location, and one `SRX_STRING`; any other name reads as absent |
| RsgbBackpackers.SrxNorthAmerica | src/extensions/contests/rsgb-backpackers/RSGBBackpackersExtension.js:97-99 | for a K or VE station and no location on the QSO's reference, SRX is their typed state when defined, otherwise the guessed state |
| RsgbBackpackers.SrxPrefersQsoLocation | src/extensions/contests/rsgb-backpackers/RSGBBackpackersExtension.js:95-96 | a truthy location on the QSO's reference is sent, whatever is known about the station |
| RsgbBackpackers.SrxSources | src/extensions/contests/rsgb-backpackers/RSGBBackpackersExtension.js:95-103 | `SRX_STRING` is always the QSO's location, the typed state, the guessed state, or `DX` |
| RsgbBackpackers.SrxUndefined | src/extensions/contests/rsgb-backpackers/RSGBBackpackersExtension.js:95-103 | `SRX_STRING` is undefined exactly for a K or VE station with no location and no typed or guessed state |
| RsgbBackpackers.SrxDx | src/extensions/contests/rsgb-backpackers/RSGBBackpackersExtension.js:98-102 | a station outside K and VE with no location gets `DX` |
| RsgbBackpackers.TheirStateKeepsEmpty | src/extensions/contests/rsgb-backpackers/RSGBBackpackersExtension.js:99 | `??` keeps an empty typed state; only an undefined one falls back to the guess |
| RsgbBackpackers.SuggestExportOptions | src/extensions/contests/rsgb-backpackers/RSGBBackpackersExtension.js:68-81 | one option, `cabrillo` with export type `rsgb-backpackers-cabrillo`, exactly when the reference's type is `rsgb-backpackers`; undefined otherwise |
| RsgbBackpackers.ExportTemplates | src/extensions/contests/rsgb-backpackers/RSGBBackpackersExtension.js:74-79 | both file-name templates hold `{call}` and the short name, and the title holds `{call}` and the full name |
| RsgbBackpackers.QsoToCabrilloParts | src/extensions/contests/rsgb-backpackers/RSGBBackpackersExtension.js:131-170 | an undefined reference throws on `ref.location`; every other call returns no rows, because neither in-state flag is ever set |
| RsgbBackpackers.Utf16LengthBounds | src/extensions/contests/rsgb-backpackers/RSGBBackpackersExtension.js:289 | `.length` counts between one and two units per character, and exactly one for text in the Basic Multilingual Plane |
| RsgbBackpackers.Utf16LengthTwo | src/extensions/contests/rsgb-backpackers/RSGBBackpackersExtension.js:289 | `length === 2` holds exactly for two BMP characters or one character beyond the BMP |
| RsgbBackpackers.ClassifyPostcode | src/extensions/contests/rsgb-backpackers/RSGBBackpackersExtension.js:284-294 | a postcode is valid exactly when it is one of the prefixes or `DX` |
| RsgbBackpackers.PostcodeAcceptedReadBack | src/extensions/contests/rsgb-backpackers/RSGBBackpackersExtension.js:285-286 | an accepted prefix is echoed after `Postcode prefix: `, so it can be read back from the description |
| RsgbBackpackers.PostcodeDx | src/extensions/contests/rsgb-backpackers/RSGBBackpackersExtension.js:287-288 | `DX` is valid with the outside-the-UK message |
| RsgbBackpackers.PostcodeRejected | src/extensions/contests/rsgb-backpackers/RSGBBackpackersExtension.js:289-293 | a rejected postcode's description ends with the generic prompt, and is preceded by `<postcode> not valid! ` exactly when the postcode is two units long |
| RsgbBackpackers.PostcodeAstralCharacter | src/extensions/contests/rsgb-backpackers/RSGBBackpackersExtension.js:289-290 | one emoji counts as two characters and gets the `not valid!` message rather than the generic prompt |

## Left out

- The download itself is not modelled: `fetchAndProcessBatchedLines`, the network, the chunk size and the etag handling. The feed arrives as a sequence of line batches, and the etag is a parameter of `Fetch`. A failed download is not modelled.
- Scheduling is not modelled: `setTimeout`, the promises, and the fact that the first `UPDATE` transaction is neither awaited nor ordered. Each batch and each transaction is one atomic step, in program order.
- The SQL engine is not modelled. The `lookups` table is a map keyed by (category, key), and queries return sets of keys, so row order is not modelled. `LIKE` is an ASCII case-insensitive substring test, and `%` or `_` inside the search text are not treated as wildcards.
- The queries return the stored `data` text; `JSON.parse` of it is not modelled.
- `JSON.stringify`, `parseFloat`, `parseInt` and `locationToGrid6` are opaque function parameters. Only the `|| 0` defaulting is proved about them.
- `toUpperCase` and `toLowerCase` are modelled for ASCII letters only.
- Strings are sequences of Unicode characters, not UTF-16 units. The postcode length check is the only place that counts UTF-16 units (`Utf16Length`).
- Numbers are exact: counters are unbounded naturals, and latitude, longitude and fractions are reals with no floating-point rounding.
- Progress messages are modelled by their loaded count and fraction. Also left out:
  - `fmtNumber`/`fmtPercent`;
  - the initial "Downloading raw data" message and `options.onStatus` being absent;
  - the ETA, which needs `Date.now()`. As written it divides by `completedSteps`, which is 0 before any row.
- `console.log` output is not modelled.
- `Platform.OS` is the boolean parameter `android`.
- The data-file registration metadata (key, name, icon, `maxAgeInDays`, version) is not modelled.
- `findRef` and `replaceRef` are not part of this model. The references they find are parameters.
- `POSTCODE_PREFIXES` is not part of this model. It is a parameter.
- `cabrilloHeaders` is left out. It throws a ReferenceError on the undefined `SLASH_OR_COMMA_REGEX` whenever the operation's reference has a location; without a location the optional chain stops before that name is read, and the function returns its fixed header lines.
- Also left out in the RSGB extension:
  - `mainExchangeForOperation`, which uses the undefined `rstFieldProps`;
  - the React rendering and `handleChange` of `ActivityOptions`;
  - `description`, `suggestOperationTitle` and `relevantInfoForQSOItem`.
- RsgbBackpackers.QsoToCabrilloParts: the row-building loops and the `padEnd` layout are not modelled, because the early return always happens. `qso`, `operation` and `settings` are not inputs, because the reached path does not use them.
- RsgbBackpackers.SuggestExportOptions: takes the truthiness of `settings.useCompactFileNames` as a boolean. A call with `settings` undefined, which would throw, is not modelled.
- RsgbBackpackers.AdifFieldsForOneQso: locations and states are modelled as strings or undefined. Other JavaScript values in those fields are not modelled.
- PotaAllParks.FindParksByName: states only that every row found is an active `pota` row of the code's sub-category. Which rows the `LIKE` pattern selects is stated for the shared query by `Lookups.FindAllByEmptyName` and `Lookups.FindAllByNameFindsKey`, and only as sufficient conditions, because `LIKE` is not modelled.
- PotaAllParks.EntryColumns: `flags` is bound to the JavaScript boolean `active`. The model stores it as 1 or 0, which assumes the SQLite driver converts booleans that way.
