# KIADB plot-data pipeline, modelled in Dafny

The pipeline collects records about allotted industrial plots of the
Karnataka Industrial Areas Development Board (KIADB). It has three scripts.

- `get_blrindus_data.py` walks the coordinates of an industrial area.
  - It groups points in fives into envelopes for map queries.
  - It collects the 14-character plot codes the map returns.
  - It builds one CSV row per allotted code, from two detail services.
  - It compares the plot numbers it found with the official status listing.
  - It then probes neighbouring and remaining codes until the missing plots are found.
- `update_supabase.py` validates phone numbers and e-mail addresses and cleans addresses.
  - It gives every CSV row a `validation_status`.
  - It merges the rows with a valid contact into one record per plot code.
- `get_coordinates.py` builds file names from district and area names, and escapes quotes in area names.

The model has these modules:

| module | what it models |
|---|---|
| `Common` | `Option`, ASCII character classes, the Python whitespace set |
| `PlotCode` | the code grammar: a 12-character base and a `%02d` suffix |
| `Batching` | `batch_coordinates` |
| `RecordFetch` | `field_mapping` and `process_plotcode`, with the invalid-code cache as a class |
| `CodeSpace` | the fallback probe generator |
| `AreaRun` | the state of one area run, as a class |
| `ContactClean` | the update script's validators, cleaners and status classifier |
| `PlotAccumulation` | `plot_data`, as a class and as a fold |
| `Filenames` | the file-name sanitiser and the quote escape |

Remote replies are parameters:

- the primary detail reply is `RecordFetch.PrimaryReply`;
- the IIS list is a sequence of records;
- the status listing is `AreaRun.StatusReply`;
- map features are optional codes.

JSON decoding is represented by its outcome, including a `Malformed` variant. Coordinates are integers. A CSV cell is an `Option<string>`, with `None` standing for pandas' NaN.

Lookups that run in parallel are modelled in one order, their order of completion, which is an input. `FetchBatch` proves that this order does not change any row.

## Model

| member | source | states |
|---|---|---|
| PlotCode.Compose | get_blrindus_data.py:364 | a base and a suffix below 100 compose to a code two characters longer than the base |
| PlotCode.Decompose | get_blrindus_data.py:308-310 | a code splits iff it has 14 characters and its last two are digits; the base then has 12 characters and the suffix is below 100 |
| PlotCode.ParseFormat | get_blrindus_data.py:310-313 | `int` of the `%02d` text of a suffix below 100 gives the suffix back |
| PlotCode.FormatParse | get_blrindus_data.py:310-313 | formatting the parsed value of two digits gives the same two digits |
| PlotCode.DecomposeCompose | get_blrindus_data.py:308-312 | a code that splits is its base followed by its suffix formatted with `%02d` |
| PlotCode.ComposeDecompose | get_blrindus_data.py:364-365 | a composed code with a 12-character base splits back into that base and suffix |
| PlotCode.NonDigitSuffixRejected | get_blrindus_data.py:308 | a 14-character code with a non-digit in position 12 or 13 is rejected |
| PlotCode.ComposeInjective | get_blrindus_data.py:364-367 | different (base, suffix) pairs give different codes |
| Batching.MinX | get_blrindus_data.py:286 | the result is at most every x of the group and equals one of them |
| Batching.MaxX | get_blrindus_data.py:287 | the result is at least every x of the group and equals one of them |
| Batching.MinY | get_blrindus_data.py:288 | the result is at most every y of the group and equals one of them |
| Batching.MaxY | get_blrindus_data.py:289 | the result is at least every y of the group and equals one of them |
| Batching.EnvelopeOf | get_blrindus_data.py:286-290 | every point of the group lies inside the envelope, at least 100 from each side |
| Batching.Chunk | get_blrindus_data.py:284-285 | group k has 1 to 5 points, is full unless it is the last one, and its point t is point 5k+t of the input |
| Batching.Groups | get_blrindus_data.py:284-285 | there are (n+4)/5 groups for n points |
| Batching.GroupsPartition | get_blrindus_data.py:284-285 | the groups, joined in order, are exactly the input: every point is in one group and no point is lost |
| Batching.Batches | get_blrindus_data.py:283-293 | there are exactly (n+4)/5 envelopes for n points, the total the progress bar announces |
| Batching.BatchCoversChunk | get_blrindus_data.py:284-290 | every point j with 5k ≤ j < 5k+5 satisfies xmin+100 ≤ x ≤ xmax−100, and likewise for y, in envelope k |
| Batching.BatchIsTight | get_blrindus_data.py:286-290 | each side of envelope k is exactly 100 away from some point of group k |
| RecordFetch.Classify | get_blrindus_data.py:134-160 | a code is judged as cached exactly when it is in the invalid-code cache |
| RecordFetch.ReplyVerdicts | get_blrindus_data.py:145-160 | a "Wrong Input", missing or empty `d` gives no row and caches the code; an undecodable `d` gives no row and does not cache; the SOAP path never caches; a returned row never comes with caching |
| RecordFetch.FirstPresent | get_blrindus_data.py:195-200 | no key of the list is present iff the result is None; otherwise the result is the value of the first present key |
| RecordFetch.PlotcodeNotAField | get_blrindus_data.py:21-58 | "Plotcode" is not a mapped column, so the mapping never overwrites it |
| RecordFetch.MergedRowShape | get_blrindus_data.py:138-141 | a row holds exactly "Plotcode" and every mapped column, and "Plotcode" is the input code |
| RecordFetch.PrimaryWins | get_blrindus_data.py:166-194 | a column whose primary key is present takes that value (even an empty one) unless the value is "N/A", whatever the IIS record says |
| RecordFetch.IisOnlyFillsUnknown | get_blrindus_data.py:190-204 | a column differs from the primary pass only if that pass left "N/A" and the IIS record supplies the first present listed key; conversely, when the pass left "N/A" and the IIS record has a listed key, the column holds the first such key's value |
| RecordFetch.UnsuppliedStaysUnknown | get_blrindus_data.py:140-204 | a column neither source supplies stays "N/A" |
| RecordFetch.AllottedRowStatus | get_blrindus_data.py:162-178 | a row built from allotted details reads "Allotted" in "Plot Status" |
| RecordFetch.FetchedRowShape | get_blrindus_data.py:133-206 | a returned row comes from an uncached code, carries the code and every mapped column, and reads "Allotted" |
| RecordFetch.CachedCodeMakesNoRequest | get_blrindus_data.py:134-136 | a cached code gives None whatever the replies would be, and is not cached again |
| RecordFetch.OutcomeDependsOnOwnMembership | get_blrindus_data.py:134-152 | the outcome and the caching depend on the cache only through the code's own membership |
| RecordFetch.InvalidCodeCache.ProcessPlotcode | get_blrindus_data.py:133-206 | the returned row is the specified outcome, and the cache gains exactly the code when the reply invalidates it |
| RecordFetch.InvalidCodeCache.FetchBatch | get_blrindus_data.py:318-327 | each code of a batch of distinct codes gets the outcome it would get against the cache before the batch; the cache only grows, only by invalidated codes of the batch, and every invalidated code of the batch is cached |
| RecordFetch.BuildRow | get_blrindus_data.py:138-206 | the row built field by field equals the merged row |
| RecordFetch.PrimaryPass | get_blrindus_data.py:166-179 | after the loop, every mapped column holds its primary value and "Plotcode" is unchanged |
| RecordFetch.IisPass | get_blrindus_data.py:190-204 | after the loop, every mapped column holds its final merged value |
| RecordFetch.LookupFirst | get_blrindus_data.py:195-200 | the loop with `break` returns the first present key's value |
| CodeSpace.ProbeRange | get_blrindus_data.py:362-373 | one `range(lo, hi)` pass appends every eligible suffix of the range not yet seen, and nothing else; the appended suffixes are strictly increasing |
| CodeSpace.ProbeBase | get_blrindus_data.py:360-373 | a base's probes are distinct, each is the base with an eligible suffix, every eligible suffix is probed, neighbourhood suffixes come before sweep suffixes, and a base with nothing processed yields exactly 100 probes |
| CodeSpace.GenerateProbes | get_blrindus_data.py:354-373 | the fallback list is repetition-free; each probe is an eligible code of a listed base; every eligible code of every base is present; per base, neighbourhood probes precede sweep probes |
| AreaRun.NewCodes | get_blrindus_data.py:300-306 | the codes a batch adds are non-empty, not processed before, taken from the features, and pairwise distinct |
| AreaRun.NewCodesCover | get_blrindus_data.py:301-306 | every non-empty feature code was processed before the batch or is added by it |
| AreaRun.AreaState.Offer | get_blrindus_data.py:301-306 | a feature with a present, non-empty, unprocessed code appends it to `plotcodes` and marks it processed; any other feature changes nothing |
| AreaRun.BaseOf | get_blrindus_data.py:308-311 | a code of 14 characters ending in two digits contributes its first 12 characters as its base; any other code contributes none |
| AreaRun.BasesOfMembers | get_blrindus_data.py:301-311 | a base is indexed iff some well-formed code of the list starts with it |
| AreaRun.LearnedSuffixes | get_blrindus_data.py:308-312 | a suffix is known for a base iff it was known before or some admitted code is that base with that suffix |
| AreaRun.PlotNumbers | get_blrindus_data.py:338 | an empty plot number is never expected |
| AreaRun.PlotNumbersBound | get_blrindus_data.py:338-339 | `total_plots` is at most the number of entries in the listing |
| AreaRun.SelectListing | get_blrindus_data.py:334-341 | the first accepted reply of the two spellings decides; no accepted reply leaves the set empty |
| AreaRun.ExtractedAreColumnValues | get_blrindus_data.py:346 | apart from "N/A", the extracted plot numbers are exactly the values of the rows' "Plot Number" column, the set the recovery loop extends |
| AreaRun.UnknownNeverExtracted | get_blrindus_data.py:346 | rows that carry the plot-number column never contribute "N/A" |
| AreaRun.Recovered | get_blrindus_data.py:381-391 | every kept row reports a missing plot number, and no two kept rows report the same one |
| AreaRun.RecoveredFromResults | get_blrindus_data.py:381-384 | every kept row is one of the completed lookups |
| AreaRun.NothingMissingNothingKept | get_blrindus_data.py:383-391 | when nothing is missing, no row is kept |
| AreaRun.BreakOnlySavesWork | get_blrindus_data.py:389-391 | the loop with the early exit keeps the same rows as the loop without it |
| AreaRun.RecoveredBound | get_blrindus_data.py:383-387 | the loop keeps at most as many rows as there are missing plot numbers |
| AreaRun.RecoveredMissing | get_blrindus_data.py:381-391 | after the loop, the plot numbers still missing are exactly those that were missing and that no result reports, although the loop may stop early |
| AreaRun.RecoveredComplete | get_blrindus_data.py:381-391 | every result reporting a plot number still missing has that plot number among the recovered rows |
| AreaRun.Present | get_blrindus_data.py:323-326 | the kept rows are exactly the rows of the completed lookups |
| AreaRun.AreaState.IngestFeatures | get_blrindus_data.py:300-315 | the returned codes are the batch's new codes; processed codes, bases and known suffixes grow by exactly what they contribute; the state invariant is kept |
| AreaRun.AreaState.Admit | get_blrindus_data.py:305-312 | one code is marked processed and, when well formed, adds its base and suffix |
| AreaRun.AreaState.AppendRows | get_blrindus_data.py:323-326 | the extracted rows grow by the rows the lookups returned, and nothing else changes |
| AreaRun.AreaState.Reconcile | get_blrindus_data.py:331-347 | the expected plot numbers come from the first accepted listing; extracted numbers are recomputed; missing = expected − extracted |
| AreaRun.AreaState.FallbackProbes | get_blrindus_data.py:351-373 | nothing is probed when nothing is missing; otherwise the default base is added when no base was seen, and the probes are repetition-free, each an unprocessed 14-character code of a known base, and cover every unprocessed code of every base |
| AreaRun.AreaState.Keep | get_blrindus_data.py:384-387 | one recovered row is appended, its code marked processed, its plot number recorded, and `missing` recomputed |
| AreaRun.AreaState.Recover | get_blrindus_data.py:376-391 | the rows kept are the specified recovered rows; `missing` loses exactly the plot numbers the results report; at most `missing` rows are added; the state invariant is kept |
| AreaRun.AreaState.RecoverLoop | get_blrindus_data.py:381-391 | the loop appends the recovered rows and records their codes and plot numbers, keeping missing = expected − extracted |
| ContactClean.PhoneShape | update_supabase.py:30-34 | neither "N/A" nor "" matches; a valid phone has 10, 11, 13 or 14 characters; one of 10 or 13 matches without a trailing newline |
| ContactClean.EmailSplitUnique | update_supabase.py:39 | a matching address splits in only one way: one "@" and the last ".", with a non-empty local part and domain |
| ContactClean.EmptyDomainRejected | update_supabase.py:36-40 | "a@.co", whose domain before the last dot is empty, is rejected, while "a@b.co" is accepted |
| ContactClean.EmailShape | update_supabase.py:36-40 | neither "N/A" nor "" matches; a valid address ends in a letter or in the newline `$` tolerates |
| ContactClean.SubRuns | update_supabase.py:46-47 | each run of class characters becomes one space: no class character remains except ' ', no two are adjacent, and the first and last characters outside the class are kept |
| ContactClean.SubRunsCharacter | update_supabase.py:46-47 | a class character becomes one space when it opens a run and nothing inside an open run; any other character is kept |
| ContactClean.SubRunsAppend | update_supabase.py:46-47 | the substitution on a + b is the substitution on a followed by that on b, started with the run state a leaves; with SubRunsCharacter this fixes the result for every text |
| ContactClean.SubRunsKeepsOthers | update_supabase.py:46-47 | deleting the class characters and spaces from the input and from the output gives the same text: every other character is kept, in order |
| ContactClean.StripStart | update_supabase.py:46 | the result is a suffix of the input that starts with a non-space character, and everything dropped is whitespace |
| ContactClean.StripEnd | update_supabase.py:46 | the result is a prefix of the input that ends with a non-space character, and everything dropped is whitespace |
| ContactClean.Strip | update_supabase.py:46 | the result neither starts nor ends with whitespace, is empty for an all-whitespace input, and leaves an already stripped input unchanged |
| ContactClean.CleanAddress | update_supabase.py:42-44 | None exactly for a missing, "N/A" or empty cell |
| ContactClean.CleanAddressNormalised | update_supabase.py:42-48 | a cleaned address cell holds a normalised text |
| ContactClean.CleanTextNormalised | update_supabase.py:45-48 | a cleaned address has no line feed or carriage return, no leading or trailing whitespace, and no two whitespace characters in a row |
| ContactClean.CleanTextFixes | update_supabase.py:46-48 | cleaning a normalised text returns it unchanged |
| ContactClean.CleanAddressIdempotent | update_supabase.py:42-48 | cleaning a cleaned address that is neither "" nor "N/A" returns it unchanged |
| ContactClean.BlankAddressCleansToEmpty | update_supabase.py:42-48 | an address made only of whitespace cleans to "" |
| ContactClean.TruncateIndustry | update_supabase.py:50-54 | None exactly for a missing, "N/A" or empty cell; otherwise a prefix of length min(n, 300), so inputs of at most 300 characters are unchanged |
| ContactClean.ValidationStatus | update_supabase.py:93-99 | "valid" iff both contacts are valid, "invalid_email" iff only the phone is, "invalid_phone" iff only the e-mail is, and "both_invalid" otherwise |
| ContactClean.StatusRoundTrip | update_supabase.py:93-99 | the status gives back both validity flags, and the four column values are distinct |
| PlotAccumulation.View | update_supabase.py:85-91 | a contact counts as valid iff its cell is present and passes the validator (the "N/A" stand-in never does); an offered address is normalised and an offered industry has at most 300 characters |
| PlotAccumulation.NewRecord | update_supabase.py:103-136 | a new entry holds no contact, so merging its first row stores exactly that row's valid contacts, district, area, address and industry |
| PlotAccumulation.Step | update_supabase.py:101-136 | only a qualifying row touches `plot_data`: it adds its own code and leaves every other entry unchanged |
| PlotAccumulation.AccumulateAppend | update_supabase.py:81-136 | reading two stretches of rows one after the other into the shared `plot_data` equals reading them in one pass |
| PlotAccumulation.FilesAreConcatenation | update_supabase.py:70-84 | processing the files one after another equals processing all their rows, file by file, in one pass |
| PlotAccumulation.EntryIff | update_supabase.py:102-104 | a code has an entry iff some row with that code has a valid phone or e-mail |
| PlotAccumulation.StaticFieldsFromFirstRow | update_supabase.py:103-118 | plot number, area, allottee name, ULPIN and plot status come from the first qualifying row |
| PlotAccumulation.FirstContactsWin | update_supabase.py:110-132 | the stored phone and e-mail are the first valid ones (None if there is none), and each flag holds iff its contact is set |
| PlotAccumulation.FirstFillWins | update_supabase.py:112-136 | address and industry are the first non-empty values; with none, they keep what the first qualifying row brought |
| PlotAccumulation.SetsAreUnions | update_supabase.py:105-124 | the district and industrial-area sets are the unions of the non-null values over the code's qualifying rows |
| PlotAccumulation.StoredValuesChecked | update_supabase.py:88-136 | a stored phone or e-mail is valid, a stored address is normalised, and a stored industry has at most 300 characters |
| PlotAccumulation.PlotIndex.AddRow | update_supabase.py:101-136 | the in-place update of one row leaves `plot_data` as the step function specifies |
| PlotAccumulation.PlotIndex.ProcessFile | update_supabase.py:81-136 | every row's status is the classifier's verdict (default "both_invalid"), and `plot_data` is the fold of the step over the rows |
| PlotAccumulation.PlotIndex.ProcessFiles | update_supabase.py:70-84 | every file's statuses are as specified, and `plot_data` is the fold over all rows of all files in order |
| Filenames.RemoveDisallowed | get_coordinates.py:11 | the result is no longer than the input, keeps only word characters, whitespace and '-', and leaves an input made of those unchanged |
| Filenames.RemoveKeepsAllowed | get_coordinates.py:11 | each word character, whitespace character and '-' occurs in the result as often as in the input |
| Filenames.RemoveCharacter | get_coordinates.py:11 | a single allowed character is kept and a single other character is dropped |
| Filenames.ReplaceSpaces | get_coordinates.py:11 | no ' ' is left, the length is kept, and a name without spaces is unchanged |
| Filenames.SanitizeFilename | get_coordinates.py:10-11 | the result is never longer than the name, and a name of letters, digits, '_' and '-' is unchanged |
| Filenames.SanitizedCharacters | get_coordinates.py:11 | the output has no ' ', and each character is a word character, '-', or whitespace other than ' ' |
| Filenames.SanitizeIdempotent | get_coordinates.py:11 | sanitising twice equals sanitising once |
| Filenames.SanitizeAppend | get_coordinates.py:11 | sanitising distributes over concatenation |
| Filenames.SanitizeCharacter | get_coordinates.py:11 | one character outside `[\w\s-]` is dropped, a space becomes '_', and any other character is kept |
| Filenames.EscapeQuotes | get_coordinates.py:52 | no "'" remains, and a name without "'" is unchanged |
| Filenames.EscapeLength | get_coordinates.py:52 | each quote adds exactly two characters |
| Filenames.UnescapeEscape | get_coordinates.py:52 | for a name without '%', reading "%27" back as a quote restores the name |

## Left out

- A SOAP fallback payload that is not a list of objects makes `process_plotcode` raise (get_blrindus_data.py:111 and :146-147): a JSON string such as `"Wrong Input"` gives a character whose `.get` fails at :158, a JSON object fails at `details[0]`, and a result that is not JSON fails in `json.loads`. `PrimaryReply.Unanswered` carries decoded records only, so these paths are not modelled.
- HTTP and SOAP transport are not modelled. This covers `make_request`, `soap_fallback`, `query_arcgis`, the session, and the coordinate and area requests of get_coordinates.py. Their outcomes are parameters.
- Rate limiting, backoff and `lru_cache` are left out. They affect timing and retries only.
- Thread pools are not modelled. Each batch of lookups is a sequence in order of completion.
- Argument parsing, file listing and deletion, CSV reading and writing, `drop_duplicates`, `ast.literal_eval`, tqdm, logging, dotenv and the coordinate-file writer are left out. They are I/O.
- The Supabase client is left out: clearing the tables, the upserts and the `ai_agent_data` insert.
- Floating point is left out. Coordinates are integers. `PlotAccumulation.PlotRecord.areaAcres` keeps the cell text, not `float(...)`.
- A `float` conversion that raises aborts the file (update_supabase.py:142-145). That abort is not modelled.
- JSON and XML parsing are left out. Decoding is an outcome value.
- A primary reply whose body is JSON but not an object makes `.get` raise (get_blrindus_data.py:151). `PrimaryReply` cannot express such a body, so this path is not modelled.
- A `d` list whose first element is not an object makes `details` a non-dict, and `.get` then raises (get_blrindus_data.py:157-162). `Decoded.Items` holds records only, so this path is not modelled either.
- An IIS reply whose `d` does not decode raises out of `process_plotcode` (get_blrindus_data.py:188). It is not modelled: the IIS list arrives decoded.
- A status listing whose `d` is null or does not decode raises at get_blrindus_data.py:337. It is not modelled either: the listing arrives decoded.
- `\w` and `str.isdigit` are modelled on ASCII; Python also accepts other Unicode letters and digits. Whitespace (`\s`, `strip`) uses the exact `str.isspace` set.
- pandas dtype inference is not modelled. Every cell is text, so `str()` of a number read as a float (for example a phone read as `9876543210.0`) is not reproduced.
- The primary-key branch for list-valued keys (get_blrindus_data.py:170-175) is left out. It cannot run, because every primary key in `field_mapping` is a single name.
- `field_mapping` is a map. The row's contents do not depend on the order of the dict.
- Reading `known_suffixes[base]` inserts an empty set for a base without suffixes (get_blrindus_data.py:361). This is not modelled, because `known_suffixes` is read nowhere after that line.
- The summary CSV and the split of coordinate-file names into district and area are left out. They are I/O.
- AreaRun.AreaState.Recover: it requires every returned row to carry a "Plotcode". The record builder guarantees this (`RecordFetch.FetchedRowShape`); the script indexes the column without checking.
- CodeSpace.ProbeBase: it requires every known suffix to be below 100. Every suffix comes from a two-digit parse, and the `Valid` invariant of `AreaRun.AreaState` carries that bound.
- CodeSpace.GenerateProbes: it visits the bases in an arbitrary order, as Python's set iteration does. Its contract holds for every order.
- RecordFetch.InvalidCodeCache.FetchBatch: it requires the batch's codes to be distinct. `AreaRun.NewCodes` guarantees this for the feature batches, and the fallback list is repetition-free.
- ContactClean.PhoneShape and ContactClean.EmailShape: the validators follow `re.match`, whose `$` also matches before a final "\n". So "9876543210\n" counts as a valid phone and is stored with its newline.
