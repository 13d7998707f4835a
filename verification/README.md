# Speedrun record progression, modelled in Dafny

The scripts build the world-record history of one speedrun.com
sub-category, for example Elden Ring, Any%, Glitchless. The steps are:

1. Resolve the game, category, variable and value names to API ids. The
   name comparisons ignore case.
2. Download every verified run of the category, including obsoleted ones,
   by following the API's `next` pagination links.
3. Keep the runs that have a date and sort them by date. The sort is
   stable.
4. Keep the runs of the sub-category.
5. Walk the runs with a best-so-far time and record every run strictly
   faster than all earlier ones. Each recorded run becomes an entry with
   the player, the time, the time formatted as `H:MM:SS.mmm`, the run
   link and the video link.

The repository has two copies of the scanner: `speedrun.py` and
`coletores/speedrun.py`. They differ only in how they read the video link,
so a `Variant` parameter selects between them.

A third script, `coletores/youtube_coleta_dados.py`, does three things:

- collects the distinct YouTube links of the resulting CSV;
- extracts a video id with the regular expression
  `(?<=v=)[\w-]+|(?<=be/)[\w-]+`;
- turns the YouTube Data API statistics for that id into a
  (views, likes, comments) triple.

Modules:

| module | file | content |
|---|---|---|
| `Wrappers` | wrappers.dfy | `Option`, `Result` |
| `Text` | text.dfy | `str.lower()` on ASCII, `in` on strings, Python's string order, decimal digits |
| `TimeFormat` | time_format.dfy | `format_time` and a reader for its output |
| `Runs` | runs.dfy | the run JSON, the history entry, `video_link` in both copies |
| `Chronology` | chronology.dfy | `main`'s date filter and stable sort |
| `Progression` | progression.dfy | `analisar_progressao_recorde` |
| `Pagination` | pagination.dfy | `fetch_all_runs_for_category` |
| `Resolution` | resolution.dfy | `get_game_id`, `get_category_id`, `get_variable_info` |
| `YouTube` | youtube.dfy | video id, statistics, link set |

How the Python values are represented:

- **Times.** Run times are whole microseconds (`nat`).
- **The starting best time.** `float('inf')` is `None`.
- **Exceptions.** A Python exception that ends a computation is a
  `Failure` carrying its cause.
- **JSON keys.** A missing key is `None`, or `Absent` where the code also
  tells `null` apart.
- **HTTP.** Each HTTP endpoint becomes an input: the `data` list of the
  response, or a map from URL (or video id) to the response.

## Model

| member | source | states |
|---|---|---|
| `Progression.Subcategory` | speedrun.py:74-79 | the kept runs are exactly the input runs whose `values` send the variable id to the value id, and there are no more of them than input runs |
| `Progression.SubcategoryAppend` | coletores/speedrun.py:71-74 | the filter preserves order: filtering a concatenation concatenates the filtered parts |
| `Progression.SelectSubcategoryRuns` | speedrun.py:74-79 | the explicit append loop builds exactly the filtered list |
| `Progression.Emitted` | speedrun.py:89-91 | the positions where the best-so-far scan records a run are in range and strictly increasing |
| `Progression.RecordStep` | speedrun.py:90-92 | moving the best time past the first run preserves, for every later position, whether it is a record |
| `Progression.EmittedAreRecords` | speedrun.py:89-92 | a position is emitted iff its time beats the starting best and is strictly below every earlier time (a tie is not a record) |
| `Progression.FirstRunIsEmitted` | coletores/speedrun.py:69-85 | starting from infinity, nothing is emitted iff there are no runs, and otherwise the first run is emitted first |
| `Progression.EmittedTimesDecrease` | speedrun.py:90-91 | the emitted times are strictly decreasing |
| `Progression.FirstMinimum` | speedrun.py:89-92 | the first position holding the least time is in range, no time is below it, and every earlier time is strictly greater |
| `Progression.LastEmittedIsMinimum` | speedrun.py:89-92 | the last emitted time is no greater than any time, and the last emitted position is the first position of the minimum time |
| `Progression.ScanExample` | coletores/speedrun.py:82-85 | times 120, 130, 110, 110, 90 emit positions 0, 2 and 4 |
| `Progression.ScanNeedsEveryTime` | speedrun.py:89-90 | a run without `times.primary_t` makes the scan fail, even a run after all the records |
| `Progression.ScanRuns` | speedrun.py:89-104 | the scan as Python evaluates it, run by run; its meaning is given by `ScanNeedsEveryTime` and `ScanFollowsEmitted` |
| `Progression.EntriesAtSucceeds` | speedrun.py:96-103 | the entries at chosen positions are built iff the entry of each of those runs can be built |
| `Progression.EntriesAtValues` | speedrun.py:96-103 | once built, the list has one entry per chosen position, each the entry of its run, in order |
| `Progression.EntriesAtMeaning` | speedrun.py:96-103 | the entries at chosen positions are built iff each of those runs' entries is, and each equals the entry of its run |
| `Progression.ScanFollowsEmitted` | speedrun.py:88-104 | the scan over runs is the scan over their times: it builds the entries of exactly the emitted positions, in order, and fails on the first entry that cannot be built |
| `Progression.RecordHistory` | speedrun.py:69-106 | `analisar_progressao_recorde` as a function: the filter, the empty case, then the scan from infinity; its meaning is given by the `Progression*` lemmas below |
| `Progression.ProgressionSucceeds` | speedrun.py:69-106 | the analysis succeeds iff every run of the sub-category has a time and the entry of every record-setting run can be built |
| `Progression.ProgressionIsRecordHistory` | speedrun.py:69-106 | the history has one entry per record position, in date order; entry k is the entry of the k-th record run; a run is a record iff it is strictly faster than every earlier run of the sub-category |
| `Progression.HistoryTimes` | speedrun.py:88-101 | the times in the history are the times of the record positions, in order |
| `Progression.ProgressionTimesDecrease` | coletores/speedrun.py:82-95 | the times in the history strictly decrease |
| `Progression.ProgressionEmptyIff` | speedrun.py:84-87 | the history is empty iff the sub-category is empty, and otherwise it starts with the first run of the sub-category |
| `Progression.ProgressionEndsAtMinimum` | coletores/speedrun.py:82-95 | the last entry's time is no greater than any run of the sub-category, and some run of the sub-category has that time |
| `Progression.AnalyzeProgression` | speedrun.py:69-106 | the filter loop, the early return and the best-so-far loop compute the analysis above, for both copies |
| `Progression.ScanLoop` | speedrun.py:89-104 | the best-so-far loop, with its exits on a missing time and on an entry that cannot be built, computes the scan from infinity |
| `Runs.PlayerName` | speedrun.py:93 | the player is found iff there is a first player and it has an `id`; it is the `name` when present, otherwise the `id` |
| `Runs.VideoLinkOf` | speedrun.py:94-96 | `speedrun.py` gives "N/A" unless there is a first link, and fails iff that link has no `uri`. `coletores/speedrun.py:87` fails iff `videos` or `links` is `null` or `links` is empty. It gives "N/A" for a missing `videos`, a missing `links` or a missing `uri`. Both give the first link's `uri` when it exists |
| `Runs.VideoLinkVariantsDiffer` | coletores/speedrun.py:87 | the two copies disagree exactly on `null` videos or links, empty links, and a first link without a `uri`, and they never give two different successful links |
| `Runs.MakeEntry` | speedrun.py:93-104 | the entry is built iff the player, the video link and the `weblink` are all available. Its date is `date` or "N/A", its time is `primary_t`, its formatted time is `format_time(primary_t)`, and its links are the run's |
| `TimeFormat.TimedeltaText` | speedrun.py:65-66 | `str(timedelta)`; its shape is given by `FormatTimeShape` |
| `TimeFormat.FormatTime` | speedrun.py:63-67 | `format_time`; its meaning is given by `FormatTimeExamples`, `FormatTimeShape`, `FormattedUnderDay` and `FormatTimeRoundTrip` |
| `TimeFormat.FormatTimeExamples` | speedrun.py:64 | a missing time prints as "N/A", and a zero duration prints as "0:00:00" |
| `TimeFormat.FormatTimeShape` | speedrun.py:63-67 | a whole-second duration prints as `[D day[s], ]H:MM:SS` without a dot; otherwise exactly three fraction digits follow the dot, and they are the microseconds truncated to milliseconds |
| `TimeFormat.WholeTextUnderDay` | coletores/speedrun.py:62-66 | under one day there is no day prefix |
| `TimeFormat.FormattedUnderDay` | speedrun.py:63-67 | under one day the formatted time is `H:MM:SS` for whole seconds, and otherwise `H:MM:SS.mmm` with the milliseconds truncated |
| `TimeFormat.FormatTimeRoundTrip` | speedrun.py:63-67 | for durations under one day, reading the formatted time back gives the duration truncated to whole milliseconds |
| `TimeFormat.ClockRoundTrip` | speedrun.py:65-66 | reading `H:MM:SS` back gives the number of seconds |
| `TimeFormat.CutFraction` | speedrun.py:67 | cutting three characters from `W.UUUUUU` leaves `W.mmm` |
| `Text.ToLower` | speedrun.py:31 | `.lower()` keeps the length and lower-cases each character |
| `Text.LowerAgainSame` | speedrun.py:38 | lower-casing is idempotent, so a key given in lower case compares the same |
| `Text.LexLeqTotal` | speedrun.py:130 | the string order used by the date sort is total |
| `Text.LexLeqTransitive` | speedrun.py:130 | and transitive |
| `Text.DecimalValue` | speedrun.py:65 | the digits of `"%d" % n` read back to `n` |
| `Text.PaddedValue` | speedrun.py:65 | zero-padded digits read back to the number when it fits the width |
| `Text.PaddedSixCut` | speedrun.py:67 | the first three of six padded microsecond digits are the padded milliseconds |
| `Chronology.DatedRuns` | speedrun.py:129 | the kept runs are exactly the runs whose `date` is present and non-empty; `DatedKeepsOrder` adds their order and multiplicity |
| `Chronology.DatedKeepsOrder` | speedrun.py:129 | the filter keeps every dated run, once per occurrence and in the API's order: for each non-empty date, the runs carrying it are the same before and after |
| `Chronology.InsertByDate` | coletores/speedrun.py:117 | insertion keeps every run dated and adds exactly the new run to the multiset |
| `Chronology.SortByDate` | speedrun.py:130 | the sorted list is a permutation of its input |
| `Chronology.WithDateAppend` | speedrun.py:130 | selecting one date's runs distributes over concatenation |
| `Chronology.InsertBounded` | speedrun.py:130 | a date no later than the inserted run and than every run of the list is no later than any run of the result |
| `Chronology.InsertKeepsSorted` | speedrun.py:130 | inserting into a date-sorted list keeps it sorted |
| `Chronology.InsertKeepsDateOrder` | speedrun.py:130 | insertion puts the new run first among the runs of its date and keeps the others in order |
| `Chronology.SortIsSorted` | speedrun.py:130 | the result is non-decreasing by date string |
| `Chronology.SortIsStable` | speedrun.py:130 | runs with the same date keep their input order |
| `Chronology.ChronologicalRuns` | speedrun.py:129-130 | the filter followed by the stable sort; its meaning is given by `ChronologicalRunsSpec` |
| `Chronology.ChronologicalRunsSpec` | speedrun.py:129-130 | what `main` passes on is a permutation of the dated runs; every run in it has a date; it is sorted by date; for every non-empty date, its runs appear in the same order as in the API's input |
| `Pagination.NextUrl` | speedrun.py:59-60 | no next URL iff no link has `rel` "next"; otherwise it is the `uri` of the first such link |
| `Pagination.Fetch` | speedrun.py:46-61 | what the page loop returns, within the page bound; its meaning is given by `WalkIsFetched` and `FetchIsWalk` |
| `Pagination.WalkIsFetched` | speedrun.py:53-61 | following the next links from the first page to a page without one, within the page bound, yields those pages' `data`, concatenated in visit order |
| `Pagination.FetchIsWalk` | coletores/speedrun.py:51-60 | conversely, every successful fetch is such a walk of pages and their concatenated data |
| `Pagination.MorePagesSameResult` | speedrun.py:54-60 | raising the page bound does not change a successful result |
| `Pagination.SelfLinkNeverEnds` | speedrun.py:54-60 | a page whose next link is itself never completes, whatever the bound |
| `Pagination.FetchAllRuns` | speedrun.py:46-61 | the loop over pages returns exactly the specified fetch from the runs URL |
| `Resolution.GameId` | speedrun.py:23-26 | fails with "game not found" iff the search returns nothing; otherwise gives the first result's id |
| `Resolution.FirstCategory` | speedrun.py:28-33 | none iff no category name matches ignoring case; otherwise the first matching position |
| `Resolution.GetCategoryId` | coletores/speedrun.py:29-34 | the loop succeeds iff some category name matches ignoring case, returns the first match's id, and otherwise fails with "category not found" |
| `Resolution.CategoryLookupIgnoresCase` | speedrun.py:31 | asking in lower case finds the same category |
| `Resolution.FirstLabel` | speedrun.py:40-41 | none iff no label matches ignoring case; otherwise the first matching position |
| `Resolution.FirstHit` | speedrun.py:37-42 | none iff no (variable, value) pair matches on both name and label; otherwise the first pair in loop order |
| `Resolution.GetVariableInfo` | speedrun.py:35-43 | the nested loops succeed iff some pair matches; they return the variable id, value id and stored label of the first pair in loop order, and otherwise fail |
| `Resolution.FoundLabelMatches` | coletores/speedrun.py:42-43 | the returned label and the variable name match the requested ones up to case |
| `Resolution.VariableLookupIgnoresCase` | speedrun.py:39-41 | asking in lower case finds the same variable and value |
| `Resolution.LaterVariableSuppliesValue` | speedrun.py:37-43 | a matching variable with no matching label does not stop the search; the value comes from a later variable |
| `YouTube.RunEnd` | coletores/youtube_coleta_dados.py:32 | the greedy `[\w-]+` stops at the end of the URL or at the first character that is not an id character |
| `YouTube.IsYoutubeUrl` | coletores/youtube_coleta_dados.py:29 | the statistics gate: "youtube.com" or "youtu.be" occurs in the URL; `YoutubeStats`, `GateImpliesLink` and `LinkWithoutGate` state what it decides |
| `YouTube.SearchFrom` | coletores/youtube_coleta_dados.py:32 | finds the leftmost position where either alternative can start, or none when there is none |
| `YouTube.VideoId` | coletores/youtube_coleta_dados.py:32-36 | none iff no position is preceded by "v=" or "be/" and followed by an id character. Otherwise the id is non-empty and made of id characters; it starts at the leftmost such position and is maximal |
| `YouTube.ShortLinkId` | coletores/youtube_coleta_dados.py:32-36 | for a short link `youtu.be/<id>` whose segment ends there, the id found is exactly that segment, even when a "v=" follows later in the URL |
| `YouTube.NoMarkerNoCandidate` | coletores/youtube_coleta_dados.py:32 | a match can start only right after an "=" or a "/", because both lookbehinds end with one |
| `YouTube.CountOf` | coletores/youtube_coleta_dados.py:47-49 | a missing count is 0; a present count is read iff it is a non-empty digit string |
| `YouTube.CountOfDecimal` | coletores/youtube_coleta_dados.py:47-49 | a count written in decimal reads back as itself |
| `YouTube.YoutubeStats` | coletores/youtube_coleta_dados.py:27-55 | a triple comes back iff the URL passes the gate, an id is found, the API answers it with a non-empty `items` whose first entry has `statistics`, and all three counts can be read; the triple is those counts |
| `YouTube.MissingCountsAreZero` | coletores/youtube_coleta_dados.py:47-49 | a count the API leaves out is 0 in the triple |
| `YouTube.CollectYoutubeLinks` | coletores/youtube_coleta_dados.py:62-67 | the set holds exactly the column's URLs (missing cells read as "") that contain "youtube" or "youtu.be" |
| `YouTube.GateImpliesLink` | coletores/youtube_coleta_dados.py:29 | every URL the statistics gate accepts is collected by `main` |
| `YouTube.LinkWithoutGate` | coletores/youtube_coleta_dados.py:66 | the converse fails: a URL with "youtube" but without "youtube.com" is collected yet rejected by the gate |

## Left out

- HTTP requests (`get_api_data`, the YouTube client), console output and CSV reading and writing: responses are inputs, and what is printed or written is not modelled.
- `float(primary_t)` and `timedelta(seconds=...)` rounding to microseconds: times enter the model as whole microseconds. NaN and negative times are not represented.
- `TimeFormat.FormatTimeRoundTrip`: proved only for durations under one day. Longer ones carry a day prefix, which the reader does not parse.
- `str.lower()` and `\w` on non-ASCII text: case folding and id characters are ASCII only.
- `null` for `date`, `name`, `uri`, `weblink`, `values` and the lookup names: only the `null`s the code branches on (`videos`, `links`) are represented.
- `YouTube.CountOf`: `int()` also accepts surrounding spaces, a sign and underscores. The model reads only plain digit strings and treats anything else as the `ValueError` that the `except` turns into `(None, None, None)`.
- `Pagination.FetchAllRuns`: the Python loop has no bound. The model stops after `maxPages` pages with `PageLimit`, and `MorePagesSameResult` shows the bound never changes a result it allows.
- The early return in `main` on an empty download, `main`'s error handling, and the configuration constants: orchestration only.
- `coletores/youtube_coleta_dados.py` line 72 passes the whole link set, not the row's URL, to the statistics function. Line 51 calls `time.slee`, which raises on the path after an empty `items`; the `except` swallows it, and the model returns `None` there as the code does.
- `coletores/bilibili_coleta_dados.py`, `coletores/twitch_coleta_dados.py` and `coletores/twitch_auth.py` are not part of this model.
- pandas reads "N/A" and empty cells as missing. `YouTube.VideoUrl` takes such cells as `None` and does not model which strings pandas treats as missing.
