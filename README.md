# Rank: a Dafny model of the race-ranking pipeline

Rank computes ratings for cyclo-cross racers from race result files. It has
three parts.

- **`parse_files.py`** (`FileParser`) reads the tables that PDF extraction
  gives for each results PDF. It cleans them, stitches page-split tables into
  one result per race, and writes each race as `<pdf stem>_<k>.csv`.
- **`rank.py`** (`Ranker`) does the ranking:
  - it reads the race files in sorted order and takes each file's date key from
    its name;
  - it merges the different spellings of a racer's name into a synonym map,
    using a similarity score and, for close calls, a yes/no question;
  - it builds the player table and seeds it from a previous ranking;
  - it turns each race into a standing (each racer with a range of ranks) and
    hands each race to the rating method at a contest time derived from its
    date.
- **`app.py`** shows the result. This model covers two computations it makes:
  - it numbers the rankings table and filters it by a minimum number of races;
  - it builds a runner's race history, with race labels that are made distinct.

The model follows the code.

- **Stateful parts.** `Ranker` is a class whose methods update its synonym
  map, its player table and the list of rating rounds it has issued.
  `update_syn`, `filter_names`, `clean_dataframe`, `parse_file`,
  `parse_files` and the label loop of `app.py` are methods with loops. Each
  method is proved against a function that states what it computes.
- **Properties.** The properties the code promises are lemmas about those
  functions:
  - the synonym map stays flat;
  - every pair of names is compared once;
  - tie bands reach the last rank;
  - seeding only overwrites existing players;
  - contest times of date-named files never decrease;
  - cleaning is idempotent;
  - merging keeps every row;
  - output names are distinct and carry the date key;
  - race labels are distinct.
- **Parameters.** The similarity score (`fuzz.ratio`), the interactive
  question (`Ranker.ask`), the directory listing, file reading and PDF
  extraction are parameters.

Modules:

| file | module | models |
|---|---|---|
| `wrappers.dfy` | `Wrappers` | `Option` and `Result` |
| `seqs.dfy` | `Seqs` | filtering, subsequences, flattening |
| `text.dfy` | `Text` | the Python string operations used: `split`, `replace`, `endswith`, `isdigit`, `int()`, `str()`, `strip`, string order and `sorted(set(...))` |
| `synonyms.dfy` | `Synonyms` | `Ranker.update_syn` |
| `standings.dfy` | `Standings` | race rows and the rank ranges of `get_standing` |
| `name_filter.dfy` | `NameFilter` | `Ranker.filter_names` |
| `calendar.dfy` | `Calendar` | date keys, `datetime` dates and contest times |
| `ranking.dfy` | `Ranking` | `Ranker`: its state, `get_data`, `get_standing`, seeding and `rank` |
| `parse_files.dfy` | `FileParsing` | `FileParser.clean_dataframe`, `parse_file`, `parse_files` |
| `app_view.dfy` | `AppView` | rankings numbering and filter, runner history and labels |

### Notes on the code

These points of the code decide several contracts.

- **Tie bands.** A row without a numeric place gets the band
  `(k + 1, n)`, where `k` is the number of numeric rows before it and
  `n` is the number of rows: `last_place` starts at 1 and the second end is
  `len(df)` (rank.py:206-214). See `Standings.AfterFinishers`.
- **Contest time.** The contest time is the number of seconds from the
  first race's date (`round((tmp_date - first_date).total_seconds())`). A
  key that is not a date takes the previous time plus 86400. On the first
  race there is no previous time, so the loop raises (`UnboundLocalError`).
  The fallback first date 2022-12-22 therefore never reaches a contest time
  (rank.py:266-279). See `Calendar.ContestTimes`.
- **Name matching.** Names are compared as given with `fuzz.ratio`. A score
  in [93, 100) merges the names without asking. A score in [86, 93) asks. A
  score of 100 never merges.
- **Seeding.** Seeded players get uncertainty 500 and update time 0 whatever
  the previous ranking file holds. The file is read only for name and
  rating.

## Model

| member | source | states |
|---|---|---|
| Synonyms.Merged | rank.py:149-163 | The map after `update_syn(syn, n1, n2)`. Its keys are the old keys plus `n2` and the merged-away name. `n2`, the merged-away name and every key that pointed at it now point at the target (`syn[n1]`, or `n1`). Every other entry keeps its value. |
| Synonyms.Redirected | rank.py:161-163 | Same keys. Every entry whose value was `source` now holds `target`. The others are unchanged. |
| Synonyms.UpdateSyn | rank.py:137-164 | The method's result is exactly `Merged(syn, n1, n2)`. |
| Synonyms.RedirectAll | rank.py:161-163 | The redirect loop computes `Redirected(m, source, target)`. |
| Synonyms.MergedKeepsFlat | rank.py:149-163 | Take a flat map (no name is both a key and a value). If the target is not `n2`, the map stays flat after the merge, so one lookup always reaches the name that stands for a variant. |
| Synonyms.MergedValues | rank.py:149-158 | After a merge, every value is an old value or the target. The merged-away name is `n2` or an old value. The target is `n1` or an old value. |
| NameFilter.FilterNames | rank.py:167-193 | The synonyms are the pairwise merging over the sorted distinct names. The map is flat. Every key is a collected name that points at a kept name. A name is kept iff it was collected and is not a key. The kept names are distinct. |
| NameFilter.CompareNames | rank.py:183-190 | The two nested loops compute `CompareAll` from the empty map. |
| NameFilter.CompareLater | rank.py:184-190 | The inner loop compares name `i` with every later name, in order, as `CompareWith` does. |
| NameFilter.CanonicalNames | rank.py:183-192 | For distinct names, the comparison result is flat. Its keys are among the names and point at kept names. The kept names are exactly the names that are not keys, with no duplicates. |
| NameFilter.CompareWithShape | rank.py:185-190 | Comparing one name with the names after it keeps the map flat. New values are only that name. New keys come from old keys, old values, the name or the names compared. |
| NameFilter.CompareAllShape | rank.py:184-190 | The whole comparison leaves a flat map. Its values and keys are old ones or compared names. |
| NameFilter.CompareAllPairs | rank.py:184-190 | The nested loops apply the merge test to the pairs `(names[i], names[j])`, `i < j`, in loop order, and to nothing else. |
| NameFilter.PairsOfSorted | rank.py:181-185 | Over sorted distinct names, each pair `a < b` is visited exactly once, the smaller name first, and no other pair is visited. |
| NameFilter.PairsMembers | rank.py:181-185 | Over sorted distinct names, the visited pairs are exactly the pairs `a < b` of names. |
| NameFilter.PairsNoDup | rank.py:183-185 | Over distinct names, no pair is visited twice. |
| NameFilter.AskOnlyInBand | rank.py:186-190 | Two answer functions that agree on the pairs scored in [86, 93) give the same synonym map. The question matters only in that band. |
| NameFilter.InAllNames | rank.py:178-180 | Every racer of every race is among the names collected. |
| Standings.RowPlaces | rank.py:207-214 | A numeric place `p` gives `(p-1, p-1)`. Any other place gives `(last_place, len(df))`. The counter advances exactly on numeric places. |
| Standings.TieBand | rank.py:206-214 | A row without a numeric place gets a band with `1 <= lo <= hi == len(df)`. A later such row's band starts no earlier. |
| Standings.AfterFinishers | rank.py:206-214 | After `k` numeric rows, a row without a numeric place gets `(k + 1, n)`. |
| Calendar.DateKey | rank.py:109 | The date key is the prefix of the file name up to its first `_`, or the whole name when it has none. |
| Calendar.ParseDate | rank.py:267-268 | A key that reads as a date gives a date `datetime` accepts (year 1-9999, a real month and day). |
| Calendar.ParseFormatDate | rank.py:275-276 | A key written `YYYY-MM-DD` reads back as that date. |
| Calendar.FormatDateOrder | rank.py:104 | Keys written `YYYY-MM-DD` sort in the order of their dates. |
| Calendar.KeyOrder | rank.py:104-109 | Of two files named `YYYY-MM-DD_...`, the one that sorts first has the earlier or equal date. |
| Calendar.OrdinalMonotone | rank.py:277 | A later date has a larger day number. |
| Calendar.Times | rank.py:272-279 | The first race's time is its distance from the origin. Each later race takes its own date's distance, or the previous time plus 86400. |
| Calendar.ContestTimes | rank.py:266-279 | The race loop fails iff there are races and the first key is not a date. Otherwise there is one time per race and the first is 0. |
| Calendar.ContestTimesStep | rank.py:274-279 | With times defined, the first key is a date, and each later time follows from the one before. |
| Calendar.SortedFilesChronological | rank.py:272-279 | For date-named files in sorted order, every contest time is the seconds since the first race's date, and times never decrease. |
| Calendar.FileTimes | rank.py:266-279 | For files whose keys are dates, the contest times are defined and each is the seconds from the first file's date to its own. |
| Text.ParseDigits | rank.py:209 | `int` of a digit string is its decimal value. |
| Text.DigitRunDigits | rank.py:209 | Reading the rest of a digit literal after a value `acc` gives `acc` shifted by the digits read, plus their value. |
| Text.ParseNonNumeric | rank.py:209-214 | A place like "Ab." is not an integer, so it takes the tie branch. |
| Text.SortedUnique | rank.py:181 | The result is strictly sorted and holds exactly the elements of the input. |
| Text.SortedListingUnique | rank.py:181 | A set of strings has exactly one strictly sorted listing. |
| Ranking.PlayerTable.Put | rank.py:231-233 | Assigning a key updates the map. A new key goes last. An existing key keeps its place. Validity is preserved. |
| Ranking.ReadAll | rank.py:108 | One race per file, read from that file, in order. |
| Ranking.InitialPlayers | rank.py:249 | The players are exactly the kept names, each a fresh player. |
| Ranking.FirstDate | rank.py:266-270 | The first key's date when it reads as one, otherwise 2022-12-22; always a valid date. |
| Ranking.NextContestTime | rank.py:274-279 | One step of the race loop gives no time iff `ContestTimes` fails, and otherwise gives race `idx`'s entry of `ContestTimes`. |
| Ranking.Ranker.constructor | rank.py:29-60 | The previous ranking is stored. The synonym map, player table and issued rounds start empty. |
| Ranking.Ranker.GetData | rank.py:87-110 | The races are the reads of the data files, and the dates are their date keys, in sorted order. The data files are the listing's files when the extension is "csv", and none otherwise. |
| Ranking.Ranker.GetStanding | rank.py:196-237 | Result and new state equal `StandingOutcome`. With every row registered it returns the expected standing and changes nothing. Otherwise, at the first unregistered row, it raises KeyError or the dict-size RuntimeError, after the new-racer loop's merges and addition. |
| Ranking.Ranker.StandingRow | rank.py:207-235 | One row's entry (its player and rank range), or the outcome of the whole call at the first row that cannot be looked up. |
| Ranking.Ranker.ResolveRow | rank.py:216-235 | A registered name resolves through the synonyms with no change of state. An unregistered one fails with `UnregisteredOutcome`. |
| Ranking.Ranker.NewRacer | rank.py:221-233 | Synonyms after the merges of `ProbeNewRacer`. The racer is added (then RuntimeError) when a player is judged different. Otherwise KeyError. |
| Ranking.Ranker.SeedPlayers | rank.py:252-264 | The player table becomes `Seeding` of the previous ranking. Synonyms and rounds are unchanged. |
| Ranking.Ranker.SeedFuzzy | rank.py:259-264 | Each player matched by the fuzzy rule gets the seed. The table keeps its keys and order. |
| Ranking.Ranker.Rank | rank.py:240-280 | Synonyms are the comparison over the sorted distinct names. Players are the seeded initial players. It succeeds iff the contest times are defined, and then issues one round per race: its standing at its time. On failure (`UnboundLocalError`) no round is issued. |
| Ranking.Ranker.RegisteredStanding | rank.py:273 | `get_standing` on a race whose every racer is registered returns the expected standing and changes nothing. |
| Ranking.Ranker.RunRounds | rank.py:266-280 | The race loop succeeds iff `ContestTimes` is defined, and then appends each race's standing with its contest time. It fails with no round issued otherwise. |
| Ranking.Ranker.RaceRound | rank.py:273-280 | One race: no time iff `ContestTimes` fails, and then no round; otherwise the race's entry of `ContestTimes` and one round with its standing at that time. |
| Ranking.SeedingKeepsKeys | rank.py:252-264 | When every synonym stands for a player, seeding keeps the player table's names and their order. It only overwrites. |
| Ranking.SeedAllEntries | rank.py:252-264 | After seeding, every player is unchanged or was seeded with uncertainty 500, update time 0 and one of the baseline ratings. |
| Ranking.NewRacerAdded | rank.py:224-233 | The new-racer loop adds the racer exactly when some player is not judged the same racer. |
| Ranking.StandingEntry | rank.py:207-235 | Entry `i` is the row's resolved player. A numeric place `p` gives `(p-1, p-1)`. Otherwise the band satisfies `1 <= lo <= hi == len(df)`. |
| Ranking.RacesRegistered | rank.py:216-220 | After `filter_names`, every racer of every race is a player or a synonym of one, so `get_standing` inside `rank` never meets an unknown name. |
| Ranking.StandingFailsAt | rank.py:207-237 | `get_standing` ends at the first row it cannot look up. |
| Ranking.StandingSucceeds | rank.py:207-237 | With every row registered, `get_standing` succeeds with the expected standing and changes nothing. |
| FileParsing.CleanDataframe | parse_files.py:19-40 | The result is `Cleaned(df)`. |
| FileParsing.DropPlaceless | parse_files.py:20-27 | The first pass keeps exactly the rows whose place, spaces removed, is a digit string or "Ab.", in order. |
| FileParsing.AllJunior | parse_files.py:29-35 | The drop flag is set iff no kept row has an adult category. |
| FileParsing.CleanedShape | parse_files.py:19-40 | The cleaned rows are a subsequence of the table and all have a place. They are either none or all rows with a place. |
| FileParsing.CleanedNonEmpty | parse_files.py:20-38 | The cleaned table is non-empty iff some row has both a place and an adult category. |
| FileParsing.CleanedIdempotent | parse_files.py:19-40 | Cleaning a cleaned table changes nothing. |
| FileParsing.Columns | parse_files.py:46-47 | One row per table row, taken from the first four columns. |
| FileParsing.ParseFile | parse_files.py:42-55 | The method returns `ParseTables(tables)`. |
| FileParsing.ParseOne | parse_files.py:46-54 | One table: fewer than four columns fail; otherwise the cleaned table is skipped when empty, starts a result when its first place is "1", extends the last result otherwise, and fails when there is no result to extend. |
| FileParsing.ExtendLastShape | parse_files.py:54 | Extending the last result keeps the number of results and their first rows, and adds the table's rows at the end. |
| FileParsing.ParseFailurePersists | parse_files.py:45-55 | Once a prefix of the tables fails, the whole file fails with that error. |
| FileParsing.ParseWideTables | parse_files.py:45-54 | With at least four columns everywhere, `parse_file` is the merge of the cleaned tables. |
| FileParsing.ParseNarrowTable | parse_files.py:46-47 | A table with fewer than four columns makes `parse_file` fail. |
| FileParsing.MergeFailure | parse_files.py:49-54 | The merge fails iff the first non-empty cleaned table does not start at place "1". On success there are results iff some cleaned table is non-empty. |
| FileParsing.MergeResults | parse_files.py:49-54 | A successful merge has one result per table that starts at "1". Every result starts at "1". All rows are kept in order. |
| FileParsing.OutputNameDateKey | parse_files.py:61 | When the PDF's stem has no `_`, the date key that `rank.py` takes from an output file is that stem. |
| FileParsing.OutputNameInjective | parse_files.py:60-61 | The results of one PDF go to distinct file names. |
| FileParsing.Outputs | parse_files.py:60-61 | Result `k` of a PDF is written under `<stem>_<k>.csv`, in order. |
| FileParsing.WriteResults | parse_files.py:60-61 | The inner loop writes exactly `Outputs(file, results)`. |
| FileParsing.ParseFiles | parse_files.py:57-62 | The writes and the stopping error equal `AllOutputs`. PDFs are processed in order, and the first failing PDF ends the run. |
| FileParsing.OutputsStop | parse_files.py:58-61 | Once a PDF fails, nothing more is written. |
| AppView.NumberedRanks | app.py:166-168 | The rank column runs 1, 2, ... in row order, one per row. |
| AppView.DisplayedRows | app.py:241-244 | The displayed rows are exactly the rows with at least `min_races` races, in order, and their ranks still increase. |
| AppView.CleanRaceName | app.py:345-350 | IndexError iff the name without ".csv" is shorter than 2. Otherwise a final `_` and digit are removed, and any other name is kept. |
| AppView.LabelInjective | app.py:355 | The labels `name`, `name_1`, `name_2`, ... are pairwise distinct. |
| AppView.ChooseLabel | app.py:352-357 | The chosen label is the first of `name`, `name_1`, `name_2`, ... not yet used, and the loop ends. |
| AppView.LabelsFill | app.py:354-356 | At most as many labels of a name can be taken as there are used labels, which bounds the loop. |
| AppView.FirstRow | app.py:343 | The index of a row with the runner's name, with no such row before it. |
| AppView.Participating | app.py:340-342 | The races the runner ran, in increasing order, and no others. |
| AppView.BuildHistory | app.py:339-364 | IndexError iff some race the runner ran has a name too short to clean. Otherwise there is one entry per race the runner ran, in order, with its number, first place, field size and a label distinct from all earlier ones. |
| AppView.AddRace | app.py:340-364 | One race: it fails iff the runner ran it and its name is too short to clean; otherwise the history covers one more race. |
| AppView.HistoryFails | app.py:340-350 | A race the runner ran whose name cannot be cleaned is a failing race among those the runner ran. |
| AppView.HistoryClean | app.py:345-350 | Every race of a complete history has a name that can be cleaned. |
| AppView.HistoryExtend | app.py:352-364 | Appending an entry whose label is unused keeps the history well formed. |

## Left out

- **I/O is not modelled.** This covers reading CSV files (`get_csv` and its
  encoding fallback), `os.listdir`, `os.path.isfile`, `camelot.read_pdf`,
  `to_csv`, `shutil.rmtree` and `os.makedirs`. These become the parameters
  `listing`, `isFile`, `read` and `extract`, or the returned list of writes.
  The model does not say how `read_csv` with `names=['Place','Name']` maps
  the four-column files that `parse_files` writes.
- **The rating mathematics of `openelo` is not modelled**, for the same
  reason. This covers `EloMMR`, `Player`, `with_rating` and `round_update`.
  A player is `Fresh` or `Seeded(rating, 500, 0)`. Each `round_update` is
  recorded as the standing and contest time it receives. The standing holds
  the player's key, not the player object.
- **`fuzz.ratio` is not modelled.** It is an arbitrary score function
  parameter.
- **`Ranker.ask` is not modelled.** Its console loop becomes an arbitrary
  yes/no function. Every call with the same pair gives the same answer.
- **The `warnings.warn` call in `get_standing` is not modelled.** It has no
  effect on state.
- **`Ranker.__init__` reading the previous ranking CSV is not modelled.** The
  previous ranking is given to the constructor as its (name, rating) items,
  in file order. The `method` check and `crp` are not modelled either. The
  player table and synonym map start empty rather than `None`, because
  `rank` overwrites both before reading them.
- **`find_outlier`, `export_rank` and the rest of rank.py outside `Ranker`'s
  core are not part of this model.** The same goes for `get_rankings`,
  `save_rankings` and `race_history` of the application's ranker, whose
  source is not part of this model, and for the Streamlit layout and charts
  of app.py.
- **`FileParser.__init__` is not modelled.** It lists and recreates
  folders.
- NameFilter.FilterNames: `list(set(...))` lists the kept names in an order
  Python leaves unspecified. The model lists them in sorted order. The
  order only decides the order of the player table.
- **Digits are ASCII only.** `str.isdigit` and `int()` also accept other
  Unicode digits; the model counts only `0`-`9`.
- **pandas dtype inference is not modelled.** A `Place` column that pandas
  reads as numbers is modelled as the strings of those numbers.
- **The index labels `pd.concat` keeps in `parse_file` are not modelled.**
  The rows and their order are kept. The labels are not written
  (`index=False`).
- **Integers are unbounded.** Python's integers are too, so nothing
  wraps.
- **Dates stop at year 9999**, because `datetime` rejects larger years and
  the model reads them as non-dates.
