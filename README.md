# ocloc clock-drift bookkeeping in Dafny

ocloc estimates the clock drift of ocean-bottom seismometers from ambient-noise
cross-correlations. A station that needs correction carries a linear drift model
f(t) = a·t + b. The inversion alternates two steps. First an external routine measures the
apparent time shift `t_app` of every correlation. Then a least-squares solve appends new `a` and
`b` values to every station. This project models, in `src/ocloc/ocloc_test.py`, everything that
happens between those two external calls:

- loading the station table and the correlation files (`set_stations`, `set_correlations`);
- the list queries (`get_station`, `get_correlations_of_stationpair`, `correlations_with_*`,
  `correlations_of_station`, `min_number_correlations`);
- the apriori drift estimate of each station pair and parameter set (`calculate_apriori_dt`,
  `calculate_apriori_dt_corrected` and their drivers);
- the per-iteration instrument offsets (`calculate_dt_ins`);
- the separation gate and the output scan of `Correlation.calculate_t_app`;
- the grouping of observation dates into periods and the inclusion filter (`no_corr_per_avg_date`,
  `recount_correlations_removing_station`, `stations_with_few_corrs`);
- the rows of the design matrix and the predicted shift (`build_matrices`,
  `calculate_estimated_shift`);
- the bookkeeping of `solve_eq`;
- the outlier sweep (`remove_outiers`).

Numbers are Dafny `real` and dates are integer seconds since the epoch. NaN is the variant
`Unresolved` of `Num`, and the "Not calculated yet." marker is `Unset`. A list field that may
still hold the marker is a `History` (`NotCalculated` or `Entries`). Every exception the code
raises is an `Err` of `Result`. A crash the code does not anticipate becomes a `requires`.

Modules:

| module | what it holds |
|---|---|
| `Values` | `Num`, `History`, `Result`, `Option`, Python's negative indexing (`PyIndex`) and a loop that steps every element of a list |
| `Text` | `split`, `str.split()`, `replace`, `int()` |
| `Entities` | `Processing_parameters` (a class, so parameter sets compare by identity as in Python), `Station`, `Correlation` |
| `Queries` | the list filters |
| `Repository` | the station table and the correlation files |
| `Apriori` | the apriori estimate and its driver |
| `Offsets` | `calculate_dt_ins` |
| `Measurement` | `calculate_t_app` and its loop over all correlations |
| `Pipeline` | the driver chain in which each driver first runs the step it depends on |
| `Buckets` | the period grouping |
| `Inclusion` | the date lists, the recount and the inclusion filter |
| `Design` | the rows, the predicted shift and the zero-column reduction |
| `Solve` | the column walk of `solve_eq` |
| `Outliers` | `remove_outiers` |
| `Inversion` | the `Clock_drift` object as the class `ClockDrift` |

The class methods update `stations` and `correlations` in place. They are proved against
specification functions (`AprioriAll`, `DtInsAll`, `TAppAll`, `Filtered`, `Swept`, `Solved`),
and the lemmas beside those functions state what the code promises.

Quirks of the code the model reproduces:

- A new observation date joins the *first-inserted* period whose key lies within the window,
  because the scan over `dates_unique.keys()` stops at its first match
  (`src/ocloc/ocloc_test.py:1650-1654`, `Buckets.FirstWithin`). A later key that is closer
  does not win.
- Every station gets empty `a`/`b` lists, land stations included. The comment at
  `src/ocloc/ocloc_test.py:729-733` says only stations that need correction get them. The test
  at line 734, however, is on the raw `needs_correction` string, which is always non-empty
  (`Entities.NewStation`).
- When no date remains, the recount writes its sentinel to `no_corr_per_avg_date`
  (`src/ocloc/ocloc_test.py:636-638`). The filter reads `updated_no_corr_per_date`
  (lines 1370-1373), so it never sees that sentinel (`Inclusion.SentinelUnread`).
- `attributes[1]` is read outside the `try` (`src/ocloc/ocloc_test.py:981-983`). A `.sac` name
  with a single `_` field therefore makes `set_correlations` raise rather than be skipped
  (`Repository.FileCorrelations`).
- `solve_eq` treats every header containing the letter `a` as an `a` column
  (`src/ocloc/ocloc_test.py:1551`). A station code containing a lower-case `a` therefore breaks
  the read-back (`Solve.CodeWithA`).
- For a correlation of a station with itself, the station-2 slice assignments overwrite the
  station-1 ones (`src/ocloc/ocloc_test.py:1454-1459`). Its row keeps only the station-2 entries
  (`Design.SelfPairRow`).
- When no correlation is accepted, `A` is the one-dimensional `np.asarray([])`
  (`src/ocloc/ocloc_test.py:1470`). `pd.DataFrame` at line 1500 then rejects it against the
  headers and the empty index, so `build_matrices`, and `solve_eq` with it, raise
  (`Inversion.ClockDrift.BuildMatrices`, error `EmptyDesign`).
- The output scan mixes up three fields (`src/ocloc/ocloc_test.py:893-901`). The
  "SNR acausal wave" line overwrites `snr_c`, so the acausal ratio is not kept apart. The "acausal signal
  until index:" line sets `acausal_from_index`, and the "acausal signal from index:" line sets
  `acausal_until_index` (`Measurement.ScanLine`).

## Model

| member | source | states |
|---|---|---|
| Values.PyIndex | src/ocloc/ocloc_test.py:1597-1603 | `s[i]` on a list of length n is defined exactly for -n <= i < n, and denotes the position congruent to i modulo n |
| Text.Split | src/ocloc/ocloc_test.py:104-108 | `split` yields at least one piece, no piece contains the separator, and joining the pieces gives the string back |
| Text.SplitJoin | src/ocloc/ocloc_test.py:981-983 | splitting joined pieces that do not contain the separator gives the pieces back |
| Text.RemoveAll | src/ocloc/ocloc_test.py:981 | `replace(pat, '')` never lengthens a string and leaves a string without the pattern unchanged |
| Text.RemoveTrailing | src/ocloc/ocloc_test.py:106 | removing ".sac" from a name ending in it, with no earlier '.', gives the name without the suffix |
| Text.Words | src/ocloc/ocloc_test.py:1046 | `str.split()` yields only non-empty tokens without whitespace |
| Text.WordsJoin | src/ocloc/ocloc_test.py:1046-1054 | splitting tokens joined by single spaces gives the tokens back |
| Text.StripSpaces | src/ocloc/ocloc_test.py:105 | the whitespace `int()` strips: the result is a part of the string that neither starts nor ends with whitespace, and a string without whitespace is kept whole |
| Text.ParseInt | src/ocloc/ocloc_test.py:105 | succeeds only when the string holds a digit, and reads a whitespace-free string as an optionally signed digit run; `Text.ParseIntPadded` shows that surrounding whitespace is ignored, and `Text.ParseDecimal` gives the value it reads |
| Text.StripPadded | src/ocloc/ocloc_test.py:105 | stripping a string padded on both sides with whitespace gives back the part that neither starts nor ends with whitespace |
| Text.ParseIntPadded | src/ocloc/ocloc_test.py:105 | `int()` ignores whitespace around the number: padding on either side reads the same value, and the unpadded string is read as an optionally signed digit run |
| Text.JoinLast | src/ocloc/ocloc_test.py:101 | the last piece of a join is the suffix after its last separator, or the whole string for a single piece |
| Measurement.Basename | src/ocloc/ocloc_test.py:101 | `os.path.basename` is the suffix of the path that follows its last '/', or the whole path when there is none |
| Text.ParseDecimal | src/ocloc/ocloc_test.py:105 | `int()` reads back the decimal spelling of every natural number |
| Text.DecimalRoundTrip | src/ocloc/ocloc_test.py:105 | the digit value of the decimal spelling of n is n |
| Entities.ProcessingParameters.constructor | src/ocloc/ocloc_test.py:667-683 | the seven parameters hold the given values, with the code's defaults |
| Entities.ParseNeedsCorrection | src/ocloc/ocloc_test.py:721-728 | the flag is true exactly for "True", false exactly for "False", and anything else raises |
| Entities.NewStation | src/ocloc/ocloc_test.py:701-740 | a station is created exactly when the flag is "True" or "False"; it is included, keeps its code and index, and starts with empty a/b lists and no periods |
| Queries.Filter | src/ocloc/ocloc_test.py:469-473 | a filter keeps, in their original order, exactly the elements that pass the test |
| Queries.PositionsCompose | src/ocloc/ocloc_test.py:1152-1158 | filtering the result of a filter selects exactly the elements that pass both tests, in order |
| Queries.GetStation | src/ocloc/ocloc_test.py:1069-1075 | succeeds exactly when some station has the code, returns the first such station, and otherwise raises "Station not found" |
| Queries.PairPositions | src/ocloc/ocloc_test.py:1082-1089 | for two different codes, the increasing positions of exactly the correlations whose endpoint set is {x, y} |
| Queries.PairCorrelations | src/ocloc/ocloc_test.py:1077-1090 | raises exactly for two equal codes; otherwise returns in stored order exactly the correlations whose endpoints are the two stations, in either orientation |
| Queries.WithParameters | src/ocloc/ocloc_test.py:450-473 | keeps exactly the correlations holding this very parameter object |
| Queries.OfStation | src/ocloc/ocloc_test.py:476-498 | keeps exactly the correlations with the station at either end |
| Queries.WithAverageDate | src/ocloc/ocloc_test.py:501-521 | keeps exactly the correlations with this average date |
| Queries.ResolvedCount | src/ocloc/ocloc_test.py:546-552 | a station never has more resolved correlations than there are correlations; `Inclusion.DatesCount` shows it is the number of dates the station contributes |
| Queries.MinNumberCorrelations | src/ocloc/ocloc_test.py:524-556 | returns exactly the stations that need correction and have fewer than `min_no_corr` correlations with a resolved latest shift; with no station needing correction it returns `[]` whatever the correlations hold, and only otherwise needs every `t_app[-1]` readable |
| Repository.ParseReal | src/ocloc/ocloc_test.py:738-740 | a coordinate is read exactly when `float` reads the string, NaN included, and is the value read; anything else raises |
| Repository.StationRow | src/ocloc/ocloc_test.py:1046-1062 | a row is read, skipped or raises; the only errors are a short row, a bad flag and an unreadable number |
| Repository.StationRowFacts | src/ocloc/ocloc_test.py:1046-1062 | a kept row has at least seven fields and gives an included station with the row's code and flag, the given index, correlation files and empty histories |
| Repository.StationRowOfFields | src/ocloc/ocloc_test.py:1046-1060 | a well-formed row of seven fields is read back as exactly the station it describes |
| Repository.StationsOf | src/ocloc/ocloc_test.py:1041-1066 | there are never more stations than rows; `Repository.StationsOfFacts` states their numbering and contents |
| Repository.StationsOfRows | src/ocloc/ocloc_test.py:1046-1062 | every kept station comes from a row of at least seven fields spelling its code and its flag |
| Repository.StationsOfFacts | src/ocloc/ocloc_test.py:1041-1066 | the kept stations are numbered 0, 1, ... in table order, each has correlation files and comes from a row spelling its code and flag |
| Repository.ReadCorrelationFile | src/ocloc/ocloc_test.py:101-108 | a readable file name has at least three `_` fields; its date is `int` of the third, its number of days is what `float` gives for the last field without ".sac" (NaN for "nan"), and its metadata is the trace's |
| Repository.FileCorrelations | src/ocloc/ocloc_test.py:979-1032 | one directory entry raises only for a name without a second `_` field |
| Repository.FromRecord | src/ocloc/ocloc_test.py:1024-1032 | one correlation per parameter set, in order, with the file's stations, path, date and number of days, `t_N_lps` = (date - reference) / 86400, and nothing computed yet |
| Repository.FileCorrelationsFacts | src/ocloc/ocloc_test.py:979-1032 | a file contributes nothing or one well-formed correlation per parameter set, carrying the parameter sets in order and the codes of its name |
| Repository.FileCorrelationsCreated | src/ocloc/ocloc_test.py:979-1032 | a file that contributes is a `.sac` file naming two known stations, at least one needing correction, and contributes the correlations made from its record |
| Repository.FileCorrelationsQualified | src/ocloc/ocloc_test.py:979-1032 | conversely, a readable `.sac` file naming two known stations, at least one needing correction, contributes exactly the correlations made from its record, one per parameter set |
| Repository.CorrelationsOf | src/ocloc/ocloc_test.py:975-1033 | the whole listing raises only for a malformed name |
| Repository.CorrelationsOfFacts | src/ocloc/ocloc_test.py:975-1033 | every correlation of the listing is well formed: known stations not both land stations, a listed parameter set, the right `t_N_lps`, every computed field unset |
| Apriori.Earliest | src/ocloc/ocloc_test.py:214-215 | the first position holding the minimum date |
| Apriori.Latest | src/ocloc/ocloc_test.py:223-224 | the first position holding the maximum date |
| Apriori.SideOf | src/ocloc/ocloc_test.py:237-247 | the side the drift goes to: halves only under the corrected policy, with sign +1 for the single-sided and -1 for the corrected policy; errors are a missing station or a pair of land stations |
| Apriori.AprioriGroup | src/ocloc/ocloc_test.py:188-247 | raises for differing freqmin/freqmax, then for fewer than two correlations, then for varying station codes, each exactly in its case; otherwise one pair per correlation |
| Apriori.DriftEndpoints | src/ocloc/ocloc_test.py:234-239 | the earliest date gets drift 0 and the latest gets the whole measured shift |
| Apriori.AprioriGroupShape | src/ocloc/ocloc_test.py:237-247 | the earliest correlation gets (0, 0); the single-sided policy puts the whole drift on station 1 when it needs correction, otherwise on station 2 |
| Apriori.SplitPolicy | src/ocloc/ocloc_test.py:344-361 | the corrected policy gives (-dt/2, -dt/2) when both stations need correction and -dt on the one that does otherwise |
| Apriori.PoliciesOpposite | src/ocloc/ocloc_test.py:344-361 | the two policies assign opposite total shifts to every correlation of a group spanning time |
| Apriori.ZeroSpan | src/ocloc/ocloc_test.py:234-235 | a group whose dates all coincide divides by zero and gets NaN |
| Apriori.GroupPositions | src/ocloc/ocloc_test.py:1152-1161 | the increasing positions of exactly the correlations of the pair with this parameter object |
| Apriori.GroupIsQuery | src/ocloc/ocloc_test.py:1152-1158 | the group is exactly `correlations_with_parameters(get_correlations_of_stationpair(x, y), p)` |
| Apriori.GroupMembers | src/ocloc/ocloc_test.py:1152-1158 | a correlation is in the group exactly when its endpoint set is the pair and it holds the parameter object |
| Apriori.AprioriAllShape | src/ocloc/ocloc_test.py:1148-1170 | the driver writes only the apriori pair and leaves every correlation it does not reach as it is |
| Apriori.AprioriAllLone | src/ocloc/ocloc_test.py:1165-1168 | a correlation alone in its group gets (0, 0) |
| Apriori.AprioriAllGroup | src/ocloc/ocloc_test.py:1156-1170 | a correlation of a larger group gets its entry of the group estimate, the group being the queried one |
| Apriori.AprioriAllTwice | src/ocloc/ocloc_test.py:1148-1170 | a second run of the driver succeeds and changes nothing |
| Apriori.GroupFails | src/ocloc/ocloc_test.py:1170 | a larger group whose estimate raises makes the whole driver raise |
| Apriori.AprioriDone | src/ocloc/ocloc_test.py:1148-1170 | once every pair of stations under every parameter set is processed, the state is the driver's result |
| Offsets.Push | src/ocloc/ocloc_test.py:1267 | `append` grows a list by exactly the value, and raises on the marker string |
| Offsets.SideOffsetsCases | src/ocloc/ocloc_test.py:1259-1291 | with a/b history, a[-1]·t + b[-1] is appended; without it the list becomes [apriori]; a land station appends 0 or gets [0]; the asymmetric station-2 test reads `b[-1]` of an empty `b` and raises |
| Offsets.DtIns | src/ocloc/ocloc_test.py:1255-1291 | one correlation raises only for a missing station, an empty `b` or the marker string |
| Offsets.DtInsFeedsMeasurement | src/ocloc/ocloc_test.py:1255-1291 | after the step both lists have a last entry, which reads as a float when the apriori was set; nothing else changes |
| Offsets.DtInsGrows | src/ocloc/ocloc_test.py:1262-1284 | with drift models on both stations a second run appends one more entry per list, so each run adds an iteration |
| Offsets.ComputeOffsets | src/ocloc/ocloc_test.py:1255-1291 | the loop succeeds exactly when every correlation's step does, and then gives every correlation's own step |
| Offsets.OffsetsAllFacts | src/ocloc/ocloc_test.py:1255-1291 | after the loop no list holds the marker, every list has a last entry, and only the offset lists changed |
| Measurement.Classify | src/ocloc/ocloc_test.py:886-907 | a line takes the branch of the first key in the `elif` chain that it contains |
| Measurement.ScanLine | src/ocloc/ocloc_test.py:886-907 | only a shift line changes the shift, only a causal-start line sets `causal_from_index`, and the only error is an unreadable number |
| Measurement.ScanLines | src/ocloc/ocloc_test.py:886-907 | the scan raises only `NotANumber`, for an unreadable number |
| Measurement.ScanOutput | src/ocloc/ocloc_test.py:885-907 | the loop over the output lines computes the line-by-line scan |
| Measurement.ScanLinesErrorStays | src/ocloc/ocloc_test.py:886-895 | once a line raises, the whole scan raises the same error |
| Measurement.AcausalLineNotCausal | src/ocloc/ocloc_test.py:899-904 | a line with the acausal-start key also contains the causal-start key, yet never sets `causal_from_index` |
| Measurement.LastShiftLine | src/ocloc/ocloc_test.py:886-887 | the last line taking the shift branch, or none when no line does |
| Measurement.ScanShift | src/ocloc/ocloc_test.py:886-910 | the recorded shift is the number on the last `Result shift:` line, or the starting value when there is none |
| Measurement.ScanCausalFrom | src/ocloc/ocloc_test.py:902-904 | `causal_from_index` is unchanged or comes from a line that took the causal-start branch |
| Measurement.LastAsFloat | src/ocloc/ocloc_test.py:858-863 | a readable last offset is never the marker |
| Measurement.AppendValue | src/ocloc/ocloc_test.py:914-917 | `t_app` becomes [x] when it is not a list yet; otherwise x is appended and the earlier entries are kept |
| Measurement.TooClose | src/ocloc/ocloc_test.py:846-849 | the separation test raises exactly on a zero `freqmax` or `ref_vel` |
| Measurement.TApp | src/ocloc/ocloc_test.py:846-918 | a successful call appends exactly one value to `t_app` and changes nothing else but the diagnostics; the only errors are a zero division, a missing apriori and an unreadable number |
| Measurement.SeparationGate | src/ocloc/ocloc_test.py:849-856 | under the threshold the routine is not consulted: one NaN is appended and nothing else changes |
| Measurement.NeedsApriori | src/ocloc/ocloc_test.py:858-863 | beyond the threshold the call raises "No apriori estimate" exactly when a last offset cannot be read as a float |
| Measurement.MeasuredShift | src/ocloc/ocloc_test.py:879-918 | beyond the threshold the appended value is the routine's last reported shift, or NaN when it reported none, and the separation is recorded |
| Measurement.MeasureAll | src/ocloc/ocloc_test.py:1316-1317 | the loop succeeds exactly when every call does, and then gives every correlation's own call |
| Measurement.MeasuredAllFacts | src/ocloc/ocloc_test.py:1316-1317 | after the loop every correlation has one more shift, the earlier ones kept, and nothing else but the diagnostics changed |
| Pipeline.DtInsAllFacts | src/ocloc/ocloc_test.py:1244-1291 | after `calculate_dt_ins` no list holds the marker, each has a last entry, and apart from the offsets only missing apriori estimates changed |
| Pipeline.TAppAllFacts | src/ocloc/ocloc_test.py:1308-1317 | after `calculate_tapp_4_allcorrelations` every correlation has a shift to read and each shift list grew by exactly one |
| Buckets.Sort | src/ocloc/ocloc_test.py:1633-1635 | `sorted` returns the same days with the same multiplicities, in ascending order |
| Buckets.Insert | src/ocloc/ocloc_test.py:1633-1635 | inserting into a sorted list keeps it sorted and adds exactly the one day |
| Buckets.KeyIndex | src/ocloc/ocloc_test.py:1644-1647 | the `get(date)` lookup finds the entry whose key is the day, or reports none |
| Buckets.FirstWithin | src/ocloc/ocloc_test.py:1650-1654 | the first-inserted key within the window, or none |
| Buckets.CountPeriods | src/ocloc/ocloc_test.py:1636-1657 | the loop builds the period dictionary, and gives the sentinel exactly for no dates |
| Buckets.BucketizeTotal | src/ocloc/ocloc_test.py:1639-1656 | the counts add up to the number of dates |
| Buckets.BucketizePositive | src/ocloc/ocloc_test.py:1639-1656 | every period counts at least one date |
| Buckets.BucketizeSeparated | src/ocloc/ocloc_test.py:1650-1656 | the keys are pairwise at least `days_apart` days apart |
| Buckets.BucketizeCovers | src/ocloc/ocloc_test.py:1644-1656 | every date is a key or lies within the window of one |
| Buckets.BucketizeKeys | src/ocloc/ocloc_test.py:1639-1656 | every key is one of the dates |
| Buckets.PeriodsOfFacts | src/ocloc/ocloc_test.py:1633-1657 | no dates give the sentinel; otherwise the counts add up, each is at least one, the keys are dates, separated and covering |
| Buckets.ExampleThreeDates | src/ocloc/ocloc_test.py:1639-1656 | with a 60-day window, 2020-01-01 and 2020-01-03 share a period and 2020-04-01 opens a second |
| Buckets.CountMeeting | src/ocloc/ocloc_test.py:1377-1380 | no more periods qualify than there are; `Inclusion.CountQualifying` and `Inclusion.CountMeetingBounds` state what it counts |
| Inclusion.Dates | src/ocloc/ocloc_test.py:559-579 | there is at most one date per correlation; `Inclusion.DatesCount` gives exactly one per counting correlation |
| Inclusion.DatesCount | src/ocloc/ocloc_test.py:570-579 | there is exactly one date per correlation of the station with a resolved latest shift |
| Inclusion.DatesRemoving | src/ocloc/ocloc_test.py:623-633 | removing a station only drops dates, drops none when it touches no correlation, and every date left is that of a counting correlation |
| Inclusion.DatesOf | src/ocloc/ocloc_test.py:573-577 | the date loop collects the day keys of the counting correlations in order |
| Inclusion.WithPeriodsFacts | src/ocloc/ocloc_test.py:1632-1657 | `no_corr_per_avg_date` is the sentinel exactly when no correlation of the station is resolved; otherwise its counts add up to that number; nothing else changes |
| Inclusion.StationPeriods | src/ocloc/ocloc_test.py:1632-1657 | one station gets its period dictionary |
| Inclusion.RecountedShape | src/ocloc/ocloc_test.py:620-622 | the recount changes only the two period fields, and nothing for a station with no correlations |
| Inclusion.RecountedSentinel | src/ocloc/ocloc_test.py:636-638 | when no date remains, only the sentinel is written, to `no_corr_per_avg_date` |
| Inclusion.RecountedCounts | src/ocloc/ocloc_test.py:635-657 | when dates remain, the updated periods count each of them once, each at least one, and `no_corr_per_avg_date` is kept |
| Inclusion.SentinelUnread | src/ocloc/ocloc_test.py:636-638 | a station whose recount writes the sentinel keeps the periods the filter reads |
| Inclusion.Recount | src/ocloc/ocloc_test.py:603-657 | the recount of one station |
| Inclusion.CountQualifying | src/ocloc/ocloc_test.py:1377-1380 | the counting loop gives the number of periods meeting the threshold |
| Inclusion.CountMeetingBounds | src/ocloc/ocloc_test.py:1378-1380 | no period qualifies when all counts are below the threshold, and all do when all reach it |
| Inclusion.NoCorrelationsMeets | src/ocloc/ocloc_test.py:1377-1383 | the sentinel passes only a non-positive threshold with a requirement of one period |
| Inclusion.Prepared | src/ocloc/ocloc_test.py:1370-1373 | `updated_no_corr_per_date` is created from `no_corr_per_avg_date` when missing, and the periods read are unchanged |
| Inclusion.AllIncluded | src/ocloc/ocloc_test.py:1349-1350 | the first loop sets every flag and changes nothing else |
| Inclusion.RecountIncluded | src/ocloc/ocloc_test.py:1386-1391 | the loop recounts every station still included |
| Inclusion.RecountAllFacts | src/ocloc/ocloc_test.py:1386-1391 | recounting keeps the flags and every field but the period fields |
| Inclusion.ExcludeFacts | src/ocloc/ocloc_test.py:1383-1393 | an exclusion lowers the number of included stations by one and asks for a restart |
| Inclusion.Pass | src/ocloc/ocloc_test.py:1355-1395 | one pass of the station loop, ending at the first exclusion |
| Inclusion.PassFacts | src/ocloc/ocloc_test.py:1355-1395 | a pass without restart leaves every included station meeting the criterion; a restart excludes exactly one included station |
| Inclusion.FilteredFacts | src/ocloc/ocloc_test.py:1352-1395 | at the fixed point no station is re-included and every included station has enough periods meeting its obs or land threshold |
| Inclusion.FilterStations | src/ocloc/ocloc_test.py:1349-1395 | the `while restart` loop reaches the fixed point after exactly (excluded stations + 1) passes, so at most stations + 1 |
| Inclusion.AllStationPeriods | src/ocloc/ocloc_test.py:1324-1326 | the station loop gives every station its periods |
| Inclusion.PeriodsAllFacts | src/ocloc/ocloc_test.py:1324-1326 | after the station loop every station has periods the filter can read, and only `no_corr_per_avg_date` changed |
| Design.Coefficients | src/ocloc/ocloc_test.py:1597-1603 | a land station contributes (0, 0); a correcting one raises exactly when `a[iteration]` or `b[iteration]` is out of range |
| Design.EstimatedShift | src/ocloc/ocloc_test.py:1593-1608 | the only errors are a missing station and an index out of range |
| Design.ShiftOfStations | src/ocloc/ocloc_test.py:1604-1606 | the estimate is 2·(dt1 - dt2) of the two stations' drift models |
| Design.EstimatedShiftAntisymmetric | src/ocloc/ocloc_test.py:1604-1606 | swapping the two ends of a correlation negates the estimated shift |
| Design.Row | src/ocloc/ocloc_test.py:1452-1458 | a row has one entry per unknown; `Design.RowEntries` gives every entry |
| Design.BuildRow | src/ocloc/ocloc_test.py:1452-1458 | the array built by `np.zeros` and the slice assignments is the row |
| Design.RowEntries | src/ocloc/ocloc_test.py:1452-1458 | -2·t and -2 at station 2's columns if it needs correction, +2·t and +2 at station 1's, zeros elsewhere |
| Design.RowTimesUnknowns | src/ocloc/ocloc_test.py:1452-1458 | for two different stations the row's product with the unknowns is 2·(dt1 - dt2) |
| Design.SelfPairRow | src/ocloc/ocloc_test.py:1452-1458 | a self-correlation's row keeps only the station-2 entries, giving -2·dt instead of 0 |
| Design.RowMatchesEstimate | src/ocloc/ocloc_test.py:1593-1606 | with the latest coefficients as unknowns, the row's product is exactly `calculate_estimated_shift` |
| Design.OffsetIsInstrument | src/ocloc/ocloc_test.py:1604-1605 | a station's offset under the unknowns is its drift model at t, and 0 for a land station |
| Design.StationWithIndex | src/ocloc/ocloc_test.py:1495-1500 | the first station numbered i, or none when no station has that number |
| Design.HeadersIndexed | src/ocloc/ocloc_test.py:1494-1500 | for stations numbered by position, the headers are "a*t_{N_lps} (code)" and "b (code)" of each station in order |
| Design.Estimate | src/ocloc/ocloc_test.py:1445-1450 | NaN after the first measurement, otherwise the shift predicted by the latest coefficients |
| Design.Visit | src/ocloc/ocloc_test.py:1429-1468 | an accepted correlation gives a row of one entry per unknown; `Design.VisitCases` states when it raises, skips or gives a row |
| Design.VisitCases | src/ocloc/ocloc_test.py:1429-1468 | raises exactly for a missing station or a failing estimate; skips exactly the excluded stations and an unresolved shift; otherwise the row, the shift and the estimate |
| Design.VisitAll | src/ocloc/ocloc_test.py:1426-1468 | every observation's row has one entry per unknown; `Design.VisitAllCount` counts them |
| Design.VisitAllCount | src/ocloc/ocloc_test.py:1426-1468 | one observation per accepted correlation, so the row count equals the observation-vector length |
| Design.Observations | src/ocloc/ocloc_test.py:1423-1468 | both loops give rows of one entry per unknown; `Design.ObservationsStop` states the error case |
| Design.ObservationsStop | src/ocloc/ocloc_test.py:1423-1468 | an exception over one parameter set stops both loops |
| Design.VisitGroup | src/ocloc/ocloc_test.py:1426-1468 | the correlation loop succeeds exactly when the specification does, with its result |
| Design.CollectObservations | src/ocloc/ocloc_test.py:1423-1468 | both loops succeed exactly when the specification does, with its result |
| Design.Rows | src/ocloc/ocloc_test.py:1461 | the rows of matrix `A` are those of the observations, in order |
| Design.Reduce | src/ocloc/ocloc_test.py:1470-1504 | as many rows as observations, each as wide as the kept columns; `Design.KeptColumnsExact` and `Design.ReducePreservesProducts` state which columns are kept and that the system is unchanged |
| Design.KeptColumnsExact | src/ocloc/ocloc_test.py:1503 | the kept columns are, in increasing order, exactly those in which some row is non-zero |
| Design.DropZeroColumns | src/ocloc/ocloc_test.py:1503 | dropping the all-zero columns does not change any row's product with the unknowns |
| Design.ReducePreservesProducts | src/ocloc/ocloc_test.py:1501-1504 | the reduced system has the same products, so the same residuals, as the full one |
| Solve.ColumnOf | src/ocloc/ocloc_test.py:1550-1560 | a header is an `a` column exactly when it contains 'a', and a `b` column exactly when it contains 'b' but not 'a' |
| Solve.HeadersReadBack | src/ocloc/ocloc_test.py:1543-1560 | for a plain code the two headers of a station are read back as its own a and b columns |
| Solve.CodeWithA | src/ocloc/ocloc_test.py:1551-1553 | a station code containing 'a' turns its b column into an a column with a wrong code |
| Solve.ReplayKeepsError | src/ocloc/ocloc_test.py:1554-1559 | once `get_station` has raised, the walk keeps the error and the stations as they were then |
| Solve.ReplayStops | src/ocloc/ocloc_test.py:1549-1560 | a pass that raised stops the walk |
| Solve.WalkStep | src/ocloc/ocloc_test.py:1550-1560 | one pass appends the value to the a or b history of the station its header names |
| Solve.WalkColumns | src/ocloc/ocloc_test.py:1549-1560 | the `zip(x, column_names)` loop computes the walk over all columns |
| Solve.Backfill | src/ocloc/ocloc_test.py:1566-1570 | every correcting station without an `a` column gets 0 appended to a and b; the others are unchanged |
| Solve.PairedReplay | src/ocloc/ocloc_test.py:1549-1560 | reading paired columns of distinct known codes raises nothing, records exactly those codes and appends each solved pair to its own station |
| Solve.SolveGrowth | src/ocloc/ocloc_test.py:1543-1570 | when the column codes are distinct, known, free of the characters `a`, `b`, `(`, `)` and `*` that the headers use, and each has both its a and its b column (and the station codes are distinct), every correcting station's a and b grow by exactly one: the solved value, or 0 without a column; `Solve.LoneBColumn` shows b growing by two when the a column is missing |
| Solve.LoneBColumn | src/ocloc/ocloc_test.py:1557-1570 | a b column without its a column gives that station two b entries in one call |
| Outliers.Observed | src/ocloc/ocloc_test.py:2322 | `float(t_app[iteration])` succeeds exactly for an in-range, set entry, and raises otherwise |
| Outliers.CheckOneExact | src/ocloc/ocloc_test.py:2317-2325 | only `t_app[iteration]` may change: it becomes NaN exactly when the residual exceeds abs(max_error) |
| Outliers.CheckOneTwice | src/ocloc/ocloc_test.py:2324-2325 | a NaN entry is never an outlier, so a second test changes nothing |
| Outliers.PairPositionsByKey | src/ocloc/ocloc_test.py:2295-2296 | the pair query does not depend on the order of the two codes |
| Outliers.SkipStep | src/ocloc/ocloc_test.py:2297-2306 | a pair without correlations or with an excluded station leaves its correlations as they are |
| Outliers.Swept | src/ocloc/ocloc_test.py:2288-2325 | the sweep keeps the number of correlations; `Outliers.SweptExact` states which entries change |
| Outliers.SweptExact | src/ocloc/ocloc_test.py:2288-2325 | only `t_app[iteration]` of correlations between two included listed stations changes, exactly when the residual against the pair's prediction exceeds the bound |
| Outliers.SweptTwice | src/ocloc/ocloc_test.py:2288-2325 | a second sweep succeeds and changes nothing |
| Inversion.ClockDrift.constructor | src/ocloc/ocloc_test.py:942-947 | the object starts with the reference time, the parameter sets, no stations or correlations and iteration 0 |
| Inversion.ClockDrift.SetStations | src/ocloc/ocloc_test.py:1036-1067 | succeeds exactly when the table can be read, and then holds its stations numbered by position |
| Inversion.ClockDrift.SetCorrelations | src/ocloc/ocloc_test.py:970-1034 | succeeds exactly when no name is malformed, and then holds the listing's correlations, each well formed |
| Inversion.ClockDrift.CalculateDtIns | src/ocloc/ocloc_test.py:1215-1291 | the correlations become `DtInsAll` of the old ones exactly when the driver succeeds |
| Inversion.ClockDrift.CalculateTApp | src/ocloc/ocloc_test.py:1293-1326 | on success the correlations are `TAppAll` of the old ones and every station gets its periods; on an error the stations are unchanged |
| Inversion.ClockDrift.NoCorrPerAvgDate | src/ocloc/ocloc_test.py:1610-1657 | only the station at k changes, to its period dictionary |
| Inversion.ClockDrift.StationsWithFewCorrs | src/ocloc/ocloc_test.py:1328-1395 | the stations become the fixed point of the filter, reached after (excluded + 1) passes |
| Inversion.ClockDrift.BuildMatrices | src/ocloc/ocloc_test.py:1397-1515 | measures first when some shift is missing; succeeds exactly when the observations can be collected and there is at least one, and then stores the reduced design of all parameter sets; with none it raises `EmptyDesign` |
| Inversion.ClockDrift.SolveWith | src/ocloc/ocloc_test.py:1541-1570 | on success the stations are the walked and backfilled ones and `iteration` grows by one; on an error `iteration` is unchanged |
| Inversion.ClockDrift.SolveEq | src/ocloc/ocloc_test.py:1517-1570 | builds the design when there is none, then solves; `iteration` grows by one exactly on success, and a design it builds holds at least one observation |
| Inversion.ClockDrift.RemoveOutliers | src/ocloc/ocloc_test.py:2287-2325 | succeeds exactly when the codes are distinct and every pair can be tested, and then the correlations are `Swept` |
| Inversion.ClockDrift.CalculateAprioriAll | src/ocloc/ocloc_test.py:1130-1213 | succeeds exactly when the codes are distinct and every group reached can be estimated, and then the correlations are `AprioriAll` |
| Inversion.PrepareApriori | src/ocloc/ocloc_test.py:1244-1246 | runs the apriori driver exactly when some estimate is missing |
| Inversion.DtInsStep | src/ocloc/ocloc_test.py:1244-1291 | the apriori check, then the offsets, computing `DtInsAll` |
| Inversion.PrepareOffsets | src/ocloc/ocloc_test.py:1308-1312 | runs `calculate_dt_ins` exactly when some offset list holds the marker |
| Inversion.TAppStep | src/ocloc/ocloc_test.py:1308-1317 | the offset check, then the measurements, computing `TAppAll` |
| Inversion.Sweep | src/ocloc/ocloc_test.py:2288-2325 | the two station loops succeed exactly when the codes are distinct and every pair can be tested, and then compute `Swept` |
| Inversion.SweepPair | src/ocloc/ocloc_test.py:2294-2325 | processing one pair extends the processed set, or shows that the sweep fails |
| Inversion.TestPair | src/ocloc/ocloc_test.py:2317-2325 | the loop over a pair's correlations writes each one's flagged value, or shows that the sweep fails |
| Inversion.PairFails | src/ocloc/ocloc_test.py:2300-2315 | a pair whose coefficients cannot be read makes the sweep fail |
| Inversion.AprioriSweep | src/ocloc/ocloc_test.py:1148-1170 | the pair and parameter loops succeed exactly when the codes are distinct and every group can be estimated, and then compute `AprioriAll` |
| Inversion.WritePair | src/ocloc/ocloc_test.py:1156-1170 | the parameter loop for one station pair extends the processed groups, or shows that the driver fails |
| Inversion.WriteGroup | src/ocloc/ocloc_test.py:1157-1170 | one group is written member by member, or its failure shows that the driver fails |

## Left out

- Plotting (`plot_*`, `trim_correlation_trace`, `plot_stream`, the plot branches) and every `print`: they are output with no effect on the state.
- File and directory I/O: inputs are passed as parameters. These are the directory listing (already sorted), the station table's lines, the trace metadata of a file (`TraceReader`) and `float` on a string (`FloatParser`). `os.path.exists`, `os.path.isfile`, `open` and `obspy.read` are not part of this model, so the "file does not exist" exceptions are not modelled.
- The external measurement: the `params.txt` write, `os.chdir` and `subprocess.run` become a function from the request to the output lines (`Routine`). `suppress_stdout` is output only.
- Signal numerics: the band-pass filter, `correlate`, `xcorr_max` and the division by the sampling rate become one parameter (`Lag`) giving the measured shift of a group.
- `np.linalg.lstsq` is a parameter from the design to the solution vector, and `gps2dist_azimuth` is a parameter (`Distance`). It gives a real even for a NaN coordinate, where the library would give NaN, and it is total, where the library raises `ValueError` for a latitude outside [-90, 90]; since the call at `src/ocloc/ocloc_test.py:1014-1017` is outside any `try`, `set_correlations` would then raise, which the model does not capture.
- Floating-point rounding, overflow and NaN arithmetic: numbers are exact reals.
- The pandas metadata table `df` and the `self.solution` frame: the model keeps the observations (rows, shifts, codes, estimates) in the `DesignMatrix` value.
- The "No t_app found" check at the end of `build_matrices`: it only prints.
- The cached `correlation.estimated_shift` attribute: it is never read by the modelled code.
- Object identity and aliasing: `Station` and `Correlation` are values held in the sequences of `ClockDrift`, updated by position. `Processing_parameters` keeps its identity as a class.
- The SNR, folder and index diagnostics of `calculate_t_app` are kept only as they affect the scan. `resp_details` and `results_dir_name` are not modelled.
- `check_input_correlation_list` and `set_processing_parameters`: their type-name checks are Dafny typing.
- `add_processing_parameters`: it depends on an interactive `input()`. `get_correlation_of_file` is not modelled because no modelled operation calls it.
- `dates_of_correlations_without_t_app`: no modelled operation calls it.
- `read_xcorrelations` and `correlations_of_station_exist`. The latter is the predicate `HasFiles` over the listing.
- Measurement.MeasureAll, Offsets.ComputeOffsets, Inversion.Sweep and Inversion.AprioriSweep: on an error the partial state is returned but not characterised beyond the error kind.
- Inversion.ClockDrift.SolveEq: when the design had to be built first, its contract says that `iteration` grows exactly on success but does not restate the new stations (BuildMatrices and SolveWith state them).
- Inversion.ClockDrift.NoCorrPerAvgDate and Inversion.ClockDrift.StationsWithFewCorrs require every latest shift to be readable and every station to have periods. The code would raise on `t_app[-1]` of the marker string, or on a missing attribute, and these crashes are modelled as preconditions.
- Inversion.ClockDrift.BuildMatrices requires the stations to be numbered by position, as `set_stations` leaves them. With other numbers the code could write outside its `np.zeros` row.
- Design.VisitGroup and Design.CollectObservations state the error case only as the failure of the specification, not its error value.
- Repository.ParseReal: infinite coordinates ("inf") have no `Num` value, so a parser that cannot represent them makes such a row raise where `float` reads it.
- Text.ParseInt: the underscores between digits and the non-ASCII digits that `int()` also accepts are not read. File-name fields are split on `_` and hold none.
