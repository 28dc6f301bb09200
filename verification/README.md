# Poll tracking and survey table, modelled in Dafny

This project models two parts of a campaign dashboard.

1. **The tactical-tracking chart** (`TacticalTracking.tsx`). Poll rows (date, candidate, percentage) are:
   - sorted by date;
   - grouped by their exact date string;
   - averaged per candidate within each date, with a missing percentage counting as 0;
   - rescaled so that each date's averages add up to 100.

   Three things are then read from the per-date shares:
   - the chart: one line for the own candidate, with every spelling of the name merged into it; one line per opponent; one line for the "NO SABE/NO CONTESTÓ" answer;
   - the latest own share;
   - the own candidate's average over all dates.

2. **The survey table** (`EncuestasTable.tsx`). Its state holds three lists: surveys, adversaries, and news updates about adversaries. The state changes through:
   - three add handlers, which put the created record first when the post succeeds;
   - three delete handlers, where deleting an adversary also deletes its updates.

   The table also shows the updates newest first, maps an update's `tipo` to an icon, a colour and a label, and has its own, stricter test for the own candidate's name.

Modules:
- `Seqs`:
  - `Array.from(new Set(xs))` as `Dedup`, `filter` as `Filter`, and `indexOf`;
  - sums over exact reals: a list sum, and a sum at the keys of a map.
- `Sorting`: a stable sort by an integer key. `Array.prototype.sort` is stable, so its result is determined.
- `Text`: `trim()`, `replace(/\s+/g, " ")` and `toLowerCase()`.
- `Aliases`: both own-candidate tests.
- `Tracking`: a JavaScript object as an insertion-ordered dictionary (`Obj`), and the pipeline from rows to per-date shares (`Days`).
- `Series`: the chart, the latest value and the average.
- `Surveys`: the table's state machine.
- `Wrappers`: `Option`.

Inputs the code receives from outside become parameters:
- a date string's timestamp is a function `ts: string -> int`;
- a POST outcome is `Response.Ok(record)` or `Response.Fail`;
- a DELETE outcome is its status code.

Three behaviours of the code worth noting:
- **Unparsable dates.** The code does not drop a row whose date cannot be parsed. The row gets its own bucket, and the sort compares it as NaN.
- **Blank labels.** The code does not exclude a label that trims to the empty string from the opponents. `Series.BlankNameIsOpponent` proves that such a label is an opponent.
- **The own average.** It is 0 unless some date gives the *own* candidate a positive value. Whether the date's total is zero does not decide it.

## Model

| member | source | states |
|---|---|---|
| Tracking.SortByDate | src/components/TacticalTracking.tsx:95-97 | the sorted rows are a permutation of the input and are non-decreasing in the date's timestamp |
| Tracking.SortByDateIsTheStableSort | src/components/TacticalTracking.tsx:95-97 | any ordering that is non-decreasing in timestamp and keeps each timestamp's rows in input order is exactly the sorted result |
| Sorting.StableSortIsUnique | src/components/TacticalTracking.tsx:95-97 | a sorted sequence with the same rows of every key, in the same order, as the input is the stable sort of the input |
| Tracking.GroupByDateKeys | src/components/TacticalTracking.tsx:100-104 | the grouping is a well-formed object whose keys are the distinct dates, in order of first appearance |
| Tracking.GroupByDateBuckets | src/components/TacticalTracking.tsx:100-104 | each date's bucket holds exactly the rows with that date string, in their order |
| Tracking.GroupingIsAPermutation | src/components/TacticalTracking.tsx:100-104 | concatenating the buckets in key order gives every row exactly as many times as the input has it |
| Tracking.SortedBucketsConcatenate | src/components/TacticalTracking.tsx:95-104 | when distinct dates have distinct timestamps, concatenating the buckets of the sorted rows gives the sorted rows back |
| Tracking.SharedTimestampRegroups | src/components/TacticalTracking.tsx:95-104 | the hypothesis above is needed: with two dates that share a timestamp, the rows [d1, d2, d1] stay as they are after the sort and the buckets give [d1, d1, d2] |
| Tracking.FlattenOfContiguous | src/components/TacticalTracking.tsx:100-104 | when rows of the same date stand together, the buckets concatenated in key order are the rows themselves |
| Tracking.DatesInChronologicalOrder | src/components/TacticalTracking.tsx:95-104 | after sorting, the date keys come out in non-decreasing timestamp order |
| Tracking.GroupByDate | src/components/TacticalTracking.tsx:100-104 | the date buckets; specified by Tracking.GroupByDateKeys, Tracking.GroupByDateBuckets and Tracking.GroupingIsAPermutation |
| Tracking.AveragesContents | src/components/TacticalTracking.tsx:109-116 | the averaged candidates are the distinct candidates of the bucket, in first-appearance order, each with the mean of its percentages (missing as 0) |
| Tracking.AverageOfCandidate | src/components/TacticalTracking.tsx:111-116 | every averaged candidate has at least one share; its value times the number of shares equals their sum; a single share is its own average, so duplicates are averaged, not summed |
| Tracking.MeanBounds | src/components/TacticalTracking.tsx:113-115 | the mean of values within [lo, hi] lies within [lo, hi] |
| Tracking.Mean | src/components/TacticalTracking.tsx:113-115 | an empty list averages to 0; otherwise the mean times the count is the sum |
| Tracking.AveragesNonNegative | src/components/TacticalTracking.tsx:112-116 | with no negative percentage, no average is negative |
| Tracking.AssignContents | src/components/TacticalTracking.tsx:110-116 | assigning along distinct keys into a fresh object gives exactly those keys, in order, each with its value |
| Tracking.Averages | src/components/TacticalTracking.tsx:109-116 | the per-candidate averages of one date; specified by Tracking.AveragesContents, Tracking.AverageOfCandidate and Tracking.AveragesNonNegative |
| Tracking.Put | src/components/TacticalTracking.tsx:102-103 | writing a key keeps the object well-formed, stores the value and changes no other key |
| Tracking.NormalizeAt | src/components/TacticalTracking.tsx:121-122 | each normalised value is value / total * 100 when the total is positive, otherwise 0 |
| Tracking.NormalizeScales | src/components/TacticalTracking.tsx:118-123 | normalising keeps the keys and their order and multiplies every value by one common factor |
| Tracking.NormalizeTotal | src/components/TacticalTracking.tsx:118-123 | the normalised values add up to exactly 100 when the total was positive and to 0 otherwise |
| Tracking.NormalizeRange | src/components/TacticalTracking.tsx:118-123 | with no negative value, every normalised value lies in [0, 100] |
| Tracking.NormalizeKeepsRatios | src/components/TacticalTracking.tsx:122 | normalising keeps the ratio between any two candidates' values |
| Tracking.Normalize | src/components/TacticalTracking.tsx:118-123 | the rescaling to 100; specified by Tracking.NormalizeAt, Tracking.NormalizeScales, Tracking.NormalizeTotal, Tracking.NormalizeRange and Tracking.NormalizeKeepsRatios |
| Tracking.DaysAt | src/components/TacticalTracking.tsx:107-125 | there is one day per distinct date, in order, and each day holds the normalised averages of exactly that date's sorted rows |
| Tracking.DayShares | src/components/TacticalTracking.tsx:107-125 | each day's shares form a well-formed object; they add up to 100 when the averages of that date's rows add up to more than 0, and to 0 otherwise |
| Tracking.DaySharesInRange | src/components/TacticalTracking.tsx:107-125 | with no negative percentage in the input, every share of every day lies in [0, 100] |
| Tracking.Days | src/components/TacticalTracking.tsx:107-125 | the per-date shares; specified by Tracking.DaysAt, Tracking.DayShares and Tracking.DaySharesInRange |
| Aliases.IsOwnCandidateCharacterization | src/components/TacticalTracking.tsx:128-138 | a name is an alias exactly when it is non-empty and its canonical form is "candidato propio" or mentions "reyes" together with "manfred" or "mandfred" |
| Aliases.IsOwnCandidateIgnoresCase | src/components/TacticalTracking.tsx:131 | names that lower-case alike are judged alike |
| Aliases.IsOwnCandidateIgnoresSurroundingSpace | src/components/TacticalTracking.tsx:131 | white space around a name does not change the verdict |
| Aliases.IsOwnCandidateIgnoresRepeatedSpace | src/components/TacticalTracking.tsx:131 | any run of white space inside a name counts as one space |
| Aliases.IsOwnCandidateAcceptsMention | src/components/TacticalTracking.tsx:135-136 | a name whose lower-cased form contains "reyes" and "manfred" or "mandfred" anywhere is accepted |
| Aliases.OwnLabelIsOwnCandidate | src/components/TacticalTracking.tsx:134 | "CANDIDATO PROPIO" and "candidato propio" are accepted |
| Aliases.BlankIsNotOwnCandidate | src/components/TacticalTracking.tsx:129-131 | a name of white space only, the empty one included, has an empty canonical form and is rejected |
| Aliases.NotOwnWithout | src/components/TacticalTracking.tsx:128-138 | a name lacking, in either case, some letter of "reyes" and some letter of "candidato propio" is rejected |
| Aliases.IsOwnCandidate | src/components/TacticalTracking.tsx:128-138 | the chart's own-candidate test; specified by Aliases.IsOwnCandidateCharacterization and the lemmas on case, space and mentions |
| Aliases.CanonicalIdempotent | src/components/TacticalTracking.tsx:131 | trimming, collapsing and lower-casing a canonical form changes nothing, so a name and its canonical form are judged alike |
| Aliases.StrictImpliesLoose | src/components/encuestas/EncuestasTable.tsx:249-252 | every name the survey table's test accepts is also accepted by the chart's test |
| Aliases.StrictIsStricter | src/components/encuestas/EncuestasTable.tsx:249-252 | every name that trims and lower-cases to "manfred reyes" ("Manfred Reyes", say) is accepted by the chart's test and rejected by the survey table's |
| Aliases.IsOwnCandidateStrict | src/components/encuestas/EncuestasTable.tsx:249-252 | the survey table's own-candidate test; specified by Aliases.StrictImpliesLoose and Aliases.StrictIsStricter |
| Series.OwnTotalBounds | src/components/TacticalTracking.tsx:180-187 | with no negative share, the own candidate's merged value lies between 0 and the date's total |
| Series.OwnTotalCountsEveryAlias | src/components/TacticalTracking.tsx:183-185 | with no negative share, no alias's share exceeds the own value |
| Series.OwnTotalSplitsAtAlias | src/components/TacticalTracking.tsx:182-186 | the own value is the share of any one alias present plus the shares of the other aliases, so every alias contributes its whole share: aliases are summed, not overwritten |
| Series.OwnTotalWithoutAlias | src/components/TacticalTracking.tsx:182-186 | a date without any alias gives the own candidate 0 |
| Series.OwnTotalOfSingleAlias | src/components/TacticalTracking.tsx:182-186 | a date with exactly one alias gives the own candidate that alias's share |
| Series.MergeAfterNormalizing | src/components/TacticalTracking.tsx:118-123 | for any kind of name, adding up the normalised shares of those names gives their added-up averages over the date's total times 100, or 0 when the total is not positive |
| Series.CandidateData | src/components/TacticalTracking.tsx:178-191 | one value per date: the merged own value for "CANDIDATO PROPIO", else the share, 0 when missing; specified by Series.LinesColumn, Series.ColumnTotal, Series.LatestIsLastOfSeries and the Series.OwnTotal lemmas |
| Series.AllNamesMembers | src/components/TacticalTracking.tsx:144 | the flattened names are exactly the keys found on some date |
| Series.OpponentsMembers | src/components/TacticalTracking.tsx:141-147 | the opponents are distinct and are exactly the names on some date that are neither an alias nor the undecided answer |
| Series.OpponentsInFirstAppearanceOrder | src/components/TacticalTracking.tsx:141-147 | the opponents are listed in order of first appearance across the dates |
| Series.OpponentsExcludeLabels | src/components/TacticalTracking.tsx:145 | neither "CANDIDATO PROPIO" nor "NO SABE/NO CONTESTÓ" is ever an opponent |
| Series.UndecidedIsNotOwn | src/components/TacticalTracking.tsx:145 | the undecided answer is not taken for an alias |
| Series.BlankNameIsOpponent | src/components/TacticalTracking.tsx:141-147 | a blank label is kept as an opponent |
| Series.Opponents | src/components/TacticalTracking.tsx:141-147 | the opponent names; specified by Series.OpponentsMembers, Series.OpponentsInFirstAppearanceOrder, Series.OpponentsExcludeLabels and Series.BlankNameIsOpponent |
| Series.ChartShape | src/components/TacticalTracking.tsx:193-249 | the lines are the own line, the opponents in order, then the undecided line; each line holds its label's series, with one value per date |
| Series.ChartLabelsDistinct | src/components/TacticalTracking.tsx:196-246 | no two lines of the chart share a label |
| Series.BuildChart | src/components/TacticalTracking.tsx:193-249 | one column label per date and one line per opponent plus the own and undecided lines; the lines are specified by Series.ChartShape and Series.ColumnTotal |
| Series.LinesAt | src/components/TacticalTracking.tsx:219-221 | the line for a name carries that name's series |
| Series.LinesColumn | src/components/TacticalTracking.tsx:188-190 | in any column, the lines of names other than "CANDIDATO PROPIO" add up to those names' shares on that date, a missing name counting 0 |
| Series.DayPartition | src/components/TacticalTracking.tsx:141-147 | one date's total splits into the own value, the listed opponents' shares and the undecided share |
| Series.ColumnTotal | src/components/TacticalTracking.tsx:193-249 | in each column, the chart's lines add up to that date's total |
| Series.ChartColumnsAddUp | src/components/TacticalTracking.tsx:107-249 | in each column of the chart built from the rows, the lines add up to 100 when the averages of that date's rows add up to more than 0, and to 0 otherwise |
| Series.OwnShareInRange | src/components/TacticalTracking.tsx:178-187 | with no negative percentage, the own value on every date lies in [0, 100] |
| Series.LatestIsLastOfSeries | src/components/TacticalTracking.tsx:357-371 | the latest value is 0 without dates and otherwise the last point of the name's series |
| Series.LatestOwnInRange | src/components/TacticalTracking.tsx:357-371 | with no negative percentage, the latest own value lies in [0, 100] |
| Series.Latest | src/components/TacticalTracking.tsx:357-371 | the latest value of a name; specified by Series.LatestIsLastOfSeries and Series.LatestOwnInRange |
| Series.OwnAverage | src/components/TacticalTracking.tsx:415-425 | the average is 0 when no date gives the own candidate a positive value; otherwise it is the mean of the own series |
| Series.OwnAverageInRange | src/components/TacticalTracking.tsx:422-425 | own values within [0, 100] give an average within [0, 100] |
| Series.OwnAverageOfRowsInRange | src/components/TacticalTracking.tsx:415-425 | with no negative percentage in the rows, the own average lies in [0, 100] |
| Surveys.AddAdversary | src/components/encuestas/EncuestasTable.tsx:92-107 | on success the created adversary comes first and the old list follows unchanged; on failure nothing changes |
| Surveys.AddSurvey | src/components/encuestas/EncuestasTable.tsx:137-152 | on success the created survey comes first and the old list follows unchanged; on failure nothing changes |
| Surveys.FindAdversary | src/components/encuestas/EncuestasTable.tsx:112 | finds nothing exactly when no adversary has the id, and otherwise the first adversary that has it |
| Surveys.UpdatePayload | src/components/encuestas/EncuestasTable.tsx:112-118 | no payload for an unknown adversary; otherwise the draft's fields plus the found adversary's name |
| Surveys.AddUpdate | src/components/encuestas/EncuestasTable.tsx:109-135 | an unknown adversary or a failed post changes nothing; otherwise the created update comes first and the old list follows |
| Surveys.SucceededIsOk | src/components/encuestas/EncuestasTable.tsx:156 | the `status === 204` test is redundant: success is exactly a 2xx status |
| Surveys.DeleteAdversary | src/components/encuestas/EncuestasTable.tsx:154-162 | on success exactly the adversaries with other ids remain, and exactly the updates about other adversaries; on failure nothing changes |
| Surveys.DeleteUpdate | src/components/encuestas/EncuestasTable.tsx:164-171 | on success exactly the updates with other ids remain, the other lists untouched; on failure nothing changes |
| Surveys.DeleteSurvey | src/components/encuestas/EncuestasTable.tsx:173-180 | on success exactly the surveys with other ids remain, the other lists untouched; on failure nothing changes |
| Surveys.DeleteAdversaryKeepsOthers | src/components/encuestas/EncuestasTable.tsx:157-158 | every other adversary and update is kept as many times as before, in first-appearance order, and the remaining lists are subsequences of the old ones, so each kept record stays in place |
| Surveys.DeleteUpdateAndSurveyKeepOthers | src/components/encuestas/EncuestasTable.tsx:164-180 | every other update or survey is kept as many times as before, in first-appearance order, and the remaining list is a subsequence of the old one |
| Seqs.FilterIsSubsequence | src/components/encuestas/EncuestasTable.tsx:157-158 | `filter` leaves records out and keeps the others in their places: its result is a subsequence of the list |
| Seqs.FilterIsTheOnlyFullSubsequence | src/components/encuestas/EncuestasTable.tsx:157-158 | a subsequence made only of kept records that has each kept record as many times as the list is exactly the filtered list, so the two delete lemmas above fix the result, repeated records included |
| Surveys.DeleteIdempotent | src/components/encuestas/EncuestasTable.tsx:154-180 | deleting the same id twice is the same as deleting it once |
| Surveys.AddThenDeleteAdversary | src/components/encuestas/EncuestasTable.tsx:154-158 | adding an adversary whose id no adversary or update uses, then deleting it, restores the state |
| Surveys.AddThenDeleteSurvey | src/components/encuestas/EncuestasTable.tsx:173-180 | adding a survey with a fresh id, then deleting it, restores the state |
| Surveys.AddThenDeleteUpdate | src/components/encuestas/EncuestasTable.tsx:164-171 | adding an update with a fresh id, then deleting it, restores the state |
| Surveys.AddAdversaryKeepsIntegrity | src/components/encuestas/EncuestasTable.tsx:98-103 | adding an adversary keeps every update tied to an existing adversary |
| Surveys.AddUpdateKeepsIntegrity | src/components/encuestas/EncuestasTable.tsx:112-131 | adding an update keeps integrity, provided the server echoes the posted adversary id |
| Surveys.AddSurveyKeepsIntegrity | src/components/encuestas/EncuestasTable.tsx:143-148 | adding a survey keeps integrity |
| Surveys.DeleteAdversaryKeepsIntegrity | src/components/encuestas/EncuestasTable.tsx:156-158 | deleting an adversary keeps integrity, because its updates go with it |
| Surveys.DeleteUpdateKeepsIntegrity | src/components/encuestas/EncuestasTable.tsx:166-167 | deleting an update keeps integrity |
| Surveys.DeleteSurveyKeepsIntegrity | src/components/encuestas/EncuestasTable.tsx:175-176 | deleting a survey keeps integrity |
| Surveys.RunKeepsIntegrity | src/components/encuestas/EncuestasTable.tsx:92-180 | any sequence of handlers keeps integrity, provided the server echoes the adversary ids it is sent |
| Surveys.Step | src/components/encuestas/EncuestasTable.tsx:92-180 | one handler applied to the state; specified by the add and delete lemmas and the integrity lemmas |
| Surveys.Run | src/components/encuestas/EncuestasTable.tsx:92-180 | handlers applied one after another; specified by Surveys.RunKeepsIntegrity |
| Surveys.IntegrityNeedsEcho | src/components/encuestas/EncuestasTable.tsx:126-131 | a server reply that names another adversary breaks integrity |
| Surveys.NewestFirst | src/components/encuestas/EncuestasTable.tsx:244-246 | a permutation of the updates, newest first, that keeps updates of equal time in list order |
| Surveys.NewestFirstIsUnique | src/components/encuestas/EncuestasTable.tsx:244-246 | any newest-first arrangement that keeps ties in list order is exactly this one |
| Surveys.UnknownKindIsNeutral | src/components/encuestas/EncuestasTable.tsx:205-242 | any `tipo` other than "positiva" and "negativa" gets the neutral icon, colour and label |
| Surveys.ToneOf | src/components/encuestas/EncuestasTable.tsx:205-242 | the three tones a `tipo` falls into; the icon, colour and label depend on the tone alone, as the lemmas below state |
| Surveys.KindIcon | src/components/encuestas/EncuestasTable.tsx:205-216 | `getTipoIcon`; specified by Surveys.KindIconFollowsTone and Surveys.UnknownKindIsNeutral |
| Surveys.KindColor | src/components/encuestas/EncuestasTable.tsx:218-229 | `getTipoColor`; specified by Surveys.KindColorFollowsTone and Surveys.UnknownKindIsNeutral |
| Surveys.KindLabel | src/components/encuestas/EncuestasTable.tsx:231-242 | `getTipoLabel`; specified by Surveys.KindLabelFollowsTone and Surveys.UnknownKindIsNeutral |
| Surveys.KindLabelFollowsTone | src/components/encuestas/EncuestasTable.tsx:231-242 | two kinds get the same label exactly when they have the same tone |
| Surveys.KindColorFollowsTone | src/components/encuestas/EncuestasTable.tsx:218-229 | two kinds get the same colour exactly when they have the same tone |
| Surveys.KindIconFollowsTone | src/components/encuestas/EncuestasTable.tsx:205-216 | two kinds get the same icon exactly when they have the same tone |

## Left out

- Fetching, `useEffect`/`useState` wiring, JSON decoding and `alert`. The initial lists loaded from the server are arbitrary states. Integrity is proved to be preserved from a state that has it, not established at load time.
- Handlers that overlap in time. Each handler reads the lists as they were when it was created. The model runs handlers one after another, each on the state the previous one left.
- `new Date(...)` and date parsing. Timestamps come from the parameter `ts`, and creation times are integers. A NaN comparator result, which makes the sort's order implementation-defined, is not modelled.
- Locale formatting: `formatDate`, `formatPercentage`, `formatFechaCreacion` and `formatFechaEvento`. `../utils/data` is not part of this model. `Series.BuildChart` labels the columns with the raw date strings.
- `mesesUnicos` and `getPropioPorMes`. Both are locale-dependent month grouping, and the render does not use them.
- `getVariance`, whose results feed only the commented-out variance cards.
- `randomColor`, which is random, and all Chart.js styling and options.
- The `trend` field of `getLatestData`, which is always "up".
- The summary cards and the dummy tables of the survey table.
- The presentational components other than the two modelled files.
- Floating-point rounding. Percentages are exact reals, so "adds up to 100" holds exactly only in the model.
- NaN and percentages that arrive as strings. The model reads a percentage as a number or as missing.
- `Text.LowerChar`: does not model Unicode case mapping, only ASCII letters. The white-space class is the full set that ECMAScript's `trim` and `\s` use.
- JavaScript's reordering of integer-like object keys, and inherited keys such as "constructor". Date strings and candidate names are taken to be ordinary keys.
- `Series.OwnAverage`: the code sums the own series with a separate loop (`propioData`). The model reuses the own line of the chart, which has the same values.
