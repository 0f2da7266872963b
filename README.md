# NFL dashboard analytics, modelled in Dafny

This project models the computational core of a Streamlit dashboard for NFL
analysis and betting research. The dashboard reads tables of games and of
team-week metrics from S3. It turns them into:

- against-the-spread (ATS) and over/under records;
- situational ATS splits;
- EPA-based betting edges (EPA is expected points added per play);
- head-to-head EPA differentials, recent trends and an injury scan;
- the option lists and filters behind its selectors;
- comparison tables of team metrics and player grades.

A pandas table is a `Tables.Frame`: a set of column names and a sequence of
`Row`s. A row has one `Option` field per column the core reads, and `None`
stands for NaN or a null. Any other non-null cell is in the row's `extra` map.
`df.empty` means no rows or no columns. The `KeyError`, `ValueError` and
`IndexError` that pandas or Python raise on a missing column or a malformed
value become `Err` results, so every error path is part of the contracts.
Numbers are exact `real`s.

Modules:

- `Wrappers`: `Option`, `Result` and the error kinds.
- `Text`: the Python string operations the core relies on (`<` on `str`,
  `in`, `split`, ASCII `lower`, `str(int)`).
- `Seqs`: filtering, counting, `sorted(set(...))`, first occurrences, and a
  stable sort.
- `Tables`: rows, frames and the `team`/`team_name` column choice.
- `DataProcessor`: `utils/data_processor.py`.
- `Filters`: the pure parts of `components/filters.py`.
- `MetricsCards`: the table-building loops of `components/metrics_cards.py`.
- `DataLoader`: the value extractors of `utils/data_loader.py`.

The metrics-card renderers loop over fixed key lists and append one row per
key. They are modelled as methods with `while` loops. Each method's
postcondition ties every row to the specification functions (`Advantage`,
`GradeEdgeOf`, `InjuryStatus`), and the properties are proved about those
functions. The `st.*` calls are replaced by returning the rows, or the
placements, that would be drawn. `render_division_conference_filter` extends
a list step by step, and `render_matchup_selector` appends labels in a loop.
Both are modelled as methods. Everything else is pure and is modelled as
functions and lemmas.

Four behaviours of the code worth knowing:

- The code raises `KeyError` for a missing `season`, `week`, `team` or
  `team_name` column in several places (for example
  `utils/data_processor.py:26-27`, `:99`, `:119-121`, `:166-167`, `:307-308`
  and `components/filters.py:238`). The model returns `Err` there; it does
  not return an empty result.
- The records are built from an `ats_result` letter column, or from `score`,
  `against_score`, `spread` and `total_line`. No `spread_cover` or
  `total_cover` column is read.
- The over/under record string is always `overs-unders`, without pushes
  (`utils/data_processor.py:277-280`). The ATS string appends pushes only
  when there are some (`:128-133`).
- A comparison with NaN in the metrics table yields "Even", not "N/A",
  because `float(nan)` succeeds and every comparison with it is false
  (`components/metrics_cards.py:146-166`).

## Model

| member | source | states |
|---|---|---|
| DataProcessor.MaxPresent | utils/data_processor.py:26-27 | `Series.max()` skips missing values: the result occurs in the list and bounds every present value, and it is `None` exactly when every value is missing |
| DataProcessor.GetCurrentWeek | utils/data_processor.py:11-33 | a missing or empty table gives `(year, 1)`; a missing `season` or `week` column raises `KeyError`; all seasons NaN raises `ValueError`; otherwise the latest season, and the week after that season's latest week, held at 18, or week 1 when it has no week |
| DataProcessor.CurrentWeekBounds | utils/data_processor.py:29-33 | the current week is later than every week played in the latest season, unless the latest week has reached 18; it is 1 when no week is known, and it never exceeds 18 when the data does not |
| DataProcessor.FilterBySeasonWeek | utils/data_processor.py:36-77 | a missing or empty table is returned unchanged; an active season or week filter on a table without that column raises `KeyError`; otherwise the same columns, and exactly the rows meeting every active condition (season list, inclusive week range or week list, team list on the resolved team column), each as often as before and in order |
| DataProcessor.AtsLetter | utils/data_processor.py:109-115 | `W` exactly when `score - against_score + spread > 0`, `L` exactly when it is `< 0`, `P` when it is 0 or any input is NaN |
| DataProcessor.TotalLetter | utils/data_processor.py:260-266 | `O` exactly when `score + against_score` exceeds the line, `U` exactly when it is below it, `P` when they are equal or a value is NaN |
| DataProcessor.LetterCountsAddUp | utils/data_processor.py:121-126 | the three letter counts of a team never exceed its games, and they add up to its games when every one of its letters is one of the three |
| DataProcessor.RecordStringParses | utils/data_processor.py:128-133 | the record string reads back as the wins, losses and (for ATS, when present) pushes it was built from |
| DataProcessor.WinPct | utils/data_processor.py:135-138 | the win share `wins / (wins + losses)`, absent (NaN) exactly when both are 0, and it lies in [0, 1] |
| DataProcessor.Line | utils/data_processor.py:121-138 | a team's summary line: its games and its counts of each letter, with a well-formed record string and percentage |
| DataProcessor.Tabulate | utils/data_processor.py:121-126 | one line per team having a row, in ascending team order as `groupby` produces them, each line computed from that team's rows |
| DataProcessor.TeamScope | utils/data_processor.py:98-99 | a non-empty `team` keeps exactly that team's rows, in order, and raises `KeyError` without a `team` column; otherwise all rows |
| DataProcessor.AtsLabeling | utils/data_processor.py:108-118 | the letters are recomputed when `spread`, `score` and `against_score` exist, the stored `ats_result` is used otherwise, and there is no record when neither is available |
| DataProcessor.SortedSummary | utils/data_processor.py:140 | after the descending sort on the percentage the lines are the same lines, NaN percentages last, no team twice |
| DataProcessor.ComputedLettersAddUp | utils/data_processor.py:109-126 | with recomputed letters, wins plus losses plus pushes equals games for every team |
| DataProcessor.AtsSummary | utils/data_processor.py:117-140 | the summary lists each team of the rows once, in descending percentage order, each line computed from the team's letters |
| DataProcessor.CalculateAtsRecord | utils/data_processor.py:80-142 | empty for a missing or empty table or when no letters are available; `KeyError` as in the source; otherwise well-formed lines, one per team, sorted by percentage, each line's games, wins, losses and pushes being the counts of that team's result letters among the team-scoped rows |
| DataProcessor.AtsCountsGames | utils/data_processor.py:109-126 | a team's wins, losses and pushes are the numbers of its rows whose cover margin is positive, negative, or zero or NaN, and its games are its rows |
| DataProcessor.CalculateOverUnderRecord | utils/data_processor.py:239-289 | as the ATS record, over `O`/`U`/`P` letters from the totals; the team lines are in ascending order, each line's games, overs, unders and pushes are the counts of that team's letters among the team-scoped rows, the string is `overs-unders`, and overs, unders and pushes add up to games |
| DataProcessor.OverUnderCountsGames | utils/data_processor.py:259-275 | a team's overs, unders and pushes are the numbers of its rows whose points total is above, below, or equal to or not comparable with the total line, and its games are its rows |
| DataProcessor.AtsFailsByColumns | utils/data_processor.py:80-142 | the ATS record of a non-empty table fails exactly when letters are available but neither team column is |
| DataProcessor.SplitRecord | utils/data_processor.py:224-234 | a situational split exists exactly when its column exists, and it is the ATS record of the rows in that situation |
| DataProcessor.StoredLettersSameRecord | utils/data_processor.py:206-213 | storing the recomputed letters first, as `calculate_situational_ats` does, leaves the ATS record unchanged |
| DataProcessor.CalculateSituationalAts | utils/data_processor.py:190-236 | empty for a missing or empty table; it fails exactly when the overall ATS record fails, and with `KeyError('team_name')` |
| DataProcessor.SituationalOverall | utils/data_processor.py:218 | the overall entry is the ATS record of the whole table |
| DataProcessor.SituationalSplit | utils/data_processor.py:224-234 | each split (favourite when `spread < 0`, underdog when `spread > 0`, divisional when `div_game` is true) is present exactly when its column is, and is the ATS record of those rows |
| DataProcessor.SplitTeams | utils/data_processor.py:224-234 | the teams of a split are exactly the teams having a row in that situation |
| DataProcessor.RankCounts | utils/data_processor.py:175-178 | rank counting: fewer values rank ahead of a value than of any value worse than it, and counts stay within the present values |
| DataProcessor.RankBounds | utils/data_processor.py:175-178 | the average rank of a value that occurs lies between 1 and the number of present values |
| DataProcessor.RankOrder | utils/data_processor.py:175-178 | a value better in the ranking direction gets a strictly smaller average rank |
| DataProcessor.CalculateBettingEdges | utils/data_processor.py:145-187 | empty when either table is `None`; `KeyError` without `season` or `week`; otherwise exactly the previous week's rows, each with offensive rank (highest EPA first), defensive rank (lowest EPA first) and their mean as edge score where the columns and values exist, sorted by ascending edge score with NaN last when both columns exist, and in the previous week's row order otherwise |
| DataProcessor.EdgeRanksBounded | utils/data_processor.py:174-184 | every offensive and defensive rank lies between 1 and the number of rows returned |
| DataProcessor.EdgeScoreOrder | utils/data_processor.py:174-184 | teams with equal offensive and defensive EPA get equal edge scores; a team better in both gets a strictly lower edge score |
| DataProcessor.LatestRow | utils/data_processor.py:371 | `sort_values('week', ascending=False).head(1)`: no row exactly for no candidates, else a row with the largest week among them |
| DataProcessor.CalculateEpaDifferential | utils/data_processor.py:347-402 | empty for a missing or empty table or when either team has no row of the season up to the week; `KeyError` without a team, `season` or `week` column; otherwise `off_epa_diff = off1 - off2` and `def_epa_diff = def2 - def1` from each team's latest row, each present exactly when its column is, and `total_epa_edge` their sum exactly when both are present |
| DataProcessor.RowDifferentialSwap | utils/data_processor.py:384-400 | swapping the two rows negates every differential |
| DataProcessor.EpaDifferentialSwap | utils/data_processor.py:347-402 | swapping the two teams negates all three differentials and keeps which are present |
| DataProcessor.GetTeamTrends | utils/data_processor.py:292-316 | empty for a missing or empty table; `KeyError` without a team, `season` or `week` column; otherwise the same columns and `head(n)` rows (n of them, all but the last -n for a negative n) drawn from the team's rows, in descending (season, week) order, none older than a row left out |
| DataProcessor.HeadFacts | utils/data_processor.py:311-314 | the first k rows of the sorted team rows are k of the team's rows, still sorted, and none sorts after a row that was dropped |
| DataProcessor.IdentifyInjuryImpacts | utils/data_processor.py:319-344 | empty for a missing or empty table or when no column name contains `injury` in any case; otherwise the same columns and exactly the rows with a non-null cell in some injury column, in order |
| Filters.TeamSelectorIndex | components/filters.py:24-44 | no selector for an empty list; otherwise index 0, or the first position of a non-empty default that is in the list |
| Filters.SeasonSelectorIndex | components/filters.py:60-73 | no selector for an empty list; otherwise index 0, or the first position of a non-zero default that is in the list |
| Filters.WeekSelectorIndex | components/filters.py:91-112 | no selector for an empty list; otherwise a valid index into the options, namely the first position of a truthy default among them, else 0 |
| Filters.WeekSelection | components/filters.py:95-116 | choosing "All Weeks" (the first option when offered) returns `None`, and any other option returns its week |
| Filters.GroupOptions | components/filters.py:178-185 | `sorted(unique(dropna))` of the conference or division column: strictly ascending, exactly the values present, empty without the column |
| Filters.DivisionConferenceOptions | components/filters.py:175-185 | the options are "All Teams", then the sorted conferences, then the sorted divisions; so the first option is "All Teams", and the two groups after it are each strictly ascending and hold exactly the conferences and divisions of the table |
| Filters.ApplyDivisionConferenceFilter | components/filters.py:192-217 | `None`, "All Teams" or a `None` table give the table back; a value matching a conference keeps exactly those rows, else one matching a division keeps those; an unmatched value gives the table back unfiltered; columns and row order are kept |
| Filters.GroupFilterKeepsAll | components/filters.py:211-215 | filtering rows that all match keeps them all |
| Filters.ApplyFilterIdempotent | components/filters.py:192-217 | applying the same filter twice gives the result of applying it once |
| Filters.ParseMatchup | components/filters.py:259-265 | an empty selection gives no teams; a selection without " @ " raises `IndexError`; otherwise away is the text before the first " @ ", and home is what follows it, cut at the next " @ " and then at the first " (Week "; so away holds no " @ " and home neither " @ " nor " (Week " |
| Filters.MatchupRoundTrip | components/filters.py:250-265 | a label built from an away and a home name parses back to (home, away) when neither name holds the separator it is split on or ends with a prefix of it |
| Filters.AwayEndingInAtMisparses | components/filters.py:251-263 | away "A @" at home "B" parses back as home "@ B", away "A", though neither name contains " @ " |
| Filters.HomeEndingInWeekCut | components/filters.py:251-264 | a home name ending in " (Week" loses that ending in the round trip |
| Filters.HomeEndingInWeekMisparses | components/filters.py:251-264 | home "B (Week" parses back as "B", though it contains neither separator |
| Filters.MatchupOptions | components/filters.py:233-252 | empty for a missing or empty table or when no game is selected; `KeyError` without `season`, without `week` when a week is given, or without `home_team`, `away_team` or `week`; `ValueError` exactly when some selected game has no week; otherwise one label per distinct (home, away, week) in first-occurrence order |
| Filters.MatchupOptionSelects | components/filters.py:248-265 | choosing a label of a game with well-formed names returns that game's home and away team |
| MetricsCards.HigherIsBetterKey | components/metrics_cards.py:151 | a lowercase key lacking "allowed", "against" and "defensive" is compared higher-is-better |
| MetricsCards.LowerIsBetterKey | components/metrics_cards.py:151 | a lowercase key holding one of the three words is compared lower-is-better |
| MetricsCards.MetricDirections | components/metrics_cards.py:128-151 | of the eight table metrics, points allowed, defensive EPA and the opponents' defensive EPA are lower-is-better; the other five are higher-is-better |
| MetricsCards.Advantage | components/metrics_cards.py:145-170 | "N/A" exactly when a side is not a number; team A or team B exactly when its number is strictly better in the metric's direction; "Even" exactly for equal numbers or a NaN side |
| MetricsCards.AdvantageSwap | components/metrics_cards.py:145-170 | swapping the teams swaps the verdict |
| MetricsCards.MetricsComparison | components/metrics_cards.py:128-181 | one row per metric in table order: its label, both teams' values (`'N/A'` when missing) and the advantage decided for them |
| MetricsCards.GradeOf | components/metrics_cards.py:214-221 | a missing, `None` or NaN grade counts as 0 |
| MetricsCards.GradeCellOf | components/metrics_cards.py:234-235 | a grade cell reads "N/A" exactly when the defaulted grade is 0 |
| MetricsCards.GradeEdgeOf | components/metrics_cards.py:223-230 | a positive `a - b` credits team A with it, a negative one credits team B with its absolute value, and 0 is "Even" |
| MetricsCards.GradeEdgeSwap | components/metrics_cards.py:223-230 | swapping the teams credits the other team by the same margin |
| MetricsCards.PlayerGradesComparison | components/metrics_cards.py:197-237 | one row per position group in the fixed eleven-group order, with both grade cells and the edge of the defaulted grades |
| MetricsCards.InjuryStatus | components/metrics_cards.py:277-293 | the five bands of `weekly - healthy`: below -3 Major Impact, [-3, 0) Minor Impact, 0 No Change, (0, 3] Slight Upgrade, above 3 Upgrade; exactly one applies |
| MetricsCards.InjuryStatusMonotone | components/metrics_cards.py:279-293 | a larger difference never falls in a worse band |
| MetricsCards.InjuryImpactTable | components/metrics_cards.py:251-301 | one row per position group in order, with both grade cells, the difference weekly minus healthy and its band |
| MetricsCards.InjuryRowMeaning | components/metrics_cards.py:277-293 | equal grades give No Change; a drop of more than 3 is exactly a Major Impact; a gain is exactly a band above No Change |
| MetricsCards.TeamStatsTable | components/metrics_cards.py:314-337 | one row per stat in order, its label and value, `'N/A'` for a missing stat |
| MetricsCards.KeyMetricsLayout | components/metrics_cards.py:18-26 | `IndexError` exactly when some tuple value has fewer than two elements; otherwise item i is drawn in column `i % cols` with its label, a tuple split into value and delta and a plain value without delta |
| DataLoader.AvailableTeams | utils/data_loader.py:270-289 | empty for a `None` table or one without `team` and `team_name`; otherwise strictly ascending, and exactly the non-null values of `team` or, without it, of `team_name` |
| DataLoader.TeamColumnPreferred | utils/data_loader.py:283 | when a `team` column exists the list is drawn from it, even if `team_name` exists too |
| DataLoader.AvailableTeamsDistinct | utils/data_loader.py:286-287 | no team appears twice |
| DataLoader.AvailableTeamsCanonical | utils/data_loader.py:286-287 | any strictly ascending list of exactly those teams is the team list |
| DataLoader.AvailableSeasons | utils/data_loader.py:292-306 | empty for a `None` table or one without `season`; otherwise strictly ascending and exactly the non-null seasons |
| DataLoader.SeasonRows | utils/data_loader.py:321 | all rows without a season, else exactly the rows of that season |
| DataLoader.AvailableWeeks | utils/data_loader.py:309-325 | empty for a `None` table or one without `week`; `KeyError` exactly when a season is given and there is no `season` column; otherwise strictly ascending and exactly the non-null weeks of the selected rows |
| DataLoader.WeeksOfSeasonNarrow | utils/data_loader.py:309-325 | a week offered for a season is offered without a season too, and that season is among the available seasons |

## Left out

- Loading from S3, the retries with backoff, Streamlit caching and the
  `pd.to_numeric`/`to_datetime` coercions (`utils/data_loader.py:19-267`):
  these are I/O and library calls.
- All Streamlit rendering: the page scripts, the plotting module, the
  team header and comparison cards, and the `st.*` widget calls. The
  selectors are modelled by their option lists, default indexes and
  returned values. The multiselect branch of the team selector returns the
  widget's own value, so it is not modelled.
- `utils/data_processor.py:21-23` reads the year from the clock. The model
  takes the year as a parameter.
- Rounding and number formatting: `.round(3)` on percentages, and `:.1f`,
  `:.2f` and `:+.1f` in the metrics tables. Cells hold exact values.
- pandas' `sort_values` sorts with an unstable quicksort. The model uses a
  stable insertion sort, so its contracts claim only the order and the
  permutation; the order of ties is not modelled.
- `str.lower()` is modelled on ASCII letters only.
- Seasons and weeks are modelled as integers. The `int()` truncation of
  float-typed columns, and any duplicates it could create, are not modelled.
- Parameters the source ignores are not modelled: `location` of
  `calculate_ats_record` and `depth_charts` of `identify_injury_impacts`.
- Filters.MissingMatchupColumn: selecting `matchups[['home_team',
  'away_team', 'week']]` (`components/filters.py:249`) raises a `KeyError`
  that lists every missing column. The model's `KeyError` carries only the
  first missing one of `home_team`, `away_team`, `week`, because the error
  text beyond which selection failed is not modelled. Where the source reads
  single columns one after another, the model names the column that fails
  first, as the source does.
- MetricsCards.Advantage: a string value in a metrics dictionary is treated
  as not numeric. `float("3.5")` would parse it; number parsing from text is
  not modelled.
- MetricsCards.MetricsComparison: the table is keyed by the team names, so
  a team named "Metric" or "Advantage", or two equal team names, would
  merge columns. The rows are modelled as records with fixed fields.
- MetricsCards.GradeOf: grades are numbers or missing. A text grade would
  make the subtraction raise `TypeError`, and is not modelled.
- MetricsCards.InjuryImpactTable: the status colour the source computes is
  never displayed, so it is not modelled.
- Filters.MatchupRoundTrip: it requires more than "neither name contains
  ' @ ' or ' (Week '". An away name ending in " @", or a home name ending in
  " @" or " (Week", does not survive the round trip.
  `Filters.AwayEndingInAtMisparses` and `Filters.HomeEndingInWeekMisparses`
  exhibit this.

