# RYP season dashboard: statistics, pick models and explanations in Dafny

This project models the computational core of a pick'em league's season-review dashboard. Thirteen players pick one side of every NFL game against the spread. The dashboard works from three tables: the games table (one row per game, with its spread, scores, ATS winner, weather and a per-player "covered" flag), the picks table (week, game, player, picked team) and team metadata (team id, conference, division). From these it derives:

- the team tables: ATS record, straight-up record and the home/away cover split;
- how often favourites cover, by spread size and by week;
- player biases: most-picked teams, how often each player takes the favourite, and the picks-above-average (PAA) matrix;
- running totals of correct picks per week, and the best and worst three-week streaks;
- the majority pick per game, the contrarian rate and the herd rate;
- a logistic model per player, trained on one-hot team features, spread, week, conference matchup and weather;
- for an imagined game, the model's pick and confidence, plus the four largest feature contributions as "reasons";
- for the leaderboard charts, the weekly scores recovered from the running totals and their three-week rolling mean.

Modules, one per file:

| file | module | models |
|---|---|---|
| seqs.dfy | Seqs | Counting, filtering, grouping, a stable insertion sort, de-duplication by key and an inner join on unique keys. These are the table operations the statistics are built from. |
| strings.dfy | Strings | Code-point string order, substring search and ASCII case folding. |
| records.dfy | Records | Games, picks, team metadata, the roster, the favourite rule and the guarded rate. |
| team_records.dfy | TeamRecords | `team_ats_record`, `team_ml_record`, `home_away_ats` |
| favorites.dfy | Favorites | `spread_impact`, `weekly_surprise`, `player_fav_underdog_rate` |
| pick_stats.dfy | PickStats | `most_picked_teams`, `paa_heatmap` |
| weekly.dfy | Weekly | `weekly_cumulative`, `hot_cold_streaks` |
| consensus.dfy | Consensus | `consensus_contrarian`, `herd_mentality` |
| features.dfy | Features | `build_features`, `train_models` (eligibility and feature order), `predict_pick` (the feature row) |
| explain.dfy | Explain | The dashboard's model pick and confidence, the explanation row, the contributions loop and the ranking of reasons. |
| score_series.dfy | ScoreSeries | Weekly scores from the cumulative table, and the rolling three-week mean. |

Conventions:

- **Spreads.** A spread is an integer count of half-points, because spreads move in steps of 0.5. A feature value is that count divided by 2.
- **Missing cells.** A missing cell is `None`.
- **Group order.** pandas groups by sorted key. Keys are strings compared by code point, or integer (week, game) pairs.
- **Sort order.** Every descending `sort_values` is modelled by a stable insertion sort. That is one of the orders pandas may produce, and each table's contract states what holds for any of them: sorted non-increasing, with exactly one row per key.
- **The classifier.** A fitted classifier is a value: its coefficients, and a function from a feature vector to the home probability. Fitting is a parameter of `TrainModels`.
- **Weekly series.** `WeeklyFromCumulative` and `Rolling3` work on one player's column; the dashboard applies them to every column alike.

## Model

| member | source | states |
|---|---|---|
| Records.Favorite | data_prep.py:94 | The favourite is the home team exactly when the spread is present and negative; otherwise it is the away team, including for a zero or missing spread. |
| Records.Rate | data_prep.py:44 | A rate of counts is 0 for an empty denominator. Otherwise it is the quotient, lies in [0, 1] when the numerator is at most the denominator, and is positive when both are. |
| Records.SortedWeeks | data_prep.py:108-111 | The distinct weeks of a table, strictly increasing, exactly the weeks some row has. |
| TeamRecords.AllTeams | data_prep.py:26-27 | Every team that appears home or away, once each, in code-point order. |
| TeamRecords.AtsRowOf | data_prep.py:28-45 | A team's games are its home plus away appearances. Wins plus losses plus pushes equal games. Wins never exceed games. The cover rate is wins over games (0 without games) and lies in [0, 1]. |
| TeamRecords.AtsLossesCounted | data_prep.py:41 | The ATS losses are exactly the games the team played whose ATS winner is neither the team nor PUSH, so they are never negative. |
| TeamRecords.TeamAtsRecord | data_prep.py:23-46 | With no team at all, the table has no column to sort by and fails (`None`). Otherwise one row per team that played, each equal to that team's record, with no team twice, ordered by non-increasing cover rate. |
| TeamRecords.MlRowOf | data_prep.py:54-66 | Straight-up games are the team's appearances; wins are at most games; the win rate is wins over games and lies in [0, 1]. |
| TeamRecords.MlLossesCounted | data_prep.py:63 | Losses are exactly the games the team did not win outright (ties and games with a missing score included), and wins plus losses equal games. |
| TeamRecords.UnscoredOrTiedIsLossForBoth | data_prep.py:56-57 | A tied game, or one with a missing score, is a win for neither team and a loss for both, because the win test is a strict `>` that is false on a missing score. |
| TeamRecords.TeamMlRecord | data_prep.py:49-67 | With no team at all, the table has no column to sort by and fails (`None`). Otherwise one row per team, each equal to its record, no team twice, ordered by non-increasing win rate. |
| TeamRecords.SplitRowOf | data_prep.py:75-85 | The home and away cover rates are covers over games on each side (0 without games) and lie in [0, 1]. |
| TeamRecords.SplitAgreesWithAts | data_prep.py:28-35 | The home/away split adds up to the ATS record: home games plus away games equal ATS games, and home covers plus away covers equal ATS wins. |
| TeamRecords.HomeAwayAts | data_prep.py:70-86 | One row per team in team order, each the team's split. |
| Favorites.GradedGames | data_prep.py:91 | Exactly the games with both a spread and an ATS winner. |
| Favorites.Bucket | data_prep.py:96 | A spread size falls in the bucket (e, e'] between consecutive edges 0, 1, 3, 5, 7, 10, 20 points. A spread of 0 or of more than 20 points falls in no bucket. |
| Favorites.BucketRowFor | data_prep.py:97-99 | A bucket's row counts the graded games in it and gives the favourite's cover rate among them. |
| Favorites.SpreadImpact | data_prep.py:89-100 | One row for each non-empty bucket, in bucket order. Each row is that bucket's row over the graded games: its game count and its favourite cover rate, in [0, 1]. |
| Favorites.SpreadImpactCountsBinnedGames | data_prep.py:96-100 | The bucket counts add up to the number of graded games that fall in some bucket. |
| Favorites.WeekRowFor | data_prep.py:108-110 | A week's row counts its graded games and gives the favourite's cover rate among them. |
| Favorites.WeeklySurprise | data_prep.py:103-111 | One row for each week that has a graded game, and no other, in increasing week order. Each row is that week's row over the graded games: its game count (positive) and its favourite cover rate, in [0, 1]. |
| Favorites.WeeklySurpriseCountsGradedGames | data_prep.py:105-111 | The weekly counts add up to the number of graded games. |
| Favorites.FavRowFor | data_prep.py:128-132 | A player's total is their number of matched picks; the favourite rate is the share of those that took the favourite. |
| Favorites.PlayerFavUnderdogRate | data_prep.py:121-133 | One row for each player with a matched pick, no player twice, ordered by non-increasing favourite rate. |
| Favorites.FavTotalCountsMatchedPicks | data_prep.py:124-127 | With one game row per key, a player's total is exactly the number of their picks whose game is in the games table. |
| PickStats.SortedKeys | data_prep.py:118 | The distinct values of a column, in code-point order. |
| PickStats.MostPickedTeams | data_prep.py:116-118 | One row per picked team with its positive pick count, no team twice, ordered by non-increasing count. |
| PickStats.MostPickedTotalsSumToPicks | data_prep.py:116-118 | The team totals add up to the number of picks. |
| PickStats.PaaHeatmap | data_prep.py:136-140 | The matrix has a row for every player who picked and a column for every picked team. Each cell is the player's pick count for the team minus the mean count over players, where an unpicked team counts 0. |
| PickStats.PaaColumnSumsToZero | data_prep.py:138-140 | Every column of the PAA matrix sums to zero over the players. |
| PickStats.RepeatedMean | data_prep.py:139 | Adding the mean n times gives back the column total. |
| Weekly.WeeklyScores | data_prep.py:145 | A player's score for each week is the number of that week's games whose pick covered. |
| Weekly.WeeklyScoreAtMostGames | data_prep.py:145 | A weekly score never exceeds the number of games that week. |
| Weekly.Cumulative | data_prep.py:146 | Entry i of the running total is the sum of the first i + 1 weekly scores. |
| Weekly.CumulativeStep | data_prep.py:146 | Each running total is the previous one plus that week's score. |
| Weekly.CumulativeNonDecreasing | data_prep.py:143-146 | Running totals of non-negative scores never decrease. |
| Weekly.CumulativeInjective | data_prep.py:146 | Two score series with the same running totals are equal. |
| Weekly.WeeklyCumulative | data_prep.py:143-146 | One column per rostered player, one entry per week: the running total of that player's weekly scores, never decreasing. |
| Weekly.CumulativeTable | data_prep.py:143-146 | For any player list: one column per listed player and no other, one entry per week, each the running total of that player's weekly scores, never decreasing. |
| Weekly.ScanWindows | data_prep.py:159-166 | The best window is the first three-week window of largest sum, with -1 and 0 when there is none. The worst is the first of smallest sum below 999, with 999 and 0 when none is below it. |
| Weekly.StreakRow | data_prep.py:156-172 | The row holds the weeks and sums of the best and worst windows found by the scan. |
| Weekly.BestAtLeastWorst | data_prep.py:159-172 | A streak row's best sum is at least its worst sum. |
| Weekly.BestUnique | data_prep.py:163-164 | The first window of largest sum is unique, so the strict comparison determines the row. |
| Weekly.HotColdStreaks | data_prep.py:149-173 | With fewer than three weeks, nothing. Otherwise one streak row per rostered player, built from that player's weekly scores. |
| Weekly.StreakTable | data_prep.py:152-172 | The loop over the players gives a row for exactly the listed players, each the best and worst window scan of that player's weekly scores. |
| Consensus.TeamCount | data_prep.py:180 | A team's pick count for a game never exceeds the number of picks for the game. |
| Consensus.CandidatesPicked | data_prep.py:180 | The teams considered for a game are exactly the teams someone picked for it. |
| Consensus.FirstMax | data_prep.py:181 | The first position holding the largest count. |
| Consensus.MajorityPick | data_prep.py:180-182 | A game without picks has no majority. Otherwise the majority team has the largest pick count, and among teams tied at that count it comes first in code-point order. |
| Consensus.PickedGames | data_prep.py:185 | The distinct (week, game) keys that have picks, in key order. |
| Consensus.MajorityOf | data_prep.py:180-187 | A game's majority row has the majority team, its count and the number of pickers, with 0 < count <= pickers. |
| Consensus.MajorityTable | data_prep.py:180-186 | One majority row per picked game, and no other. |
| Consensus.ConsensusMajority | data_prep.py:176-191 | Each row carries the game's majority pick, count and pickers. Its consensus share lies in (0, 1]. The majority counts as correct exactly when the ATS winner is the majority pick. Rows are unique per game when games are. |
| Consensus.ConsensusMajorityKeys | data_prep.py:186-190 | A game has a majority row exactly when it was picked and is in the games table. |
| Consensus.ContrarianRowOf | data_prep.py:194-208 | A player's contrarian rate is their share of picks against the majority, in [0, 1]. Their contrarian win rate is missing when they never went against it, and otherwise is the share of those picks that covered. |
| Consensus.ConsensusContrarian | data_prep.py:176-210 | Both tables: the majority table, and one contrarian row per player with a matched pick, no player twice, by non-increasing rate. |
| Consensus.HerdRowOf | data_prep.py:219-221 | A player's herd rate is the share of their picks that agree with the majority, in [0, 1]. |
| Consensus.HerdMentality | data_prep.py:213-221 | One row per player who picked, no player twice, by non-increasing herd rate. |
| Consensus.HerdCountsEveryPick | data_prep.py:219-220 | Every pick has a majority to compare against, so the herd table counts all of a player's picks and exactly those that agree. |
| Consensus.ContrarianTotalCountsMatchedPicks | data_prep.py:193-200 | With one game row per key, a player's contrarian total is exactly the number of their picks whose game is in the games table. |
| Consensus.HerdAndContrarianComplement | data_prep.py:194-220 | When every pick's game has one game row, the contrarian and herd tables count the same picks, and the disagreeing plus the agreeing picks are all of the player's picks. |
| Consensus.PickHasMajorityRow | data_prep.py:190-194 | A pick finds a majority row exactly when its game is in the games table. |
| Consensus.ContrarianCountsDisagreements | data_prep.py:194-199 | A player's contrarian count is the number of their picks, in graded games, that disagree with the majority. |
| Consensus.HerdAndContrarianRatesComplement | data_prep.py:194-220 | When every pick's game is in the games table, a player's contrarian rate and herd rate add up to 1. |
| Features.TeamSlots | ml_model.py:56-58 | The team columns come in pairs: home_T then away_T, for each team in order. |
| Features.SlotNames | ml_model.py:57-58 | A team column is never a fixed feature name. Home and away columns never coincide. Each team has its own column. |
| Features.FeatureNamesShape | ml_model.py:17-69 | 72 distinct feature names. There is a home and an away column for a team exactly when it is one of the 32 teams. |
| Features.SlotValueTeams | ml_model.py:122-123 | A team's home (away) column is 1 exactly when it is the game's home (away) team. |
| Features.UnknownTeamHasNoSlot | ml_model.py:122-123 | A team outside the 32 has no column, so its row entries are ignored by the frame. |
| Features.OneHot | ml_model.py:56-58 | Exactly one home column and one away column are set when the teams are among the 32, and none otherwise. |
| Features.Merge | ml_model.py:32-37 | The inner join of picks with one row per game: no more rows than picks, each pairing a pick with the game of the same (week, game). |
| Features.CurrentTeams | ml_model.py:43-45 | The first metadata row per team id, kept only when it has a division, with unique ids. |
| Features.ConfMap | ml_model.py:46 | The conference map has exactly the current teams as keys, each mapped to its conference. |
| Features.ConfEntries | ml_model.py:46 | A dictionary built from rows with distinct ids has exactly those ids as keys, each mapped to its row's conference. |
| Features.TrainingDefaults | ml_model.py:51-68 | A missing spread becomes 0, the spread size is its absolute value, a missing temperature 65 and a missing wind 5. |
| Features.CrossConferenceOfCurrentTeams | ml_model.py:61-63 | For two current teams, the game is same-conference exactly when both have the same known conference. |
| Features.CrossConferenceOfUnknownTeam | ml_model.py:61-63 | A game involving a team absent from the map is cross-conference. |
| Features.IndoorFlag | ml_model.py:66 | indoor is set exactly when the weather text contains "indoor" or "retractable" at some position, ignoring case; a missing text counts as empty. |
| Features.RainSnowFlag | ml_model.py:69 | rain_snow is set exactly when the weather text contains "rain" or "snow" at some position, ignoring case; a missing text counts as empty. |
| Features.PickedHome | ml_model.py:40 | The label is 1 exactly when the pick is the home team, else 0. |
| Features.BuildFeatures | ml_model.py:25-71 | The frame is the encoding of the merged rows under the conference map. The labels and the player column have one entry per merged row. |
| Features.TeamColumns | ml_model.py:56-58 | The loop adds home_T and away_T columns for each team in order, each holding the one-hot values. |
| Features.TeamColumnPair | ml_model.py:57-58 | The home_T and away_T columns built for one team are exactly the one-hot columns of the shared encoding. |
| Features.LeadingColumns | ml_model.py:51-53 | The spread, spread-size and week columns of the merged rows. |
| Features.TrailingColumns | ml_model.py:63-69 | The conference and weather columns are added after the team columns. |
| Features.CrossConferenceColumn | ml_model.py:61-63 | The column of conference lookups and comparisons equals the shared encoding's cross_conference column. |
| Features.IndoorColumn | ml_model.py:66 | The indoor column equals the shared encoding's column. |
| Features.TempColumn | ml_model.py:67 | The temperature column, missing values filled with 65, equals the shared encoding's column. |
| Features.WindColumn | ml_model.py:68 | The wind column, missing values filled with 5, equals the shared encoding's column. |
| Features.RainSnowColumn | ml_model.py:69 | The rain_snow column equals the shared encoding's column. |
| Features.Select | ml_model.py:88-90 | The entries of a column belonging to one player: as many as that player's rows. |
| Features.Slice | ml_model.py:88-89 | The player's sub-frame: same names and columns, each with that player's row count. |
| Features.RenameRaiders | ml_model.py:81 | The team id LVR becomes LV, and nothing else changes. |
| Features.TrainModels | ml_model.py:74-105 | The feature names are the 72 in training order. A rostered player gets a model exactly when they have at least 20 rows, and that model is the fit on their rows of the frame built with LVR renamed. |
| Features.FitEligible | ml_model.py:86-97 | The loop over the roster fits a model for exactly the players with at least 20 rows. |
| Features.ScenarioRow | ml_model.py:118-128 | The prediction row has every feature name plus the fixed and team names. Each value is the scenario's encoding: a team's column is 1 exactly for the scenario's teams, every other team column is 0. |
| Features.PredictPick | ml_model.py:115-132 | The returned probability is the classifier's home probability on the scenario's vector in feature order. |
| Features.TrainingRowIsPredictionRow | ml_model.py:118-130 | By the definition of the encoding, a training row's vector is the prediction vector of the scenario read off that row. The column-by-column construction is tied to that encoding by BuildFeatures and the column methods. |
| Explain.ModelPick | app.py:630-632 | The pick is home exactly when the home probability is at least 1/2. The confidence is the larger of the two probabilities, so it lies in [1/2, 1]. |
| Explain.ConfidenceIsPickedSide | app.py:630-632 | The confidence is the probability of the picked side. |
| Explain.ExplanationRow | app.py:698-708 | The explanation row is the prediction row of the scenario with temperature 65. |
| Explain.PaaNote | app.py:724-730 | A team's PAA is quoted exactly when it is in the row with size at least 1; a missing team counts 0. |
| Explain.PlayerPaaRow | app.py:711-714 | The player's PAA row, empty for a player the matrix lacks. |
| Explain.PaaNoteFromHeatmap | app.py:711-725 | A player with no picks never gets a note. For a picked team, a note appears exactly when the player's count is at least 1 from the league mean. |
| Explain.FactorOf | app.py:722-749 | Every feature is reported except temp. |
| Explain.Consider | app.py:718-749 | One pass of the loop: a contribution is produced exactly when the feature is listed (its contribution exceeds 0.01 in size and it is not temp), and it is that feature's contribution at that position. |
| Explain.TeamSlotFactor | app.py:722-731 | home_T (away_T) is reported as team T at home (on the road) with its PAA note. |
| Explain.MeasuredFeatureFactors | app.py:732-747 | spread, spread_abs, wind and week are reported as their own kind with the feature's value. |
| Explain.FlagFeatureFactors | app.py:740-745 | indoor, rain_snow and cross_conference are reported as set exactly when the value is nonzero. |
| Explain.Contributions | app.py:716-750 | Exactly the features whose contribution exceeds 0.01 in size, other than temp, in feature order, each with coefficient times value. |
| Explain.ReportedFlagsAreSet | app.py:721-745 | A reported indoor, rain/snow or conference factor is always the set one: an unset flag contributes 0. |
| Explain.Ranked | app.py:752-753 | At most four contributions, drawn from the list, by non-increasing size. None left out is larger than one kept. |
| Explain.Reasons | app.py:754-757 | One reason per ranked contribution, with the same factor; it pushes toward home exactly when the contribution is positive. |
| ScoreSeries.Diff | app.py:478 | Each entry's difference from the previous one, none for the first. |
| ScoreSeries.WeeklyFromCumulative | app.py:475-479 | An empty table has no first or last week and fails (`None`). Otherwise the recovered weekly scores have exactly the given running totals, and they are the only scores that do. |
| ScoreSeries.CumulativeOfDiffs | app.py:478-479 | Running totals of the differences, started at the first total, give back the totals. |
| ScoreSeries.RollingWindows | app.py:506 | The rolling mean is the first score, then the mean of the first two, then the mean of each score and the two before it. |
| ScoreSeries.FullWindow | app.py:506 | From the third week on, the rolling mean is the mean of that week and the two before it. |
| ScoreSeries.RollingFromCumulative | app.py:506 | From the fourth week the rolling mean is a third of the running total's gain over three weeks. Before that it is the running total over the number of weeks. |

## Left out

- Reading the CSV files, pickling the models and all Streamlit rendering: they are I/O.
- Fitting a logistic regression, and `predict_proba`. The fit is a function parameter of `TrainModels`, and a classifier is any function into [0, 1] together with its coefficients. The solver's numerics are not modelled.
- The random scenario generator in app.py, including its "NFC" default for unknown conferences. The scenario is an input.
- Floating point. Rates, means and feature values are exact reals; spreads are exact half-points.
- Formatting. Reason labels are a `Factor` datatype, not the formatted strings. The `int(val)` truncation in the wind and week labels is not applied, and the PAA note's one-decimal rounding is not applied either.
- Case-insensitive matching folds ASCII letters only; Unicode case folding is not modelled.
- pandas' default descending sort is not stable. The model fixes one admissible tie order: a stable sort. Contracts state only what holds for every order. Python's list sort in the ranking of reasons is stable, and the model matches that.
- Rows whose home or away team is missing are not modelled (the team columns are taken as always present), so the `dropna` in the team list has nothing to drop.
- The division map in `build_features` is never used by the features, so it is not modelled.
- `hot_cold_streaks` with a player column absent from the table: every rostered player has a column (a missing flag reads as not covered).
- Weekly.HotColdStreaks, Weekly.StreakTable, Weekly.WeeklyCumulative and Weekly.CumulativeTable: the tables are maps keyed by player. The row (or column) order of the source, which follows the roster, is not kept.
- Features.Merge: states that every row pairs a pick with its game; it does not state that every pick with a game appears.
- Features.Select: states the length and the membership of the selected entries, not their order.
- Features.Vector, Features.Column and ScoreSeries.Rolling3 state only their lengths in their own contracts; what they contain is stated by ScenarioRow, BuildFeatures, TrainingRowIsPredictionRow and RollingWindows.
