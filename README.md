# wolfwisedb basketball scripts — a Dafny model

The modelled repository is a set of independent Python scripts for the Minnesota
Timberwolves (team id 1610612750, tricode MIN). Each script fetches statistics from the
league's stats API, its live-data feed or Basketball-Reference. It reshapes them with
pandas and writes them to a spreadsheet, a CSV file, a SQL table or a hosted table store.

This project models the deterministic logic of those scripts. The fetched payloads and
the destination tables are ordinary parameters and results.

- **Play-by-play lineups** (`GameClock`, `LineupIntervals`). This is the lineup fold of
  `in_game_play_by_play.py`. It takes one pass over a game's sorted actions and keeps:
  - both on-court lineups;
  - a free-throw-in-progress flag, with substitutions queued until the sequence ends;
  - the score baseline of the open interval.

  It emits a scoring interval each time either lineup's name string changes.
- **Per-row plus/minus** (`PlusMinus`). This is `in_game_plus_minus.py`:
  - substitutions are relabelled and sorted last within a clock tick;
  - per-side in/out queues pair them;
  - every row is stamped with five names per side;
  - every made shot gets its plus/minus.
- **Trailing by 20 or more** (`NegativeTime`, `ScoreMerge`). These cover `play_by_play.py`
  and `pbp_test_delete_me.py`.
- **Season and roster tables**:
  - `Season` and `LineupWeb`;
  - `StatsBasic` and `ThreePoint`;
  - `RecordsFull` and `PlayerRecords`;
  - `Career`, `PlayerNames`, `ActivePlayers`, `HallOfFame` and `Comparison`, the
    comparison of players over their first N seasons;
  - `SeasonCards` and `RecentStats`, the stat cards;
  - `GameLogs`, week-over-week trends.
- **Leaderboards**:
  - `BbrefRecords`, `Leaderboard` and `Links`, scraped pages abstracted as texts;
  - `LeadersReformatted` and `LeadersScrape`, league-leader workbooks;
  - the ranking helpers they share: `Ranks` and `RankedFrames`.
- **Box scores** (`BoxScore` and its users `DuringGame`, `GameIds`, `AdvancedTeam`,
  `InGameStats`, `BoxInGame2`, `LatestGame`). These cover:
  - choosing the Minnesota side;
  - per-player records and their "made-attempted" shooting lines;
  - the flattening done by `format_data_for_player`;
  - the slot-numbered CSV header;
  - the delete-then-insert of the `player_stats` table.
- **Shared vocabulary**:
  - `Wrappers`: `Option` and `Result`, where `Err` names the Python exception raised;
  - `Text`: strip, split, join, case, integer text;
  - `Numbers`: `float()` on text;
  - `Lists`: list remove, append and filter;
  - `Frames`: a DataFrame reduced to its columns and aligned rows.

Loops of the source are methods with `while`/`for` loops. Each is proved equal to a
function that specifies it, and the source's promises are lemmas about those functions.
Scores and counts are integers. Clock seconds and decimal values are integer hundredths.

The repository's design notes describe the play-by-play core in idealised terms. Where
they and the code differ, the model follows the code:
- A lineup is a list of ids, not a set held at exactly five. An "out" removes the id
  only if present and an "in" appends it only if absent, with no cap at five. An out
  row followed by an in row therefore closes an interval over a four-player lineup.
- A starter count other than five only prints a warning; reconstruction goes on.
- An interval closes when the ", "-joined name string of either lineup changes. It
  does not close on a change of the id set alone.
- In `in_game_plus_minus.py`, a pair always appends the incoming name, so a lineup can
  grow past five. A lineup shorter than five raises when a row is stamped.

## Model

| member | source | states |
|---|---|---|
| GameClock.MatchClock | in_game_play_by_play.py:28 | a match of `PT(\d+)M(\d+\.\d+)S` anchored at the start: the text starts "PT" and the fraction is a non-empty digit run |
| GameClock.MatchClockParts | in_game_play_by_play.py:27-30 | every text "PT"<digits>"M"<digits>"."<digits>"S"… matches, with minutes and seconds the values of the first two digit runs and the fraction the third run |
| GameClock.MatchClockShape | in_game_play_by_play.py:28 | the pattern matches exactly the texts of that shape (both directions) |
| GameClock.Hundredths | in_game_play_by_play.py:31 | the fractional digits give fewer than 100 hundredths |
| GameClock.ParseClock | in_game_play_by_play.py:26-34 | any text that does not match the clock pattern parses as 0 |
| GameClock.ParseClockText | in_game_play_by_play.py:26-34 | parsing the feed's "PT<mm>M<ss>.<hh>S" text gives back minutes*6000 + seconds*100 + hundredths |
| GameClock.NoDecimalPointIsZero | in_game_play_by_play.py:26-34 | a clock without a decimal point, such as whole-second "PT12M00S", parses as 0 |
| GameClock.MatchShotLabel | in_game_play_by_play.py:47-51 | `(\d+) of (\d+)` reads back both numbers of an "N of M" subType |
| GameClock.EndOfFreeThrowLabel | in_game_play_by_play.py:40-52 | the free throw "N of M" ends the sequence exactly when N = M |
| GameClock.StartOfFreeThrowLabel | in_game_play_by_play.py:36-38 | a "1 of M" free throw opens a sequence |
| LineupIntervals.StarterIds | in_game_play_by_play.py:117-118 | only starter-flagged ids of the roster are collected |
| LineupIntervals.Starters | in_game_play_by_play.py:117-122 | the first five starter ids in roster order; fewer than five are all of them (only a warning in the source) |
| LineupIntervals.ApplySubstitution | in_game_play_by_play.py:246-265 | the immediate substitution branch equals `ApplySub`: "out" removes a present id, "in" appends an absent one, unmapped players and other subTypes change nothing |
| LineupIntervals.ApplyPending | in_game_play_by_play.py:186-206 | the pending loop applies the queued substitutions in arrival order (`ApplyAll`) |
| LineupIntervals.Advance | in_game_play_by_play.py:163-298 | one iteration of the main loop equals the step function `Step` |
| LineupIntervals.ComputeIntervals | in_game_play_by_play.py:142-316 | the whole loop plus the final interval equals `IntervalsOf` (None on an empty action list) |
| LineupIntervals.AppendClosing | in_game_play_by_play.py:300-316 | appending the final interval keeps the table chained and balanced and the sums telescoping |
| LineupIntervals.UpdateConsistent | in_game_play_by_play.py:212-242 | closing an interval on a lineup change preserves the chain and score-baseline invariant |
| LineupIntervals.StepConsistent | in_game_play_by_play.py:173-298 | every action preserves the chain and score-baseline invariant |
| LineupIntervals.RunConsistent | in_game_play_by_play.py:163-298 | the invariant holds after any number of actions |
| LineupIntervals.IntervalsTelescope | in_game_play_by_play.py:157-159 | intervals chain from the first action's time to the last's, each Plus/Minus is Home − Away, and the Home (Away) Scores sum to the last scoreHome (scoreAway) minus the first |
| LineupIntervals.NoActionsNoTable | in_game_play_by_play.py:157-159 | an empty action list yields no table (the source fails reading the first row) |
| LineupIntervals.DeferredWhileOpen | in_game_play_by_play.py:174-180 | while a free-throw sequence is open and not ending, lineups and intervals stay put and a substitution is only queued |
| LineupIntervals.EndAppliesQueue | in_game_play_by_play.py:181-209 | the ending free throw clears the flag, applies the queue in arrival order, empties it and closes at most one interval |
| LineupIntervals.OneOfOneClosesAtOnce | in_game_play_by_play.py:174-183 | a "1 of 1" free throw opens and closes the sequence on the same row |
| LineupIntervals.SubstituteDistinct | in_game_play_by_play.py:253-258 | an out/in substitution never puts an id twice into a lineup |
| LineupIntervals.ApplyAllDistinct | in_game_play_by_play.py:186-206 | applying the queued substitutions keeps both lineups free of repeated ids |
| LineupIntervals.RunKeepsLineupsDistinct | in_game_play_by_play.py:163-298 | no id ever appears twice in a lineup over the whole game |
| LineupIntervals.StepKeepsDistinct | in_game_play_by_play.py:173-298 | one action keeps both lineups free of repeated ids |
| LineupIntervals.UpdateInstalls | in_game_play_by_play.py:212-242 | after an update the lineups are exactly the newly computed ones, whether or not an interval closed |
| LineupIntervals.LineupStringLength | in_game_play_by_play.py:146-147 | the ", "-joined string is as long as the names plus two characters per separator |
| LineupIntervals.OutChangesString | in_game_play_by_play.py:268-272 | removing a player from a lineup of two or more changes its name string, so an interval closes |
| LineupIntervals.InChangesString | in_game_play_by_play.py:268-272 | adding a new player to a non-empty lineup changes its name string |
| LineupIntervals.OutThenInClosesTwo | in_game_play_by_play.py:246-298 | outside free throws an "out" then an "in" row close two intervals, the second covering the lineup without the departed player |
| LineupIntervals.LineupColumns | in_game_play_by_play.py:330-331 | splitting a lineup string on ", " gives the lineup's names in order when no name contains ", " |
| PlusMinus.Relabel | in_game_plus_minus.py:144 | every "substitution" actionType becomes "zsubstitution"; every other row is unchanged |
| PlusMinus.KeyLessIrreflexive | in_game_plus_minus.py:147 | the (period asc, clock desc, actionType asc) order never ranks a row before itself |
| PlusMinus.KeyLessTrans | in_game_plus_minus.py:147 | the three-key order is transitive |
| PlusMinus.SameKeyNotLess | in_game_plus_minus.py:147 | rows with equal (period, clock, actionType) are not ordered against each other |
| PlusMinus.KeyNotLessTrans | in_game_plus_minus.py:147 | "not before" is transitive, so equal-key rows form one block |
| PlusMinus.Insert | in_game_plus_minus.py:147-148 | inserting a row adds exactly that row to the multiset, ahead of the rows with its key |
| PlusMinus.InsertSorted | in_game_plus_minus.py:147-148 | inserting into sorted rows keeps them sorted |
| PlusMinus.SortRows | in_game_plus_minus.py:147-148 | the sorted table is a permutation of the rows |
| PlusMinus.SortRowsSorted | in_game_plus_minus.py:147-148 | the sorted table is ordered by period ascending, clock descending, actionType ascending |
| PlusMinus.WithKey | in_game_plus_minus.py:147-148 | the rows sharing one key, in order, never more than the rows |
| PlusMinus.WithKeyInsert | in_game_plus_minus.py:147-148 | inserting a row adds it in front of the rows with its key and leaves every other key's rows as they were |
| PlusMinus.SortRowsStable | in_game_plus_minus.py:147-148 | the sort is stable: for every key the rows with that key come out in their input order |
| PlusMinus.TiesKeepOrder | in_game_plus_minus.py:147-148 | two rows with the same key keep their order |
| PlusMinus.SubstitutionsSortLast | in_game_plus_minus.py:143-148 | at equal period and clock a relabelled substitution comes after every row whose actionType sorts lower |
| PlusMinus.Enqueue | in_game_plus_minus.py:179-196 | an in/out row queues (direction, name) on the home queue only for team 1610612750 and on the away queue only for 1610612742 |
| PlusMinus.FirstOf | in_game_plus_minus.py:202-206 | the index of the earliest queue entry in the given direction, or None when there is none |
| PlusMinus.StampOf | in_game_plus_minus.py:222-224 | a row is stamped with the first five names of each lineup; a lineup shorter than five raises IndexError |
| PlusMinus.StampRows | in_game_plus_minus.py:170-224 | the stamping loop equals `StampsOf`: queue, pair, then stamp every row in order |
| PlusMinus.OtherRowsQueueNothing | in_game_plus_minus.py:183-196 | rows of other teams or with a subType other than in/out queue nothing |
| PlusMinus.PairTakesEarliest | in_game_plus_minus.py:199-219 | with ≥2 entries including an out and an in: the earliest of each is taken, every equal entry removed, the in name appended, and the lineup grows when the out name was absent |
| PlusMinus.PairParts | in_game_plus_minus.py:205-219 | the pairing step's queue and lineup spelled out from the earliest out and in |
| PlusMinus.WithoutDropsTwo | in_game_plus_minus.py:207-208 | the filtered queue loses at least the two paired entries |
| PlusMinus.WithoutCount | in_game_plus_minus.py:207-208 | the filter drops exactly the copies of the two paired entries |
| PlusMinus.OneDirectionWaits | in_game_plus_minus.py:200-204 | two queued 'out's (or 'in's) pair nothing until the other direction arrives |
| PlusMinus.StampsCoverRows | in_game_plus_minus.py:171-224 | every row gets a stamp, in order, from the lineups as they stand after that row |
| PlusMinus.StampsErrorSticks | in_game_plus_minus.py:222-224 | once a row cannot be stamped the whole loop fails with that error |
| PlusMinus.ShotValue | in_game_plus_minus.py:236-242 | a made shot is worth 0 to 3 points |
| PlusMinus.PlusMinusOf | in_game_plus_minus.py:236-250 | for the away team given: +value for the home team's made shot, −value for that away team's, 0 for every other row |
| PlusMinus.AwayBasketIgnored | in_game_plus_minus.py:247-250 | as written (away team 1610612743), a made two by team 1610612742, whose substitutions fill the away queue, gets plus_minus 0 |
| PlusMinus.PlusMinusCases | in_game_plus_minus.py:236-250 | corrected, with the queues' away team 1610612742 also scoring: plus_minus is non-zero exactly for made 2pt/3pt/freethrow of either team, and lies within −3..3 |
| PlusMinus.PlusMinusColumn | in_game_plus_minus.py:227-250 | as written: the loop gives every row its own value for away team 1610612743, never a running total |
| NegativeTime.ClockToSeconds | play_by_play.py:94-96 | clock_to_seconds either converts or raises ValueError, never another error |
| NegativeTime.SecondsOf | play_by_play.py:96 | `int(minutes)*60 + float(seconds)` fails only with ValueError |
| NegativeTime.RemoveLeadingPT | play_by_play.py:95 | `replace('PT', '')` on "PT" + a body without 'P' gives the body |
| NegativeTime.SplitAtM | play_by_play.py:95 | text with exactly one 'M' splits into the part before and the part after |
| NegativeTime.ClockPieces | play_by_play.py:95 | "PT<mm>M<ss>.<ff>S" splits into the minutes text and the seconds text |
| NegativeTime.RStripOne | play_by_play.py:95 | `rstrip('S')` drops the one trailing 'S' |
| NegativeTime.ClockTextSeconds | play_by_play.py:94-96 | a digit clock converts to minutes*6000 + seconds*100 + the first two fraction digits, in hundredths |
| NegativeTime.DigitPartsSeconds | play_by_play.py:96 | the two pieces of a digit clock convert to minutes and seconds in hundredths |
| NegativeTime.ClockConversionsAgree | play_by_play.py:94-96 | on the feed's clock text, clock_to_seconds and the in-game parse_clock give the same time |
| NegativeTime.DigitsInt | play_by_play.py:96 | `int()` of a digit string is its value |
| NegativeTime.NoMinutesRaises | play_by_play.py:95 | a clock without 'M' does not split into two parts and raises ValueError |
| NegativeTime.NoMinutesAfterRemoval | play_by_play.py:95 | removing "PT" introduces no 'M' |
| NegativeTime.ElapsedMonotone | play_by_play.py:101-103 | total_seconds_elapsed rises as the clock runs down and into later periods |
| NegativeTime.PeriodBoundary | play_by_play.py:101-103 | every period, overtime included, counts 720 s: the end of period p is the start of period p+1 |
| NegativeTime.NextWhere | play_by_play.py:111-118 | the first row at or after i that is (or is not) down 20 or more, with none such in between |
| NegativeTime.SkipTrailing | play_by_play.py:111-118 | skipping rows that are still down 20 does not change where the run closes |
| NegativeTime.NegativeIntervals | play_by_play.py:107-121 | calculate_negative_intervals yields exactly the maximal runs of rows at ≤ −20, in row order, each closing at the next row above −20 or at the last row |
| NegativeTime.NeverTrailingNoSpans | play_by_play.py:107-121 | a game never down 20 (or empty) yields no interval |
| NegativeTime.AlwaysTrailingOneSpan | play_by_play.py:112-120 | a game down 20 throughout yields one interval from its first to its last row |
| NegativeTime.DurationAppend | play_by_play.py:140-141 | summed durations add over concatenation |
| NegativeTime.RunsWithinGame | play_by_play.py:107-121 | with rows in time order the total interval time lies between 0 and the game's elapsed span |
| NegativeTime.GameNegativeTime | play_by_play.py:140-141 | the inner loop adds end − start over all of a game's intervals |
| NegativeTime.ToPossessions | play_by_play.py:99-103 | the clock conversion keeps one row per joined row, or raises |
| NegativeTime.ConvertRowsOutcome | play_by_play.py:99-103 | converting the clocks raises exactly when some joined row has a clock the reader rejects, with that row's error; otherwise row i becomes the possession of joined row i, with its team, normalised game id, score difference and elapsed time |
| NegativeTime.GameIdsOf | play_by_play.py:136 | every listed game id belongs to one of the team's rows |
| NegativeTime.TeamTotalsOf | play_by_play.py:130-145 | one result per team, in the given order, each holding the team's total (TeamTime: over its distinct games, the summed interval durations) in minutes |
| NegativeTime.TeamNegativeTime | play_by_play.py:132-141 | a team's total is the sum over its distinct games of their interval durations |
| NegativeTime.TeamTotals | play_by_play.py:128-145 | the results loop gives one total per team, in order |
| NegativeTime.GamesTimeNonNegative | play_by_play.py:136-141 | a team whose games are in time order has a non-negative total |
| NegativeTime.NegativeTimeReport | play_by_play.py:59-145 | a ValueError exactly when some joined row has a clock clock_to_seconds rejects; otherwise one row per distinct team, in first-appearance order, holding that team's total negative time in minutes |
| ScoreMerge.HomeAway | pbp_test_delete_me.py:32-33 | a matchup containing "vs." maps to scoreHome, anything else to scoreAway (both directions) |
| ScoreMerge.PerspectivesNegate | pbp_test_delete_me.py:48-50 | the home and away score_diff of the same score are negations; the side that is ahead sees a positive margin |
| ScoreMerge.TeamGames | pbp_test_delete_me.py:24 | exactly the team's games, in list order |
| ScoreMerge.MatchRow | pbp_test_delete_me.py:40 | a score row joins exactly the games whose normalised id equals its own |
| ScoreMerge.MergeRows | pbp_test_delete_me.py:40-50 | the inner join holds exactly the (score row, game) pairs with equal normalised ids, each with its side and margin |
| ScoreMerge.TeamNames | pbp_test_delete_me.py:17 | the team column of the game list, row by row |
| ScoreMerge.MergeAllTeams | pbp_test_delete_me.py:22-53 | the team loop concatenates every team's join in first-appearance order; skipping teams with no games or an empty join adds nothing (also play_by_play.py's loop without the skips) |
| ScoreMerge.NoGamesNoRows | pbp_test_delete_me.py:27-29 | a team with no games joins no rows |
| ScoreMerge.MergeTeamsMembers | play_by_play.py:64-85 | every output row is a genuine join of a score row with one of its team's games, and every such pair appears |
| ScoreMerge.LeadingZerosIgnored | play_by_play.py:72-76 | ids that differ only in leading zeros join |
| ScoreMerge.SurroundingSpaceIgnored | pbp_test_delete_me.py:36-37 | ids that differ only in surrounding whitespace join |
| Season.LastTwo | lineup_data_for_web_app.py:21 | `s[-2:]` is a suffix of s, two characters long (all of a shorter text) |
| Season.CurrentSeason | lineup_data_for_web_app.py:14-21 | the season string starts with the start year and a dash; the start year is the current year from October and the previous year before |
| Season.LastTwoDigits | lineup_data_for_web_app.py:21 | the last two characters of a year of two or more digits are its last two digits, zero padded |
| Season.TensDigit | lineup_data_for_web_app.py:21 | the tens and units digits of n are those of n mod 100 |
| Season.SeasonText | nba_players_3pt.py:12-18 | the season is "<start>-" plus the last two digits of start+1, for both halves of the year |
| Season.SeasonDecode | Get_Wolves_Player_Stats_Basic.py:13-20 | the season string splits on '-' into the start year and the end year modulo 100 |
| Season.SplitDash | Get_Wolves_Player_Stats_Basic.py:20 | two digit strings joined by '-' split back into themselves |
| Season.NoDashFirst | Get_Wolves_Player_Stats_Basic.py:20 | the first '-' of "<digits>-…" is the one after the digits |
| Season.NoDashSplit | Get_Wolves_Player_Stats_Basic.py:20 | a digit string has no '-' to split on |
| Season.SeasonSpansNewYear | lineup_data_for_web_app.py:15-20 | October–December of year Y and January–September of Y+1 name the same season |
| LineupWeb.ScanSpaces | lineup_data_for_web_app.py:57 | the end of the maximal whitespace run (the greedy `\s+`) |
| LineupWeb.SepEnd | lineup_data_for_web_app.py:57 | a match of `\s+-\s+` at i ends at least three characters on, and its hyphen follows the whitespace run |
| LineupWeb.FirstSep | lineup_data_for_web_app.py:57 | the leftmost match at or after `from`; no match starts before it |
| LineupWeb.SplitPlayers | lineup_data_for_web_app.py:49-57 | `re.split` always returns at least one piece |
| LineupWeb.SplitsOnlyAtSpacedHyphen | lineup_data_for_web_app.py:49-57 | a name without a whitespace-flanked hyphen stays whole ("Nickeil Alexander-Walker"); one with it is cut |
| LineupWeb.FirstSepAt | lineup_data_for_web_app.py:57 | the first index where a separator matches is the leftmost match |
| LineupWeb.SeamIsFirstSep | lineup_data_for_web_app.py:57 | in `x + " - " + rest` the first separator is right after the clean name x |
| LineupWeb.NoSeparatorInside | lineup_data_for_web_app.py:57 | no separator match starts inside a clean name |
| LineupWeb.JoinStart | lineup_data_for_web_app.py:57 | a join begins with the first name's first character |
| LineupWeb.SplitJoinPlayers | lineup_data_for_web_app.py:49-57 | splitting clean names joined with " - " restores them |
| LineupWeb.JoinSplitPlayers | lineup_data_for_web_app.py:49-57 | the other direction, for any stored group name whose separators are all a plain " - " (including "A - ", split into "A" and ""): joining the split pieces with " - " gives the name back |
| LineupWeb.Slots | lineup_data_for_web_app.py:98-101 | every lineup has exactly five player slots |
| LineupWeb.SlotsHoldFirstFive | lineup_data_for_web_app.py:98-101 | player{i+1} holds the i-th name or None when there are fewer; names beyond the fifth are dropped |
| LineupWeb.NamesFrom | lineup_data_for_web_app.py:98-101 | the slots from i on hold names i.. up to the fifth |
| LineupWeb.LineupColumns | lineup_data_for_web_app.py:95-101 | a group name of up to five clean names fills the slots with exactly those names |
| LineupWeb.PlayerColumnsDistinct | lineup_data_for_web_app.py:98-99 | the five column names player1..player5 are distinct |
| LineupWeb.SlotColumn | lineup_data_for_web_app.py:99-101 | one player column has a cell per row |
| LineupWeb.NormalizeGroupName | lineup_data_for_web_app.py:90-91 | GROUP_NAME is renamed to group_name only when group_name is absent; rows are kept |
| LineupWeb.AddPlayerColumns | lineup_data_for_web_app.py:93-105 | fails, with TypeError, exactly when a group_name column exists (after the GROUP_NAME rename) and some cell of it is not text; without the column the frame is returned as is; otherwise every row is kept and its player1..player5 are the slots of its own split group name |
| LineupWeb.PlayerColumnsOfRow | lineup_data_for_web_app.py:93-103 | each row's player columns are the slots of its own group name; other columns are untouched |
| LineupWeb.SlotsOfRow | lineup_data_for_web_app.py:98-101 | setting the five slot columns writes each row's own slots and nothing else |
| LineupWeb.SlotColumns | lineup_data_for_web_app.py:98-101 | five columns, each one cell per row |
| LineupWeb.Tag | lineup_data_for_web_app.py:40 | every row of a tagged frame has LINEUP_SIZE equal to the requested size |
| LineupWeb.Tagged | lineup_data_for_web_app.py:39-41 | non-empty frames are tagged; nothing is kept exactly when every frame is empty |
| LineupWeb.FetchLineups | lineup_data_for_web_app.py:24-45 | the team loop returns the concatenated tagged frames, or None when nothing was collected |
| LineupWeb.CollectedRows | lineup_data_for_web_app.py:39-45 | None exactly when every team frame was empty; every returned row carries the lineup size |
| LineupWeb.KeptOne | lineup_data_for_web_app.py:66-83 | a size contributes at most one frame, none when its fetch raised or came back None |
| LineupWeb.Kept | lineup_data_for_web_app.py:66-83 | every kept row is tagged with one of the sizes 2, 3, 5 |
| LineupWeb.CombineSizes | lineup_data_for_web_app.py:62-86 | main's size loop skips failed sizes and concatenates the rest, or combines nothing |
| LineupWeb.CombinedSizes | lineup_data_for_web_app.py:85-86 | every combined row carries one of the three lineup sizes |
| StatsBasic.FirstPlayerTable | Get_Wolves_Player_Stats_Basic.py:30-38 | the first frame having a PLAYER_ID column, or None exactly when no frame has one |
| StatsBasic.GetPlayerStatsTable | Get_Wolves_Player_Stats_Basic.py:23-38 | the scan returns the first table with PLAYER_ID; no earlier table has the column |
| StatsBasic.RequestParams | Get_Wolves_Player_Stats_Basic.py:53-62 | last_n_games is a request parameter exactly when a count is given, with that count; team and season are always present |
| StatsBasic.PartialRequestExtendsFull | Get_Wolves_Player_Stats_Basic.py:53-62 | the last-n request is the full-season request plus last_n_games and nothing else |
| StatsBasic.FetchPlayerStats | Get_Wolves_Player_Stats_Basic.py:64-73 | the player table, or an empty frame when no table has PLAYER_ID or the call raised |
| StatsBasic.SuffixFold | Get_Wolves_Player_Stats_Basic.py:86-88 | renaming keeps the number of columns |
| StatsBasic.RenameForSuffix | Get_Wolves_Player_Stats_Basic.py:76-89 | the rename loop moves no cell and gives the folded column names |
| StatsBasic.RenameColumnAnyway | Get_Wolves_Player_Stats_Basic.py:88 | an in-place rename changes only the column names |
| StatsBasic.SuffixAppended | Get_Wolves_Player_Stats_Basic.py:76-89 | without a name clash, every non-join column gets "_suffix", join columns stay, and count and order are kept |
| StatsBasic.SuffixPrefix | Get_Wolves_Player_Stats_Basic.py:86-88 | after the first i originals, exactly those outside the join columns carry the suffix |
| StatsBasic.SuffixClashExample | Get_Wolves_Player_Stats_Basic.py:86-88 | with columns "A" and "A_x" both end up "A_x_x": the in-place rename renames twice |
| StatsBasic.MergeColumns | Get_Wolves_Player_Stats_Basic.py:113-114 | a left merge on PLAYER_ID raises KeyError exactly when either side lacks the key; otherwise it keeps the left columns and adds the right's non-key ones |
| StatsBasic.MergeStatsAsWritten | Get_Wolves_Player_Stats_Basic.py:92-114 | main stops when the full-season frame is empty, and raises KeyError when the last-5 fetch came back empty |
| StatsBasic.KeyKept | Get_Wolves_Player_Stats_Basic.py:109-110 | PLAYER_ID survives the suffix loop and no other column takes its name |
| StatsBasic.KeyKeptPrefix | Get_Wolves_Player_Stats_Basic.py:86-88 | at every step of the loop only the PLAYER_ID column is named PLAYER_ID |
| StatsBasic.MergeIfKeyed | Get_Wolves_Player_Stats_Basic.py:113-114 | a partial table without the key is left out and the full-season columns go on unchanged |
| StatsBasic.MergeStats | Get_Wolves_Player_Stats_Basic.py:98-114 | corrected main: never raises, stops exactly when the full-season frame is empty, keeps PLAYER_ID |
| ThreePoint.SelectedDistinct | nba_players_3pt.py:47 | the five selected columns are distinct and include FG3_PCT |
| ThreePoint.ThreePointTable | nba_players_3pt.py:32-54 | None exactly when no frame came back or a required column is missing; otherwise exactly the five columns in order, every row kept, sorted by FG3_PCT descending |
| ThreePoint.ThreePointRows | nba_players_3pt.py:54 | the output rows are a permutation of the projected input rows, each projection holding the input's own values |
| RecordsFull.FindId | get_player_records_full.py:8-23 | the id of the first exact full_name match; ValueError exactly when there is none |
| RecordsFull.MaxOf | get_player_records_full.py:35 | `max()` of a non-empty column is one of its values and no smaller than any |
| RecordsFull.Points | get_player_records_full.py:35 | the PTS column, row by row |
| RecordsFull.SeasonTotals | get_player_records_full.py:41 | each row's entry is its season's points sum |
| RecordsFull.PlayerStatsOf | get_player_records_full.py:32-52 | current game = first row's PTS; current season = sum over the first row's SEASON_ID; max game and max season are attained maxima; total = sum; IndexError exactly on an empty log |
| RecordsFull.SeasonWithinTotal | get_player_records_full.py:40-44 | with non-negative points a season's sum is at most the total |
| RecordsFull.PlayerStatsOrdered | get_player_records_full.py:34-44 | max game ≥ current game, max season ≥ current season, and with non-negative points total ≥ max season |
| RecordsFull.TeamRows | get_player_records_full.py:68 | exactly the rows whose TEAM_ID equals the team |
| RecordsFull.TeamRowsAppend | get_player_records_full.py:68 | the mask keeps order and multiplicity: filtering two stretches of rows gives the first's kept rows followed by the second's |
| RecordsFull.TeamPlayerGameLogs | get_player_records_full.py:62-72 | the loop concatenates each player's team rows in roster order; failed fetches add nothing; the frame has columns exactly when some fetch succeeded |
| RecordsFull.TeamLogsMembers | get_player_records_full.py:62-72 | a row is in the team logs exactly when a successful fetch returned it for that team |
| RecordsFull.PlayerSeasonTotals | get_player_records_full.py:80 | each row's entry is its (player, season) points sum |
| RecordsFull.PlayerTotals | get_player_records_full.py:84 | each row's entry is its player's points sum |
| RecordsFull.TeamRecordsOf | get_player_records_full.py:75-91 | KeyError exactly on the column-less frame left when no fetch succeeded; none for a frame with columns but no rows; otherwise the three maxima are attained and bound every game, player-season and player career |
| RecordsFull.GameWithinSeason | get_player_records_full.py:77-81 | with non-negative points a game is within its player-season's sum |
| RecordsFull.SeasonSumNonNegative | get_player_records_full.py:80 | with non-negative points every player-season sum is non-negative |
| RecordsFull.SeasonWithinCareer | get_player_records_full.py:80-84 | with non-negative points a player-season is within that player's career sum |
| RecordsFull.TeamRecordsOrdered | get_player_records_full.py:75-91 | with non-negative points max_game ≤ max_season ≤ max_total |
| PlayerRecords.NLargest | get_player_records.py:41 | `nlargest(n, c)` with keep='first' keeps min(n, rows) rows drawn from the table, sorted by c largest first, with no left-out row ranking ahead of a kept one; for every value of c the kept rows with that value are the first such rows of the table, in table order |
| PlayerRecords.SortedPrefixLargest | get_player_records.py:41 | a prefix of a descending order is outranked by no row after it |
| PlayerRecords.TopTenPlayers | get_player_records.py:29-46 | get_top_10_players returns min(10, rows) names: name i is that of the i-th row `nlargest` returns, so the names run from most minutes to fewest |
| PlayerRecords.TopTenByMinutes | get_player_records.py:41-46 | each returned name belongs to a row that no unselected row out-plays in MIN |
| PlayerRecords.Max | get_player_records.py:146 | `max()` is an attained maximum |
| PlayerRecords.CurrentStats | get_player_records.py:119-138 | current game is the first game-log row's stat (0 if empty); current season is the last career row's stat (0 if empty); all-time is the career column total (0 if empty) |
| PlayerRecords.PersonalRecords | get_player_records.py:140-159 | record game is the game-log maximum and record season the career-row maximum, each 0 for an empty table; all-time is the career column total (0 if empty) |
| PlayerRecords.RecordsBoundCurrent | get_player_records.py:119-159 | both all_time values are the same career sum; on non-empty tables record game ≥ current game and record season ≥ current season |
| PlayerRecords.PlayerRecordRows | get_player_records.py:94-117 | exactly three rows, game, season, all_time, each with the first matching id, the name, the lowercased stat and level "personal"; IndexError exactly when no player matches |
| PlayerRecords.RecordRowsCompare | get_player_records.py:105-117 | in the emitted rows all_time record = all_time current, and records bound current values on non-empty tables |
| PlayerRecords.AllPlayerRecords | get_player_records.py:66-92 | the loop collects every successful (player, stat) pair's rows in order, skipping failures; None when nothing was collected |
| PlayerRecords.PlayerRowsCount | get_player_records.py:73-83 | one player contributes three rows per successful stat |
| PlayerRecords.AllRowsCount | get_player_records.py:71-92 | the result holds three rows per successful pair, so None exactly when every pair failed |
| PlayerNames.KeepAlnumSpace | aaWolfWiseETL/goat_comparison/hof_yby_stats.py:198 | keeps exactly the alphanumeric and whitespace characters; a string of only those is unchanged |
| PlayerNames.WordEnd | aaWolfWiseETL/goat_comparison/hof_yby_stats.py:201 | the end of a maximal run of non-space characters |
| PlayerNames.Words | aaWolfWiseETL/goat_comparison/hof_yby_stats.py:201 | `split()` yields non-empty words without whitespace |
| PlayerNames.WordsChars | aaWolfWiseETL/goat_comparison/hof_yby_stats.py:201 | every character of a word comes from the split string |
| PlayerNames.JoinWordsCollapsed | aaWolfWiseETL/goat_comparison/hof_yby_stats.py:201 | words joined by single spaces have single interior spaces and none at the ends |
| PlayerNames.WordsOfJoin | aaWolfWiseETL/goat_comparison/hof_yby_stats.py:201 | splitting space-joined words gives the words back |
| PlayerNames.WordsCons | aaWolfWiseETL/goat_comparison/hof_yby_stats.py:201 | a word followed by a space splits off first |
| PlayerNames.WordsSpace | aaWolfWiseETL/goat_comparison/hof_yby_stats.py:201 | a leading space does not change the split |
| PlayerNames.JoinChars | aaWolfWiseETL/goat_comparison/hof_yby_stats.py:195 | every character of a join comes from a piece or the separator |
| PlayerNames.KeptChunks | aaWolfWiseETL/goat_comparison/hof_yby_stats.py:188-194 | the kept chunks are distinct and are exactly the non-empty chunks |
| PlayerNames.DedupChunks | aaWolfWiseETL/goat_comparison/hof_yby_stats.py:189-194 | the seen-set loop keeps non-empty first occurrences in order |
| PlayerNames.CleanPlayerName | aaWolfWiseETL/goat_comparison/hof_yby_stats.py:183-203 | the imperative clean_player_name equals the three-step function `CleanName` |
| PlayerNames.SplitOnCharChunks | aaWolfWiseETL/goat_comparison/hof_yby_stats.py:188 | no chunk of `split('â')` contains 'â' |
| PlayerNames.UnmangleRemovesMangled | aaWolfWiseETL/goat_comparison/hof_yby_stats.py:186-195 | after the first step no 'â' is left |
| PlayerNames.CleanNameShape | aaWolfWiseETL/goat_comparison/hof_yby_stats.py:197-201 | the output holds only alphanumerics and single spaces, with no space at either end |
| PlayerNames.CleanNameIdempotent | aaWolfWiseETL/goat_comparison/hof_yby_stats.py:183-203 | cleaning a cleaned name changes nothing |
| PlayerNames.FirstAt | aaWolfWiseETL/goat_comparison/hof_yby_stats.py:47 | the id of the first entry matching at a tier, or None exactly when none matches |
| PlayerNames.FindPlayerId | aaWolfWiseETL/goat_comparison/hof_yby_stats.py:22-47 | None exactly when no tier matches; otherwise the first match of the strictest tier that matches (exact lowercase, cleaned equality, cleaned containment) |
| PlayerNames.TierAnswer | aaWolfWiseETL/goat_comparison/hof_yby_stats.py:31-45 | a tier is consulted only when every stricter tier found nothing |
| Career.InsertByAge | aaWolfWiseETL/goat_comparison/hof_yby_stats.py:146 | inserting an entry adds exactly that entry |
| Career.InsertByAgeSorted | aaWolfWiseETL/goat_comparison/hof_yby_stats.py:146 | inserting into an age-ordered list keeps it age-ordered |
| Career.SortByAge | aaWolfWiseETL/goat_comparison/wolves_year_by_year_stats.py:120 | the sorted entries are a permutation ordered by age |
| Career.Numbered | aaWolfWiseETL/goat_comparison/hof_yby_stats.py:148 | one numbered entry per advanced entry |
| Career.NumberAdvanced | aaWolfWiseETL/goat_comparison/wolves_year_by_year_stats.py:117-146 | the loop numbers the sorted entries 1..n, keeping their values |
| Career.Lookup | aaWolfWiseETL/goat_comparison/wolves_year_by_year_stats.py:151 | the values of the first advanced entry with that SEASON_NUMBER, or None exactly when there is none |
| Career.LeftMerge | aaWolfWiseETL/goat_comparison/wolves_year_by_year_stats.py:151 | the left merge keeps every career row in order, each with its match's values or nulls |
| Career.NumberSeasons | aaWolfWiseETL/goat_comparison/wolves_year_by_year_stats.py:88-92 | career rows get SEASON_NUMBER 1..n in row order with the player's id and name |
| Career.CareerStats | aaWolfWiseETL/goat_comparison/wolves_year_by_year_stats.py:76-157 | None exactly when the career call fails or is empty; otherwise every season numbered 1..n, with advanced columns exactly when the lookup returned entries |
| Career.NumberedLookup | aaWolfWiseETL/goat_comparison/hof_yby_stats.py:146-175 | SEASON_NUMBER n finds the n-th youngest advanced season, and nothing beyond their count |
| Career.AdvancedAlignedByAge | aaWolfWiseETL/goat_comparison/wolves_year_by_year_stats.py:114-151 | season i carries the i-th youngest advanced season or nulls; advanced seasons beyond the career length are dropped |
| ActivePlayers.CurrentOnly | aaWolfWiseETL/goat_comparison/nba_yby_stats.py:16-17 | exactly the players whose TO_YEAR starts with "2023" |
| ActivePlayers.CurrentOnlyAppend | aaWolfWiseETL/goat_comparison/nba_yby_stats.py:17 | the mask keeps the list's order and repetitions: the current players of two stretches are those of the first followed by those of the second, and one player is kept exactly when current |
| ActivePlayers.MaxToYear | aaWolfWiseETL/goat_comparison/nba_yby_stats.py:21 | the greatest non-null TO_YEAR in string order, attained by some player; None exactly when every TO_YEAR is null |
| ActivePlayers.WithToYear | aaWolfWiseETL/goat_comparison/nba_yby_stats.py:22 | exactly the players with the given TO_YEAR |
| ActivePlayers.WithToYearAppend | aaWolfWiseETL/goat_comparison/nba_yby_stats.py:22 | the TO_YEAR mask keeps order and repetitions in the same way |
| ActivePlayers.ActiveOf | aaWolfWiseETL/goat_comparison/nba_yby_stats.py:9-24 | the "2023" players when there are any; otherwise exactly those whose TO_YEAR equals the maximum, none when every TO_YEAR is null; the result is that mask of the list itself, so it keeps the list's order and repetitions |
| ActivePlayers.NonWolves | aaWolfWiseETL/goat_comparison/nba_yby_stats.py:26-43 | exactly the active players whose PERSON_ID is not on the roster, renamed to (PLAYER_ID, PLAYER) |
| ActivePlayers.NonWolvesAppend | aaWolfWiseETL/goat_comparison/nba_yby_stats.py:35-41 | the roster exclusion keeps the active list's order and repetitions: two stretches give their candidates in turn, and one player gives one candidate exactly when off the roster |
| ActivePlayers.CollectCareers | aaWolfWiseETL/goat_comparison/nba_yby_stats.py:57-85 | the loop lists failed names in processing order and combines the collected tables, or nothing when none succeeded |
| ActivePlayers.EachCandidateAccounted | aaWolfWiseETL/goat_comparison/nba_yby_stats.py:68-73 | every candidate is either collected or listed as failed, never both |
| ActivePlayers.NothingCollectedIffAllFailed | aaWolfWiseETL/goat_comparison/nba_yby_stats.py:78-80 | nothing is combined exactly when every candidate failed |
| HallOfFame.HallOfFamePlayers | aaWolfWiseETL/goat_comparison/hall_of_fame_list.py:15-64 | an empty list for a non-200 response or a missing "hof" table; otherwise the loop yields the entries of the kept rows in table order |
| HallOfFame.EntriesFromKeptRows | aaWolfWiseETL/goat_comparison/hall_of_fame_list.py:28-62 | every entry is the stripped (Year, Name, Category) of a row having all three cells, category "player" and, when the first span has a link, link text "PLAYER"; every such row gives one |
| HallOfFame.EntriesArePlayers | aaWolfWiseETL/goat_comparison/hall_of_fame_list.py:38-39 | every entry's category reads "player" in any letter case |
| Comparison.RowsOf | aaWolfWiseETL/goat_comparison/comparison_model.py:126 | the rows selected for a name are exactly the table's rows carrying that name |
| Comparison.SortBySeason | aaWolfWiseETL/goat_comparison/comparison_model.py:126 | the player's rows reordered (same multiset) into ascending SEASON_NUMBER |
| Comparison.InsertBySeasonSorted | aaWolfWiseETL/goat_comparison/comparison_model.py:126 | inserting one row into rows sorted by season keeps them sorted |
| Comparison.Names | aaWolfWiseETL/goat_comparison/comparison_model.py:124 | the PLAYER_NAME column, one entry per row in row order |
| Comparison.GetValidPlayers | aaWolfWiseETL/goat_comparison/comparison_model.py:117-152 | the loop over the unique names returns, in order, those that pass every check of the loop body |
| Comparison.CheckPlayer | aaWolfWiseETL/goat_comparison/comparison_model.py:125-150 | true exactly when the player has at least N rows, the first N season numbers are 1..N, and none of those rows has a null or infinite required stat |
| Comparison.EligibleAmongMembers | aaWolfWiseETL/goat_comparison/comparison_model.py:124-150 | a name is kept if and only if it is in the list and passes the checks |
| Comparison.EligibleAmongDistinct | aaWolfWiseETL/goat_comparison/comparison_model.py:124-150 | filtering a duplicate-free list of names leaves it duplicate-free |
| Comparison.ValidPlayersAreEligible | aaWolfWiseETL/goat_comparison/comparison_model.py:117-152 | the valid players are duplicate-free, and a name is valid if and only if it occurs in the table and passes the checks |
| Comparison.ComparedSeasons | aaWolfWiseETL/goat_comparison/comparison_model.py:42-47 | None exactly when the candidate has fewer seasons than the selected player; otherwise the candidate's first N seasons |
| Comparison.EligibleCandidateCompared | aaWolfWiseETL/goat_comparison/comparison_model.py:42-47 | a valid player never trips the length guard, and the N seasons compared are numbered 1..N, belong to it and are complete |
| Comparison.Candidates | aaWolfWiseETL/goat_comparison/comparison_model.py:248-264 | a player is compared if and only if it is valid and, for the current-NBA list only, differs from the selected player |
| Comparison.InsertByScoreSorted | aaWolfWiseETL/goat_comparison/comparison_model.py:267-268 | inserting one result into results sorted by overall score keeps them sorted |
| Comparison.SortByScore | aaWolfWiseETL/goat_comparison/comparison_model.py:267-268 | the results reordered (same multiset) into ascending overall score |
| Comparison.TopTen | aaWolfWiseETL/goat_comparison/comparison_model.py:164 | the first min(10, n) results, as a prefix |
| Comparison.TopTenBest | aaWolfWiseETL/goat_comparison/comparison_model.py:164-201 | every saved top-ten result scores no worse than every result cut off, and the selected player never appears among its own current-NBA results |
| BbrefRecords.Before | aaWolfWiseETL/records/bball_reference_nba_records.py:34 | the text before the first occurrence of the separator (which it does not contain), or the whole text when the separator is absent |
| BbrefRecords.Between | aaWolfWiseETL/records/bball_reference_nba_records.py:31 | text that starts right after the first occurrence of the separator and contains no further occurrence |
| BbrefRecords.PiecesOfSplit | aaWolfWiseETL/records/bball_reference_nba_records.py:31-34 | Before and Between are the first and second pieces of the split on the separator |
| BbrefRecords.ChosenSuffix | aaWolfWiseETL/records/bball_reference_nba_records.py:32-35 | None exactly when no suffix occurs; otherwise the first suffix in list order that occurs in the text |
| BbrefRecords.StatType | aaWolfWiseETL/records/bball_reference_nba_records.py:28-36 | an IndexError exactly when the URL lacks "leaders/"; otherwise the piece after it, cut before the first listed suffix it contains |
| BbrefRecords.StatTypeSuffixOrder | aaWolfWiseETL/records/bball_reference_nba_records.py:32-35 | the suffix earliest in the list wins: a remainder that is a stat name followed by its first "_season" gives the whole name, even one holding "_active" or "_career" |
| BbrefRecords.FirstTable | aaWolfWiseETL/records/bball_reference_nba_records.py:72-80 | None exactly when no table satisfies the test; otherwise a table of the page that does |
| BbrefRecords.ChooseTable | aaWolfWiseETL/records/bball_reference_nba_records.py:67-84 | the chosen table is on the page; for Career and Active none is chosen only on a page without tables, and the "tot" table is preferred; for the others none is chosen exactly when no table has a "stats_" id or class "stats_table" |
| BbrefRecords.ExtractRows | aaWolfWiseETL/records/bball_reference_nba_records.py:96-121 | the loop's data list equals the records of the kept rows with the rank carried forward |
| BbrefRecords.ScrapeTables | aaWolfWiseETL/records/bball_reference_nba_records.py:67-125 | None when no table is chosen or nothing is extracted from it; otherwise the extracted records |
| BbrefRecords.RecordsFromNumericRows | aaWolfWiseETL/records/bball_reference_nba_records.py:106-121 | every record has a numeric value and the page's record and stat type, the season is blank unless the records are "Single Season", and there are no more records than rows |
| BbrefRecords.RankCarriedForward | aaWolfWiseETL/records/bball_reference_nba_records.py:96-110 | the carried rank is None exactly when no readable row has a rank text; otherwise it is that of the last such row |
| BbrefRecords.NotANumber | aaWolfWiseETL/records/bball_reference_nba_records.py:38-48 | "n/a" fails the numeric test |
| BbrefRecords.TenIsANumber | aaWolfWiseETL/records/bball_reference_nba_records.py:38-48 | "10" passes the numeric test |
| BbrefRecords.DroppedRowPassesRank | aaWolfWiseETL/records/bball_reference_nba_records.py:107-116 | a row dropped for its value still sets the rank that the next blank-ranked row is recorded with |
| BbrefRecords.DroppedRowExample | aaWolfWiseETL/records/bball_reference_nba_records.py:107-121 | a "1." row with value "n/a" followed by a blank-ranked row with value "10" yields one record, ranked "1" |
| BbrefRecords.ScrapeStatPage | aaWolfWiseETL/records/bball_reference_nba_records.py:50-141 | a URL without "leaders/" gives None (its IndexError is caught); otherwise records exactly when a table is chosen and some row is extracted, each carrying the URL's stat type and the record type |
| Leaderboard.BoldFrom | aaWolfWiseETL/players_on_league_leaders_dash/timberwolves_players_on_league_leaderboard.py:39 | a group found is the text of a `<b>…</b>` match in the data-tip at or after the start |
| Leaderboard.StatName | aaWolfWiseETL/players_on_league_leaders_dash/timberwolves_players_on_league_leaderboard.py:33-49 | when `<b>(.*?)</b>` matches anywhere in the data-tip, the group of its leftmost match; when the data-tip is missing or nothing matches, the stripped first bold child if there is one, else the stripped caption text |
| Leaderboard.BoldFromLeftmost | aaWolfWiseETL/players_on_league_leaders_dash/timberwolves_players_on_league_leaderboard.py:39 | `re.search` semantics: the search finds a match whenever one exists, and returns the group of the leftmost one; no match means no start position has one |
| Leaderboard.RunStart | aaWolfWiseETL/players_on_league_leaders_dash/timberwolves_players_on_league_leaderboard.py:58 | the first position holding a digit or dot, with none before it; None when there is none |
| Leaderboard.RunEnd | aaWolfWiseETL/players_on_league_leaders_dash/timberwolves_players_on_league_leaderboard.py:58 | the end of the maximal run of digits and dots |
| Leaderboard.FindParenOrdinal | aaWolfWiseETL/players_on_league_leaders_dash/timberwolves_players_on_league_leaderboard.py:64 | true exactly when a "(Nth)" ordinal occurs at some position |
| Leaderboard.StripParens | aaWolfWiseETL/players_on_league_leaders_dash/timberwolves_players_on_league_leaderboard.py:66 | the result is no longer than the text and neither starts nor ends with a parenthesis |
| Leaderboard.OrdinalGroup | aaWolfWiseETL/players_on_league_leaders_dash/timberwolves_players_on_league_leaderboard.py:58-69 | the optional group is "" or digits ending in st, nd, rd or th |
| Leaderboard.RankingLink | aaWolfWiseETL/players_on_league_leaders_dash/timberwolves_players_on_league_leaderboard.py:64 | None exactly when no link text has a "(Nth)"; otherwise the first link that does |
| Leaderboard.ReadCell | aaWolfWiseETL/players_on_league_leaders_dash/timberwolves_players_on_league_leaderboard.py:51-73 | no reading exactly when the text has no digit or dot; otherwise a reading exactly when the first maximal run of digits and dots is one `float()` accepts (at least one digit, at most one dot), and ValueError otherwise |
| Leaderboard.ReadCellRun | aaWolfWiseETL/players_on_league_leaders_dash/timberwolves_players_on_league_leaderboard.py:58-61 | the value read is the first maximal run of digits and dots in the text |
| Leaderboard.ReadCellRanking | aaWolfWiseETL/players_on_league_leaders_dash/timberwolves_players_on_league_leaderboard.py:63-69 | the ranking comes from the first link with a "(Nth)", parentheses stripped; without one it is "" or the "Nth" of the text |
| Leaderboard.RankingChoice | aaWolfWiseETL/players_on_league_leaders_dash/timberwolves_players_on_league_leaderboard.py:63-69 | a matching link takes precedence over the regex group, and the first such link is used |
| Leaderboard.RankingFromText | aaWolfWiseETL/players_on_league_leaders_dash/timberwolves_players_on_league_leaderboard.py:58-69 | a cell "25.3 (4th)" without links reads value "25.3" and ranking "4th" |
| Leaderboard.ChosenTd | aaWolfWiseETL/players_on_league_leaders_dash/timberwolves_players_on_league_leaderboard.py:139 | None exactly for a row without td; the td of class "single" when there is one, else the first td |
| Leaderboard.FirstSingle | aaWolfWiseETL/players_on_league_leaders_dash/timberwolves_players_on_league_leaderboard.py:139 | the first td of class "single" from the position, or None when there is none |
| Leaderboard.RowEntry | aaWolfWiseETL/players_on_league_leaders_dash/timberwolves_players_on_league_leaderboard.py:137-155 | an entry only from a chosen td with a link; it carries the table's stat name and the stripped first link text as player |
| Leaderboard.CollectRows | aaWolfWiseETL/players_on_league_leaders_dash/timberwolves_players_on_league_leaderboard.py:135-155 | the loop's data equal the entries of the table's rows, in row order |
| Leaderboard.ScrapeLeaderboard | aaWolfWiseETL/players_on_league_leaders_dash/timberwolves_players_on_league_leaderboard.py:113-155 | a ValueError when the commented leaderboard section is missing; otherwise the entries of all its captioned tables |
| Leaderboard.TableEntriesShape | aaWolfWiseETL/players_on_league_leaders_dash/timberwolves_players_on_league_leaderboard.py:128-150 | a table gives at most one entry per row, each carrying the table's stat name |
| LeadersReformatted.GetParams | nba_leaders_reformatted.py:55-82 | a ValueError exactly for a stats type other than 'regular' and 'playtype'; the league-dash set (LastNGames as given, Advanced, 2024-25, Totals) for 'regular' and the seven-key play-type set for 'playtype' |
| LeadersReformatted.Filtered | nba_leaders_reformatted.py:88-91 | the columns are kept and no rows are added |
| LeadersReformatted.FilteredRows | nba_leaders_reformatted.py:88-91 | a row survives if and only if it meets every threshold on a column the frame has; thresholds on absent columns are ignored |
| LeadersReformatted.ProcessData | nba_leaders_reformatted.py:84-91 | the loop over the criteria yields the filtered frame |
| LeadersReformatted.RankPlayers | nba_leaders_reformatted.py:93-105 | the loop yields the ranked frame, or the KeyError of a missing column |
| LeadersReformatted.RankColumnsStop | nba_leaders_reformatted.py:95-98 | once a field's ranking fails, the rest of the loop does not change the error |
| LeadersReformatted.RanksInPlaceStop | nba_leaders_reformatted.py:101-104 | once a column's re-ranking fails, the rest of the loop does not change the error |
| LeadersReformatted.PlayTypeRankColumn | nba_leaders_reformatted.py:94-98 | each FIELD_RANK is the descending min rank of the field value: equal values share it, a larger value ranks strictly better, and it lies in 1..n |
| LeadersReformatted.RegularRankColumn | nba_leaders_reformatted.py:100-104 | each listed column becomes the ascending average rank of its value: equal values share it, a smaller value ranks strictly lower, and it lies in 1..n |
| LeadersReformatted.PieceRows | nba_leaders_reformatted.py:223-229 | a piece has no more rows than the frame |
| LeadersReformatted.PieceRowsExactly | nba_leaders_reformatted.py:217-229 | a piece holds exactly one summary row per listed player's row ranked 10 or better |
| LeadersReformatted.Pieces | nba_leaders_reformatted.py:220-229 | when no column is missing, one piece per (rank column, stat) pair |
| LeadersReformatted.RegularSpecs | nba_leaders_reformatted.py:220-222 | only rank columns containing "_RANK" give a piece, and the stat is the column with every "_RANK" removed |
| LeadersReformatted.PlayTypeSpecs | nba_leaders_reformatted.py:250-256 | one piece per field, reading the field's `_RANK` column and naming the field as the stat |
| LeadersReformatted.GpThreshold | nba_leaders_reformatted.py:209 | 4 games over the last 5, 8 otherwise |
| LeadersReformatted.RequestParams | nba_leaders_reformatted.py:204-205 | the request carries the pass's MeasureType and LastNGames |
| LeadersReformatted.MainJobs | nba_leaders_reformatted.py:202-258 | fifteen passes: four league-dash passes, then the eleven play types in list order |
| LeadersReformatted.Summarize | nba_leaders_reformatted.py:199-269 | main's accumulation over the passes gives the summary: None when no piece was collected, otherwise the sorted pieces |
| LeadersReformatted.AllPiecesStop | nba_leaders_reformatted.py:199-258 | once a pass fails, the later passes do not change the error |
| LeadersReformatted.NoSummaryIffNoData | nba_leaders_reformatted.py:261-269 | no summary is written if and only if no pass received data |
| LeadersReformatted.JobPiecesNonEmpty | nba_leaders_reformatted.py:208-258 | a pass with data contributes at least one piece |
| LeadersReformatted.SummaryLessTrans | nba_leaders_reformatted.py:262-263 | the (PLAYER_NAME, Stat, Rank, Timeframe) order is transitive |
| LeadersReformatted.SummaryLessIrreflexive | nba_leaders_reformatted.py:262-263 | no row sorts before itself |
| LeadersReformatted.InsertSummarySorted | nba_leaders_reformatted.py:262-263 | inserting a row into a sorted summary keeps it sorted |
| LeadersReformatted.SortSummary | nba_leaders_reformatted.py:262-263 | the sort is a permutation of the rows |
| LeadersReformatted.SortSummarySorted | nba_leaders_reformatted.py:262-263 | the sorted rows are in (PLAYER_NAME, Stat, Rank, Timeframe) order |
| LeadersReformatted.SummaryRowsTopTen | nba_leaders_reformatted.py:217-265 | the summary is sorted, holds exactly the pieces' rows, and every row names a listed player with rank at most 10 |
| LeadersReformatted.AllPiecesTopTen | nba_leaders_reformatted.py:217-258 | every collected piece holds only listed players ranked 10 or better |
| LeadersReformatted.WriteSheet | nba_leaders_reformatted.py:173-174 | writing replaces an existing sheet in place and appends a new one at the end |
| LeadersReformatted.MoveToFront | nba_leaders_reformatted.py:177-180 | a KeyError exactly when the sheet is absent; otherwise the same sheets with the named one first |
| LeadersReformatted.MoveToFrontKeepsOrder | nba_leaders_reformatted.py:178-180 | every other sheet keeps its relative order |
| LeadersReformatted.SaveToExcel | nba_leaders_reformatted.py:171-184 | after a save the sheet is first and the sheets are those written |
| LeadersReformatted.SaveKeepsOthers | nba_leaders_reformatted.py:171-184 | after a save the other sheets are the old ones in their old order |
| LeadersScrape.Params2 | nba_leaders_scrape_request.py:179-180 | params1 with LastNGames "10" and every other key unchanged |
| LeadersScrape.Params3 | nba_leaders_scrape_request.py:182-183 | params1 with MeasureType "Base" and every other key unchanged |
| LeadersScrape.Params4 | nba_leaders_scrape_request.py:185-186 | params2 with MeasureType "Base": params1 with both changes and nothing else |
| LeadersScrape.Params1Values | nba_leaders_scrape_request.py:101-138 | params1 asks for the Advanced measures over the last 5 games of 2023-24 |
| LeadersScrape.Passes | nba_leaders_scrape_request.py:188-209 | four league-dash passes, each with a query over params1's keys |
| LeadersScrape.PassesConsistent | nba_leaders_scrape_request.py:188-209 | each pass asks for 4 of the last 5 or 8 of the last 10 games, ranks the Advanced or Base columns by its MeasureType, and names its sheet after both |
| LeadersScrape.PassConsistent | nba_leaders_scrape_request.py:188-209 | a pass whose threshold, rank columns and sheet name agree with its LastNGames and MeasureType is consistent |
| LeadersScrape.ProcessData | nba_leaders_scrape_request.py:13-18 | a KeyError exactly when MIN or GP is missing; otherwise exactly the rows with MIN ≥ min_minutes and GP ≥ min_games, columns kept |
| LeadersScrape.ProcessDataAppend | nba_leaders_scrape_request.py:17 | the two masks keep order and repetitions: the rows of two stretches are filtered in turn, and one row is kept exactly when it passes both thresholds |
| LeadersScrape.RankPlayers | nba_leaders_scrape_request.py:20-24 | the loop replaces each listed column by its ascending average ranks, or stops at a missing column's KeyError |
| LeadersScrape.AverageRankedColumn | nba_leaders_scrape_request.py:21-22 | each listed column holds the average ranks of its original values |
| LeadersScrape.RankedColumnSum | nba_leaders_scrape_request.py:21-22 | a ranked column is the average ranks of the original, and its present ranks sum to P(P+1)/2, which is n(n+1)/2 when every row has a value |
| LeadersScrape.PlayTypePiece | nba_leaders_scrape_request.py:229-243 | a KeyError without a POSS column; otherwise one row per row with POSS ≥ 20 |
| LeadersScrape.PlayTypePieceRows | nba_leaders_scrape_request.py:232-243 | every row has at least 20 possessions, and each FIELD_RANK is the descending min rank of the field among that play type's kept rows only |
| LeadersScrape.FieldsAreNotRanks | nba_leaders_scrape_request.py:235-242 | no field to rank is itself a `_RANK` column |
| LeadersScrape.NewColumns | nba_leaders_scrape_request.py:246 | the columns of the second frame that the first lacks |
| LeadersScrape.ConcatTables | nba_leaders_scrape_request.py:246 | the rows of the first frame then those of the second, with the columns of both |
| LeadersScrape.PlayTypeLoop | nba_leaders_scrape_request.py:213-246 | the loop's final_df equals the play-type frames concatenated in play-type order, or the first error |
| LeadersScrape.BuiltStop | nba_leaders_scrape_request.py:218-246 | once a play type fails, the later ones do not change the error |
| LeadersScrape.BuiltOrder | nba_leaders_scrape_request.py:246 | row i of the k-th play type's frame is row (rows of the earlier frames) + i of final_df |
| LeadersScrape.DropSheet | nba_leaders_scrape_request.py:31-33 | the workbook's sheets without the named one |
| LeadersScrape.SaveSheet | nba_leaders_scrape_request.py:27-42 | the saved sheet is last and appears once, and the workbook otherwise holds the same sheets |
| LeadersScrape.SaveSheetKeepsOthers | nba_leaders_scrape_request.py:27-42 | a save leaves the other sheets in their relative order |
| LeadersScrape.RankSheets | nba_leaders_scrape_request.py:54-55 | exactly the sheets whose name contains "Rank" and is not the summary |
| LeadersScrape.ScriptSheetsNotRanked | nba_leaders_scrape_request.py:55-250 | none of the five sheets the script writes has "Rank" in its name, so generate_summary_tab never reads them |
| LeadersScrape.Coerce | nba_leaders_scrape_request.py:65 | numbers and missing values are kept; text becomes a number exactly when it parses |
| LeadersScrape.CoerceColumn | nba_leaders_scrape_request.py:65 | the column of every row is coerced, and nothing else changes |
| LeadersScrape.ColumnEntries | nba_leaders_scrape_request.py:66-73 | entries only for rank ≤ 10, each carrying the column and the sheet |
| LeadersScrape.ColumnEntriesExactly | nba_leaders_scrape_request.py:66-73 | a column's entries are exactly those of its rows ranked 10 or better |
| LeadersScrape.SheetScan | nba_leaders_scrape_request.py:64-73 | the scan keeps every row, and its entries carry a scanned column, the sheet and rank ≤ 10 |
| LeadersScrape.SheetEntries | nba_leaders_scrape_request.py:61-73 | entries only from a sheet with a 'Player' column, for columns from the third on, with rank ≤ 10 |
| LeadersScrape.AllEntries | nba_leaders_scrape_request.py:59-73 | every entry comes from one of the scanned sheets, from a column from its third on, with rank ≤ 10 |
| LeadersScrape.ScanKeepsPlayer | nba_leaders_scrape_request.py:64-66 | a scan that does not coerce 'Player' leaves every row's player unchanged |
| LeadersScrape.NonNumericNeverTop | nba_leaders_scrape_request.py:65-66 | a value that does not coerce to a number never yields an entry |
| LeadersScrape.PlayerBeforeIrreflexive | nba_leaders_scrape_request.py:77 | no player sorts before itself |
| LeadersScrape.PlayerBeforeTrans | nba_leaders_scrape_request.py:77 | the player order is transitive |
| LeadersScrape.InsertByPlayer | nba_leaders_scrape_request.py:77 | insertion adds exactly the one entry |
| LeadersScrape.InsertByPlayerSorted | nba_leaders_scrape_request.py:77 | inserting into entries sorted by player keeps them sorted |
| LeadersScrape.SortByPlayer | nba_leaders_scrape_request.py:77 | the sort is a permutation of the entries |
| LeadersScrape.SortByPlayerSorted | nba_leaders_scrape_request.py:77 | the sorted entries are in player order |
| LeadersScrape.SummaryFrame | nba_leaders_scrape_request.py:76-80 | a TypeError exactly when text and numeric players are mixed; None exactly when there are no entries; otherwise a permutation of the entries |
| LeadersScrape.SummarySorted | nba_leaders_scrape_request.py:77 | the summary is sorted by player |
| LeadersScrape.SummaryTabProperties | nba_leaders_scrape_request.py:47-80 | the summary sheet is last exactly when there is a summary, else absent; other sheets keep their order; every entry comes from a rank sheet, ranks 10 or better and names a column from the third on |
| LeadersScrape.GenerateSummaryTab | nba_leaders_scrape_request.py:47-80 | the routine's sheet list and summary are those of `SummaryTab`: the old summary sheet dropped, the entries ranked 10 or better collected from every Rank sheet, and the summary sheet written last only when there are any |
| LeadersScrape.CollectEntries | nba_leaders_scrape_request.py:59-73 | the loop over the rank sheets collects the entries of every sheet in order |
| LeadersScrape.ScanSheet | nba_leaders_scrape_request.py:61-73 | the loop over one sheet's columns collects that sheet's entries |
| RankedFrames.NumColumn | nba_leaders_reformatted.py:98-104 | one optional number per row |
| RankedFrames.AsCells | nba_leaders_reformatted.py:98-104 | the ranks written back as cells, an unranked value staying missing |
| RankedFrames.SetColumn | nba_leaders_reformatted.py:98 | the column is overwritten in every row, or added when new, and nothing else changes |
| RankedFrames.KeepRows | nba_leaders_reformatted.py:90 | exactly the rows whose column is at least the threshold |
| RankedFrames.KeepRowsAppend | nba_leaders_reformatted.py:90 | the mask keeps order and repetitions: two stretches are filtered in turn, and one row is kept exactly when its column is at least the threshold |
| RankedFrames.KeepAtLeast | nba_leaders_scrape_request.py:232 | exactly the rows whose column is at least the threshold, columns kept |
| RankedFrames.KeepAtLeastAppend | nba_leaders_scrape_request.py:232 | the kept rows of a table whose rows are two stretches are those of the first followed by those of the second |
| RankedFrames.WithRankColumns | nba_leaders_reformatted.py:95-98 | the rows are kept, a missing field gives a KeyError, and the columns gained are exactly the fields' `_RANK` columns |
| RankedFrames.WithMinRanks | nba_leaders_reformatted.py:94-98 | the rows are kept, and a missing field gives a KeyError |
| RankedFrames.NotRankName | nba_leaders_reformatted.py:96 | a name not ending in "_RANK" is no field's rank column |
| RankedFrames.RankColumnsKeep | nba_leaders_reformatted.py:95-98 | the ranking fails exactly when some field is not a column, and leaves every non-rank column as it was |
| RankedFrames.RankColumnsOk | nba_leaders_reformatted.py:95-98 | writing rank columns fails exactly when some field is not a column of the frame |
| RankedFrames.RankColumnsHold | nba_leaders_reformatted.py:95-98 | each field's `_RANK` column holds the ranks of that field in the frame passed in |
| RankedFrames.WithRanksInPlace | nba_leaders_reformatted.py:101-104 | the rows and columns are kept, and a missing column gives a KeyError |
| RankedFrames.WithAverageRanks | nba_leaders_reformatted.py:100-104 | the rows are kept, and a missing column gives a KeyError |
| RankedFrames.RanksInPlaceOk | nba_leaders_reformatted.py:101-104 | re-ranking fails exactly when a listed column is missing |
| RankedFrames.RanksInPlaceHold | nba_leaders_reformatted.py:101-104 | with distinct names, each listed column holds the ranks of its original values and every other column is unchanged |
| Ranks.Greater | nba_leaders_reformatted.py:98 | the count of strictly larger present values is at most the length |
| Ranks.AllPresent | nba_leaders_scrape_request.py:22 | a column without missing values has all its values present |
| Ranks.Trichotomy | nba_leaders_reformatted.py:98-104 | each present value is above, below or equal to the pivot |
| Ranks.EqualSelf | nba_leaders_reformatted.py:98-104 | a present value counts itself among its equals |
| Ranks.GreaterAntitone | nba_leaders_reformatted.py:98 | counting strictly larger values above a larger pivot never gives more |
| Ranks.LessMonotone | nba_leaders_reformatted.py:104 | counting strictly smaller values below a larger pivot never gives fewer |
| Ranks.MinRankDesc | nba_leaders_reformatted.py:98 | one rank per value, missing exactly where the value is missing |
| Ranks.MinRankDescProperties | nba_leaders_reformatted.py:98 | equal values share a rank, and a larger value ranks strictly better |
| Ranks.MinRankDescBounds | nba_leaders_reformatted.py:98 | every rank lies in 1..(number of present values) |
| Ranks.MinRankDescOfLargest | nba_leaders_reformatted.py:98 | the largest value ranks 1 |
| Ranks.AverageRank | nba_leaders_reformatted.py:104 | one average rank per value, missing exactly where the value is missing |
| Ranks.AverageRankProperties | nba_leaders_reformatted.py:104 | equal values share a rank, a smaller value ranks strictly lower, and every rank lies in 1..(number of present values) |
| Ranks.TwiceSumSelf | nba_leaders_scrape_request.py:22 | the doubled average ranks of a column sum to P(P+1) |
| Ranks.AverageRankSum | nba_leaders_scrape_request.py:22 | the average ranks of a column sum to P(P+1)/2 |
| Frames.IndexOf | lineup_data_for_web_app.py:90-91 | the first position of the name, None exactly when it is absent |
| Frames.GetAt | nba_players_3pt.py:54 | in a row without duplicate names, the cell at position k is the one named by column k |
| Frames.SetColumn | aaWolfWiseETL/stat_cards/get_wolves_season_stats.py:101-107 | the column is overwritten in every row, or appended when new, and every other column keeps its cells |
| Frames.SetColumns | aaWolfWiseETL/stat_cards/get_wolves_season_stats.py:101-107 | after setting several distinct columns each holds its cells and the rest are unchanged |
| Frames.AllColumns | lineup_data_for_web_app.py:86 | exactly the columns of some frame |
| Frames.Concat | lineup_data_for_web_app.py:45-86 | every row of every frame, in order, under the union of the columns |
| Frames.ConcatRows | lineup_data_for_web_app.py:86 | a concatenated row holds, under each name, a value its source row held there |
| Frames.RenameColumn | lineup_data_for_web_app.py:90-91 | the renamed column answers to its new name with the same cells, and every other column is untouched |
| Frames.RenameKey | advanced_team_stats.py:81-84 | on one record: the value under the old name moves to the new name, and every other key keeps its value |
| Frames.RenameKeysEffect | advanced_team_stats.py:81-84 | independent renames each move their column's value and leave every other column alone |
| Frames.Select | nba_players_3pt.py:54 | a KeyError exactly when a listed column is missing; otherwise the listed columns in the listed order, every row kept |
| Frames.InsertDescSorted | nba_players_3pt.py:54 | inserting a row into rows sorted descending keeps them sorted |
| Frames.SortRowsDesc | nba_players_3pt.py:54 | a permutation of the rows |
| Frames.SortRowsDescSorted | nba_players_3pt.py:54 | the rows are ordered by the column, largest first, missing values last |
| Frames.InsertDescTies | get_player_records.py:41 | an inserted row lands after every row with the same value in the column, so rows of equal value keep their order |
| Frames.SortRowsDescStable | get_player_records.py:41 | the descending sort is stable: for every value of the column the rows holding it come out in their input order |
| Frames.SortDesc | nba_players_3pt.py:54 | the same columns and a permutation of the rows, largest first |
| Frames.SortDescWellFormed | nba_players_3pt.py:54 | sorting keeps a well-formed frame well-formed |
| SeasonCards.RenameAll | aaWolfWiseETL/stat_cards/get_wolves_season_stats.py:82-91 | every column takes its name under the map, or keeps its own name when the map has none; no row changes |
| SeasonCards.RenameAllGet | aaWolfWiseETL/stat_cards/get_wolves_season_stats.py:82-91 | with distinct names before and after, a row answers under a column's new name what it answered under the old one |
| SeasonCards.RenameAllColumns | aaWolfWiseETL/stat_cards/get_wolves_season_stats.py:82-91 | a mapped column takes exactly its mapped name, and a name outside the map's keys and values stays where it was |
| SeasonCards.Matches | aaWolfWiseETL/stat_cards/get_wolves_season_stats.py:96 | the roster entries with the player's id, never more than the roster |
| SeasonCards.MatchFound | aaWolfWiseETL/stat_cards/get_wolves_season_stats.py:96 | every roster entry with the right player_id is matched |
| SeasonCards.MatchSound | aaWolfWiseETL/stat_cards/get_wolves_season_stats.py:96 | only roster entries with the right player_id are matched |
| SeasonCards.MatchAtMostOne | aaWolfWiseETL/stat_cards/get_wolves_season_stats.py:96 | with unique roster ids a player matches at most one entry |
| SeasonCards.MergeRowShape | aaWolfWiseETL/stat_cards/get_wolves_season_stats.py:96 | a merged row is the stats row followed by the position and number of a matching roster entry, or two missing values when none matches |
| SeasonCards.JoinedAt | aaWolfWiseETL/stat_cards/get_wolves_season_stats.py:96 | each stats row's merged rows sit, in order, right after those of the rows before it |
| SeasonCards.JoinedSource | aaWolfWiseETL/stat_cards/get_wolves_season_stats.py:96 | every merged row comes from one stats row |
| SeasonCards.JoinedLength | aaWolfWiseETL/stat_cards/get_wolves_season_stats.py:96 | with one or more merged rows per stats row there are at least as many merged rows as stats rows |
| SeasonCards.LeftMerge | aaWolfWiseETL/stat_cards/get_wolves_season_stats.py:96 | a KeyError exactly without a player_id column; otherwise the stats columns then position and jersey_number, and at least as many rows as the stats |
| SeasonCards.LeftMergeRows | aaWolfWiseETL/stat_cards/get_wolves_season_stats.py:96 | the merged rows are each stats row's merged rows, in stats order |
| SeasonCards.LeftMergeKeepsRows | aaWolfWiseETL/stat_cards/get_wolves_season_stats.py:96 | every stats row heads some merged row |
| SeasonCards.LeftMergeRowSource | aaWolfWiseETL/stat_cards/get_wolves_season_stats.py:96 | every merged row is a stats row followed by a roster match's position and number, or two missing values when the roster has none |
| SeasonCards.LeftMergeOneToOne | aaWolfWiseETL/stat_cards/get_wolves_season_stats.py:96 | with unique roster ids the merge neither drops, duplicates nor reorders stats rows |
| SeasonCards.WordEnd | aaWolfWiseETL/stat_cards/get_wolves_season_stats.py:101 | the end of the run of non-space characters |
| SeasonCards.FirstWord | aaWolfWiseETL/stat_cards/get_wolves_season_stats.py:101 | None exactly when the text is all whitespace |
| SeasonCards.FirstWordIsFirstRun | aaWolfWiseETL/stat_cards/get_wolves_season_stats.py:101 | the first word is the maximal non-empty run of non-space characters after the leading whitespace |
| SeasonCards.Nickname | aaWolfWiseETL/stat_cards/get_wolves_season_stats.py:101 | an IndexError exactly for a text name that is all whitespace; otherwise its first word, and None for a non-text value |
| SeasonCards.NicknameOfOneWord | aaWolfWiseETL/stat_cards/get_wolves_season_stats.py:101 | a one-word name is its own nickname |
| SeasonCards.Underscored | aaWolfWiseETL/stat_cards/get_wolves_season_stats.py:106 | each space becomes an underscore and nothing else changes |
| SeasonCards.ImageUrl | aaWolfWiseETL/stat_cards/get_wolves_season_stats.py:105-107 | a text name gives the base address, the file name and ".png"; a non-text name gives None |
| SeasonCards.ImageUrlFileName | aaWolfWiseETL/stat_cards/get_wolves_season_stats.py:105-107 | the file name holds no space, and for a name without underscores it gives back the lower-cased name once underscores become spaces |
| SeasonCards.NicknameColumn | aaWolfWiseETL/stat_cards/get_wolves_season_stats.py:101 | an IndexError exactly when some text name has no word; otherwise each row's nickname |
| SeasonCards.ColumnCells | aaWolfWiseETL/stat_cards/get_wolves_season_stats.py:101-107 | the column's cell of every row |
| SeasonCards.InsertId | aaWolfWiseETL/stat_cards/get_wolves_season_stats.py:111 | a ValueError exactly when an id column exists; otherwise every row gains a first cell numbering it from 1 |
| SeasonCards.InsertIdGet | aaWolfWiseETL/stat_cards/get_wolves_season_stats.py:111 | row i answers i + 1 under id and what it answered before under every other name |
| SeasonCards.ReducedRoster | aaWolfWiseETL/stat_cards/get_wolves_season_stats.py:85-92 | a KeyError exactly when player_id, position or jersey_number is missing after the renaming; otherwise those three columns, every row kept |
| SeasonCards.AddNameColumns | aaWolfWiseETL/stat_cards/get_wolves_season_stats.py:99-107 | a KeyError without player_name, an IndexError when some text name has no word, and otherwise success with the nickname and image_url columns added and every row kept |
| SeasonCards.AddNameColumnsRow | aaWolfWiseETL/stat_cards/get_wolves_season_stats.py:99-107 | each row keeps its player_name and holds that name's nickname and picture address |
| SeasonCards.CardFrom | aaWolfWiseETL/stat_cards/get_wolves_season_stats.py:91-153 | a KeyError when the roster lacks a kept column; a result has exactly the given column order, is a card, and has no fewer rows than the stats |
| SeasonCards.CardOfRenamed | aaWolfWiseETL/stat_cards/get_wolves_season_stats.py:96-153 | from the merge on, a result has exactly the given column order, is a card, and has no fewer rows than the stats |
| SeasonCards.DesiredOrderPositions | aaWolfWiseETL/stat_cards/get_wolves_season_stats.py:114-151 | desired_order has 36 names, with id, player_name, nickname and image_url at positions 0, 2, 3 and 33 |
| SeasonCards.CardRows | aaWolfWiseETL/stat_cards/get_wolves_season_stats.py:109-153 | after the id insertion and the projection, every row is a card row and none is lost |
| CardPipeline.FetchTimberwolvesStats | aaWolfWiseETL/stat_cards/get_wolves_season_stats.py:25-156 | KeyError without the roster's kept columns or the stats' player_id or player_name, then IndexError for an all-whitespace name, then ValueError for an existing id column, then KeyError for a missing card column, success exactly otherwise; a card under desired_order with running ids, nicknames and picture addresses, carrying every stats row and only stats rows |
| CardPipeline.CardOfRenamedOutcome | aaWolfWiseETL/stat_cards/get_wolves_season_stats.py:96-153 | from the merge on: which error comes first for which missing column or bad name, and success exactly when none applies |
| CardPipeline.CardOfRenamedCarries | aaWolfWiseETL/stat_cards/get_wolves_season_stats.py:96-153 | every stats row is carried by some card row and every card row carries some stats row, cell for cell under the stats columns it shows |
| CardPipeline.MergeCovers | aaWolfWiseETL/stat_cards/get_wolves_season_stats.py:96 | every stats row heads some merged row and every merged row is headed by a stats row |
| CardPipeline.MergeNames | aaWolfWiseETL/stat_cards/get_wolves_season_stats.py:96-101 | the merged rows' player names all hold a word exactly when the stats rows' do |
| CardPipeline.CardRowsOfMerged | aaWolfWiseETL/stat_cards/get_wolves_season_stats.py:99-153 | card row j holds merged row j's stats cells under every column it shows except nickname and image_url |
| CardPipeline.AddNameColumnsOther | aaWolfWiseETL/stat_cards/get_wolves_season_stats.py:101-107 | the two assignments leave every other column of a row unchanged |
| CardPipeline.CarriesThroughCover | aaWolfWiseETL/stat_cards/get_wolves_season_stats.py:96-153 | card rows that follow covering merged rows carry every stats row and only stats rows |
| CardPipeline.PrefixGet | aaWolfWiseETL/stat_cards/get_wolves_season_stats.py:96 | a stats column answers in a merged row with the cell of its stats part |
| RecentStats.TimeframeLabel | aaWolfWiseETL/stat_cards/cursor_get_player_stats_last_n_games.py:55 | "Full Season" for n ≤ 0, otherwise "Last … games" |
| RecentStats.TimeframeLabelRoundTrip | aaWolfWiseETL/stat_cards/cursor_get_player_stats_last_n_games.py:55 | the number in a "Last n games" label reads back as n |
| RecentStats.PercentText | aaWolfWiseETL/stat_cards/cursor_get_player_stats_last_n_games.py:51 | "N/A" for a missing value, a ValueError exactly for a text cell, and text otherwise |
| RecentStats.IntOf | aaWolfWiseETL/stat_cards/cursor_get_player_stats_last_n_games.py:80 | a ValueError unless the cell is an integer, a number, or text holding an optionally signed integer; an integer is itself |
| RecentStats.PlayerIdRoundTrip | aaWolfWiseETL/stat_cards/cursor_get_player_stats_last_n_games.py:58-80 | an integer PLAYER_ID survives the conversion to text and back |
| RecentStats.PercentCells | aaWolfWiseETL/stat_cards/cursor_get_player_stats_last_n_games.py:50-51 | a ValueError exactly when a cell of the column is text; otherwise each row's formatted cell |
| RecentStats.PercentColumnsFacts | aaWolfWiseETL/stat_cards/cursor_get_player_stats_last_n_games.py:32-50 | the three percentage columns are distinct, selected columns, and neither MIN nor GAMES_REMAINING |
| RecentStats.FormatPercents | aaWolfWiseETL/stat_cards/cursor_get_player_stats_last_n_games.py:50-51 | every percentage cell is formatted, every other column is unchanged, rows kept |
| RecentStats.ConstColumn | aaWolfWiseETL/stat_cards/cursor_get_player_stats_last_n_games.py:47-55 | the column holds the value in every row and every other column is unchanged |
| RecentStats.AddRemaining | aaWolfWiseETL/stat_cards/cursor_get_player_stats_last_n_games.py:37-47 | for the full season GAMES_REMAINING is 82 minus the team's games in every row; otherwise no column is added; the rest is unchanged |
| RecentStats.IdsAsText | aaWolfWiseETL/stat_cards/cursor_get_player_stats_last_n_games.py:58 | PLAYER_ID becomes its text in every row and nothing else changes |
| RecentStats.Stamp | aaWolfWiseETL/stat_cards/cursor_get_player_stats_last_n_games.py:53-58 | the rows are kept |
| RecentStats.StampColumns | aaWolfWiseETL/stat_cards/cursor_get_player_stats_last_n_games.py:53-58 | the stamping adds TIMESTAMP, TIMEFRAME and PLAYER_ID and no other column |
| RecentStats.StampRows | aaWolfWiseETL/stat_cards/cursor_get_player_stats_last_n_games.py:53-58 | every row carries the run's timestamp and timeframe label, and PLAYER_ID as text |
| RecentStats.StampKeeps | aaWolfWiseETL/stat_cards/cursor_get_player_stats_last_n_games.py:53-58 | every other column of every row is unchanged |
| RecentStats.Decorate | aaWolfWiseETL/stat_cards/cursor_get_player_stats_last_n_games.py:35-58 | a ValueError only from the formatting; otherwise every row kept, with exactly the selected, added and stamped columns |
| RecentStats.GetTimberwolvesStats | aaWolfWiseETL/stat_cards/cursor_get_player_stats_last_n_games.py:17-60 | a KeyError when a listed column is missing; otherwise one row per player with the 13 columns, TIMESTAMP, TIMEFRAME, and GAMES_REMAINING only for the full season |
| RecentStats.DecorateRows | aaWolfWiseETL/stat_cards/cursor_get_player_stats_last_n_games.py:38-58 | every row carries the timeframe label, the timestamp, PLAYER_ID as text and, for the full season, 82 minus the team's games |
| RecentStats.DecorateSorted | aaWolfWiseETL/stat_cards/cursor_get_player_stats_last_n_games.py:35 | the rows are sorted by MIN, largest first |
| RecentStats.GetTimberwolvesStatsRows | aaWolfWiseETL/stat_cards/cursor_get_player_stats_last_n_games.py:17-60 | every row of a successful call holds the stamps and GAMES_REMAINING as above, and the rows are sorted by MIN |
| RecentStats.GetTimberwolvesStatsShown | aaWolfWiseETL/stat_cards/cursor_get_player_stats_last_n_games.py:17-60 | the result holds the fetched rows, each exactly once, in some order: read on the 13 listed columns, each row shows its percentages as their text ("N/A" when missing), PLAYER_ID as text, and every other listed cell as fetched |
| RecentStats.ShownRowsPermutation | aaWolfWiseETL/stat_cards/cursor_get_player_stats_last_n_games.py:35 | reordering the rows (the sort) reorders what they show and loses or duplicates none |
| RecentStats.DecorateShown | aaWolfWiseETL/stat_cards/cursor_get_player_stats_last_n_games.py:37-58 | after the sort, each row of the result shows, on the listed columns, the sorted row with its percentages and PLAYER_ID as text |
| RecentStats.SelectShown | aaWolfWiseETL/stat_cards/cursor_get_player_stats_last_n_games.py:32-35 | the column selection keeps every listed cell of every row |
| RecentStats.ColumnSurvivesPercents | aaWolfWiseETL/stat_cards/cursor_get_player_stats_last_n_games.py:50-51 | a column that is not a percentage column keeps its cells |
| RecentStats.ColumnSurvivesStamp | aaWolfWiseETL/stat_cards/cursor_get_player_stats_last_n_games.py:53-58 | a column other than the stamped ones keeps its cells |
| RecentStats.SortedTransfer | aaWolfWiseETL/stat_cards/cursor_get_player_stats_last_n_games.py:35-58 | sortedness by MIN carries over to a frame whose rows hold the same MIN cells |
| RecentStats.ToRecords | aaWolfWiseETL/stat_cards/cursor_get_player_stats_last_n_games.py:76 | one record per row, holding the row's cell under each column |
| RecentStats.ConvertedIds | aaWolfWiseETL/stat_cards/cursor_get_player_stats_last_n_games.py:79-80 | one record per record |
| RecentStats.ConvertPlayerIds | aaWolfWiseETL/stat_cards/cursor_get_player_stats_last_n_games.py:79-80 | succeeds exactly when every record has a PLAYER_ID that int() accepts, and then every record holds the integer |
| RecentStats.Survivors | aaWolfWiseETL/stat_cards/cursor_get_player_stats_last_n_games.py:83 | exactly the rows whose PLAYER_ID is not a number other than 0 |
| RecentStats.SurvivorsAppend | aaWolfWiseETL/stat_cards/cursor_get_player_stats_last_n_games.py:83 | the delete keeps the table's order and repetitions: two stretches of records survive in turn, and one record survives exactly when it is not deleted |
| RecentStats.SaveOne | aaWolfWiseETL/stat_cards/cursor_get_player_stats_last_n_games.py:71-96 | a failed pass leaves the table as it was or holding only the survivors of the delete |
| RecentStats.SaveConverted | aaWolfWiseETL/stat_cards/cursor_get_player_stats_last_n_games.py:83-86 | success exactly when the insert succeeds, and then the table is the survivors followed by the new records |
| RecentStats.SavedTables | aaWolfWiseETL/stat_cards/cursor_get_player_stats_last_n_games.py:70-96 | the set of tables is unchanged |
| RecentStats.SaveTimeframe | aaWolfWiseETL/stat_cards/cursor_get_player_stats_last_n_games.py:71-93 | the loop body's table and success flag are those of `SaveOne`: the table unchanged and no success when the stats cannot be computed or their ids converted, otherwise the delete and the insert |
| RecentStats.SaveToSupabase | aaWolfWiseETL/stat_cards/cursor_get_player_stats_last_n_games.py:63-96 | every timeframe is attempted; the tables and the success flags end as `SavedTables` and `Saved` give them |
| RecentStats.SaveAt | aaWolfWiseETL/stat_cards/cursor_get_player_stats_last_n_games.py:70-96 | one pass of the loop advances the tables by one timeframe |
| RecentStats.TablesDistinct | aaWolfWiseETL/stat_cards/cursor_get_player_stats_last_n_games.py:64-68 | the three timeframes write three different tables |
| RecentStats.SavedTablesIndependent | aaWolfWiseETL/stat_cards/cursor_get_player_stats_last_n_games.py:70-96 | each table ends as its own timeframe's pass left it: other timeframes' failures do not reach it, and other tables are untouched |
| RecentStats.SavedIndependent | aaWolfWiseETL/stat_cards/cursor_get_player_stats_last_n_games.py:70-96 | a timeframe's success depends only on its own fetch and its table's starting rows |
| RecentStats.SavedFlagAt | aaWolfWiseETL/stat_cards/cursor_get_player_stats_last_n_games.py:70-96 | the success flag recorded for a timeframe is the one its own pass produced, whatever passes follow |
| GameLogs.WeekOfYear | bball_ref_scraper_game_logs.py:29 | a week number of at most 53, 0 exactly for the days before the year's first Monday |
| GameLogs.SameWeek | bball_ref_scraper_game_logs.py:29 | the days of one Monday-to-Sunday week share their week number |
| GameLogs.NextWeek | bball_ref_scraper_game_logs.py:29 | the same weekday a week later is one week number further |
| GameLogs.Padded | bball_ref_scraper_game_logs.py:29 | exactly the given number of digits |
| GameLogs.PaddedValue | bball_ref_scraper_game_logs.py:29 | the padded digits read back as the number |
| GameLogs.LexLessAppend | bball_ref_scraper_game_logs.py:144-173 | strings with equal-length first parts compare by those parts first, then by the rest |
| GameLogs.PaddedOrder | bball_ref_scraper_game_logs.py:144-173 | zero-padded numbers of one width compare as strings as they compare as numbers |
| GameLogs.YearWeek | bball_ref_scraper_game_logs.py:29 | an eight-character "%Y-W%W" key |
| GameLogs.YearWeekOrder | bball_ref_scraper_game_logs.py:29-173 | sorting the keys as strings sorts the weeks chronologically, and two days share a key exactly when they share year and week |
| GameLogs.UseCurrentWeekPadding | bball_ref_scraper_game_logs.py:136-137 | white space typed before or after any answer never changes whether it means yes |
| GameLogs.UseCurrentWeekCase | bball_ref_scraper_game_logs.py:136-137 | letter case never changes the answer: any two answers that lower-case alike agree |
| GameLogs.UseCurrentWeekYes | bball_ref_scraper_game_logs.py:136-137 | any answer that lower-cases to "yes" or "y", with white space on either side (" Yes\n", "Y"), means yes |
| GameLogs.SumOverWeeksStep | bball_ref_scraper_game_logs.py:57-59 | adding a game adds its count to the one week it belongs to |
| GameLogs.SumOfWeeks | bball_ref_scraper_game_logs.py:59-115 | a player's season total is the sum of the weekly totals over distinct weeks covering the player's games |
| GameLogs.Ratio | bball_ref_scraper_game_logs.py:62-126 | made over attempted, 0 when nothing was attempted, and within 0..1 when made ≤ attempted |
| GameLogs.OverallIsRatioOfSums | bball_ref_scraper_game_logs.py:103-123 | the overall percentage is all the weeks' makes over all the weeks' attempts |
| GameLogs.NotMeanOfRatios | bball_ref_scraper_game_logs.py:103-123 | one of one then none of three gives 25%, where the weekly ratios average 50% |
| GameLogs.PctSeries | bball_ref_scraper_game_logs.py:143-145 | the player's weekly percentages in week order |
| GameLogs.Window | bball_ref_scraper_game_logs.py:146-185 | a pair of rows exactly when there are at least 2 weeks (current-week mode) or 3; the last two, or the two before the latest |
| GameLogs.StatChange | bball_ref_scraper_game_logs.py:146-199 | None exactly when the player has too few weeks; otherwise the chosen weeks' values, their difference and the difference from the overall average |
| GameLogs.LatestWeekIgnored | bball_ref_scraper_game_logs.py:150-182 | outside current-week mode the latest week never affects the result |
| GameLogs.ModesAgree | bball_ref_scraper_game_logs.py:146-182 | skipping the latest week is current-week mode on the weeks before it |
| GameLogs.Store | bball_ref_scraper_game_logs.py:163-193 | the player is added to the dictionary's keys and no other |
| GameLogs.WeekOverWeek | bball_ref_scraper_game_logs.py:143-199 | the comparison loops build exactly the `ChangesOf` dictionary of week-over-week changes |
| GameLogs.ChangesOfAt | bball_ref_scraper_game_logs.py:143-199 | a change is stored exactly for the player and stat pairs with enough weeks, and it is that pair's comparison |
| GameLogs.StoredForOther | bball_ref_scraper_game_logs.py:163-193 | storing one pair's change keeps what is stored for every other pair |
| GameLogs.ChangesOfOnly | bball_ref_scraper_game_logs.py:143-199 | nothing is stored for a pair the loops did not visit |
| Playoffs.PlayoffFilterExamples | playoff_game_log_nba_api.py:12 | the filter keeps "42021", and also the regular-season id "22024", because it only looks for a '4' |
| Playoffs.PlayoffDetails | playoff_game_log_nba_api.py:11-27 | exactly the projections of the rows whose season id contains '4', no more than there are rows |
| Playoffs.PlayoffDetailsAppend | playoff_game_log_nba_api.py:16-25 | the filter keeps row order: two stretches of rows give their details one after the other |
| Playoffs.FetchPlayoffScores | playoff_game_log_nba_api.py:6-27 | the loop gives exactly `PlayoffDetails`: one detail per playoff row, in order |
| Playoffs.AllSeasons | playoff_game_log_nba_api.py:31-32 | every detail comes from one season's playoff details |
| Playoffs.AllSeasonsEmpty | playoff_game_log_nba_api.py:27-32 | the concatenation is empty exactly when no season has a playoff row, i.e. when every fetched frame is the column-less `pd.DataFrame([])` |
| Playoffs.InsertAscending | playoff_game_log_nba_api.py:41 | inserting an id keeps the ids ascending and adds exactly that id |
| Playoffs.GameIds | playoff_game_log_nba_api.py:41 | the distinct game ids, in ascending order |
| Playoffs.GroupOf | playoff_game_log_nba_api.py:41 | exactly the game's rows |
| Playoffs.Pivot | playoff_game_log_nba_api.py:42-48 | an IndexError exactly when the game has fewer than two rows |
| Playoffs.PivotRow | playoff_game_log_nba_api.py:42-48 | the row holds the game id, the first row's date, "A vs. B" and one score per team; with equal abbreviations the second score wins the shared key |
| Playoffs.PtsKeyIsNotFixed | playoff_game_log_nba_api.py:43-47 | a score key never collides with Game_ID, Game_Date or Matchup |
| Playoffs.PtsKeyInjective | playoff_game_log_nba_api.py:45-46 | two score keys are equal exactly when the abbreviations are |
| Playoffs.PivotRowsStep | playoff_game_log_nba_api.py:41-49 | one more pivoted game appends its row to the rows of the games before it |
| Playoffs.PivotAll | playoff_game_log_nba_api.py:41-49 | succeeds exactly when every game has two rows, giving one pivoted row per id in order |
| Playoffs.TransformDataframe | playoff_game_log_nba_api.py:36-53 | KeyError exactly when there are no details (the column-less frame has no Game_ID to group by); otherwise the loop over the groups gives exactly `PivotAll` over the ascending game ids |
| Playoffs.TransformShape | playoff_game_log_nba_api.py:36-53 | success exactly when every game has two rows; then one row per distinct game, in ascending Game_ID order |
| DuringGame.SidePlayers | get_nba_game_stats_during_game.py:91-95 | the home roster when MATCHUP contains "vs", otherwise the away roster |
| DuringGame.SideOfMatchup | get_nba_game_stats_during_game.py:91-95 | "MIN vs. DEN" selects the home roster and "MIN @ DEN" the away roster |
| DuringGame.PlayerRow | get_nba_game_stats_during_game.py:98-130 | the row's Player is the first name, a space and the last name |
| DuringGame.Rows | get_nba_game_stats_during_game.py:98-119 | one row per roster player, in roster order |
| DuringGame.CollectRows | get_nba_game_stats_during_game.py:98-116 | the player loop yields those rows |
| DuringGame.SelectedStatsPresent | get_nba_game_stats_during_game.py:122-146 | every chosen stat is a column of a player's row |
| DuringGame.RowsCarrySelected | get_nba_game_stats_during_game.py:122-146 | every row carries every chosen stat |
| DuringGame.RowsMatchNames | get_nba_game_stats_during_game.py:130-153 | a row matches a name exactly when its player has that full name |
| DuringGame.ExtractionSucceeds | get_nba_game_stats_during_game.py:152-163 | the extraction fails exactly when a chosen player is not on the roster |
| DuringGame.DuringGameLineUp | get_nba_game_stats_during_game.py:160-168 | the header has 45 names, and a successful extraction 45 fields |
| DuringGame.Run | get_nba_game_stats_during_game.py:91-173 | a KeyError for an empty roster; otherwise the extraction's error, or the CSV of the header and the flattened selections |
| BoxScore.MadeAttemptedRoundTrip | get_player_box_in_game2.py:94-95 | the made-attempted shooting line reads back: the text before its first dash is the makes and the text after it the attempts |
| BoxScore.LiveRecord | get_player_box_in_game2.py:86-97 | the record carries the player's full name under Player and, keyed "3pt", every column the INSERT tuple reads |
| BoxScore.LiveRecordKeys | get_player_box_in_game2.py:86-97 | the ten-field record has exactly the ten columns |
| BoxScore.LiveRecordShots | get_player_box_in_game2.py:86-97 | the shooting cells are the made-attempted lines of the player's counts and points, rebounds, assists and plus-minus sit under their short names |
| BoxScore.LiveRecordCounts | get_player_box_in_game2.py:91-93 | the record's steals, turnovers and blocks are the player's |
| BoxScore.LiveRecords | get_player_box_in_game2.py:84-100 | the player loop builds one record per roster player, in roster order |
| BoxScore.PlayerNames | get_player_box_in_game2.py:106 | the Player column as a list: one name per record, in order |
| BoxScore.FirstMatch | get_nba_game_ids.py:130 | the first row whose key cell holds the name; none exactly when no row does |
| BoxScore.Fields | get_nba_game_ids.py:131-134 | the name followed by each stat and its value; KeyError exactly when a stat is not a column |
| BoxScore.FormatForPlayer | get_nba_game_ids.py:129-134 | IndexError exactly when no row matches; otherwise KeyError or the name followed by one (stat, value) pair per stat |
| BoxScore.FormatFromFirstMatch | get_nba_game_ids.py:130-134 | the values come from the first matching row |
| BoxScore.FormatDataForPlayer | get_nba_game_ids.py:129-134 | the lookup and the pair loop compute exactly that result |
| BoxScore.FormatAll | get_nba_game_ids.py:137-140 | succeeds exactly when every selection does, with one name and two fields per stat for each selection |
| BoxScore.FieldCountUniform | get_nba_game_ids.py:137-140 | with the same number of stats per selection the field count is the number of slots times one plus twice that number |
| BoxScore.FormatAllWhenStatsPresent | get_nba_game_ids.py:129-140 | on rows carrying every chosen stat the extraction fails exactly when some chosen name matches no row |
| BoxScore.NamedRowsSucceed | get_nba_game_ids.py:129-140 | on rows naming the roster one for one and carrying every chosen stat, the extraction succeeds exactly when every chosen name is a roster player's full name |
| BoxScore.FormatPairWhenStatsPresent | advanced_team_stats.py:97-108 | two selections with the same stats succeed exactly when both names match a row |
| BoxScore.FormatAllStops | get_nba_game_ids.py:137-140 | once a selection fails the whole extraction fails with that error |
| BoxScore.ExtractFormatted | get_nba_game_ids.py:137-140 | the selection loop computes exactly that concatenation |
| BoxScore.PairNames | get_nba_game_ids.py:145 | a slot's field and value names, two per pair |
| BoxScore.SlotNames | get_nba_game_ids.py:145 | a slot has its Player name and two names per pair |
| BoxScore.HeaderNames | get_nba_game_ids.py:143-145 | the header has one plus twice the pairs names per slot |
| BoxScore.SlotOfFourPairs | get_nba_game_ids.py:145 | the nine names of a four-pair slot are the ones the script lists |
| BoxScore.SlotOfFivePairs | advanced_team_stats.py:113 | the eleven names of a five-pair slot are the four-pair slot and the fifth pair |
| BoxScore.HeaderPrefix | get_nba_game_ids.py:143-145 | the header of the first slots is a prefix of the whole header |
| BoxScore.BuildHeader | get_nba_game_ids.py:143-145 | the header loop builds exactly that header |
| BoxScore.HeaderPlain | get_nba_game_ids.py:143-150 | no header name holds a comma or a line break |
| BoxScore.Texts | get_nba_game_ids.py:150 | the text of each item, one per item |
| BoxScore.CsvLines | get_nba_game_ids.py:148-150 | the file's first line break ends the header line; the header line splits back into the names and the data line into the item texts |
| BoxScore.RowTuple | get_player_box_in_game2.py:134-138 | the row tuple holds the record's values in the frame's column order |
| BoxScore.StoredAsWritten | get_player_box_in_game2.py:134-138 | as written the k-th tuple value goes to the k-th INSERT column, so every INSERT column is filled |
| BoxScore.StoredAsWrittenShift | get_player_box_in_game2.py:134-138 | as written BLK receives the steals, STL the turnovers and TOV the blocks |
| BoxScore.InsertShiftsColumns | test_connection_without_nba_api.py:143-147 | as written the stored blocks are right only when the player's steals equal the player's blocks |
| BoxScore.InsertShiftExample | get_player_box_in_game2.py:134-138 | a player with two steals and no blocks is stored with two blocks |
| BoxScore.StoredByName | get_player_box_in_game2.py:114-138 | stored by name, each INSERT column holds the frame column of the same name (threePt from 3pt) |
| BoxScore.StoredByNameFaithful | get_player_box_in_game2.py:114-138 | stored by name, blocks, steals, turnovers and the three-point line are the player's own |
| BoxScore.StoredByNameCounts | get_player_box_in_game2.py:114-138 | stored by name, BLK, STL, TOV and threePt keep the record's values |
| GameIds.LatestMinGameId | get_nba_game_ids.py:19-24 | the id of the first Minnesota row of the season's games; IndexError exactly when no row is Minnesota's |
| GameIds.MinnesotaSide | get_nba_game_ids.py:91-101 | the home roster when the home city is Minnesota, else the away roster when that city is; nothing exactly when neither is |
| GameIds.PlayerRow | get_nba_game_ids.py:74-84 | a player's row is labelled with the first name, a space and the family name |
| GameIds.PlayerRowCounts | get_nba_game_ids.py:81-111 | after the renames BLK, STL and REB hold the feed's blocks, steals and total rebounds |
| GameIds.Rows | get_nba_game_ids.py:69-88 | one row per roster player, in roster order |
| GameIds.CreateTeamStats | get_nba_game_ids.py:69-88 | the player loop builds exactly those rows |
| GameIds.RowsCarrySelected | get_nba_game_ids.py:104-123 | every stat chosen for any player is a column of every row |
| GameIds.RowsMatchNames | get_nba_game_ids.py:77-130 | a row matches a name in the Player column exactly when a roster player has that full name |
| GameIds.ExtractionSucceeds | get_nba_game_ids.py:129-140 | the extraction succeeds exactly when each of the three chosen players is on the roster; otherwise IndexError |
| GameIds.GameIdsLineUp | get_nba_game_ids.py:143-150 | the header has 27 names and a successful extraction gives 27 fields |
| GameIds.Run | get_nba_game_ids.py:91-150 | KeyError when Minnesota is on neither side or has no players; otherwise the extraction's error, or the CSV of the 27-name header and the extracted fields |
| AdvancedTeam.ProcessData | advanced_team_stats.py:4-9 | the frame with the response's headers and rows, each row padded with missing values to the header count; ValueError exactly when the row set is non-empty and its widest row does not have one value per header |
| AdvancedTeam.RaggedRowsPadded | advanced_team_stats.py:8 | headers a, b over the rows [1, 2] and [3] build a two-row frame whose second row is [3, NaN] |
| AdvancedTeam.RowRecord | advanced_team_stats.py:95-101 | a row read as a record has exactly the frame's columns, each holding that row's cell |
| AdvancedTeam.RowRecordCells | advanced_team_stats.py:95-101 | with distinct column names each cell is found under its own column |
| AdvancedTeam.WinLossReadsBack | advanced_team_stats.py:80 | for integer wins and losses the Record text splits at its dash back into the two counts |
| AdvancedTeam.RenamesIndependent | advanced_team_stats.py:81-84 | no renamed column is the target of another rename, so the four renames do not interfere |
| AdvancedTeam.FixedColumnsUntouched | advanced_team_stats.py:80-84 | neither the new Record column nor TEAM_NAME is renamed |
| AdvancedTeam.TeamRowFields | advanced_team_stats.py:80-84 | after the column work a team keeps its name, gains its W-L Record, and each renamed rating sits under its new name with its old value |
| AdvancedTeam.TeamRowHasStats | advanced_team_stats.py:80-93 | a dashboard row with the four rated columns carries all five chosen stats |
| AdvancedTeam.TeamRows | advanced_team_stats.py:79-84 | one team record per frame row, in order |
| AdvancedTeam.TeamRowsCarryStats | advanced_team_stats.py:80-93 | on a dashboard with W, L and the four rated columns every team row carries the five stats |
| AdvancedTeam.TeamRowsMatch | advanced_team_stats.py:98 | the column work changes no team's TEAM_NAME match |
| AdvancedTeam.TeamsFound | advanced_team_stats.py:97-108 | the two chosen teams are extracted exactly when both names occur in the TEAM_NAME column; otherwise IndexError |
| AdvancedTeam.TeamExtraction | advanced_team_stats.py:79-108 | the same, stated on the dashboard frame itself |
| AdvancedTeam.HeaderAsWrittenMismatch | advanced_team_stats.py:111-118 | as written the header has 44 names against a 22-field data line; its first 22 names are the intended header |
| AdvancedTeam.HeaderMatchesData | advanced_team_stats.py:111-118 | with one slot per chosen team the header has exactly as many names (22) as the data line has fields |
| AdvancedTeam.WriteTeams | advanced_team_stats.py:95-118 | KeyError when the frame has no TEAM_NAME column; IndexError when Minnesota has no row; otherwise the CSV exactly when the extraction succeeds, its header the 44 names of the four slots as written |
| AdvancedTeam.WriteRows | advanced_team_stats.py:95-118 | on team records: IndexError when Minnesota has no row; otherwise a CSV exactly when both teams' stats are extracted, with the as-written 44-name header over the 22 fields |
| AdvancedTeam.Run | advanced_team_stats.py:69-118 | NameError when the status is not 200, ValueError when the widest row does not match the headers, KeyError without W, L or TEAM_NAME; otherwise the CSV, with its 44-name header, exactly when both teams' stats are extracted |
| InGameStats.WolvesTeam | aaWolfWiseETL/in_game_stats/in_game_stats.py:139-150 | the home side when its tricode is MIN, else the away side when its tricode is; ValueError exactly when neither is MIN |
| InGameStats.OpponentIsOtherSide | aaWolfWiseETL/in_game_stats/in_game_stats.py:103-108 | the reported opponent is the tricode of the side that is not the Wolves side, and never MIN when only one side is MIN |
| InGameStats.InGameRecords | aaWolfWiseETL/in_game_stats/in_game_stats.py:136-174 | ValueError exactly when MIN plays on neither side; otherwise one ten-field record per Wolves player, in roster order |
| BoxInGame2.ReplaceTable | get_player_box_in_game2.py:130-138 | after the delete and the positional inserts the table holds exactly one `StoredAsWritten` row per record, in frame order, whatever it held before |
| BoxInGame2.Run | get_player_box_in_game2.py:80-138 | KeyError exactly when the home roster is empty; otherwise the selected names are the home players' full names in order, each stored row is the positional INSERT of its player's record, so BLK holds the player's steals, STL the turnovers and TOV the blocks |
| LatestGame.DateLeTotal | test_connection_without_nba_api.py:40-49 | the date order the sort and the scan use is total and antisymmetric |
| LatestGame.MonthWolvesGames | test_connection_without_nba_api.py:25-37 | a month yields no more Minnesota games than it has games |
| LatestGame.MonthWolvesGamesSound | test_connection_without_nba_api.py:31-37 | every collected game is the entry of a Minnesota game of the month |
| LatestGame.MonthWolvesGamesComplete | test_connection_without_nba_api.py:31-37 | no Minnesota game of the month is missed |
| LatestGame.CollectedExactly | test_connection_without_nba_api.py:24-37 | every game listed with MIN at home or away is collected, and every collected game has MIN on one side |
| LatestGame.CollectWolvesGames | test_connection_without_nba_api.py:21-37 | the nested month and game loops collect exactly those games, in schedule order |
| LatestGame.Latest | test_connection_without_nba_api.py:39-50 | none exactly when no game is on or before today; otherwise a game on or before today |
| LatestGame.LatestIsMostRecent | test_connection_without_nba_api.py:39-50 | the picked game is no earlier than any game on or before today, and the first of its date in schedule order (stable sort) |
| LatestGame.GetLatestGameId | test_connection_without_nba_api.py:12-57 | None when the schedule request fails or no game is on or before today; TypeError when a collected game has no date; otherwise the picked game's id |
| LatestGame.WolvesPlayers | test_connection_without_nba_api.py:75-76 | the home roster when the home tricode is MIN, the away roster otherwise |
| LatestGame.AsText | test_connection_without_nba_api.py:96 | converting to text keeps every column and replaces each value by its text |
| LatestGame.AsTextIntReadsBack | test_connection_without_nba_api.py:96 | an integer cell becomes its decimal text, which reads back as the same integer |
| LatestGame.AsTextCountsReadBack | test_connection_without_nba_api.py:79-96 | points, rebounds and plus-minus survive the conversion to text |
| LatestGame.AsTextKeepsShots | test_connection_without_nba_api.py:88-96 | the two shooting lines are unchanged by the conversion |
| LatestGame.ReplaceTable | test_connection_without_nba_api.py:139-147 | after the delete and the positional inserts the table holds exactly one `StoredAsWritten` row per record, in order |
| LatestGame.Run | test_connection_without_nba_api.py:60-156 | TypeError exactly when the schedule request succeeds and a Minnesota game is undated; a table is written exactly when the schedule and box-score requests succeed and the latest game on or before today has a non-empty id; it holds one all-text positional row per Minnesota player, in roster order |
| Links.RowOf | aaWolfWiseETL/records/get_links.py:21-28 | an anchor yields a row exactly when its href starts with /leaders/; the row holds the stripped text and the site URL followed by the href |
| Links.LeaderLinks | aaWolfWiseETL/records/get_links.py:18-28 | no more rows than anchors |
| Links.LeaderLinksAppend | aaWolfWiseETL/records/get_links.py:21-28 | document order is kept: the rows of two stretches of the page are those of the first followed by those of the second |
| Links.LeaderLinksSound | aaWolfWiseETL/records/get_links.py:26-28 | every row is a leaders URL under the site and comes from one of the anchors |
| Links.LeaderLinksComplete | aaWolfWiseETL/records/get_links.py:26-28 | every anchor with a leaders href yields its row |
| Links.CollectLinks | aaWolfWiseETL/records/get_links.py:18-28 | the link loop builds exactly those rows |
| Links.GetLinks | aaWolfWiseETL/records/get_links.py:9-38 | no CSV exactly when the status is not 200; otherwise the rows of the kept anchors |
| Lists.WithoutAppend | in_game_plus_minus.py:207-208 | the comprehension keeps order and repetitions: two stretches are filtered in turn, and one element is kept exactly when it is neither dropped value |
| Lists.UniqueAppendSeen | aaWolfWiseETL/goat_comparison/comparison_model.py:124 | `unique()` keeps first occurrences only: elements already seen add nothing |
| Lists.UniqueAppendDisjoint | aaWolfWiseETL/goat_comparison/comparison_model.py:124 | for two stretches with nothing in common, the unique values are those of the first followed by those of the second; one element is its own unique list |

## Left out

- Network and scraping I/O are out: HTTP requests, nba_api endpoint calls and BeautifulSoup navigation. Their results are parameters: records, texts, status codes, or `Err` for a call that raised.
- The retry on HTTP 429 (in_game_play_by_play.py:10-22, in_game_plus_minus.py:11-23, get_player_records.py:48-64) and every `time.sleep` are out. They are I/O plumbing.
- The thread-timer timeout of hof_yby_stats.py:12-20 is out. It is concurrency.
- Excel, CSV, SQLite, SQL Server and Supabase writes are out. Three exceptions are modelled: the `player_stats` delete-then-insert, as the table's new contents; the Supabase delete of every row whose PLAYER_ID is not 0 followed by the insert, into timberwolves_player_stats_season, timberwolves_player_stats_last_5 and timberwolves_player_stats_last_10; and the workbook's sheet order. The CSV written and read back at in_game_play_by_play.py:138-139 is taken to return the same table.
- `input()` prompts, `print`/logging and print_similarity_results (comparison_model.py:99-115) are out. The week-over-week mode answer is a parameter.
- Floating-point arithmetic is out:
  - compute_similarity's standardisation and distances (comparison_model.py:49-97), whose overall score is a parameter;
  - per-game divisions (hof_yby_stats.py:140-141, wolves_year_by_year_stats.py:110-111);
  - percentage scaling and the inf/NaN replacement of get_wolves_season_stats.py:164-189;
  - percentage formatting in cursor_get_player_stats_last_n_games.py:50-51;
  - per-game percentages in bball_ref_scraper_game_logs.py:50-54.

  Python's float text is a parameter (`floatText`). Decimal values are integer hundredths, and a clock fraction beyond two digits is truncated.
- Text is modelled over Latin-1 characters (`isspace`, `isalnum`, `lower`, `upper`). Unicode behaviour beyond U+00FF is not modelled, and neither is BeautifulSoup's `get_text(strip=True)` beyond stripping.
- pandas internals are assumptions, not models. Sorts are stable. A missing value is `Blank`/`None` rather than NaN. `rank` leaves missing values unranked.
- The sort by (gameid, orderNumber) at play_by_play.py:53 is not modelled: NegativeTime takes the joined rows already in that order. GamesTimeNonNegative and RunsWithinGame therefore state their bounds for games whose rows are in time order.
- The two-key sort at in_game_play_by_play.py:137 is not modelled: the fold takes the actions already sorted. The three-key sort of in_game_plus_minus.py:147 is modelled.
- generate_summary_tab of nba_leaders_reformatted.py:127-169 is not modelled, because that script's main never calls it. The same routine in nba_leaders_scrape_request.py is modelled.
- The game-id lookup at the top of in_game_stats.py:19-29 and get_player_box_in_game2.py:13-25 is the same rule as GameIds.LatestMinGameId and is not modelled again. The unused process_data of those scripts is not modelled.
- The command-line entry points and file paths of every script are out.
- GameIds.PlayerRow: states only the Player cell. PlayerRowCounts states the three counts the chosen stats read. Position and the other statistics keys are not stated.
- GameLogs.Ratio: gives 0 whenever attempted is 0. The weekly ratio at bball_ref_scraper_game_logs.py:62-67 stays infinite when made > 0 and attempted is 0, which cannot happen when made ≤ attempted.
- IsFloatText: rejects the underscores between digits that Python's `float()` accepts. The runs Leaderboard.ReadCell hands it hold only digits and dots, so no reading changes.
- Playoffs.IsPlayoff: keeps the source's filter (a '4' anywhere in SEASON_ID), so a regular-season id such as "22024" passes. PlayoffFilterExamples shows this. It is documented rather than corrected.

## Findings

| source | as written | input that shows it | evidently intended | confidence | as-written member | corrected member |
|---|---|---|---|---|---|---|
| in_game_plus_minus.py:187-196, 247-250 | substitutions fill the away queue for team 1610612742, but away points are negated for team 1610612743 | a made "2pt" by team 1610612742 gets plus_minus 0 | the same away team, 1610612742, for the queues and the scoring | medium, not executed | PlusMinus.AwayBasketIgnored | PlusMinus.PlusMinusCases |
| get_player_box_in_game2.py:86-97, 134-138; test_connection_without_nba_api.py:79-91, 143-147 | the row tuple is in frame order (…STL, TOV, BLK…) but the INSERT lists (…BLK, STL, TOV…), so values are placed by position | a player with 2 steals and 0 blocks is stored with BLK 2 | each value stored under its own column name | high, not executed | BoxScore.InsertShiftExample | BoxScore.StoredByNameFaithful |
| advanced_team_stats.py:111-118 | the header loop runs over 4 slots (44 names) while only 2 teams are written (22 fields) | any successful run: 44 header names over a 22-field data line | one header slot per chosen team, 22 names | high, not executed | AdvancedTeam.HeaderAsWrittenMismatch | AdvancedTeam.HeaderMatchesData |
| Get_Wolves_Player_Stats_Basic.py:64-73, 104-114 | a failed last-5 or last-10 fetch returns an empty frame, and merging it on PLAYER_ID raises KeyError | the last-5 request raises, so the table has no columns and the merge fails | the fallback frame leaves the full-season stats unmerged but saved | medium, not executed | StatsBasic.MergeStatsAsWritten | StatsBasic.MergeStats |
