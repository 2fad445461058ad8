# Match-log statistics, modelled in Dafny

This project models the statistics extractor of a CS:GO match-backend service: `parseMatchLog` and its helpers
`parseCustomTimestamp` and `extractPlayerAndTeam` in `src/services/parser.ts`.

The extractor works as follows:

- It splits the server log text into lines and finds the last `World triggered "Match_Start"` line.
- It then reads every later line once and applies independent tests to each one, in source order:
  - a round start;
  - a round end, which closes a round when a start time is recorded;
  - a team's round win;
  - a bomb plant;
  - a bomb defuse;
  - a kill.
- From those tests it keeps counters, a kill list, per-player kill and death tallies, round timing and the most
  kills in a round.
- At the end it groups the killers' tallies by team and divides the total round time by the number of round starts.

The modules follow that structure:

- `Wrappers` (`wrappers.dfy`): the optional value that stands for the source's `null` results and failed matches.
- `Strings` (`strings.dfy`): the JavaScript string operations the parser relies on, on `seq<char>`:
  - `includes` and `indexOf`;
  - `startsWith`;
  - `split`, with `Join` as its inverse;
  - `padStart`;
  - decimal fields.
- `Tallies` (`tallies.dfy`): the `record[key] = (record[key] || 0) + n` counters, with the sum of their values.
- `Timestamp` (`timestamp.dfy`): `parseCustomTimestamp`, and the instant its ISO text denotes, as whole seconds
  since 1970-01-01 UTC.
- `LogPatterns` (`patterns.dfy`):
  - the event markers;
  - the timestamp, round-win and kill regular expressions as leftmost-match recognisers;
  - the prop-victim filter;
  - `extractPlayerAndTeam`.
- `Grouping` (`grouping.dfy`): the team grouping of the kill totals. It is defined both as the post-pass builds it
  (one raw name at a time, in any order) and as a per-player sum, and the two are proved equal.
- `MatchLog` (`matchlog.dfy`): the procedure itself.
  - `Step` and `Scan` specify one pass of the loop body and the whole scan.
  - The class `MatchScan` holds the loop's running tallies. Each of its methods is one of the loop body's tests,
    updating the fields in place.
  - The method `ScanLines` runs the loop over the window on a fresh `MatchScan`.
  - The method `ParseMatchLog` finds the window, runs the loop, groups the kills and computes the average. It is
    proved to return `Report` of the log's lines.
- `MatchLogFacts` (`facts.dfy`): what the report contains, stated against reference definitions over the lines read:
  - counts of marker lines;
  - the accepted kills in line order;
  - kills since the last round start.
- `RoundTiming` (`rounds.dfy`): the round time and the average round length, stated against a reference sum over
  the lines and, for a log made of whole rounds with any quiet lines between and after them, as the mean of the rounds' durations.

The model follows the code in these places:

- The average round length divides the summed round time by the number of `Round_Start` lines. Rounds that never
  closed are counted too, so it is not the number of completed rounds.
- A kill before the first round start is numbered round 0.
- The most kills in a round is updated only when a `Round_End` line closes a round.
- A `Round_Start` line without a timestamp keeps the previously recorded start.
- A `Round_End` line without a timestamp does not close the round.

## Model

| member | source | states |
|---|---|---|
| `Timestamp.ParseCustomTimestamp` | src/services/parser.ts:7-25 | a normalised timestamp has a non-empty year, month, day and time |
| `Timestamp.ParseRejectsUnseparated` | src/services/parser.ts:8-12 | an empty timestamp, or one without ` - `, gives `null` |
| `Timestamp.ParseRejectsShortDate` | src/services/parser.ts:15-16 | a date part with fewer than two `/` gives `null` |
| `Timestamp.ParseFormatted` | src/services/parser.ts:11-22 | fields free of `/` and spaces, written as `M/D/Y - time`, give `null` exactly when one of them is empty and otherwise normalise back to exactly those fields |
| `Timestamp.ParseRejectsEmptySide` | src/services/parser.ts:11-12 | a timestamp with an empty text before or after its ` - ` gives `null` |
| `Timestamp.IsoStringFields` | src/services/parser.ts:19-24 | the ISO text is `year-MM-DDTtimeZ` whose month and day fields have at least two characters and the same values as the unpadded fields |
| `Timestamp.ClockStampParses` | src/services/parser.ts:11-22 | a log timestamp `M/D/Y - h:m:s` normalises to year, month, day and the clock text |
| `Timestamp.EpochOrigin` | src/services/parser.ts:19-24 | the ISO text `1970-01-01T00:00:00Z` denotes instant 0 |
| `Timestamp.DaysFromCivilNextDay` | src/services/parser.ts:19-24 | the day after a valid calendar date is a valid date one day number later, across month ends, year ends and leap days |
| `Timestamp.SameDayElapsed` | src/services/parser.ts:109-112 | between two timestamps of one day, the elapsed seconds are the difference of the clock readings |
| `Strings.SplitJoin` | src/services/parser.ts:66 | joining the lines of `split("\n")` with `\n` gives the text back |
| `Strings.SplitPiecesLackSeparator` | src/services/parser.ts:66 | no line of the split contains the separator |
| `Strings.PadStart` | src/services/parser.ts:19-21 | the padded field ends with the field, is at least the width long, and is filled with the pad character before it |
| `Strings.PadStartValue` | src/services/parser.ts:19-21 | padding a field with `0` does not change its decimal value |
| `LogPatterns.TimestampLeftmost` | src/services/parser.ts:92-95 | the timestamp found is the text of the leftmost match of the timestamp regex; none is found only when it matches nowhere |
| `LogPatterns.StampNormalises` | src/services/parser.ts:101-103 | every captured timestamp normalises (never `null`), to its own digit groups |
| `LogPatterns.WinTailAtIff` | src/services/parser.ts:121 | `.*Win"` matches exactly when `Win"` follows with no line terminator between |
| `LogPatterns.WinTeamLeftmost` | src/services/parser.ts:121-123 | the winning team is the capture of the leftmost match of the win regex; there is none only when it matches nowhere |
| `LogPatterns.DelimitedAtSpec` | src/services/parser.ts:140 | a `"([^"]+)"` or `\[[^\]]+\]` group captures a non-empty text free of the closing character and spells the matched span |
| `LogPatterns.MatchKillLeftmost` | src/services/parser.ts:139-146 | killer, victim and weapon are the captures of the leftmost match of the kill regex; there are none only when it matches nowhere |
| `LogPatterns.DelimitedAtFinds` | src/services/parser.ts:140 | conversely, a non-empty text free of the closing character between the delimiters is always captured, with the position after the closing one |
| `LogPatterns.KillAtText` | src/services/parser.ts:139-140 | a kill event `"K" [S] killed ` (optionally `other `) `"V" [T] with "W"` written at a position, with K, V and W non-empty and free of `"` and S and T non-empty and free of `]`, is matched there with captures K, V and W |
| `LogPatterns.KillAtSound` | src/services/parser.ts:139-146 | conversely, whatever the kill regex matches at a position is such an event written there: its captures K, V and W are non-empty and free of `"`, and some slots S and T, non-empty and free of `]`, and some choice of `other ` complete the text |
| `LogPatterns.AcceptedKillSound` | src/services/parser.ts:138-149 | a recorded kill comes from a line that includes `killed`, has a victim starting with neither `func_` nor `prop_`, and is the kill regex's leftmost match in the line |
| `LogPatterns.KillLineMatch` | src/services/parser.ts:138-146 | a line holding such an event after text without `"` includes `killed`, and `match` reports exactly K, V and W |
| `LogPatterns.KillLineRoundTrip` | src/services/parser.ts:138-149 | such a line records the kill (K, V, W) exactly when V starts with neither `func_` nor `prop_`, and records nothing otherwise |
| `LogPatterns.ExtractTeam` | src/services/parser.ts:50-55 | the team is that of the leftmost `<TERRORIST>` or `<CT>` token, and is `null` only when neither occurs |
| `LogPatterns.ExtractPlayer` | src/services/parser.ts:51-54 | the player is the leading run of characters other than `<`, or the whole name when that run is empty |
| `Tallies.Inc` | src/services/parser.ts:159-160 | the incremented key grows by the amount, every other key keeps its count, and the key set gains that key |
| `Tallies.TotalInc` | src/services/parser.ts:159-160 | one increment raises the sum of all counts by its amount |
| `MatchLog.FindLastMatchStart` | src/services/parser.ts:69-74 | the `forEach` leaves the index of the last match-start line, or -1 |
| `MatchLogFacts.LastMatchStartSpec` | src/services/parser.ts:69-74 | the index found holds the marker and no later line does |
| `MatchLogFacts.WindowHasNoMatchStart` | src/services/parser.ts:89 | no line the loop reads contains the match-start marker |
| `MatchLogFacts.WindowWithoutMarker` | src/services/parser.ts:69-89 | without a match-start line the loop reads every line |
| `MatchLogFacts.ReportIgnoresPrefix` | src/services/parser.ts:69-89 | lines before a match-start line change nothing in the result |
| `MatchLog.MatchScan.constructor` | src/services/parser.ts:76-86 | the loop starts with empty records, `{CT: 0, TERRORIST: 0}` wins, no round start and zero counters |
| `MatchLog.MatchScan.RoundStart` | src/services/parser.ts:98-104 | a round-start line counts a round, resets the round's kills and records its normalised timestamp, if it has one |
| `MatchLog.MatchScan.RoundEnd` | src/services/parser.ts:107-118 | a round-end line with a recorded start and a normalising timestamp adds the elapsed seconds, raises the most kills and clears the start |
| `MatchLog.MatchScan.RoundWin` | src/services/parser.ts:121-125 | a win line adds one win to the captured team |
| `MatchLog.MatchScan.BombEvents` | src/services/parser.ts:128-135 | plant and defuse lines each add one to their counter |
| `MatchLog.MatchScan.RecordKill` | src/services/parser.ts:150-161 | a kill is appended with the current round and the line's time, and the killer's kills, the victim's deaths and the round's kills grow by one |
| `MatchLog.MatchScan.KillEvent` | src/services/parser.ts:138-164 | the kill test changes the state exactly as the accepted kill of the line demands |
| `MatchLog.MatchScan.ScanLine` | src/services/parser.ts:90-164 | one pass of the loop body is `Step` of the state before it |
| `MatchLog.ScanLines` | src/services/parser.ts:89-165 | the loop over the lines from the window's start leaves fresh running tallies equal to the scan of those lines |
| `MatchLog.GroupKills` | src/services/parser.ts:168-179 | the post-pass, in any key order, produces the grouped tables |
| `MatchLog.ParseMatchLog` | src/services/parser.ts:66-194 | the result is the report of the lines after the last match start |
| `MatchLogFacts.ScanRoundCount` | src/services/parser.ts:98-99 | the round count is the number of round-start lines read |
| `MatchLogFacts.ScanBombPlants` | src/services/parser.ts:128-130 | the bomb plants are the number of plant lines read |
| `MatchLogFacts.ScanBombDefuses` | src/services/parser.ts:133-135 | the bomb defuses are the number of defuse lines read |
| `MatchLogFacts.ScanWins` | src/services/parser.ts:121-125 | each team's wins count the lines whose win match names it, and no other key appears |
| `MatchLogFacts.ScanCounters` | src/services/parser.ts:97-135 | rounds, plants, defuses and wins together, as above |
| `MatchLogFacts.ScanKills` | src/services/parser.ts:138-157 | the kill list is the accepted kills of the lines read, in line order |
| `MatchLogFacts.ScanKillsArePlayers` | src/services/parser.ts:148-149 | no kill in the list has a `func_` or `prop_` victim |
| `MatchLogFacts.ScanKillRounds` | src/services/parser.ts:150-156 | kill round numbers never exceed the round count and never decrease along the list |
| `MatchLogFacts.KillRoundAtLine` | src/services/parser.ts:150-156 | a kill is numbered with the round starts up to and including its line, and carries that line's timestamp text |
| `MatchLogFacts.ScanTallies` | src/services/parser.ts:159-160 | `totalKills` maps exactly the killers to their kills in the list, `deaths` exactly the victims to their deaths |
| `MatchLogFacts.ScanKillTotals` | src/services/parser.ts:157-160 | the kills, the sum of `totalKills` and the sum of `deaths` are the same number |
| `MatchLogFacts.ScanRoundKills` | src/services/parser.ts:100-161 | the round's kill tally is the number of kills since the last round-start line |
| `MatchLogFacts.MostKillsBounds` | src/services/parser.ts:114 | the most kills in a round lies between 0 and the number of kills |
| `MatchLogFacts.MostKillsNeverDecreases` | src/services/parser.ts:114 | no line lowers the most kills in a round |
| `MatchLogFacts.MostKillsAtClose` | src/services/parser.ts:107-118 | a line that closes a round raises the most kills to at least the kills since the last round start; no other line changes it |
| `MatchLogFacts.RoundEndWhileIdle` | src/services/parser.ts:107 | a round-end line with no recorded start changes nothing |
| `MatchLogFacts.RoundEndWithoutTimestamp` | src/services/parser.ts:108 | a round-end line without a timestamp changes nothing |
| `MatchLogFacts.RoundStartWithoutTimestamp` | src/services/parser.ts:101-103 | a round-start line without a timestamp counts a round but keeps the recorded start |
| `MatchLogFacts.RoundEndCloses` | src/services/parser.ts:98-116 | a timestamped round-end line always leaves no round start recorded, also when it starts a round itself |
| `MatchLogFacts.SecondRoundEndNoop` | src/services/parser.ts:107-118 | the line right after a closing round end leaves the round time and the most kills unchanged, whatever it holds: a second round end finds no start, and a line that also starts a round closes it after 0 seconds with no kill |
| `MatchLogFacts.AverageWithoutRounds` | src/services/parser.ts:181-182 | the average is 0 when no round started |
| `MatchLogFacts.AverageOverRoundStarts` | src/services/parser.ts:181-182 | otherwise it is the total round time over the number of round-start lines |
| `RoundTiming.ScanRoundTime` | src/services/parser.ts:98-118 | the recorded start is that of the latest timestamped round start not closed since, and the total round time is the sum, over the closing round ends, of the seconds from that start |
| `RoundTiming.ReportRoundTime` | src/services/parser.ts:181-182 | the average is that reference round time over the number of round-start lines, 0 with none |
| `RoundTiming.QuietLines` | src/services/parser.ts:97-118 | lines with neither round marker change neither the recorded start, the round time nor the round count |
| `RoundTiming.RoundStep` | src/services/parser.ts:98-118 | a timestamped start, quiet play, a timestamped end and quiet lines after it add one round start and that round's duration, and leave no round open, whatever round was open before |
| `RoundTiming.BlocksFold` | src/services/parser.ts:98-118 | quiet lines then N whole rounds, each followed by any number of quiet lines (freeze time, buying, end of game): N round starts, and the round time is the sum of the N durations |
| `RoundTiming.AverageOfRounds` | src/services/parser.ts:181-182 | for such a log, with any quiet lines between and after the rounds, the average round length is the mean of the rounds' durations, 0 with no round |
| `MatchLogFacts.ReportContents` | src/services/parser.ts:184-194 | the result's counters, wins, kill list and tallies in terms of the lines after the last match start |
| `MatchLogFacts.ReportGrouping` | src/services/parser.ts:168-179 | each team's grouped table sums, per player, the kills of the raw names tagged with that team |
| `MatchLogFacts.ReportTeamTotal` | src/services/parser.ts:168-179 | each team's grouped table adds up to the kills of the killers whose names carry that team's tag |
| `Grouping.TeamTotal` | src/services/parser.ts:173-179 | for any splitter, a team's grouped table sums to the counts of the raw names tagged with that team |
| `Grouping.TallyIsTable` | src/services/parser.ts:173-179 | in whatever order the raw names are taken, the table holds the per-player sums of that team and no other entry |
| `Grouping.TeamTableAdd` | src/services/parser.ts:174-177 | one more raw name adds its count to its player under its team and changes nothing else |
| `Grouping.TablesAdd` | src/services/parser.ts:174-177 | one iteration of the post-pass is `AddRaw` on the tables so far |
| `Grouping.GroupedIsTable` | src/services/parser.ts:168-179 | the grouped result is, for each team, the per-player sum table |

## Left out

- The HTTP fetch and `response.text()`, the Express route and the app setup: `ParseMatchLog` starts from the log
  text.
- JavaScript `Date`: `new Date(iso).getTime()` is replaced by `EpochSeconds`, whole seconds from a proleptic
  Gregorian day count plus the clock reading. An out-of-range field (month 13, hour 99) yields an `Invalid Date` and
  `NaN` round times in the source. The model computes a number for it.
- The division by 1000 of millisecond differences is exact on whole-second timestamps, so round times are whole
  seconds here; floating point is not modelled.
- `averageRoundLength` is the exact quotient (a `real`), without the `toFixed(2)` rounding.
- Object keys: records are maps. Key enumeration order in `for ... in` does not matter, since the grouping is
  proved order-independent. Inherited prototype keys such as `constructor` are not modelled.
- Regex engine internals: each of the three patterns is deterministic at a fixed start position, so it is modelled
  as a leftmost-position search with a direct recogniser rather than by backtracking.
- `MatchLog.GroupKills` takes the name splitter as a parameter; `ParseMatchLog` passes `ExtractPlayerAndTeam`.
- `Timestamp.ParseCustomTimestamp`: its own contract only says that a non-null result has non-empty parts. The
  lemmas give its exact result for these inputs: the empty text and text without ` - ` (`ParseRejectsUnseparated`);
  an empty side of ` - ` (`ParseRejectsEmptySide`); a date part with fewer than two `/` (`ParseRejectsShortDate`);
  and `M/D/Y - time` built from fields free of `/` and spaces with a time free of ` - `, empty fields included
  (`ParseFormatted`, `ClockStampParses`). Other texts, such as a date part with more than two `/` or a second
  ` - `, are covered only by the contract.
