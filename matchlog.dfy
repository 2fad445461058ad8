/**
 * `parseMatchLog` on text already fetched: the window after the last
 * `Match_Start`, the single forward scan with its independent per-line
 * tests, the team grouping of the kill totals and the average round length.
 *
 * `Step` and `Scan` specify the scan one line at a time; the method
 * `ParseMatchLog` runs it as the source does, on local counters and
 * records updated in place, and is proved to produce `Report`.
 */
module MatchLog {
  import opened Wrappers
  import opened Strings
  import opened Tallies
  import opened Timestamp
  import opened LogPatterns
  import opened Grouping

  datatype Kill = Kill(round: nat, time: string, killer: string, victim: string, weapon: string)

  datatype Stats = Stats(
    averageRoundLength: real,
    totalKills: map<string, int>,
    roundsWon: map<Team, int>,
    mostKillsInRound: int,
    deaths: map<string, int>,
    bombPlants: nat,
    bombDefuses: nat,
    kills: seq<Kill>,
    groupedKills: map<Team, map<string, int>>)

  /** The local variables of the scan loop. */
  datatype ScanState = ScanState(
    kills: seq<Kill>,
    totalKills: map<string, int>,
    deaths: map<string, int>,
    roundsWon: map<Team, int>,
    roundStartTime: Option<IsoDate>,
    totalRoundTime: int,
    roundCount: nat,
    mostKillsInRound: int,
    bombPlants: nat,
    bombDefuses: nat,
    currentRoundKills: nat)

  const InitialState := ScanState([], map[], map[], map[CT := 0, TERRORIST := 0], None, 0, 0, 0, 0, 0, 0)

  // ---------------------------------------------------------------------
  // Window
  // ---------------------------------------------------------------------

  /** The index of the last line containing the match-start marker, or -1. */
  function LastMatchStart(lines: seq<string>): (r: int)
    decreases |lines|
    ensures -1 <= r < |lines|
  {
    if |lines| == 0 then -1
    else if Contains(lines[|lines| - 1], MatchStartMarker) then |lines| - 1
    else LastMatchStart(lines[..|lines| - 1])
  }

  /** The lines the scan reads: those strictly after the last match start. */
  function Window(lines: seq<string>): seq<string> {
    lines[LastMatchStart(lines) + 1..]
  }

  // ---------------------------------------------------------------------
  // One line of the scan: independent tests, applied in source order
  // ---------------------------------------------------------------------

  function Max(a: int, b: int): int {
    if a >= b then a else b
  }

  function OnRoundStart(a: ScanState, line: string, time: Option<string>): ScanState {
    if Contains(line, RoundStartMarker) then
      a.(roundCount := a.roundCount + 1,
         currentRoundKills := 0,
         roundStartTime := if time.Some? then ParseCustomTimestamp(time.value) else a.roundStartTime)
    else a
  }

  /** A round-end line closes the round: a start is recorded and its own timestamp normalises. */
  predicate ClosesRound(a: ScanState, line: string, time: Option<string>) {
    Contains(line, RoundEndMarker) && a.roundStartTime.Some?
    && time.Some? && ParseCustomTimestamp(time.value).Some?
  }

  /** Seconds from the recorded round start to the line's timestamp. */
  function RoundSeconds(a: ScanState, time: Option<string>): int
    requires a.roundStartTime.Some? && time.Some? && ParseCustomTimestamp(time.value).Some?
  {
    ElapsedSeconds(a.roundStartTime.value, ParseCustomTimestamp(time.value).value)
  }

  function OnRoundEnd(a: ScanState, line: string, time: Option<string>): ScanState {
    if ClosesRound(a, line, time) then
      a.(totalRoundTime := a.totalRoundTime + RoundSeconds(a, time),
         mostKillsInRound := Max(a.mostKillsInRound, a.currentRoundKills),
         roundStartTime := None)
    else a
  }

  function OnRoundWin(a: ScanState, line: string): ScanState {
    match WinTeam(line)
    case Some(t) => a.(roundsWon := Inc(a.roundsWon, t, 1))
    case None => a
  }

  function OnBombEvents(a: ScanState, line: string): ScanState {
    var a' := if Contains(line, BombPlantMarker) then a.(bombPlants := a.bombPlants + 1) else a;
    if Contains(line, BombDefuseMarker) then a'.(bombDefuses := a'.bombDefuses + 1) else a'
  }

  function TimeText(time: Option<string>): string {
    if time.Some? then time.value else ""
  }

  function OnKill(a: ScanState, line: string, time: Option<string>): ScanState {
    match AcceptedKill(line)
    case Some(k) =>
      a.(kills := a.kills + [Kill(a.roundCount, TimeText(time), k.killer, k.victim, k.weapon)],
         totalKills := Inc(a.totalKills, k.killer, 1),
         deaths := Inc(a.deaths, k.victim, 1),
         currentRoundKills := a.currentRoundKills + 1)
    case None => a
  }

  /** One iteration of the scan loop. */
  function Step(a: ScanState, line: string): ScanState {
    var time := TimestampOf(line);
    OnKill(OnBombEvents(OnRoundWin(OnRoundEnd(OnRoundStart(a, line, time), line, time), line), line), line, time)
  }

  /** The scan over `lines`, from the initial counters. */
  function Scan(lines: seq<string>): ScanState
    decreases |lines|
  {
    if |lines| == 0 then InitialState
    else Step(Scan(lines[..|lines| - 1]), lines[|lines| - 1])
  }

  /** The scan takes one more step for one more line. */
  lemma ScanAppend(lines: seq<string>, line: string)
    ensures Scan(lines + [line]) == Step(Scan(lines), line)
  {
    assert (lines + [line])[..|lines|] == lines;
  }

  // ---------------------------------------------------------------------
  // The report
  // ---------------------------------------------------------------------

  /** The average as the source computes it: total round time over the number
      of round starts (0 when there are none), before `toFixed(2)`. */
  function AverageRoundLength(totalRoundTime: int, roundCount: nat): real {
    if roundCount > 0 then totalRoundTime as real / roundCount as real else 0.0
  }

  ghost function Report(lines: seq<string>): Stats {
    var a := Scan(Window(lines));
    Stats(AverageRoundLength(a.totalRoundTime, a.roundCount), a.totalKills, a.roundsWon,
          a.mostKillsInRound, a.deaths, a.bombPlants, a.bombDefuses, a.kills, GroupedBy(ExtractPlayerAndTeam, a.totalKills))
  }

  // ---------------------------------------------------------------------
  // The source's procedure
  // ---------------------------------------------------------------------

  /** The `forEach` that records the index of the last match-start line. */
  method FindLastMatchStart(lines: seq<string>) returns (lastMatchStartIndex: int)
    ensures lastMatchStartIndex == LastMatchStart(lines)
  {
    lastMatchStartIndex := -1;
    var i := 0;
    while i < |lines|
      invariant 0 <= i <= |lines|
      invariant lastMatchStartIndex == LastMatchStart(lines[..i])
    {
      assert lines[..i + 1][..i] == lines[..i];
      if Contains(lines[i], MatchStartMarker) {
        lastMatchStartIndex := i;
      }
      i := i + 1;
    }
    assert lines[..i] == lines;
  }

  /**
   * The `for ... in totalKills` post-pass that fills `groupedKills` in place;
   * `split` is the name splitter (`extractPlayerAndTeam` in the parser).
   */
  method GroupKills(totalKills: map<string, int>, split: string -> PlayerTeam)
    returns (groupedKills: map<Team, map<string, int>>)
    ensures groupedKills == GroupedBy(split, totalKills)
  {
    groupedKills := map[TERRORIST := map[], CT := map[]];
    var pending := totalKills.Keys;
    ghost var done: set<string> := {};
    TablesEmpty(split, totalKills);
    while pending != {}
      invariant done <= totalKills.Keys && pending == totalKills.Keys - done
      invariant groupedKills == Tables(split, totalKills, done)
      decreases |pending|
    {
      var rawPlayerName :| rawPlayerName in pending;
      var pt := split(rawPlayerName);
      TablesAdd(split, totalKills, done, rawPlayerName);
      if pt.team.Some? {
        var team := pt.team.value;
        assert team == TERRORIST || team == CT;
        groupedKills := groupedKills[team := Inc(groupedKills[team], pt.player, totalKills[rawPlayerName])];
      }
      pending := pending - {rawPlayerName};
      done := done + {rawPlayerName};
    }
    assert done == totalKills.Keys;
  }

  /**
   * The running tallies of the scan loop, updated in place line by line;
   * each method is one of the loop body's independent tests.
   */
  class MatchScan {
    var kills: seq<Kill>
    var totalKills: map<string, int>
    var deaths: map<string, int>
    var roundsWon: map<Team, int>
    var roundStartTime: Option<IsoDate>
    var totalRoundTime: int
    var roundCount: nat
    var mostKillsInRound: int
    var bombPlants: nat
    var bombDefuses: nat
    var currentRoundKills: nat

    function State(): ScanState
      reads this
    {
      ScanState(kills, totalKills, deaths, roundsWon, roundStartTime, totalRoundTime, roundCount,
                mostKillsInRound, bombPlants, bombDefuses, currentRoundKills)
    }

    constructor()
      ensures State() == InitialState
    {
      kills := [];
      totalKills := map[];
      deaths := map[];
      roundsWon := map[CT := 0, TERRORIST := 0];
      roundStartTime := None;
      totalRoundTime := 0;
      roundCount := 0;
      mostKillsInRound := 0;
      bombPlants := 0;
      bombDefuses := 0;
      currentRoundKills := 0;
    }

    method RoundStart(line: string, timestampMatch: Option<string>)
      modifies this
      ensures State() == OnRoundStart(old(State()), line, timestampMatch)
    {
      if Contains(line, RoundStartMarker) {
        roundCount := roundCount + 1;
        currentRoundKills := 0;
        if timestampMatch.Some? {
          roundStartTime := ParseCustomTimestamp(timestampMatch.value);
        }
      }
    }

    method RoundEnd(line: string, timestampMatch: Option<string>)
      modifies this
      ensures State() == OnRoundEnd(old(State()), line, timestampMatch)
    {
      if Contains(line, RoundEndMarker) && roundStartTime.Some? {
        if timestampMatch.Some? {
          var roundEndTime := ParseCustomTimestamp(timestampMatch.value);
          if roundEndTime.Some? {
            var roundTime := ElapsedSeconds(roundStartTime.value, roundEndTime.value);
            totalRoundTime := totalRoundTime + roundTime;
            mostKillsInRound := Max(mostKillsInRound, currentRoundKills);
            roundStartTime := None;
          }
        }
      }
    }

    method RoundWin(line: string)
      modifies this
      ensures State() == OnRoundWin(old(State()), line)
    {
      var winMatch := WinTeam(line);
      if winMatch.Some? {
        roundsWon := Inc(roundsWon, winMatch.value, 1);
      }
    }

    method BombEvents(line: string)
      modifies this
      ensures State() == OnBombEvents(old(State()), line)
    {
      if Contains(line, BombPlantMarker) {
        bombPlants := bombPlants + 1;
      }
      if Contains(line, BombDefuseMarker) {
        bombDefuses := bombDefuses + 1;
      }
    }

    /** Records one accepted kill: the event, the killer's kill, the victim's death, the round's tally. */
    method RecordKill(time: string, killer: string, victim: string, weapon: string)
      modifies this
      ensures State() == old(State()).(kills := old(kills) + [Kill(old(roundCount), time, killer, victim, weapon)],
                                       totalKills := Inc(old(totalKills), killer, 1),
                                       deaths := Inc(old(deaths), victim, 1),
                                       currentRoundKills := old(currentRoundKills) + 1)
    {
      kills := kills + [Kill(roundCount, time, killer, victim, weapon)];
      totalKills := Inc(totalKills, killer, 1);
      deaths := Inc(deaths, victim, 1);
      currentRoundKills := currentRoundKills + 1;
    }

    method KillEvent(line: string, timestampMatch: Option<string>)
      modifies this
      ensures State() == OnKill(old(State()), line, timestampMatch)
    {
      var time := if timestampMatch.Some? then timestampMatch.value else "";
      if Contains(line, "killed") {
        var killMatch := MatchKill(line);
        if killMatch.Some? {
          var killer, victim, weapon := killMatch.value.killer, killMatch.value.victim, killMatch.value.weapon;
          if !IsPropVictim(victim) {
            RecordKill(time, killer, victim, weapon);
          }
        }
      }
    }

    /** One pass of the loop body over `line`. */
    method ScanLine(line: string)
      modifies this
      ensures State() == Step(old(State()), line)
    {
      var timestampMatch := TimestampOf(line);
      RoundStart(line, timestampMatch);
      RoundEnd(line, timestampMatch);
      RoundWin(line);
      BombEvents(line);
      KillEvent(line, timestampMatch);
    }
  }

  /** The `for` loop over the lines from index `from` on, on a fresh set of running tallies. */
  method ScanLines(lines: seq<string>, from: nat) returns (scan: MatchScan)
    requires from <= |lines|
    ensures fresh(scan)
    ensures scan.State() == Scan(lines[from..])
  {
    scan := new MatchScan();
    ghost var window := lines[from..];
    var i := from;
    while i < |lines|
      invariant from <= i <= |lines|
      invariant scan.State() == Scan(window[..i - from])
    {
      ghost var j := i - from;
      assert window[..j + 1] == window[..j] + [lines[i]];
      ScanAppend(window[..j], lines[i]);
      scan.ScanLine(lines[i]);
      i := i + 1;
    }
    assert window[..i - from] == window;
  }

  /** `parseMatchLog` from the log text on (the fetch is not modelled). */
  method ParseMatchLog(text: string) returns (stats: Stats)
    ensures stats == Report(Split(text, "\n"))
  {
    var lines := Split(text, "\n");
    var lastMatchStartIndex := FindLastMatchStart(lines);
    var scan := ScanLines(lines, lastMatchStartIndex + 1);
    var groupedKills := GroupKills(scan.totalKills, ExtractPlayerAndTeam);
    var averageRoundLength := if scan.roundCount > 0 then scan.totalRoundTime as real / scan.roundCount as real else 0.0;
    stats := Stats(averageRoundLength, scan.totalKills, scan.roundsWon, scan.mostKillsInRound, scan.deaths,
                   scan.bombPlants, scan.bombDefuses, scan.kills, groupedKills);
  }
}
