/**
 * What the scan of `parseMatchLog` computes, stated against reference
 * definitions over the lines it reads: counts of marker lines, the
 * accepted kills in line order, and the kills since the last round start.
 */
module MatchLogFacts {
  import opened Wrappers
  import opened Strings
  import opened Tallies
  import opened Timestamp
  import opened LogPatterns
  import opened Grouping
  import opened MatchLog

  // ---------------------------------------------------------------------
  // Reference definitions over lines
  // ---------------------------------------------------------------------

  /** The number of lines containing `marker`. */
  function LinesWith(lines: seq<string>, marker: string): (r: nat)
    decreases |lines|
    ensures r <= |lines|
  {
    if |lines| == 0 then 0
    else LinesWith(lines[..|lines| - 1], marker) + (if Contains(lines[|lines| - 1], marker) then 1 else 0)
  }

  /** The number of lines whose leftmost win match names team `t`. */
  function WinsOf(lines: seq<string>, t: Team): (r: nat)
    decreases |lines|
    ensures r <= |lines|
  {
    if |lines| == 0 then 0
    else WinsOf(lines[..|lines| - 1], t) + (if WinTeam(lines[|lines| - 1]) == Some(t) then 1 else 0)
  }

  /** The kills the lines record, in line order. */
  function AcceptedKills(lines: seq<string>): (r: seq<KillMatch>)
    decreases |lines|
    ensures |r| <= |lines|
  {
    if |lines| == 0 then []
    else
      var line := lines[|lines| - 1];
      AcceptedKills(lines[..|lines| - 1]) + (if AcceptedKill(line).Some? then [AcceptedKill(line).value] else [])
  }

  /** The kills recorded since the last line that started a round (or since the first line). */
  function KillsSinceRoundStart(lines: seq<string>): nat
    decreases |lines|
  {
    if |lines| == 0 then 0
    else
      var line := lines[|lines| - 1];
      (if Contains(line, RoundStartMarker) then 0 else KillsSinceRoundStart(lines[..|lines| - 1]))
      + (if AcceptedKill(line).Some? then 1 else 0)
  }

  /** The captures of a list of kill records. */
  function KillMatches(kills: seq<Kill>): (r: seq<KillMatch>)
    decreases |kills|
    ensures |r| == |kills|
  {
    if |kills| == 0 then []
    else
      var k := kills[|kills| - 1];
      KillMatches(kills[..|kills| - 1]) + [KillMatch(k.killer, k.victim, k.weapon)]
  }

  /** The number of kill records with killer `p`. */
  function KillsBy(kills: seq<Kill>, p: string): nat
    decreases |kills|
  {
    if |kills| == 0 then 0
    else KillsBy(kills[..|kills| - 1], p) + (if kills[|kills| - 1].killer == p then 1 else 0)
  }

  /** The number of kill records with victim `v`. */
  function DeathsOf(kills: seq<Kill>, v: string): nat
    decreases |kills|
  {
    if |kills| == 0 then 0
    else DeathsOf(kills[..|kills| - 1], v) + (if kills[|kills| - 1].victim == v then 1 else 0)
  }

  // ---------------------------------------------------------------------
  // One step, field by field
  // ---------------------------------------------------------------------

  /** The fields that two states share apart from the round-start record and the round results. */
  predicate SameTallies(a: ScanState, b: ScanState) {
    a.kills == b.kills && a.totalKills == b.totalKills && a.deaths == b.deaths && a.roundsWon == b.roundsWon
    && a.bombPlants == b.bombPlants && a.bombDefuses == b.bombDefuses
  }

  lemma RoundStartFields(a: ScanState, line: string, time: Option<string>)
    ensures var b := OnRoundStart(a, line, time);
            SameTallies(a, b) && b.totalRoundTime == a.totalRoundTime && b.mostKillsInRound == a.mostKillsInRound
            && b.roundCount == a.roundCount + (if Contains(line, RoundStartMarker) then 1 else 0)
            && b.currentRoundKills == (if Contains(line, RoundStartMarker) then 0 else a.currentRoundKills)
  {
  }

  lemma RoundEndFields(a: ScanState, line: string, time: Option<string>)
    ensures var b := OnRoundEnd(a, line, time);
            SameTallies(a, b) && b.roundCount == a.roundCount && b.currentRoundKills == a.currentRoundKills
            && if ClosesRound(a, line, time) then
                 b.totalRoundTime == a.totalRoundTime + RoundSeconds(a, time)
                 && b.mostKillsInRound == Max(a.mostKillsInRound, a.currentRoundKills) && b.roundStartTime.None?
               else b.totalRoundTime == a.totalRoundTime && b.mostKillsInRound == a.mostKillsInRound
                    && b.roundStartTime == a.roundStartTime
  {
  }

  /** The fields the round-win, bomb and kill tests leave alone. */
  predicate SameRounds(a: ScanState, b: ScanState) {
    a.roundStartTime == b.roundStartTime && a.totalRoundTime == b.totalRoundTime && a.roundCount == b.roundCount
    && a.mostKillsInRound == b.mostKillsInRound
  }

  lemma RoundWinFields(a: ScanState, line: string)
    ensures var b := OnRoundWin(a, line);
            SameRounds(a, b) && b.currentRoundKills == a.currentRoundKills
            && b.kills == a.kills && b.totalKills == a.totalKills && b.deaths == a.deaths
            && b.bombPlants == a.bombPlants && b.bombDefuses == a.bombDefuses
            && b.roundsWon == match WinTeam(line) case Some(t) => Inc(a.roundsWon, t, 1) case None => a.roundsWon
  {
  }

  lemma BombFields(a: ScanState, line: string)
    ensures var b := OnBombEvents(a, line);
            SameRounds(a, b) && b.currentRoundKills == a.currentRoundKills
            && b.kills == a.kills && b.totalKills == a.totalKills && b.deaths == a.deaths && b.roundsWon == a.roundsWon
            && b.bombPlants == a.bombPlants + (if Contains(line, BombPlantMarker) then 1 else 0)
            && b.bombDefuses == a.bombDefuses + (if Contains(line, BombDefuseMarker) then 1 else 0)
  {
  }

  lemma KillFields(a: ScanState, line: string, time: Option<string>)
    ensures var b := OnKill(a, line, time);
            var k := AcceptedKill(line);
            SameRounds(a, b) && b.roundsWon == a.roundsWon && b.bombPlants == a.bombPlants && b.bombDefuses == a.bombDefuses
            && b.kills == a.kills + (if k.Some? then [Kill(a.roundCount, TimeText(time), k.value.killer, k.value.victim, k.value.weapon)] else [])
            && b.totalKills == (if k.Some? then Inc(a.totalKills, k.value.killer, 1) else a.totalKills)
            && b.deaths == (if k.Some? then Inc(a.deaths, k.value.victim, 1) else a.deaths)
            && b.currentRoundKills == a.currentRoundKills + (if k.Some? then 1 else 0)
  {
  }

  /** The five tests of one line, field by field. */
  lemma StepFields(a: ScanState, line: string)
    ensures var time := TimestampOf(line);
            var s := OnRoundStart(a, line, time);
            var b := Step(a, line);
            var k := AcceptedKill(line);
            b.roundCount == a.roundCount + (if Contains(line, RoundStartMarker) then 1 else 0)
            && b.bombPlants == a.bombPlants + (if Contains(line, BombPlantMarker) then 1 else 0)
            && b.bombDefuses == a.bombDefuses + (if Contains(line, BombDefuseMarker) then 1 else 0)
            && b.roundsWon == (match WinTeam(line) case Some(t) => Inc(a.roundsWon, t, 1) case None => a.roundsWon)
            && b.kills == a.kills + (if k.Some? then [Kill(s.roundCount, TimeText(time), k.value.killer, k.value.victim, k.value.weapon)] else [])
            && b.totalKills == (if k.Some? then Inc(a.totalKills, k.value.killer, 1) else a.totalKills)
            && b.deaths == (if k.Some? then Inc(a.deaths, k.value.victim, 1) else a.deaths)
            && b.currentRoundKills == s.currentRoundKills + (if k.Some? then 1 else 0)
            && s.currentRoundKills == (if Contains(line, RoundStartMarker) then 0 else a.currentRoundKills)
            && if ClosesRound(s, line, time) then
                 b.totalRoundTime == a.totalRoundTime + RoundSeconds(s, time)
                 && b.mostKillsInRound == Max(a.mostKillsInRound, s.currentRoundKills) && b.roundStartTime.None?
               else b.totalRoundTime == a.totalRoundTime && b.mostKillsInRound == a.mostKillsInRound
                    && b.roundStartTime == s.roundStartTime
  {
    var time := TimestampOf(line);
    var s1 := OnRoundStart(a, line, time);
    var s2 := OnRoundEnd(s1, line, time);
    var s3 := OnRoundWin(s2, line);
    var s4 := OnBombEvents(s3, line);
    RoundStartFields(a, line, time);
    RoundEndFields(s1, line, time);
    RoundWinFields(s2, line);
    BombFields(s3, line);
    KillFields(s4, line, time);
  }

  // ---------------------------------------------------------------------
  // The window
  // ---------------------------------------------------------------------

  /** The index found holds the marker and no later line does; -1 means no line holds it. */
  lemma {:induction false} LastMatchStartSpec(lines: seq<string>)
    decreases |lines|
    ensures var r := LastMatchStart(lines);
            (r >= 0 ==> Contains(lines[r], MatchStartMarker))
            && (forall j :: r < j < |lines| ==> !Contains(lines[j], MatchStartMarker))
  {
    if |lines| > 0 && !Contains(lines[|lines| - 1], MatchStartMarker) {
      var init := lines[..|lines| - 1];
      LastMatchStartSpec(init);
      assert forall j :: 0 <= j < |init| ==> init[j] == lines[j];
    }
  }

  lemma SuffixLacks(lines: seq<string>, r: int, k: nat, marker: string)
    requires -1 <= r && r + 1 + k < |lines|
    requires forall j :: r < j < |lines| ==> !Contains(lines[j], marker)
    ensures !Contains(lines[r + 1..][k], marker)
  {
    assert lines[r + 1..][k] == lines[r + 1 + k];
  }

  lemma WindowLine(lines: seq<string>, k: nat)
    requires k < |Window(lines)|
    ensures !Contains(Window(lines)[k], MatchStartMarker)
  {
    LastMatchStartSpec(lines);
    SuffixLacks(lines, LastMatchStart(lines), k, MatchStartMarker);
  }

  /** No line the scan reads starts a match. */
  lemma WindowHasNoMatchStart(lines: seq<string>)
    ensures forall k :: 0 <= k < |Window(lines)| ==> !Contains(Window(lines)[k], MatchStartMarker)
  {
    forall k | 0 <= k < |Window(lines)| ensures !Contains(Window(lines)[k], MatchStartMarker) {
      WindowLine(lines, k);
    }
  }

  /** Without a match-start line the scan reads the whole input. */
  lemma {:induction false} WindowWithoutMarker(lines: seq<string>)
    requires forall k :: 0 <= k < |lines| ==> !Contains(lines[k], MatchStartMarker)
    ensures Window(lines) == lines
  {
    LastMatchStartSpec(lines);
  }

  lemma {:induction false} LastMatchStartShift(prefix: seq<string>, lines: seq<string>, i: nat)
    requires i < |lines| && Contains(lines[i], MatchStartMarker)
    decreases |lines|
    ensures LastMatchStart(prefix + lines) == |prefix| + LastMatchStart(lines)
  {
    var n := |lines|;
    assert (prefix + lines)[|prefix + lines| - 1] == lines[n - 1];
    if !Contains(lines[n - 1], MatchStartMarker) {
      assert (prefix + lines)[..|prefix + lines| - 1] == prefix + lines[..n - 1];
      LastMatchStartShift(prefix, lines[..n - 1], i);
    }
  }

  /** Lines before a match start change nothing the scan reads. */
  lemma WindowIgnoresPrefix(prefix: seq<string>, lines: seq<string>, i: nat)
    requires i < |lines| && Contains(lines[i], MatchStartMarker)
    ensures Window(prefix + lines) == Window(lines)
  {
    LastMatchStartShift(prefix, lines, i);
    assert (prefix + lines)[|prefix| + LastMatchStart(lines) + 1..] == lines[LastMatchStart(lines) + 1..];
  }

  /** So lines before a match start change nothing in the report. */
  lemma ReportIgnoresPrefix(prefix: seq<string>, lines: seq<string>, i: nat)
    requires i < |lines| && Contains(lines[i], MatchStartMarker)
    ensures Report(prefix + lines) == Report(lines)
  {
    WindowIgnoresPrefix(prefix, lines, i);
  }

  // ---------------------------------------------------------------------
  // Counters
  // ---------------------------------------------------------------------

  /** Rounds counts the round-start lines. */
  lemma {:induction false} ScanRoundCount(lines: seq<string>)
    decreases |lines|
    ensures Scan(lines).roundCount == LinesWith(lines, RoundStartMarker)
  {
    if |lines| > 0 {
      ScanRoundCount(lines[..|lines| - 1]);
      StepFields(Scan(lines[..|lines| - 1]), lines[|lines| - 1]);
    }
  }

  /** Bomb plants count the plant lines. */
  lemma {:induction false} ScanBombPlants(lines: seq<string>)
    decreases |lines|
    ensures Scan(lines).bombPlants == LinesWith(lines, BombPlantMarker)
  {
    if |lines| > 0 {
      ScanBombPlants(lines[..|lines| - 1]);
      StepFields(Scan(lines[..|lines| - 1]), lines[|lines| - 1]);
    }
  }

  /** Bomb defuses count the defuse lines. */
  lemma {:induction false} ScanBombDefuses(lines: seq<string>)
    decreases |lines|
    ensures Scan(lines).bombDefuses == LinesWith(lines, BombDefuseMarker)
  {
    if |lines| > 0 {
      ScanBombDefuses(lines[..|lines| - 1]);
      StepFields(Scan(lines[..|lines| - 1]), lines[|lines| - 1]);
    }
  }

  /** The win table after one more win for `t`. */
  lemma IncWins(x: int, y: int, t: Team)
    ensures Inc(map[CT := x, TERRORIST := y], t, 1)
            == map[CT := x + (if t == CT then 1 else 0), TERRORIST := y + (if t == TERRORIST then 1 else 0)]
  {
  }

  /** The win table after the win match `w` of one line, if any. */
  lemma WinsAfter(m: map<Team, int>, r: map<Team, int>, x: int, y: int, x': int, y': int, w: Option<Team>)
    requires m == map[CT := x, TERRORIST := y]
    requires r == match w case Some(t) => Inc(m, t, 1) case None => m
    requires x' == x + (if w == Some(CT) then 1 else 0) && y' == y + (if w == Some(TERRORIST) then 1 else 0)
    ensures r == map[CT := x', TERRORIST := y']
  {
    match w
    case Some(t) => IncWins(x, y, t);
    case None =>
  }

  /** Each team's wins count the lines whose win match names it; no other key appears. */
  lemma {:induction false} ScanWins(lines: seq<string>)
    decreases |lines|
    ensures Scan(lines).roundsWon == map[CT := WinsOf(lines, CT), TERRORIST := WinsOf(lines, TERRORIST)]
  {
    if |lines| > 0 {
      var init, line := lines[..|lines| - 1], lines[|lines| - 1];
      ScanWins(init);
      StepFields(Scan(init), line);
      WinsAfter(Scan(init).roundsWon, Scan(lines).roundsWon, WinsOf(init, CT), WinsOf(init, TERRORIST),
                WinsOf(lines, CT), WinsOf(lines, TERRORIST), WinTeam(line));
    } else {
      assert Scan(lines) == InitialState;
    }
  }

  /** Rounds, plants and defuses count the lines with their markers; each team's wins count its win lines. */
  lemma ScanCounters(lines: seq<string>)
    ensures Scan(lines).roundCount == LinesWith(lines, RoundStartMarker)
    ensures Scan(lines).bombPlants == LinesWith(lines, BombPlantMarker)
    ensures Scan(lines).bombDefuses == LinesWith(lines, BombDefuseMarker)
    ensures Scan(lines).roundsWon == map[CT := WinsOf(lines, CT), TERRORIST := WinsOf(lines, TERRORIST)]
  {
    ScanRoundCount(lines);
    ScanBombPlants(lines);
    ScanBombDefuses(lines);
    ScanWins(lines);
  }

  // ---------------------------------------------------------------------
  // Kills
  // ---------------------------------------------------------------------

  lemma KillMatchesAppend(kills: seq<Kill>, k: Kill)
    ensures KillMatches(kills + [k]) == KillMatches(kills) + [KillMatch(k.killer, k.victim, k.weapon)]
  {
    assert (kills + [k])[..|kills|] == kills;
  }

  /** The kill list holds the recorded kills of the lines, in line order. */
  lemma {:induction false} ScanKills(lines: seq<string>)
    decreases |lines|
    ensures KillMatches(Scan(lines).kills) == AcceptedKills(lines)
  {
    if |lines| > 0 {
      var init, line := lines[..|lines| - 1], lines[|lines| - 1];
      ScanKills(init);
      StepFields(Scan(init), line);
      var k := AcceptedKill(line);
      if k.Some? {
        var round := Scan(init).roundCount + (if Contains(line, RoundStartMarker) then 1 else 0);
        KillMatchesAppend(Scan(init).kills, Kill(round, TimeText(TimestampOf(line)), k.value.killer, k.value.victim, k.value.weapon));
      } else {
        assert Scan(lines).kills == Scan(init).kills;
      }
    }
  }

  /** No recorded kill has a prop for victim. */
  lemma {:induction false} AcceptedKillsArePlayers(lines: seq<string>)
    decreases |lines|
    ensures forall k :: 0 <= k < |AcceptedKills(lines)| ==> !IsPropVictim(AcceptedKills(lines)[k].victim)
  {
    if |lines| > 0 {
      AcceptedKillsArePlayers(lines[..|lines| - 1]);
      AcceptedKillSpec(lines[|lines| - 1]);
    }
  }

  /** `func_` and `prop_` victims never reach the kill list. */
  lemma ScanKillsArePlayers(lines: seq<string>)
    ensures forall k :: 0 <= k < |Scan(lines).kills| ==> !IsPropVictim(Scan(lines).kills[k].victim)
  {
    ScanKills(lines);
    AcceptedKillsArePlayers(lines);
    forall k | 0 <= k < |Scan(lines).kills| ensures !IsPropVictim(Scan(lines).kills[k].victim) {
      KillMatchesAt(Scan(lines).kills, k);
    }
  }

  lemma {:induction false} KillMatchesAt(kills: seq<Kill>, k: nat)
    requires k < |kills|
    decreases |kills|
    ensures KillMatches(kills)[k] == KillMatch(kills[k].killer, kills[k].victim, kills[k].weapon)
  {
    if k < |kills| - 1 {
      KillMatchesAt(kills[..|kills| - 1], k);
    }
  }

  /** No kill in the list is numbered above `n`. */
  predicate RoundsAtMost(kills: seq<Kill>, n: int) {
    forall k :: 0 <= k < |kills| ==> kills[k].round <= n
  }

  /** The round numbers never decrease along the list. */
  predicate RoundsOrdered(kills: seq<Kill>) {
    forall i, j :: 0 <= i <= j < |kills| ==> kills[i].round <= kills[j].round
  }

  lemma RoundsExtend(kills: seq<Kill>, n: nat, m: nat, extra: seq<Kill>)
    requires RoundsAtMost(kills, n) && RoundsOrdered(kills) && n <= m
    requires forall k :: 0 <= k < |extra| ==> extra[k].round == m
    ensures RoundsAtMost(kills + extra, m) && RoundsOrdered(kills + extra)
  {
  }

  /** One line's kill, if any, is numbered with the new round count, which is at least the old one. */
  lemma RoundsStep(kills: seq<Kill>, kills': seq<Kill>, n: nat, m: nat, k: Option<KillMatch>, time: string)
    requires RoundsAtMost(kills, n) && RoundsOrdered(kills) && n <= m
    requires kills' == kills + (if k.Some? then [Kill(m, time, k.value.killer, k.value.victim, k.value.weapon)] else [])
    ensures RoundsAtMost(kills', m) && RoundsOrdered(kills')
  {
    RoundsExtend(kills, n, m, kills'[|kills|..]);
    assert kills' == kills + kills'[|kills|..];
  }

  /**
   * Every kill is numbered with the rounds started so far (0 before the
   * first round start), so the numbers never decrease along the list and
   * never exceed the round count.
   */
  lemma {:induction false} ScanKillRounds(lines: seq<string>)
    decreases |lines|
    ensures RoundsAtMost(Scan(lines).kills, Scan(lines).roundCount)
    ensures RoundsOrdered(Scan(lines).kills)
  {
    if |lines| > 0 {
      var init, line := lines[..|lines| - 1], lines[|lines| - 1];
      ScanKillRounds(init);
      StepFields(Scan(init), line);
      var a, b := Scan(init), Scan(lines);
      var k := AcceptedKill(line);
      RoundsStep(a.kills, b.kills, a.roundCount, b.roundCount, k, TimeText(TimestampOf(line)));
    }
  }

  /** A kill on a line is numbered with the round-start lines up to and including that line, and carries its timestamp. */
  lemma KillRoundAtLine(lines: seq<string>, line: string)
    requires AcceptedKill(line).Some?
    ensures var kills := Scan(lines + [line]).kills;
            |kills| > 0
            && kills[|kills| - 1].round == LinesWith(lines + [line], RoundStartMarker)
            && kills[|kills| - 1].time == TimeText(TimestampOf(line))
  {
    ScanAppend(lines, line);
    StepFields(Scan(lines), line);
    ScanCounters(lines);
    assert (lines + [line])[..|lines|] == lines;
  }

  lemma KillsByAppend(kills: seq<Kill>, k: Kill, p: string)
    ensures KillsBy(kills + [k], p) == KillsBy(kills, p) + (if k.killer == p then 1 else 0)
    ensures DeathsOf(kills + [k], p) == DeathsOf(kills, p) + (if k.victim == p then 1 else 0)
  {
    assert (kills + [k])[..|kills|] == kills;
  }

  /** `totals` maps exactly the killers of `kills` to their number of kills. */
  ghost predicate KillerTally(totals: map<string, int>, kills: seq<Kill>) {
    forall p :: Get(totals, p) == KillsBy(kills, p) && (p in totals <==> KillsBy(kills, p) > 0)
  }

  /** `deaths` maps exactly the victims of `kills` to their number of deaths. */
  ghost predicate VictimTally(deaths: map<string, int>, kills: seq<Kill>) {
    forall v :: Get(deaths, v) == DeathsOf(kills, v) && (v in deaths <==> DeathsOf(kills, v) > 0)
  }

  lemma TallyAppend(totals: map<string, int>, deaths: map<string, int>, kills: seq<Kill>, k: Kill)
    requires KillerTally(totals, kills) && VictimTally(deaths, kills)
    ensures KillerTally(Inc(totals, k.killer, 1), kills + [k]) && VictimTally(Inc(deaths, k.victim, 1), kills + [k])
  {
    forall p ensures KillsBy(kills + [k], p) == KillsBy(kills, p) + (if k.killer == p then 1 else 0)
                     && DeathsOf(kills + [k], p) == DeathsOf(kills, p) + (if k.victim == p then 1 else 0)
    {
      KillsByAppend(kills, k, p);
    }
  }

  /** One line's kill, if any, keeps both tallies exact. */
  lemma TallyStep(totals: map<string, int>, deaths: map<string, int>, kills: seq<Kill>,
                  totals': map<string, int>, deaths': map<string, int>, kills': seq<Kill>,
                  k: Option<KillMatch>, round: nat, time: string)
    requires KillerTally(totals, kills) && VictimTally(deaths, kills)
    requires kills' == kills + (if k.Some? then [Kill(round, time, k.value.killer, k.value.victim, k.value.weapon)] else [])
    requires totals' == (if k.Some? then Inc(totals, k.value.killer, 1) else totals)
    requires deaths' == (if k.Some? then Inc(deaths, k.value.victim, 1) else deaths)
    ensures KillerTally(totals', kills') && VictimTally(deaths', kills')
  {
    if k.Some? {
      TallyAppend(totals, deaths, kills, Kill(round, time, k.value.killer, k.value.victim, k.value.weapon));
    } else {
      assert kills' == kills;
    }
  }

  /**
   * `totalKills` maps exactly the players who killed to their number of
   * kills in the list, and `deaths` exactly the victims to their number of
   * deaths.
   */
  lemma {:induction false} ScanTallies(lines: seq<string>)
    decreases |lines|
    ensures KillerTally(Scan(lines).totalKills, Scan(lines).kills)
    ensures VictimTally(Scan(lines).deaths, Scan(lines).kills)
  {
    if |lines| > 0 {
      var init, line := lines[..|lines| - 1], lines[|lines| - 1];
      ScanTallies(init);
      StepFields(Scan(init), line);
      var a, b := Scan(init), Scan(lines);
      var k := AcceptedKill(line);
      var round := a.roundCount + (if Contains(line, RoundStartMarker) then 1 else 0);
      TallyStep(a.totalKills, a.deaths, a.kills, b.totalKills, b.deaths, b.kills, k, round, TimeText(TimestampOf(line)));
    }
  }

  /** Kills, killers' totals and victims' deaths all add up to the same number. */
  lemma {:induction false} ScanKillTotals(lines: seq<string>)
    decreases |lines|
    ensures Total(Scan(lines).totalKills) == |Scan(lines).kills|
    ensures Total(Scan(lines).deaths) == |Scan(lines).kills|
  {
    if |lines| == 0 {
      assert Scan(lines) == InitialState;
    } else {
      var init, line := lines[..|lines| - 1], lines[|lines| - 1];
      ScanKillTotals(init);
      StepFields(Scan(init), line);
      var k := AcceptedKill(line);
      if k.Some? {
        TotalInc(Scan(init).totalKills, k.value.killer, 1);
        TotalInc(Scan(init).deaths, k.value.victim, 1);
      }
    }
  }

  // ---------------------------------------------------------------------
  // Rounds
  // ---------------------------------------------------------------------

  /** The running tally is the number of kills since the last round start. */
  lemma {:induction false} ScanRoundKills(lines: seq<string>)
    decreases |lines|
    ensures Scan(lines).currentRoundKills == KillsSinceRoundStart(lines)
    ensures Scan(lines).currentRoundKills <= |Scan(lines).kills|
  {
    if |lines| > 0 {
      var init, line := lines[..|lines| - 1], lines[|lines| - 1];
      ScanRoundKills(init);
      StepFields(Scan(init), line);
    }
  }

  /** The most kills in a round lies between 0 and the number of kills. */
  lemma {:induction false} MostKillsBounds(lines: seq<string>)
    decreases |lines|
    ensures 0 <= Scan(lines).mostKillsInRound <= |Scan(lines).kills|
  {
    if |lines| > 0 {
      var init, line := lines[..|lines| - 1], lines[|lines| - 1];
      MostKillsBounds(init);
      ScanRoundKills(init);
      StepFields(Scan(init), line);
    }
  }

  /**
   * A line that closes a round raises the most kills in a round to at least
   * the number of kills since the last round start; no other line changes it.
   */
  lemma MostKillsAtClose(lines: seq<string>, line: string)
    ensures var a, b := Scan(lines), Scan(lines + [line]);
            var time := TimestampOf(line);
            var tally := if Contains(line, RoundStartMarker) then 0 else KillsSinceRoundStart(lines);
            if ClosesRound(OnRoundStart(a, line, time), line, time) then
              b.mostKillsInRound == Max(a.mostKillsInRound, tally)
            else b.mostKillsInRound == a.mostKillsInRound
  {
    ScanAppend(lines, line);
    ScanRoundKills(lines);
    StepFields(Scan(lines), line);
  }

  /** The most kills in a round never decreases from one line to the next. */
  lemma MostKillsNeverDecreases(lines: seq<string>, line: string)
    ensures Scan(lines + [line]).mostKillsInRound >= Scan(lines).mostKillsInRound
  {
    MostKillsAtClose(lines, line);
  }

  /** A round-end line while no round start is recorded changes nothing. */
  lemma RoundEndWhileIdle(a: ScanState, line: string, time: Option<string>)
    requires a.roundStartTime.None?
    ensures OnRoundEnd(a, line, time) == a
  {
  }

  /** A round-end line without a timestamp changes nothing: it does not close the round. */
  lemma RoundEndWithoutTimestamp(a: ScanState, line: string)
    ensures OnRoundEnd(a, line, None) == a
  {
  }

  /** A round-start line without a timestamp keeps the recorded start. */
  lemma RoundStartWithoutTimestamp(a: ScanState, line: string)
    ensures OnRoundStart(a, line, None).roundStartTime == a.roundStartTime
    ensures OnRoundStart(a, line, None).roundCount == a.roundCount + (if Contains(line, RoundStartMarker) then 1 else 0)
  {
  }

  /**
   * A round-end line with a timestamp always closes an open round (every
   * captured timestamp normalises), so it leaves no start recorded, even when
   * the same line also starts a round.
   */
  lemma RoundEndCloses(lines: seq<string>, line: string)
    requires Contains(line, RoundEndMarker)
    requires TimestampOf(line).Some?
    ensures Scan(lines + [line]).roundStartTime.None?
  {
    ScanAppend(lines, line);
    StepFields(Scan(lines), line);
    TimestampLeftmost(line);
    StampNormalises(TimestampOf(line).value);
  }

  /**
   * After that, the next line leaves the round time and the most kills as
   * they were: a second round end finds no start, and a line that also
   * starts a round closes it at once, after 0 seconds with no kill.
   */
  lemma SecondRoundEndNoop(lines: seq<string>, first: string, second: string)
    requires Contains(first, RoundEndMarker) && TimestampOf(first).Some?
    ensures Scan(lines + [first, second]).totalRoundTime == Scan(lines + [first]).totalRoundTime
    ensures Scan(lines + [first, second]).mostKillsInRound == Scan(lines + [first]).mostKillsInRound
  {
    RoundEndCloses(lines, first);
    MostKillsBounds(lines + [first]);
    assert lines + [first, second] == (lines + [first]) + [second];
    ScanAppend(lines + [first], second);
    StepFields(Scan(lines + [first]), second);
  }

  // ---------------------------------------------------------------------
  // The report
  // ---------------------------------------------------------------------

  /** The average is 0 when no round started. */
  lemma AverageWithoutRounds(lines: seq<string>)
    requires LinesWith(Window(lines), RoundStartMarker) == 0
    ensures Report(lines).averageRoundLength == 0.0
  {
    ScanCounters(Window(lines));
  }

  /** Otherwise it is the total round time over the number of round starts. */
  lemma AverageOverRoundStarts(lines: seq<string>)
    requires LinesWith(Window(lines), RoundStartMarker) > 0
    ensures Report(lines).averageRoundLength
            == Scan(Window(lines)).totalRoundTime as real / LinesWith(Window(lines), RoundStartMarker) as real
  {
    ScanCounters(Window(lines));
  }

  /** The report's counters, kill list and tallies, in terms of the lines after the last match start. */
  lemma ReportContents(lines: seq<string>)
    ensures var w, r := Window(lines), Report(lines);
            r.bombPlants == LinesWith(w, BombPlantMarker)
            && r.bombDefuses == LinesWith(w, BombDefuseMarker)
            && r.roundsWon == map[CT := WinsOf(w, CT), TERRORIST := WinsOf(w, TERRORIST)]
            && KillMatches(r.kills) == AcceptedKills(w)
            && Total(r.totalKills) == |r.kills| && Total(r.deaths) == |r.kills|
            && 0 <= r.mostKillsInRound <= |r.kills|
  {
    var w := Window(lines);
    ScanCounters(w);
    ScanKills(w);
    ScanKillTotals(w);
    MostKillsBounds(w);
  }

  /** Each team's grouped table sums, per player, the kills of the raw names tagged with that team. */
  lemma ReportGrouping(lines: seq<string>, t: Team)
    ensures var m := Report(lines).totalKills;
            Report(lines).groupedKills[t] == TeamTable(ExtractPlayerAndTeam, m, m.Keys, t)
  {
    GroupedIsTable(ExtractPlayerAndTeam, Scan(Window(lines)).totalKills, t);
  }

  /** Each team's grouped table adds up to the kills of the killers whose names carry that team's tag. */
  lemma ReportTeamTotal(lines: seq<string>, t: Team)
    ensures var m := Report(lines).totalKills;
            Total(Report(lines).groupedKills[t]) == SumKeys(m, TaggedNames(ExtractPlayerAndTeam, m, m.Keys, t))
  {
    TeamTotal(ExtractPlayerAndTeam, Scan(Window(lines)).totalKills, t);
  }
}
