/**
 * The line patterns of the match-log scan: the literal event markers, the
 * three regular expressions (timestamp, round win, kill) as leftmost-match
 * recognisers, the environment-victim filter, and `extractPlayerAndTeam`.
 */
module LogPatterns {
  import opened Wrappers
  import opened Strings
  import opened Timestamp

  const MatchStartMarker := "World triggered \"Match_Start\""
  const RoundStartMarker := "World triggered \"Round_Start\""
  const RoundEndMarker := "World triggered \"Round_End\""
  const BombPlantMarker := "triggered \"Bomb_Begin_Plant\""
  const BombDefuseMarker := "triggered \"Defused_The_Bomb\""

  datatype Team = CT | TERRORIST {
    function Label(): string {
      if this == CT then "CT" else "TERRORIST"
    }
  }

  // ---------------------------------------------------------------------
  // Timestamp: /(\d{2}\/\d{2}\/\d{4} - \d{2}:\d{2}:\d{2})/
  // ---------------------------------------------------------------------

  /** The length of a log timestamp. */
  const StampLength := 21

  predicate AllDigits(s: string) {
    forall k :: 0 <= k < |s| ==> IsDigit(s[k])
  }

  /** `t` is a whole timestamp as the regex matches it: digit groups of widths 2, 2, 4, 2, 2, 2 between `/`, ` - ` and `:`. */
  predicate IsStamp(t: string) {
    |t| == StampLength
    && AllDigits(t[0..2]) && t[2] == '/' && AllDigits(t[3..5]) && t[5] == '/' && AllDigits(t[6..10])
    && t[10..13] == " - "
    && AllDigits(t[13..15]) && t[15] == ':' && AllDigits(t[16..18]) && t[18] == ':' && AllDigits(t[19..21])
  }

  predicate StampAt(line: string, i: nat) {
    i + StampLength <= |line| && IsStamp(line[i..i + StampLength])
  }

  /** The leftmost timestamp position at or after `i`. */
  function StampFrom(line: string, i: nat): Option<nat>
    decreases |line| + 1 - i
  {
    if i > |line| then None
    else if StampAt(line, i) then Some(i)
    else StampFrom(line, i + 1)
  }

  lemma {:induction false} StampFromFinds(line: string, i: nat)
    decreases |line| + 1 - i
    ensures var r := StampFrom(line, i);
            (r.Some? ==> i <= r.value && StampAt(line, r.value)
                         && forall j: nat :: i <= j < r.value ==> !StampAt(line, j))
            && (r.None? ==> forall j: nat :: i <= j ==> !StampAt(line, j))
  {
    if i <= |line| && !StampAt(line, i) {
      StampFromFinds(line, i + 1);
    }
  }

  /** `line.match(timestampRegex)?.[0]`: the leftmost timestamp in the line. */
  function TimestampOf(line: string): Option<string> {
    StampFromFinds(line, 0);
    match StampFrom(line, 0)
    case Some(i) => Some(line[i..i + StampLength])
    case None => None
  }

  /** The timestamp found is the text of the leftmost place where the pattern matches, and none is found only when it matches nowhere. */
  lemma TimestampLeftmost(line: string)
    ensures var r := TimestampOf(line);
            (r.Some? ==> IsStamp(r.value)
                         && exists i: nat :: StampAt(line, i) && line[i..i + StampLength] == r.value
                                             && forall j: nat :: j < i ==> !StampAt(line, j))
            && (r.None? ==> forall i: nat :: !StampAt(line, i))
  {
    StampFromFinds(line, 0);
  }

  lemma AllDigitsLack(s: string)
    requires AllDigits(s)
    ensures Lacks(s, '/') && Lacks(s, ' ') && Lacks(s, ':') && Lacks(s, '-')
  {
  }

  /**
   * Every timestamp the regex captures normalises: its date fields and
   * clock are exactly the digit groups of the text.
   */
  lemma {:induction false} StampNormalises(t: string)
    requires IsStamp(t)
    ensures ParseCustomTimestamp(t) == Some(IsoDate(t[6..10], t[0..2], t[3..5], t[13..21]))
  {
    var month, day, year := t[0..2], t[3..5], t[6..10];
    var h, m, s := t[13..15], t[16..18], t[19..21];
    AllDigitsLack(month); AllDigitsLack(day); AllDigitsLack(year);
    AllDigitsLack(h); AllDigitsLack(m); AllDigitsLack(s);
    StampPieces(t);
    ClockStampParses(month, day, year, h, m, s);
  }

  /** A 21-character text cut at the separator positions of a timestamp. */
  lemma StampPieces(t: string)
    requires |t| == StampLength
    ensures t[13..21] == t[13..15] + [t[15]] + t[16..18] + [t[18]] + t[19..21]
    ensures t == t[0..2] + [t[2]] + t[3..5] + [t[5]] + t[6..10] + t[10..13] + t[13..21]
  {
    assert t[13..21] == t[13..15] + t[15..16] + t[16..18] + t[18..19] + t[19..21];
    assert t == t[0..2] + t[2..3] + t[3..5] + t[5..6] + t[6..10] + t[10..13] + t[13..21];
  }

  // ---------------------------------------------------------------------
  // Round win: /Team "(CT|TERRORIST)" triggered ".*Win"/
  // ---------------------------------------------------------------------

  const WinWord := "Win\""

  /** The characters the regex `.` does not match. */
  predicate IsLineTerminator(c: char) {
    c == '\n' || c == '\r' || c == '\U{2028}' || c == '\U{2029}'
  }

  predicate NoTerminatorBetween(s: string, j: nat, k: nat)
    requires j <= k <= |s|
  {
    forall m :: j <= m < k ==> !IsLineTerminator(s[m])
  }

  /** `.*Win"` matches at position `j`. */
  function WinTailAt(s: string, j: nat): bool
    decreases |s| - j
  {
    if j + |WinWord| > |s| then false
    else if OccursAt(s, WinWord, j) then true
    else if IsLineTerminator(s[j]) then false
    else WinTailAt(s, j + 1)
  }

  /** `.*Win"` matches at `j` exactly when `Win"` occurs at or after `j` with no line terminator before it. */
  lemma {:induction false} WinTailAtIff(s: string, j: nat)
    decreases |s| - j
    ensures WinTailAt(s, j) <==> exists k: nat :: j <= k && OccursAt(s, WinWord, k) && NoTerminatorBetween(s, j, k)
  {
    if j + |WinWord| > |s| {
    } else if OccursAt(s, WinWord, j) {
      assert NoTerminatorBetween(s, j, j);
    } else if IsLineTerminator(s[j]) {
      forall k: nat | j <= k && OccursAt(s, WinWord, k) ensures !NoTerminatorBetween(s, j, k) {
        assert k != j;
      }
    } else {
      WinTailAtIff(s, j + 1);
      if WinTailAt(s, j) {
        var k: nat :| j + 1 <= k && OccursAt(s, WinWord, k) && NoTerminatorBetween(s, j + 1, k);
        assert NoTerminatorBetween(s, j, k);
      } else {
        forall k: nat | j <= k && OccursAt(s, WinWord, k) ensures !NoTerminatorBetween(s, j, k) {
          if k > j {
            assert !NoTerminatorBetween(s, j + 1, k);
          }
        }
      }
    }
  }

  function WinHeader(t: Team): string {
    "Team \"" + t.Label() + "\" triggered \""
  }

  /** The win regex matches at `i` with team `t` captured. */
  predicate WinAt(s: string, i: nat, t: Team) {
    OccursAt(s, WinHeader(t), i) && WinTailAt(s, i + |WinHeader(t)|)
  }

  /** The team whose header the win regex matches at `i`; the two headers cannot both match. */
  function WinTeamAt(s: string, i: nat): Option<Team> {
    if WinAt(s, i, CT) then Some(CT)
    else if WinAt(s, i, TERRORIST) then Some(TERRORIST)
    else None
  }

  /** The leftmost position at or after `i` where the win regex matches. */
  function WinFrom(line: string, i: nat): Option<nat>
    decreases |line| + 1 - i
  {
    if i > |line| then None
    else if WinTeamAt(line, i).Some? then Some(i)
    else WinFrom(line, i + 1)
  }

  lemma {:induction false} WinFromFinds(line: string, i: nat)
    decreases |line| + 1 - i
    ensures var r := WinFrom(line, i);
            (r.Some? ==> i <= r.value && WinTeamAt(line, r.value).Some?
                         && forall j: nat :: i <= j < r.value ==> WinTeamAt(line, j).None?)
            && (r.None? ==> forall j: nat :: i <= j ==> WinTeamAt(line, j).None?)
  {
    if i > |line| {
      forall j: nat | i <= j ensures WinTeamAt(line, j).None? {
        assert j >= |line| + 1;
      }
    } else if WinTeamAt(line, i).None? {
      WinFromFinds(line, i + 1);
      var none := WinTeamAt(line, i);
      forall j: nat | j == i ensures WinTeamAt(line, j).None? {
      }
    }
  }

  /** `WinTeamAt` names a team whose header and tail match at `j`, and finds none only when no team's do. */
  lemma WinTeamAtSpec(line: string, j: nat)
    ensures WinTeamAt(line, j).Some? ==> WinAt(line, j, WinTeamAt(line, j).value)
    ensures WinTeamAt(line, j).None? ==> forall u: Team :: !WinAt(line, j, u)
  {
  }

  /** `line.match(winRegex)?.[1]`: the team captured by the leftmost match. */
  function WinTeam(line: string): Option<Team> {
    match WinFrom(line, 0)
    case Some(i) => WinTeamAt(line, i)
    case None => None
  }

  /** The team reported is the one of the leftmost match of the win pattern; none is reported only when it matches nowhere. */
  lemma WinTeamLeftmost(line: string)
    ensures var r := WinTeam(line);
            (r.Some? ==> exists i: nat :: WinAt(line, i, r.value)
                                          && forall j: nat, u: Team :: j < i ==> !WinAt(line, j, u))
            && (r.None? ==> forall i: nat, u: Team :: !WinAt(line, i, u))
  {
    WinFromFinds(line, 0);
    match WinFrom(line, 0)
    case Some(i) =>
      WinTeamAtSpec(line, i);
      forall j: nat, u: Team | j < i ensures !WinAt(line, j, u) {
        WinTeamAtSpec(line, j);
      }
    case None =>
      forall j: nat, u: Team ensures !WinAt(line, j, u) {
        WinTeamAtSpec(line, j);
      }
  }

  // ---------------------------------------------------------------------
  // Kill: /"([^"]+)" \[[^\]]+\] killed (?:other )?"([^"]+)" \[[^\]]+\] with "([^"]+)"/
  // ---------------------------------------------------------------------

  datatype Capture = Capture(text: string, next: nat)

  /**
   * `open([^close]+)close` at position `i`: the captured text and the
   * position just past the closing character.
   */
  function DelimitedAt(s: string, i: nat, open: char, close: char): Option<Capture> {
    if i < |s| && s[i] == open then
      match IndexOfFrom(s, [close], i + 1)
      case Some(q) =>
        if q > i + 1 then Some(Capture(s[i + 1..q], q + 1))
        else None
      case None => None
    else None
  }

  /** A delimited capture is non-empty, free of the closing character, and spells the text from `i` to `next`. */
  lemma DelimitedAtSpec(s: string, i: nat, open: char, close: char)
    ensures var r := DelimitedAt(s, i, open, close);
            r.Some? ==> r.value.text != [] && Lacks(r.value.text, close)
                        && i < r.value.next <= |s| && s[i..r.value.next] == [open] + r.value.text + [close]
  {
    if i < |s| && s[i] == open {
      IndexOfFromFinds(s, [close], i + 1);
      match IndexOfFrom(s, [close], i + 1)
      case Some(q) =>
        if q > i + 1 {
          OccursAtChar(s, close, q);
          forall k | i + 1 <= k < q ensures s[k] != close {
            OccursAtChar(s, close, k);
          }
          assert s[i..q + 1] == [open] + s[i + 1..q] + [close];
        }
      case None =>
    }
  }

  /** Conversely, a non-empty text free of the closing character, between the delimiters at `i`, is captured. */
  lemma DelimitedAtFinds(s: string, i: nat, open: char, close: char, text: string)
    requires text != [] && Lacks(text, close)
    requires OccursAt(s, [open] + text + [close], i)
    ensures DelimitedAt(s, i, open, close) == Some(Capture(text, i + |text| + 2))
  {
    var q := i + 1 + |text|;
    assert s[i..q + 1] == [open] + text + [close];
    assert s[i] == s[i..q + 1][0];
    forall k | 0 <= k < |text| ensures s[i + 1 + k] == text[k] {
      assert s[i + 1 + k] == s[i..q + 1][1 + k];
    }
    assert s[i + 1..q] == text;
    assert s[q] == s[i..q + 1][q - i];
    OccursAtChar(s, close, q);
    forall j: nat | i + 1 <= j < q ensures !OccursAt(s, [close], j) {
      OccursAtChar(s, close, j);
      assert s[j] == text[j - i - 1];
    }
    IndexOfFromFinds(s, [close], i + 1);
  }

  datatype KillMatch = KillMatch(killer: string, victim: string, weapon: string)

  /** The kill regex anchored at position `i`; at a fixed start it has at most one match. */
  function KillAt(s: string, i: nat): Option<KillMatch> {
    var killer :- PlayerAt(s, i);
    KillAfterKiller(s, killer)
  }

  /** The regex part `"([^"]+)" \[[^\]]+\]` at `i`: the quoted name and the position past the bracketed slot. */
  function PlayerAt(s: string, i: nat): Option<Capture> {
    var name :- DelimitedAt(s, i, '"', '"');
    if !OccursAt(s, " ", name.next) then None else
    var slot :- DelimitedAt(s, name.next + 1, '[', ']');
    Some(Capture(name.text, slot.next))
  }

  /** The rest of the kill regex after the killer: ` killed (?:other )?` and the victim. */
  function KillAfterKiller(s: string, killer: Capture): Option<KillMatch> {
    if !OccursAt(s, " killed ", killer.next) then None else
    var afterKilled := killer.next + |" killed "|;
    var victimStart := if OccursAt(s, "other ", afterKilled) then afterKilled + |"other "| else afterKilled;
    var victim :- PlayerAt(s, victimStart);
    WeaponAfter(s, killer.text, victim)
  }

  /** The rest of the kill regex after the victim: ` with "([^"]+)"`. */
  function WeaponAfter(s: string, killer: string, victim: Capture): Option<KillMatch> {
    if !OccursAt(s, " with ", victim.next) then None else
    var weapon :- DelimitedAt(s, victim.next + |" with "|, '"', '"');
    Some(KillMatch(killer, victim.text, weapon.text))
  }

  /** The leftmost position at or after `i` where the kill regex matches. */
  function KillFrom(line: string, i: nat): Option<nat>
    decreases |line| + 1 - i
  {
    if i > |line| then None
    else if KillAt(line, i).Some? then Some(i)
    else KillFrom(line, i + 1)
  }

  lemma {:induction false} KillFromFinds(line: string, i: nat)
    decreases |line| + 1 - i
    ensures var r := KillFrom(line, i);
            (r.Some? ==> i <= r.value && KillAt(line, r.value).Some?
                         && forall j: nat :: i <= j < r.value ==> KillAt(line, j).None?)
            && (r.None? ==> forall j: nat :: i <= j ==> KillAt(line, j).None?)
  {
    if i > |line| {
      forall j: nat | i <= j ensures KillAt(line, j).None? {
        assert j >= |line| + 1;
      }
    } else if KillAt(line, i).None? {
      KillFromFinds(line, i + 1);
      var none := KillAt(line, i);
      forall j: nat | j == i ensures KillAt(line, j).None? {
      }
    }
  }

  /** `line.match(killRegex)`: the captures of the leftmost match. */
  function MatchKill(line: string): Option<KillMatch> {
    match KillFrom(line, 0)
    case Some(i) => KillAt(line, i)
    case None => None
  }

  /** The captures reported are those of the leftmost match of the kill pattern; none are reported only when it matches nowhere. */
  lemma MatchKillLeftmost(line: string)
    ensures var r := MatchKill(line);
            (r.Some? ==> exists i: nat :: KillAt(line, i) == r && forall j: nat :: j < i ==> KillAt(line, j).None?)
            && (r.None? ==> forall i: nat :: KillAt(line, i).None?)
  {
    KillFromFinds(line, 0);
  }

  /** Victims the parser ignores: breakable and generic props. */
  predicate IsPropVictim(victim: string) {
    StartsWith(victim, "func_") || StartsWith(victim, "prop_")
  }

  /** The kill a line records: it mentions `killed`, matches the kill regex and its victim is not a prop. */
  function AcceptedKill(line: string): Option<KillMatch> {
    if Contains(line, "killed") then
      match MatchKill(line)
      case Some(k) => if !IsPropVictim(k.victim) then Some(k) else None
      case None => None
    else None
  }

  /** A line records a kill exactly when it mentions `killed` and the kill pattern matches with a victim that is not a prop; the kill is that match. */
  lemma AcceptedKillSpec(line: string)
    ensures AcceptedKill(line).Some? <==>
              Contains(line, "killed") && MatchKill(line).Some? && !IsPropVictim(MatchKill(line).value.victim)
    ensures AcceptedKill(line).Some? ==> AcceptedKill(line) == MatchKill(line)
  {
  }

  /** `text` between double quotes. */
  function Quoted(text: string): string {
    ['"'] + text + ['"']
  }

  /** `text` between square brackets. */
  function Bracketed(text: string): string {
    ['['] + text + [']']
  }

  /** A player as the server writes one in a kill event: `"name" [slot]`. */
  function PlayerText(name: string, slot: string): string {
    Quoted(name) + (" " + Bracketed(slot))
  }

  /** The victim part of a kill event: `[other ]"victim" [slot] with "weapon"`. */
  function VictimText(victim: string, victimSlot: string, weapon: string, other: bool): string {
    (if other then "other " else "") + (PlayerText(victim, victimSlot) + (" with " + Quoted(weapon)))
  }

  /**
   * The text of a kill event as the server writes it:
   * `"killer" [slot] killed [other ]"victim" [slot] with "weapon"`.
   */
  function KillText(killer: string, killerSlot: string, victim: string, victimSlot: string, weapon: string,
                    other: bool): string
  {
    PlayerText(killer, killerSlot) + (" killed " + VictimText(victim, victimSlot, weapon, other))
  }

  /** A quoted field: non-empty and free of `"`. */
  predicate QuotedField(s: string) {
    s != [] && Lacks(s, '"')
  }

  /** A bracketed field: non-empty and free of `]`. */
  predicate BracketedField(s: string) {
    s != [] && Lacks(s, ']')
  }

  /** The player part matches once its name, a space and its slot are found in turn. */
  lemma PlayerAtFound(s: string, i: nat, name: string, slot: string)
    requires DelimitedAt(s, i, '"', '"') == Some(Capture(name, i + |name| + 2))
    requires OccursAt(s, " ", i + |name| + 2)
    requires DelimitedAt(s, i + |name| + 3, '[', ']') == Some(Capture(slot, i + |name| + |slot| + 5))
    ensures PlayerAt(s, i) == Some(Capture(name, i + |name| + |slot| + 5))
  {
  }

  /** The weapon part matches once ` with ` and the quoted weapon are found. */
  lemma WeaponAfterFound(s: string, killer: string, victim: Capture, weapon: string)
    requires OccursAt(s, " with ", victim.next)
    requires DelimitedAt(s, victim.next + 6, '"', '"') == Some(Capture(weapon, victim.next + 8 + |weapon|))
    ensures WeaponAfter(s, killer, victim) == Some(KillMatch(killer, victim.text, weapon))
  {
  }

  /** The part after the killer matches once ` killed `, the victim and the weapon part are found. */
  lemma KillAfterKillerFound(s: string, killer: Capture, victimStart: nat, victim: Capture, r: KillMatch)
    requires OccursAt(s, " killed ", killer.next)
    requires victimStart == if OccursAt(s, "other ", killer.next + 8) then killer.next + 14 else killer.next + 8
    requires PlayerAt(s, victimStart) == Some(victim)
    requires WeaponAfter(s, killer.text, victim) == Some(r)
    ensures KillAfterKiller(s, killer) == Some(r)
  {
  }

  /** The kill regex matches at `i` once the killer and the rest are found. */
  lemma KillAtFound(s: string, i: nat, killer: Capture, r: KillMatch)
    requires PlayerAt(s, i) == Some(killer)
    requires KillAfterKiller(s, killer) == Some(r)
    ensures KillAt(s, i) == Some(r)
  {
  }

  /** The pieces of `"name" [slot]` at their offsets from `i`. */
  predicate PlayerPiecesAt(s: string, i: nat, name: string, slot: string) {
    OccursAt(s, Quoted(name), i) && OccursAt(s, " ", i + |name| + 2) && OccursAt(s, Bracketed(slot), i + |name| + 2 + 1)
  }

  /** The pieces of `"victim" [slot] with "weapon"` at their offsets from `v`. */
  predicate VictimRestAt(s: string, v: nat, victim: string, victimSlot: string, weapon: string) {
    var w := v + |victim| + |victimSlot| + 5;
    PlayerPiecesAt(s, v, victim, victimSlot) && OccursAt(s, " with ", w) && OccursAt(s, Quoted(weapon), w + 6)
  }

  /** The pieces of `[other ]"victim" [slot] with "weapon"` at their offsets from `k`. */
  predicate VictimPiecesAt(s: string, k: nat, victim: string, victimSlot: string, weapon: string, other: bool) {
    if other then OccursAt(s, "other ", k) && VictimRestAt(s, k + 6, victim, victimSlot, weapon)
    else VictimRestAt(s, k, victim, victimSlot, weapon)
  }

  /** The pieces of ` killed [other ]"victim" [slot] with "weapon"` at their offsets from `n`. */
  predicate KilledPiecesAt(s: string, n: nat, victim: string, victimSlot: string, weapon: string, other: bool) {
    OccursAt(s, " killed ", n) && VictimPiecesAt(s, n + 8, victim, victimSlot, weapon, other)
  }

  lemma PlayerTextPieces(s: string, i: nat, name: string, slot: string)
    requires OccursAt(s, PlayerText(name, slot), i)
    ensures PlayerPiecesAt(s, i, name, slot)
  {
    OccursSplit(s, Quoted(name), " " + Bracketed(slot), i);
    OccursSplit(s, " ", Bracketed(slot), i + |name| + 2);
  }

  lemma VictimRestPieces(s: string, v: nat, victim: string, victimSlot: string, weapon: string)
    requires OccursAt(s, PlayerText(victim, victimSlot) + (" with " + Quoted(weapon)), v)
    ensures VictimRestAt(s, v, victim, victimSlot, weapon)
  {
    OccursSplit(s, PlayerText(victim, victimSlot), " with " + Quoted(weapon), v);
    PlayerTextPieces(s, v, victim, victimSlot);
    OccursSplit(s, " with ", Quoted(weapon), v + |victim| + |victimSlot| + 5);
  }

  lemma VictimTextPieces(s: string, k: nat, victim: string, victimSlot: string, weapon: string, other: bool)
    requires OccursAt(s, VictimText(victim, victimSlot, weapon, other), k)
    ensures VictimPiecesAt(s, k, victim, victimSlot, weapon, other)
  {
    var rest := PlayerText(victim, victimSlot) + (" with " + Quoted(weapon));
    if other {
      OccursSplit(s, "other ", rest, k);
      VictimRestPieces(s, k + 6, victim, victimSlot, weapon);
    } else {
      assert VictimText(victim, victimSlot, weapon, other) == rest;
      VictimRestPieces(s, k, victim, victimSlot, weapon);
    }
  }

  /** A kill event written at `i` starts with the killer's pieces. */
  lemma KillTextPlayerPieces(s: string, i: nat, killer: string, killerSlot: string, victim: string, victimSlot: string,
                             weapon: string, other: bool)
    requires OccursAt(s, KillText(killer, killerSlot, victim, victimSlot, weapon, other), i)
    ensures PlayerPiecesAt(s, i, killer, killerSlot)
  {
    OccursSplit(s, PlayerText(killer, killerSlot), " killed " + VictimText(victim, victimSlot, weapon, other), i);
    PlayerTextPieces(s, i, killer, killerSlot);
  }

  /** A kill event written at `i` continues with the pieces after the killer. */
  lemma KillTextKilledPieces(s: string, i: nat, killer: string, killerSlot: string, victim: string, victimSlot: string,
                             weapon: string, other: bool)
    requires OccursAt(s, KillText(killer, killerSlot, victim, victimSlot, weapon, other), i)
    ensures KilledPiecesAt(s, i + |killer| + |killerSlot| + 5, victim, victimSlot, weapon, other)
  {
    var n := i + |killer| + |killerSlot| + 5;
    OccursSplit(s, PlayerText(killer, killerSlot), " killed " + VictimText(victim, victimSlot, weapon, other), i);
    OccursSplit(s, " killed ", VictimText(victim, victimSlot, weapon, other), n);
    VictimTextPieces(s, n + 8, victim, victimSlot, weapon, other);
  }

  /** A player found piece by piece is matched, with its name, up to the end of its slot. */
  lemma PlayerAtPieces(s: string, i: nat, name: string, slot: string)
    requires QuotedField(name) && BracketedField(slot)
    requires PlayerPiecesAt(s, i, name, slot)
    ensures PlayerAt(s, i) == Some(Capture(name, i + |name| + |slot| + 5))
  {
    DelimitedAtFinds(s, i, '"', '"', name);
    DelimitedAtFinds(s, i + |name| + 2 + 1, '[', ']', slot);
    PlayerAtFound(s, i, name, slot);
  }

  /** A position where a quoted text is written does not start `other `. */
  lemma NoOtherBeforeQuote(s: string, k: nat, text: string)
    requires OccursAt(s, Quoted(text), k)
    ensures !OccursAt(s, "other ", k)
  {
    OccurrenceHead(s, Quoted(text), k);
    if OccursAt(s, "other ", k) {
      OccurrenceHead(s, "other ", k);
    }
  }

  /** The weapon after a victim found piece by piece from `v` is matched. */
  lemma VictimRestMatches(s: string, killer: string, v: nat, victim: string, victimSlot: string, weapon: string)
    requires QuotedField(victim) && QuotedField(weapon) && BracketedField(victimSlot)
    requires VictimRestAt(s, v, victim, victimSlot, weapon)
    ensures WeaponAfter(s, killer, Capture(victim, v + |victim| + |victimSlot| + 5))
            == Some(KillMatch(killer, victim, weapon))
  {
    var victimCapture := Capture(victim, v + |victim| + |victimSlot| + 5);
    DelimitedAtFinds(s, victimCapture.next + 6, '"', '"', weapon);
    WeaponAfterFound(s, killer, victimCapture, weapon);
  }

  /** ` killed ` contains `killed` one character in. */
  lemma KilledWord(s: string, n: nat)
    requires OccursAt(s, " killed ", n)
    ensures OccursAt(s, "killed", n + 1)
  {
    assert " killed " == " " + ("killed" + " ");
    OccursSplit(s, " ", "killed" + " ", n);
    OccursSplit(s, "killed", " ", n + 1);
  }

  /** The part of a kill event after the killer, found piece by piece from `n`, is matched, with or without `other`. */
  lemma KillAfterPieces(s: string, killer: string, n: nat, victim: string, victimSlot: string, weapon: string,
                        other: bool)
    requires QuotedField(victim) && QuotedField(weapon) && BracketedField(victimSlot)
    requires KilledPiecesAt(s, n, victim, victimSlot, weapon, other)
    ensures KillAfterKiller(s, Capture(killer, n)) == Some(KillMatch(killer, victim, weapon))
  {
    if other {
      VictimFoundAt(s, Capture(killer, n), n + 8 + 6, victim, victimSlot, weapon);
    } else {
      NoOtherBeforeQuote(s, n + 8, victim);
      VictimFoundAt(s, Capture(killer, n), n + 8, victim, victimSlot, weapon);
    }
  }

  /** The victim and weapon found piece by piece from `v`, the victim's start after ` killed `, complete the match. */
  lemma VictimFoundAt(s: string, killer: Capture, v: nat, victim: string, victimSlot: string, weapon: string)
    requires QuotedField(victim) && QuotedField(weapon) && BracketedField(victimSlot)
    requires OccursAt(s, " killed ", killer.next)
    requires if OccursAt(s, "other ", killer.next + 8) then v == killer.next + 8 + 6 else v == killer.next + 8
    requires VictimRestAt(s, v, victim, victimSlot, weapon)
    ensures KillAfterKiller(s, killer) == Some(KillMatch(killer.text, victim, weapon))
  {
    PlayerAtPieces(s, v, victim, victimSlot);
    VictimRestMatches(s, killer.text, v, victim, victimSlot, weapon);
    KillAfterKillerFound(s, killer, v, Capture(victim, v + |victim| + |victimSlot| + 5),
                         KillMatch(killer.text, victim, weapon));
  }

  /** A kill event written at `i` is matched there by the kill regex, with its own killer, victim and weapon. */
  lemma KillAtText(s: string, i: nat, killer: string, killerSlot: string, victim: string,
                   victimSlot: string, weapon: string, other: bool)
    requires QuotedField(killer) && QuotedField(victim) && QuotedField(weapon)
    requires BracketedField(killerSlot) && BracketedField(victimSlot)
    requires OccursAt(s, KillText(killer, killerSlot, victim, victimSlot, weapon, other), i)
    ensures KillAt(s, i) == Some(KillMatch(killer, victim, weapon))
  {
    KillTextPlayerPieces(s, i, killer, killerSlot, victim, victimSlot, weapon, other);
    KillTextKilledPieces(s, i, killer, killerSlot, victim, victimSlot, weapon, other);
    KillAtFromPieces(s, i, killer, killerSlot, victim, victimSlot, weapon, other);
  }

  /** A kill event found piece by piece at `i` is matched there, with its own killer, victim and weapon. */
  lemma KillAtFromPieces(s: string, i: nat, killer: string, killerSlot: string, victim: string,
                         victimSlot: string, weapon: string, other: bool)
    requires QuotedField(killer) && QuotedField(victim) && QuotedField(weapon)
    requires BracketedField(killerSlot) && BracketedField(victimSlot)
    requires PlayerPiecesAt(s, i, killer, killerSlot)
    requires KilledPiecesAt(s, i + |killer| + |killerSlot| + 5, victim, victimSlot, weapon, other)
    ensures KillAt(s, i) == Some(KillMatch(killer, victim, weapon))
  {
    PlayerAtPieces(s, i, killer, killerSlot);
    KillAtAfterPlayer(s, i, Capture(killer, i + |killer| + |killerSlot| + 5), victim, victimSlot, weapon, other);
  }

  /** Once the killer is matched at `i`, the rest of the kill event found piece by piece completes the match. */
  lemma KillAtAfterPlayer(s: string, i: nat, killer: Capture, victim: string, victimSlot: string, weapon: string,
                          other: bool)
    requires QuotedField(victim) && QuotedField(weapon) && BracketedField(victimSlot)
    requires PlayerAt(s, i) == Some(killer)
    requires KilledPiecesAt(s, killer.next, victim, victimSlot, weapon, other)
    ensures KillAt(s, i) == Some(KillMatch(killer.text, victim, weapon))
  {
    KillAfterPieces(s, killer.text, killer.next, victim, victimSlot, weapon, other);
    KillAtFound(s, i, killer, KillMatch(killer.text, victim, weapon));
  }

  /** The kill regex cannot match where there is no `"`. */
  lemma NoKillWithoutQuote(s: string, j: nat)
    requires j < |s| && s[j] != '"'
    ensures KillAt(s, j).None?
  {
  }

  lemma KillFromSkip(line: string, i: nat)
    requires i < |line| && KillAt(line, i).None?
    ensures KillFrom(line, i) == KillFrom(line, i + 1)
  {
  }

  lemma KillFromHit(line: string, i: nat)
    requires KillAt(line, i).Some?
    ensures KillFrom(line, i) == Some(i)
  {
  }

  /** The search from `i` stops at the first match, at `p`. */
  lemma {:induction false} KillFromReaches(line: string, i: nat, p: nat)
    requires i <= p <= |line| && KillAt(line, p).Some?
    requires forall j: nat :: i <= j < p ==> KillAt(line, j).None?
    decreases p - i
    ensures KillFrom(line, i) == Some(p)
  {
    if i < p {
      KillFromSkip(line, i);
      KillFromReaches(line, i + 1, p);
    } else {
      KillFromHit(line, p);
    }
  }

  /** A match at `p` with none before it is the one `match` reports. */
  lemma MatchKillAt(line: string, p: nat, k: KillMatch)
    requires p <= |line| && KillAt(line, p) == Some(k)
    requires forall j: nat :: j < p ==> KillAt(line, j).None?
    ensures MatchKill(line) == Some(k)
  {
    KillFromReaches(line, 0, p);
  }

  /** A kill event after a prefix is matched right after the prefix. */
  lemma KillLineFound(prefix: string, killer: string, killerSlot: string, victim: string, victimSlot: string,
                      weapon: string, other: bool, suffix: string)
    requires QuotedField(killer) && QuotedField(victim) && QuotedField(weapon)
    requires BracketedField(killerSlot) && BracketedField(victimSlot)
    ensures KillAt(prefix + KillText(killer, killerSlot, victim, victimSlot, weapon, other) + suffix, |prefix|)
            == Some(KillMatch(killer, victim, weapon))
  {
    var text := KillText(killer, killerSlot, victim, victimSlot, weapon, other);
    OccursMiddle(prefix, text, suffix);
    KillAtText(prefix + text + suffix, |prefix|, killer, killerSlot, victim, victimSlot, weapon, other);
  }

  /** A line holding a kill event mentions `killed`. */
  lemma KillLineMentionsKilled(prefix: string, killer: string, killerSlot: string, victim: string, victimSlot: string,
                               weapon: string, other: bool, suffix: string)
    ensures Contains(prefix + KillText(killer, killerSlot, victim, victimSlot, weapon, other) + suffix, "killed")
  {
    var tail := VictimText(victim, victimSlot, weapon, other) + suffix;
    var text := KillText(killer, killerSlot, victim, victimSlot, weapon, other);
    var head := prefix + PlayerText(killer, killerSlot);
    Regroup(prefix, PlayerText(killer, killerSlot), " killed ", VictimText(victim, victimSlot, weapon, other), suffix);
    OccursMiddle(head, " killed ", tail);
    KilledWord(head + " killed " + tail, |head|);
    ContainsAt(head + " killed " + tail, "killed", |head| + 1);
  }

  /** No match starts inside a leading text without `"`. */
  lemma NoKillInPrefix(line: string, prefix: string)
    requires |prefix| <= |line| && line[..|prefix|] == prefix && Lacks(prefix, '"')
    ensures forall j: nat :: j < |prefix| ==> KillAt(line, j).None?
  {
    forall j: nat | j < |prefix| ensures KillAt(line, j).None? {
      assert line[j] == line[..|prefix|][j];
      NoKillWithoutQuote(line, j);
    }
  }

  /** A kill event after a prefix without `"` is the match reported for the line, and the line mentions `killed`. */
  lemma KillLineMatch(prefix: string, killer: string, killerSlot: string, victim: string, victimSlot: string,
                      weapon: string, other: bool, suffix: string)
    requires Lacks(prefix, '"')
    requires QuotedField(killer) && QuotedField(victim) && QuotedField(weapon)
    requires BracketedField(killerSlot) && BracketedField(victimSlot)
    ensures var line := prefix + KillText(killer, killerSlot, victim, victimSlot, weapon, other) + suffix;
            MatchKill(line) == Some(KillMatch(killer, victim, weapon)) && Contains(line, "killed")
  {
    var line := prefix + KillText(killer, killerSlot, victim, victimSlot, weapon, other) + suffix;
    KillLineFound(prefix, killer, killerSlot, victim, victimSlot, weapon, other, suffix);
    KillLineMentionsKilled(prefix, killer, killerSlot, victim, victimSlot, weapon, other, suffix);
    assert line[..|prefix|] == prefix;
    NoKillInPrefix(line, prefix);
    MatchKillAt(line, |prefix|, KillMatch(killer, victim, weapon));
  }

  /**
   * A line whose text before the kill event has no `"` records exactly the
   * kill it spells out, with or without `other`, unless the victim is a prop.
   */
  lemma KillLineRoundTrip(prefix: string, killer: string, killerSlot: string, victim: string, victimSlot: string,
                          weapon: string, other: bool, suffix: string)
    requires Lacks(prefix, '"')
    requires QuotedField(killer) && QuotedField(victim) && QuotedField(weapon)
    requires BracketedField(killerSlot) && BracketedField(victimSlot)
    ensures AcceptedKill(prefix + KillText(killer, killerSlot, victim, victimSlot, weapon, other) + suffix)
            == if IsPropVictim(victim) then None else Some(KillMatch(killer, victim, weapon))
  {
    KillLineMatch(prefix, killer, killerSlot, victim, victimSlot, weapon, other, suffix);
  }

  // Soundness: whatever the recogniser reports is spelled out in the text.

  /** A delimited capture at `i` is the delimited text written there. */
  lemma DelimitedOccurs(s: string, i: nat, open: char, close: char)
    requires DelimitedAt(s, i, open, close).Some?
    ensures var c := DelimitedAt(s, i, open, close).value;
            c.text != [] && Lacks(c.text, close) && c.next == i + |c.text| + 2
            && OccursAt(s, [open] + c.text + [close], i)
  {
    DelimitedAtSpec(s, i, open, close);
  }

  /** A matched player part is a quoted name and a bracketed slot written at `i`. */
  lemma PlayerAtSound(s: string, i: nat) returns (slot: string)
    requires PlayerAt(s, i).Some?
    ensures var c := PlayerAt(s, i).value;
            QuotedField(c.text) && BracketedField(slot)
            && c.next == i + |PlayerText(c.text, slot)| && OccursAt(s, PlayerText(c.text, slot), i)
  {
    var name := DelimitedAt(s, i, '"', '"').value;
    DelimitedOccurs(s, i, '"', '"');
    var slotCapture := DelimitedAt(s, name.next + 1, '[', ']').value;
    DelimitedOccurs(s, name.next + 1, '[', ']');
    slot := slotCapture.text;
    OccursConcat(s, " ", Bracketed(slot), name.next);
    OccursConcat(s, Quoted(name.text), " " + Bracketed(slot), i);
  }

  /** A matched weapon part is ` with ` and a quoted weapon written after the victim. */
  lemma WeaponAfterSound(s: string, killer: string, victim: Capture)
    requires WeaponAfter(s, killer, victim).Some?
    ensures var k := WeaponAfter(s, killer, victim).value;
            k.killer == killer && k.victim == victim.text && QuotedField(k.weapon)
            && OccursAt(s, " with " + Quoted(k.weapon), victim.next)
  {
    DelimitedOccurs(s, victim.next + 6, '"', '"');
    var weapon := DelimitedAt(s, victim.next + 6, '"', '"').value;
    OccursConcat(s, " with ", Quoted(weapon.text), victim.next);
  }

  /** A matched victim and weapon at `start` are the victim's player part and the weapon part, written in turn. */
  lemma VictimAtSound(s: string, killer: string, start: nat) returns (victimSlot: string)
    requires PlayerAt(s, start).Some? && WeaponAfter(s, killer, PlayerAt(s, start).value).Some?
    ensures var k := WeaponAfter(s, killer, PlayerAt(s, start).value).value;
            k.killer == killer && QuotedField(k.victim) && QuotedField(k.weapon) && BracketedField(victimSlot)
            && OccursAt(s, PlayerText(k.victim, victimSlot) + (" with " + Quoted(k.weapon)), start)
  {
    var victim := PlayerAt(s, start).value;
    victimSlot := PlayerAtSound(s, start);
    WeaponAfterSound(s, killer, victim);
    var k := WeaponAfter(s, killer, victim).value;
    OccursConcat(s, PlayerText(victim.text, victimSlot), " with " + Quoted(k.weapon), start);
  }

  /** A matched part after the killer is ` killed `, an optional `other `, the victim and the weapon, written in turn. */
  lemma KillAfterKillerSound(s: string, killer: Capture) returns (victimSlot: string, other: bool)
    requires KillAfterKiller(s, killer).Some?
    ensures var k := KillAfterKiller(s, killer).value;
            k.killer == killer.text && QuotedField(k.victim) && QuotedField(k.weapon) && BracketedField(victimSlot)
            && OccursAt(s, " killed " + VictimText(k.victim, victimSlot, k.weapon, other), killer.next)
  {
    var afterKilled := killer.next + |" killed "|;
    other := OccursAt(s, "other ", afterKilled);
    var victimStart := if other then afterKilled + |"other "| else afterKilled;
    victimSlot := VictimAtSound(s, killer.text, victimStart);
    var k := KillAfterKiller(s, killer).value;
    KilledTextOccurs(s, killer.next, k.victim, victimSlot, k.weapon, other);
  }

  /** ` killed `, then `other ` when `other` holds, then the victim and weapon text, together spell the killed part. */
  lemma KilledTextOccurs(s: string, n: nat, victim: string, victimSlot: string, weapon: string, other: bool)
    requires OccursAt(s, " killed ", n)
    requires other ==> OccursAt(s, "other ", n + 8)
    requires OccursAt(s, PlayerText(victim, victimSlot) + (" with " + Quoted(weapon)), if other then n + 14 else n + 8)
    ensures OccursAt(s, " killed " + VictimText(victim, victimSlot, weapon, other), n)
  {
    if other {
      OccursConcat(s, "other ", PlayerText(victim, victimSlot) + (" with " + Quoted(weapon)), n + 8);
    }
    OccursConcat(s, " killed ", VictimText(victim, victimSlot, weapon, other), n);
  }

  /**
   * What the kill recogniser reports at `i` is a kill event written there:
   * `"K" [S] killed `, optionally `other `, `"V" [T] with "W"`, with the
   * reported K, V and W.
   */
  lemma KillAtSound(s: string, i: nat)
    requires KillAt(s, i).Some?
    ensures var k := KillAt(s, i).value;
            QuotedField(k.killer) && QuotedField(k.victim) && QuotedField(k.weapon)
            && exists killerSlot: string, victimSlot: string, other: bool ::
                 BracketedField(killerSlot) && BracketedField(victimSlot)
                 && OccursAt(s, KillText(k.killer, killerSlot, k.victim, victimSlot, k.weapon, other), i)
  {
    var killer := PlayerAt(s, i).value;
    var killerSlot := PlayerAtSound(s, i);
    var victimSlot, other := KillAfterKillerSound(s, killer);
    var k := KillAt(s, i).value;
    KillTextOccurs(s, i, k.killer, killerSlot, k.victim, victimSlot, k.weapon, other);
  }

  /**
   * A kill the parser accepts comes from a line mentioning `killed`, has a
   * victim that is not a prop, and is the leftmost match in the line; by
   * `KillAtSound` that match is a kill event written at that position.
   */
  lemma AcceptedKillSound(line: string)
    requires AcceptedKill(line).Some?
    ensures var k := AcceptedKill(line).value;
            Contains(line, "killed") && !IsPropVictim(k.victim)
            && exists i: nat :: KillAt(line, i) == Some(k) && forall j: nat :: j < i ==> KillAt(line, j).None?
  {
    AcceptedKillSpec(line);
    MatchKillLeftmost(line);
  }

  /** The killer's player part followed by the killed part spell the whole kill event. */
  lemma KillTextOccurs(s: string, i: nat, killer: string, killerSlot: string,
                       victim: string, victimSlot: string, weapon: string, other: bool)
    requires OccursAt(s, PlayerText(killer, killerSlot), i)
    requires OccursAt(s, " killed " + VictimText(victim, victimSlot, weapon, other), i + |PlayerText(killer, killerSlot)|)
    ensures OccursAt(s, KillText(killer, killerSlot, victim, victimSlot, weapon, other), i)
  {
    OccursConcat(s, PlayerText(killer, killerSlot), " killed " + VictimText(victim, victimSlot, weapon, other), i);
  }

  // ---------------------------------------------------------------------
  // extractPlayerAndTeam
  // ---------------------------------------------------------------------

  datatype PlayerTeam = PlayerTeam(player: string, team: Option<Team>)

  function TagOf(t: Team): string {
    "<" + t.Label() + ">"
  }

  /** The team token `<(TERRORIST|CT)>` matched at `i`. */
  function TeamTagAt(s: string, i: nat): Option<Team> {
    if OccursAt(s, TagOf(TERRORIST), i) then Some(TERRORIST)
    else if OccursAt(s, TagOf(CT), i) then Some(CT)
    else None
  }

  /** The leftmost team token at or after `i`. */
  function TagFrom(rawName: string, i: nat): Option<nat>
    decreases |rawName| + 1 - i
  {
    if i > |rawName| then None
    else if TeamTagAt(rawName, i).Some? then Some(i)
    else TagFrom(rawName, i + 1)
  }

  lemma {:induction false} TagFromFinds(rawName: string, i: nat)
    decreases |rawName| + 1 - i
    ensures var r := TagFrom(rawName, i);
            (r.Some? ==> i <= r.value && TeamTagAt(rawName, r.value).Some?
                         && forall j: nat :: i <= j < r.value ==> TeamTagAt(rawName, j).None?)
            && (r.None? ==> forall j: nat :: i <= j ==> TeamTagAt(rawName, j).None?)
  {
    if i <= |rawName| && TeamTagAt(rawName, i).None? {
      TagFromFinds(rawName, i + 1);
    }
  }

  /**
   * `extractPlayerAndTeam`: the team of the leftmost team token, and the
   * leading run of characters other than `<` (the whole name when there is none).
   */
  function ExtractPlayerAndTeam(rawName: string): PlayerTeam {
    var team := match TagFrom(rawName, 0)
                case Some(i) => TeamTagAt(rawName, i)
                case None => None;
    IndexOfFinds(rawName, "<");
    var player :=
      if rawName != "" && rawName[0] != '<' then
        match IndexOf(rawName, "<")
        case Some(i) => rawName[..i]
        case None => rawName
      else rawName;
    PlayerTeam(player, team)
  }

  /** The team is that of the leftmost team token; there is none only when neither token occurs. */
  lemma ExtractTeam(rawName: string)
    ensures var r := ExtractPlayerAndTeam(rawName);
            (r.team.Some? ==> exists i: nat :: TeamTagAt(rawName, i) == r.team
                                               && forall j: nat :: j < i ==> TeamTagAt(rawName, j).None?)
            && (r.team.None? ==> !Contains(rawName, TagOf(CT)) && !Contains(rawName, TagOf(TERRORIST)))
  {
    TagFromFinds(rawName, 0);
    if ExtractPlayerAndTeam(rawName).team.None? {
      forall j: nat ensures !OccursAt(rawName, TagOf(CT), j) && !OccursAt(rawName, TagOf(TERRORIST), j) {
        assert TeamTagAt(rawName, j).None?;
      }
      ContainsIff(rawName, TagOf(CT));
      ContainsIff(rawName, TagOf(TERRORIST));
    }
  }

  /**
   * The player is a prefix of the raw name: when the name starts with a
   * character other than `<`, the longest run without `<`; otherwise the
   * whole name.
   */
  lemma ExtractPlayer(rawName: string)
    ensures var r := ExtractPlayerAndTeam(rawName);
            StartsWith(rawName, r.player)
            && (rawName != "" && rawName[0] != '<' ==>
                  r.player != "" && Lacks(r.player, '<') && (|r.player| == |rawName| || rawName[|r.player|] == '<'))
            && ((rawName == "" || rawName[0] == '<') ==> r.player == rawName)
  {
    IndexOfFinds(rawName, "<");
    if rawName != "" && rawName[0] != '<' {
      match IndexOf(rawName, "<")
      case Some(i) =>
        assert rawName[i..i + 1] == "<";
        forall k | 0 <= k < i ensures rawName[..i][k] != '<' {
          assert !OccursAt(rawName, "<", k);
          assert rawName[k..k + 1] == [rawName[k]];
        }
      case None =>
        forall k | 0 <= k < |rawName| ensures rawName[k] != '<' {
          assert !OccursAt(rawName, "<", k);
          assert rawName[k..k + 1] == [rawName[k]];
        }
    }
  }
}
