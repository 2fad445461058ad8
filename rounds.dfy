/**
 * The round time of `parseMatchLog` stated without the scan: a reference
 * sum over the lines, and, for a log made of well-formed rounds (a
 * timestamped `Round_Start`, lines of play, a timestamped `Round_End`), the
 * average round length as the mean of the rounds' durations.
 */
module RoundTiming {
  import opened Wrappers
  import opened Strings
  import opened Timestamp
  import opened LogPatterns
  import opened MatchLog
  import opened MatchLogFacts

  // ---------------------------------------------------------------------
  // Reference definitions over lines
  // ---------------------------------------------------------------------

  /** The normalised date of a line's timestamp, when it has one. */
  function StampOf(line: string): Option<IsoDate> {
    match TimestampOf(line)
    case Some(t) => ParseCustomTimestamp(t)
    case None => None
  }

  /** The line ends a round: it has the round-end marker and a timestamp that normalises. */
  predicate EndsRound(line: string) {
    Contains(line, RoundEndMarker) && StampOf(line).Some?
  }

  /** The recorded start after `line`: its own timestamp when it starts a round, otherwise `prev`. */
  function StartAfter(prev: Option<IsoDate>, line: string): Option<IsoDate> {
    if Contains(line, RoundStartMarker) && TimestampOf(line).Some? then StampOf(line) else prev
  }

  /** The seconds `line` adds: from the open start `started` to its timestamp, when it ends a round. */
  function ClosedSeconds(started: Option<IsoDate>, line: string): int {
    if EndsRound(line) && started.Some? then ElapsedSeconds(started.value, StampOf(line).value) else 0
  }

  /** The start time of the round open after `lines`: set by the latest timestamped round start, cleared by a round end. */
  function OpenStart(lines: seq<string>): Option<IsoDate>
    decreases |lines|
  {
    if |lines| == 0 then None
    else if EndsRound(lines[|lines| - 1]) then None
    else StartAfter(OpenStart(lines[..|lines| - 1]), lines[|lines| - 1])
  }

  /** The seconds of every round that a round end closes, from its open start to the end's timestamp. */
  function RoundTimeSum(lines: seq<string>): int
    decreases |lines|
  {
    if |lines| == 0 then 0
    else
      var init, line := lines[..|lines| - 1], lines[|lines| - 1];
      RoundTimeSum(init) + ClosedSeconds(StartAfter(OpenStart(init), line), line)
  }

  /** The scan's recorded start and total round time are the reference definitions. */
  lemma {:induction false} ScanRoundTime(lines: seq<string>)
    decreases |lines|
    ensures Scan(lines).roundStartTime == OpenStart(lines)
    ensures Scan(lines).totalRoundTime == RoundTimeSum(lines)
  {
    if |lines| > 0 {
      var init, line := lines[..|lines| - 1], lines[|lines| - 1];
      ScanRoundTime(init);
      StepFields(Scan(init), line);
    }
  }

  /** The average round length is the reference round time over the number of round starts. */
  lemma ReportRoundTime(lines: seq<string>)
    ensures var w := Window(lines);
            Report(lines).averageRoundLength == AverageRoundLength(RoundTimeSum(w), LinesWith(w, RoundStartMarker))
  {
    ScanRoundTime(Window(lines));
    ScanRoundCount(Window(lines));
  }

  // ---------------------------------------------------------------------
  // Logs made of whole rounds
  // ---------------------------------------------------------------------

  /**
   * One round as it appears in the log: its start line, the lines during
   * play, its end line, and the lines after it (freeze time, buying, the
   * end of the game) up to the next round's start.
   */
  datatype RoundBlock = RoundBlock(start: string, play: seq<string>, end: string, after: seq<string>)

  /** A line with neither round marker. */
  predicate Quiet(line: string) {
    !Contains(line, RoundStartMarker) && !Contains(line, RoundEndMarker)
  }

  predicate AllQuiet(lines: seq<string>) {
    forall k :: 0 <= k < |lines| ==> Quiet(lines[k])
  }

  /** A timestamped start, quiet play, a timestamped end, quiet lines after; neither end line carries the other marker. */
  predicate WellFormed(b: RoundBlock) {
    Contains(b.start, RoundStartMarker) && !Contains(b.start, RoundEndMarker) && StampOf(b.start).Some?
    && AllQuiet(b.play)
    && Contains(b.end, RoundEndMarker) && !Contains(b.end, RoundStartMarker) && StampOf(b.end).Some?
    && AllQuiet(b.after)
  }

  predicate AllWellFormed(blocks: seq<RoundBlock>) {
    forall k :: 0 <= k < |blocks| ==> WellFormed(blocks[k])
  }

  function BlockText(b: RoundBlock): seq<string> {
    [b.start] + b.play + [b.end] + b.after
  }

  /** The lines of the rounds, one after another. */
  function BlockLines(blocks: seq<RoundBlock>): seq<string>
    decreases |blocks|
  {
    if |blocks| == 0 then [] else BlockLines(blocks[..|blocks| - 1]) + BlockText(blocks[|blocks| - 1])
  }

  /** The length of one round, from its start's timestamp to its end's. */
  function Duration(b: RoundBlock): int
    requires WellFormed(b)
  {
    ElapsedSeconds(StampOf(b.start).value, StampOf(b.end).value)
  }

  /** The rounds' durations added up. */
  function BlockTime(blocks: seq<RoundBlock>): int
    requires AllWellFormed(blocks)
    decreases |blocks|
  {
    if |blocks| == 0 then 0 else BlockTime(blocks[..|blocks| - 1]) + Duration(blocks[|blocks| - 1])
  }

  /** The reference definitions take one step for one more line. */
  lemma RoundsAppend(lines: seq<string>, line: string)
    ensures OpenStart(lines + [line]) == if EndsRound(line) then None else StartAfter(OpenStart(lines), line)
    ensures RoundTimeSum(lines + [line]) == RoundTimeSum(lines) + ClosedSeconds(StartAfter(OpenStart(lines), line), line)
    ensures LinesWith(lines + [line], RoundStartMarker) == LinesWith(lines, RoundStartMarker) + (if Contains(line, RoundStartMarker) then 1 else 0)
  {
    assert (lines + [line])[..|lines|] == lines;
  }

  /** A timestamped round-start line opens a round at its timestamp. */
  lemma StartLine(lines: seq<string>, line: string)
    requires Contains(line, RoundStartMarker) && !Contains(line, RoundEndMarker) && StampOf(line).Some?
    ensures OpenStart(lines + [line]) == StampOf(line)
    ensures RoundTimeSum(lines + [line]) == RoundTimeSum(lines)
    ensures LinesWith(lines + [line], RoundStartMarker) == LinesWith(lines, RoundStartMarker) + 1
  {
    RoundsAppend(lines, line);
  }

  /** A timestamped round-end line closes the open round and adds its seconds. */
  lemma EndLine(lines: seq<string>, line: string)
    requires Contains(line, RoundEndMarker) && !Contains(line, RoundStartMarker) && StampOf(line).Some?
    requires OpenStart(lines).Some?
    ensures OpenStart(lines + [line]).None?
    ensures RoundTimeSum(lines + [line]) == RoundTimeSum(lines) + ElapsedSeconds(OpenStart(lines).value, StampOf(line).value)
    ensures LinesWith(lines + [line], RoundStartMarker) == LinesWith(lines, RoundStartMarker)
  {
    RoundsAppend(lines, line);
  }

  /** Quiet lines change neither the open start, the round time nor the number of round starts. */
  lemma {:induction false} QuietLines(lines: seq<string>, extra: seq<string>)
    requires AllQuiet(extra)
    decreases |extra|
    ensures OpenStart(lines + extra) == OpenStart(lines)
    ensures RoundTimeSum(lines + extra) == RoundTimeSum(lines)
    ensures LinesWith(lines + extra, RoundStartMarker) == LinesWith(lines, RoundStartMarker)
  {
    if |extra| == 0 {
      assert lines + extra == lines;
    } else {
      var init := extra[..|extra| - 1];
      QuietLines(lines, init);
      assert extra == init + [extra[|extra| - 1]];
      AppendAssoc(lines, init, [extra[|extra| - 1]]);
      RoundsAppend(lines + init, extra[|extra| - 1]);
    }
  }

  lemma AppendAssoc(a: seq<string>, b: seq<string>, c: seq<string>)
    ensures a + (b + c) == (a + b) + c
  {
  }

  lemma BlockTextAfter(lines: seq<string>, b: RoundBlock)
    ensures lines + BlockText(b) == (((lines + [b.start]) + b.play) + [b.end]) + b.after
  {
    AppendAssoc(lines, [b.start] + b.play + [b.end], b.after);
    AppendAssoc(lines, [b.start] + b.play, [b.end]);
    AppendAssoc(lines, [b.start], b.play);
  }

  /** A well-formed round adds its duration and one round start, and leaves no round open, whatever round was open before it. */
  lemma RoundStep(lines: seq<string>, b: RoundBlock)
    requires WellFormed(b)
    ensures OpenStart(lines + BlockText(b)).None?
    ensures RoundTimeSum(lines + BlockText(b)) == RoundTimeSum(lines) + Duration(b)
    ensures LinesWith(lines + BlockText(b), RoundStartMarker) == LinesWith(lines, RoundStartMarker) + 1
  {
    var begun := lines + [b.start];
    StartLine(lines, b.start);
    QuietLines(begun, b.play);
    EndLine(begun + b.play, b.end);
    QuietLines(begun + b.play + [b.end], b.after);
    BlockTextAfter(lines, b);
  }

  /** Quiet lines followed by whole rounds, each with quiet lines after it: the round time is the rounds' durations, one start per round. */
  lemma {:induction false} BlocksFold(pre: seq<string>, blocks: seq<RoundBlock>)
    requires AllQuiet(pre) && AllWellFormed(blocks)
    decreases |blocks|
    ensures OpenStart(pre + BlockLines(blocks)).None?
    ensures RoundTimeSum(pre + BlockLines(blocks)) == BlockTime(blocks)
    ensures LinesWith(pre + BlockLines(blocks), RoundStartMarker) == |blocks|
  {
    if |blocks| == 0 {
      QuietLines([], pre);
      assert [] + pre == pre + BlockLines(blocks);
    } else {
      var init, b := blocks[..|blocks| - 1], blocks[|blocks| - 1];
      assert AllWellFormed(init) by {
        forall k | 0 <= k < |init| ensures WellFormed(init[k]) {
          assert init[k] == blocks[k];
        }
      }
      BlocksFold(pre, init);
      RoundStep(pre + BlockLines(init), b);
      AppendAssoc(pre, BlockLines(init), BlockText(b));
    }
  }

  /**
   * When the lines after the last match start are quiet lines followed by
   * whole rounds, each followed by any number of quiet lines, the average
   * round length is the mean of the rounds' durations (0 with no round).
   */
  lemma AverageOfRounds(lines: seq<string>, pre: seq<string>, blocks: seq<RoundBlock>)
    requires Window(lines) == pre + BlockLines(blocks)
    requires AllQuiet(pre) && AllWellFormed(blocks)
    ensures Report(lines).averageRoundLength
            == if |blocks| == 0 then 0.0 else BlockTime(blocks) as real / |blocks| as real
  {
    ReportRoundTime(lines);
    BlocksFold(pre, blocks);
  }
}
