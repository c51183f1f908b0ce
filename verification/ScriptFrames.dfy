/** What the answers of parseP2pScriptMachineOutput (shared/p2p-workflow-script.ts:108-180) say about the
    lines of the output: which line each frame and each problem comes from, what one more line adds, and
    what truncation keeps. */
module ScriptFrames {
  import opened Wrappers
  import opened Text
  import opened Utf8
  import opened ScriptOutput

  // ---------------------------------------------------------------- every line is a frame or a problem

  /** The line fits under the cap, is JSON, and is a valid frame. */
  predicate IsFrame<J>(reader: Reader<J>, maxFrame: nat, line: string) {
    ByteLength(line) <= maxFrame && reader.parse(line).Some? && reader.valid(reader.parse(line).value)
  }

  /** The reason why a line that is no frame is none, with its number. */
  predicate Blames<J>(reader: Reader<J>, maxFrame: nat, line: string, number: nat, p: Problem) {
    match p
    case LineTooLong(n) => n == number && ByteLength(line) > maxFrame
    case NotJson(n) => n == number && ByteLength(line) <= maxFrame && reader.parse(line).None?
    case NotFrame(n) =>
      n == number && ByteLength(line) <= maxFrame && reader.parse(line).Some? && !reader.valid(reader.parse(line).value)
    case _ => false
  }

  /** The places of the lines that are frames, or of those that are not, in order. */
  ghost function Places<J>(reader: Reader<J>, maxFrame: nat, lines: seq<string>, good: bool): seq<nat> {
    if lines == [] then []
    else
      var last := |lines| - 1;
      Places(reader, maxFrame, lines[..last], good) + if IsFrame(reader, maxFrame, lines[last]) == good then [last] else []
  }

  ghost predicate Rising(s: seq<nat>, end: nat) {
    (forall k :: 0 <= k < |s| ==> s[k] < end) && forall j, k :: 0 <= j < k < |s| ==> s[j] < s[k]
  }

  lemma {:induction false} PlacesAre<J>(reader: Reader<J>, maxFrame: nat, lines: seq<string>, good: bool)
    ensures Rising(Places(reader, maxFrame, lines, good), |lines|)
    ensures forall i :: 0 <= i < |lines| ==> (i in Places(reader, maxFrame, lines, good) <==> IsFrame(reader, maxFrame, lines[i]) == good)
  {
    if lines != [] {
      var last := |lines| - 1;
      PlacesAre(reader, maxFrame, lines[..last], good);
      forall i | 0 <= i < last ensures lines[..last][i] == lines[i] {
      }
      OneMorePlace(Places(reader, maxFrame, lines[..last], good), last);
    }
  }

  lemma {:induction false} OneMorePlace(s: seq<nat>, last: nat)
    requires Rising(s, last)
    ensures Rising(s, last + 1) && Rising(s + [last], last + 1) && last !in s
  {
  }

  /** The frames are what the reader makes of the good lines. */
  ghost predicate FramesFrom<J>(reader: Reader<J>, lines: seq<string>, frames: seq<J>, places: seq<nat>) {
    |frames| == |places|
    && forall k :: 0 <= k < |places| ==> places[k] < |lines| && reader.parse(lines[places[k]]) == Some(frames[k])
  }

  /** The problems blame the other lines, each under its number. */
  ghost predicate ProblemsFrom<J>(reader: Reader<J>, maxFrame: nat, lines: seq<string>, problems: seq<Problem>, places: seq<nat>) {
    |problems| == |places|
    && forall k :: 0 <= k < |places| ==>
                     places[k] < |lines| && Blames(reader, maxFrame, lines[places[k]], places[k] + 1, problems[k])
  }

  lemma {:induction false} FrameIff<J>(reader: Reader<J>, maxFrame: nat, line: string, number: nat)
    ensures Frame(reader, maxFrame, line).Some? <==> IsFrame(reader, maxFrame, line)
    ensures IsFrame(reader, maxFrame, line) ==> reader.parse(line) == Frame(reader, maxFrame, line)
    ensures !IsFrame(reader, maxFrame, line) ==> Blames(reader, maxFrame, line, number, LineProblem(reader, maxFrame, line, number))
  {
  }

  lemma {:induction false} LinesAccounted<J>(reader: Reader<J>, maxFrame: nat, lines: seq<string>)
    ensures FramesFrom(reader, lines, Frames(reader, maxFrame, lines), Places(reader, maxFrame, lines, true))
    ensures ProblemsFrom(reader, maxFrame, lines, Problems(reader, maxFrame, lines, 1), Places(reader, maxFrame, lines, false))
  {
    if lines != [] {
      var last := |lines| - 1;
      LinesAccounted(reader, maxFrame, lines[..last]);
      NextLine(reader, maxFrame, lines, last);
      assert lines[..last + 1] == lines;
      FrameIff(reader, maxFrame, lines[last], last + 1);
      FramesStay(reader, lines, Frames(reader, maxFrame, lines[..last]), Places(reader, maxFrame, lines[..last], true), last);
      ProblemsStay(reader, maxFrame, lines, Problems(reader, maxFrame, lines[..last], 1), Places(reader, maxFrame, lines[..last], false), last);
    }
  }

  lemma {:induction false} FramesStay<J>(reader: Reader<J>, lines: seq<string>, frames: seq<J>, places: seq<nat>, last: nat)
    requires last < |lines| && FramesFrom(reader, lines[..last], frames, places)
    ensures FramesFrom(reader, lines, frames, places)
    ensures forall f :: reader.parse(lines[last]) == Some(f) ==> FramesFrom(reader, lines, frames + [f], places + [last])
  {
  }

  lemma {:induction false} ProblemsStay<J>(reader: Reader<J>, maxFrame: nat, lines: seq<string>, problems: seq<Problem>, places: seq<nat>, last: nat)
    requires last < |lines| && ProblemsFrom(reader, maxFrame, lines[..last], problems, places)
    ensures ProblemsFrom(reader, maxFrame, lines, problems, places)
    ensures forall p :: Blames(reader, maxFrame, lines[last], last + 1, p) ==> ProblemsFrom(reader, maxFrame, lines, problems + [p], places + [last])
  {
  }

  /** The problems of an answer, the one about truncation aside. */
  function LineProblems<J>(r: Outcome<J>): seq<Problem> {
    if r.truncated && r.problems != [] then r.problems[1..] else r.problems
  }

  /** A parsed answer tells where every frame comes from and blames every other line, in order; the last
      frame is final. */
  lemma {:induction false} AnswerAccounts<J>(reader: Reader<J>, mode: Mode, maxTotal: nat, maxFrame: nat, input: string)
    ensures var r, lines := Answer(reader, mode, maxTotal, maxFrame, input), Lines(ParseInput(input, maxTotal));
            r.Parsed? ==>
              && FramesFrom(reader, lines, r.frames, Places(reader, maxFrame, lines, true))
              && ProblemsFrom(reader, maxFrame, lines, LineProblems(r), Places(reader, maxFrame, lines, false))
              && (r.truncated ==> r.problems != [] && r.problems[0] == Truncated)
              && r.frames != [] && r.final == r.frames[|r.frames| - 1]
  {
    LinesAccounted(reader, maxFrame, Lines(ParseInput(input, maxTotal)));
    AnswerEnds(reader, mode, maxTotal, maxFrame, input);
    AnswerParts(reader, mode, maxTotal, maxFrame, input, Lines(ParseInput(input, maxTotal)));
  }

  lemma {:induction false} AnswerParts<J>(reader: Reader<J>, mode: Mode, maxTotal: nat, maxFrame: nat, input: string, lines: seq<string>)
    requires lines == Lines(ParseInput(input, maxTotal))
    ensures var r := Answer(reader, mode, maxTotal, maxFrame, input);
            r.Parsed? ==>
              && r.frames == Frames(reader, maxFrame, lines) && LineProblems(r) == Problems(reader, maxFrame, lines, 1)
              && (r.truncated ==> r.problems != [] && r.problems[0] == Truncated)
  {
    var r := Answer(reader, mode, maxTotal, maxFrame, input);
    if r.Parsed? {
      TailOfOne(Truncated, Problems(reader, maxFrame, lines, 1));
    }
  }

  lemma {:induction false} TailOfOne<T>(x: T, s: seq<T>)
    ensures ([x] + s)[1..] == s && [] + s == s
  {
  }

  /** An answer is refused exactly when strict mode meets an overlong output or a line that is no frame, or
      when no line is one. */
  lemma {:induction false} RefusedIff<J>(reader: Reader<J>, mode: Mode, maxTotal: nat, maxFrame: nat, input: string)
    ensures var lines := Lines(ParseInput(input, maxTotal));
            Answer(reader, mode, maxTotal, maxFrame, input).Refused?
            <==> || (mode.Strict? && (ByteLength(input) > maxTotal || exists i :: 0 <= i < |lines| && !IsFrame(reader, maxFrame, lines[i])))
                 || forall i :: 0 <= i < |lines| ==> !IsFrame(reader, maxFrame, lines[i])
  {
    var lines := Lines(ParseInput(input, maxTotal));
    LinesAccounted(reader, maxFrame, lines);
    NoneThere(reader, maxFrame, lines, true);
    NoneThere(reader, maxFrame, lines, false);
  }

  lemma {:induction false} NoneThere<J>(reader: Reader<J>, maxFrame: nat, lines: seq<string>, good: bool)
    ensures Places(reader, maxFrame, lines, good) == [] <==> forall i :: 0 <= i < |lines| ==> IsFrame(reader, maxFrame, lines[i]) != good
  {
    var places := Places(reader, maxFrame, lines, good);
    PlacesAre(reader, maxFrame, lines, good);
    if places != [] {
      assert places[0] in places;
    }
  }

  // ---------------------------------------------------------------- one more line

  lemma {:induction false} OneMoreLine(input: string, line: string)
    requires Terminated(input) && '\n' !in line && !Blank(ChopReturn(line))
    ensures Lines(input + (line + "\n")) == Lines(input) + [ChopReturn(line)]
  {
    SplitConcat(input, line + "\n");
    LineThenNewline(line);
    NonBlankAppend(SplitLines(input), ChopReturn(line));
  }

  lemma {:induction false} LineThenNewline(line: string)
    requires '\n' !in line
    ensures SplitLines(line + "\n") == [ChopReturn(line), ""]
  {
    NewlineAfter(line, "\n");
    FirstLineIs(line + "\n", line, "");
  }

  lemma {:induction false} NewlineAfter(line: string, rest: string)
    requires '\n' !in line && rest == "\n"
    ensures LineEnd(line + rest) == |line| && (line + rest)[..|line|] == line && (line + rest)[|line| + 1..] == ""
  {
    if line != "" {
      assert line[0] in line && (line + rest)[1..] == line[1..] + rest;
      NewlineAfter(line[1..], rest);
    }
  }

  lemma {:induction false} NonBlankAppend(lines: seq<string>, line: string)
    requires lines != [] && lines[|lines| - 1] == "" && !Blank(line)
    ensures NonBlank(lines[..|lines| - 1] + [line, ""]) == NonBlank(lines) + [line]
  {
    var init := lines[..|lines| - 1];
    assert lines == init + [""];
    NonBlankConcat(init, [""]);
    NonBlankConcat(init, [line, ""]);
    EmptyIsDropped([""]);
    LineIsKept(line, [line, ""]);
    assert NonBlank(init) + [] == NonBlank(init);
  }

  lemma {:induction false} LineIsKept(line: string, two: seq<string>)
    requires |two| == 2 && two[0] == line && two[1] == "" && !Blank(line)
    ensures NonBlank(two) == [line]
  {
    EmptyIsDropped(two[1..]);
  }

  /** One more frame line, under the caps, adds its frame and makes it final; nothing else changes. */
  lemma {:induction false} LastFrameWins<J>(reader: Reader<J>, mode: Mode, maxTotal: nat, maxFrame: nat, input: string, line: string)
    requires Terminated(input) && '\n' !in line && !Blank(ChopReturn(line)) && IsFrame(reader, maxFrame, ChopReturn(line))
    requires ByteLength(input) <= maxTotal && ByteLength(input + (line + "\n")) <= maxTotal
    requires Answer(reader, mode, maxTotal, maxFrame, input).Parsed?
    ensures var r, frame := Answer(reader, mode, maxTotal, maxFrame, input), reader.parse(ChopReturn(line)).value;
            Answer(reader, mode, maxTotal, maxFrame, input + (line + "\n")) == Parsed(r.frames + [frame], frame, r.problems, false)
  {
    OneMoreLine(input, line);
    FrameAdds(reader, maxFrame, Lines(input), ChopReturn(line));
  }

  lemma {:induction false} FrameAdds<J>(reader: Reader<J>, maxFrame: nat, lines: seq<string>, line: string)
    requires IsFrame(reader, maxFrame, line)
    ensures Frames(reader, maxFrame, lines + [line]) == Frames(reader, maxFrame, lines) + [reader.parse(line).value]
    ensures Problems(reader, maxFrame, lines + [line], 1) == Problems(reader, maxFrame, lines, 1)
  {
    var more := lines + [line];
    NextLine(reader, maxFrame, more, |lines|);
    assert more[..|lines|] == lines && more[..|lines| + 1] == more;
    assert Problems(reader, maxFrame, lines, 1) + [] == Problems(reader, maxFrame, lines, 1);
  }

  // ---------------------------------------------------------------- truncation keeps what fits

  lemma {:induction false} PrefixFits(s: string, max: nat, n: nat)
    requires n <= |s| && ByteLength(s[..n]) <= max
    ensures n <= WholeChars(s, max)
  {
    if n > 0 {
      assert s[..n][0] == s[0] && s[..n][1..] == s[1..][..n - 1];
      PrefixFits(s[1..], max - Width(s[0]), n - 1);
    }
  }

  lemma {:induction false} DropKeepsTerminated(p: string, t: string)
    requires p <= t && Terminated(p)
    ensures p <= DropReplacements(t)
    decreases |t|
  {
    if t != "" && t[|t| - 1] == REPLACEMENT {
      assert |p| < |t| || p == "";
      assert p <= t[..|t| - 1];
      DropKeepsTerminated(p, t[..|t| - 1]);
    }
  }

  lemma {:induction false} ThroughKeepsTerminated(p: string, t: string)
    requires p <= t && Terminated(p)
    ensures p <= ThroughLastNewline(t)
    decreases |t|
  {
    if t != "" && t[|t| - 1] != '\n' {
      assert |p| < |t| || p == "";
      assert p <= t[..|t| - 1];
      ThroughKeepsTerminated(p, t[..|t| - 1]);
    }
  }

  /** Without a byte order mark in front, an overlong output is cut to the longest piece from its start that
      ends in a newline and fits. */
  lemma {:induction false} LongestPieceIsKept(s: string, max: nat, p: string)
    requires ByteLength(s) > max && !StartsWithBom(s)
    ensures var kept := ParseInput(s, max); kept <= s && Terminated(kept) && ByteLength(kept) <= max
    ensures p <= s && Terminated(p) && ByteLength(p) <= max ==> p <= ParseInput(s, max)
  {
    SliceIsPrefix(s, max);
    PrefixIsShorter(Slice(s, max), ParseInput(s, max));
    if p <= s && Terminated(p) && ByteLength(p) <= max {
      assert s[..|p|] == p;
      PrefixFits(s, max, |p|);
      DropKeepsTerminated(p, s[..WholeChars(s, max)]);
      ThroughKeepsTerminated(p, Slice(s, max));
    }
  }
}
