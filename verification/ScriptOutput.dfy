/** parseP2pScriptMachineOutput (shared/p2p-workflow-script.ts:52-63 and 108-180): one JSON frame a
    line, a byte cap on the whole and on each line, a strict and a lenient mode. */
module ScriptOutput {
  import opened Wrappers
  import opened Text
  import opened Utf8

  /** JSON.parse on a line, and the frame and required-field checks on what it gives. */
  datatype Reader<!J> = Reader(parse: string -> Option<J>, valid: J -> bool)

  datatype Mode = Lenient | Strict
  datatype Problem = Truncated | TotalTooLong | NoFrames | LineTooLong(line: nat) | NotJson(line: nat) | NotFrame(line: nat)
  datatype Outcome<J> =
    | Parsed(frames: seq<J>, final: J, problems: seq<Problem>, truncated: bool)
    | Refused(problems: seq<Problem>, truncated: bool)

  // ---------------------------------------------------------------- truncation

  function DropReplacements(s: string): (r: string)
    ensures r <= s
    ensures r == "" || r[|r| - 1] != REPLACEMENT
  {
    if s != "" && s[|s| - 1] == REPLACEMENT then DropReplacements(s[..|s| - 1]) else s
  }

  function Slice(s: string, max: nat): string {
    if ByteLength(s) <= max then s else DropReplacements(TextDecode(Encode(s)[..max]))
  }

  method ByteSlice(s: string, max: nat) returns (r: string)
    ensures r == Slice(s, max)
  {
    var encoded := Encode(s);
    if |encoded| <= max {
      return s;
    }
    r := TextDecode(encoded[..max]);
    while r != "" && r[|r| - 1] == REPLACEMENT
      invariant DropReplacements(r) == Slice(s, max)
      decreases |r|
    {
      r := r[..|r| - 1];
    }
  }

  /** slice(0, lastIndexOf('\n') + 1) */
  function ThroughLastNewline(s: string): (r: string)
    ensures r <= s && Terminated(r)
    ensures '\n' !in s[|r|..]
  {
    if s == "" || s[|s| - 1] == '\n' then s
    else
      var r := ThroughLastNewline(s[..|s| - 1]);
      assert s[|r|..] == s[..|s| - 1][|r|..] + [s[|s| - 1]];
      r
  }

  function ParseInput(s: string, max: nat): string {
    if ByteLength(s) <= max then s else ThroughLastNewline(Slice(s, max))
  }

  // ---------------------------------------------------------------- frames

  function NonBlank(lines: seq<string>): (r: seq<string>)
    ensures |r| <= |lines|
  {
    if lines == [] then []
    else (if Blank(lines[0]) then [] else [lines[0]]) + NonBlank(lines[1..])
  }

  function Lines(s: string): seq<string> {
    NonBlank(SplitLines(s))
  }

  function Frame<J>(reader: Reader<J>, maxFrame: nat, line: string): Option<J> {
    if ByteLength(line) > maxFrame then None
    else
      var parsed := reader.parse(line);
      if parsed.Some? && reader.valid(parsed.value) then parsed else None
  }

  function Frames<J>(reader: Reader<J>, maxFrame: nat, lines: seq<string>): (r: seq<J>)
    ensures |r| <= |lines|
  {
    if lines == [] then []
    else
      var f := Frame(reader, maxFrame, lines[0]);
      (if f.Some? then [f.value] else []) + Frames(reader, maxFrame, lines[1..])
  }

  function LineProblem<J>(reader: Reader<J>, maxFrame: nat, line: string, number: nat): Problem {
    if ByteLength(line) > maxFrame then LineTooLong(number)
    else if reader.parse(line).None? then NotJson(number)
    else NotFrame(number)
  }

  /** One problem for each line that is not a frame, in order. */
  function Problems<J>(reader: Reader<J>, maxFrame: nat, lines: seq<string>, first: nat): (r: seq<Problem>)
    ensures r == [] ==> |Frames(reader, maxFrame, lines)| == |lines|
    ensures r != [] ==> |Frames(reader, maxFrame, lines)| < |lines|
  {
    if lines == [] then []
    else
      (if Frame(reader, maxFrame, lines[0]).Some? then [] else [LineProblem(reader, maxFrame, lines[0], first)])
      + Problems(reader, maxFrame, lines[1..], first + 1)
  }

  /** What the parser answers. */
  function Answer<J>(reader: Reader<J>, mode: Mode, maxTotal: nat, maxFrame: nat, input: string): Outcome<J> {
    var truncated := ByteLength(input) > maxTotal;
    if mode.Strict? && truncated then Refused([TotalTooLong], false)
    else
      var lines := Lines(ParseInput(input, maxTotal));
      Conclude(mode, truncated, Frames(reader, maxFrame, lines), Problems(reader, maxFrame, lines, 1))
  }

  function Conclude<J>(mode: Mode, truncated: bool, frames: seq<J>, problems: seq<Problem>): Outcome<J> {
    if mode.Strict? && problems != [] then Refused([problems[0]], false)
    else if frames == [] then Refused([NoFrames], truncated)
    else Parsed(frames, frames[|frames| - 1], (if truncated then [Truncated] else []) + problems, truncated)
  }

  lemma {:induction false} FramesConcat<J>(reader: Reader<J>, maxFrame: nat, s: seq<string>, t: seq<string>)
    ensures Frames(reader, maxFrame, s + t) == Frames(reader, maxFrame, s) + Frames(reader, maxFrame, t)
  {
    if s == [] {
      assert s + t == t;
    } else {
      assert (s + t)[1..] == s[1..] + t;
      FramesConcat(reader, maxFrame, s[1..], t);
    }
  }

  lemma {:induction false} ProblemsConcat<J>(reader: Reader<J>, maxFrame: nat, s: seq<string>, t: seq<string>, first: nat)
    ensures Problems(reader, maxFrame, s + t, first) == Problems(reader, maxFrame, s, first) + Problems(reader, maxFrame, t, first + |s|)
  {
    if s == [] {
      assert s + t == t;
    } else {
      assert (s + t)[1..] == s[1..] + t;
      ProblemsConcat(reader, maxFrame, s[1..], t, first + 1);
    }
  }

  lemma {:induction false} NextLine<J>(reader: Reader<J>, maxFrame: nat, lines: seq<string>, i: nat)
    requires i < |lines|
    ensures var frame := Frame(reader, maxFrame, lines[i]);
            && Frames(reader, maxFrame, lines[..i + 1])
               == Frames(reader, maxFrame, lines[..i]) + (if frame.Some? then [frame.value] else [])
            && Problems(reader, maxFrame, lines[..i + 1], 1)
               == Problems(reader, maxFrame, lines[..i], 1)
                  + (if frame.Some? then [] else [LineProblem(reader, maxFrame, lines[i], i + 1)])
  {
    assert lines[..i + 1] == lines[..i] + [lines[i]];
    FramesConcat(reader, maxFrame, lines[..i], [lines[i]]);
    ProblemsConcat(reader, maxFrame, lines[..i], [lines[i]], 1);
  }

  lemma {:induction false} EarlierProblemsStay<J>(reader: Reader<J>, maxFrame: nat, lines: seq<string>, i: nat)
    requires i <= |lines|
    ensures Problems(reader, maxFrame, lines[..i], 1) <= Problems(reader, maxFrame, lines, 1)
  {
    assert lines[..i] + lines[i..] == lines;
    ProblemsConcat(reader, maxFrame, lines[..i], lines[i..], 1);
  }

  /** The line loop: strict mode stops at the first problem. */
  method ReadLines<J>(reader: Reader<J>, mode: Mode, maxFrame: nat, lines: seq<string>)
    returns (frames: seq<J>, problems: seq<Problem>)
    ensures mode.Lenient? || problems == [] ==>
              frames == Frames(reader, maxFrame, lines) && problems == Problems(reader, maxFrame, lines, 1)
    ensures mode.Strict? && problems != [] ==>
              Problems(reader, maxFrame, lines, 1) != [] && problems == [Problems(reader, maxFrame, lines, 1)[0]]
  {
    frames, problems := [], [];
    for i := 0 to |lines|
      invariant frames == Frames(reader, maxFrame, lines[..i])
      invariant problems == Problems(reader, maxFrame, lines[..i], 1)
      invariant mode.Strict? ==> problems == []
    {
      NextLine(reader, maxFrame, lines, i);
      var frame := Frame(reader, maxFrame, lines[i]);
      if frame.Some? {
        frames := frames + [frame.value];
      } else {
        problems := problems + [LineProblem(reader, maxFrame, lines[i], i + 1)];
        if mode.Strict? {
          EarlierProblemsStay(reader, maxFrame, lines, i + 1);
          return;
        }
      }
    }
    assert lines[..|lines|] == lines;
  }

  lemma {:induction false} AnswerEnds<J>(reader: Reader<J>, mode: Mode, maxTotal: nat, maxFrame: nat, input: string)
    ensures var r := Answer(reader, mode, maxTotal, maxFrame, input);
            && (r.Parsed? ==> r.frames != [] && r.final == r.frames[|r.frames| - 1])
            && (r.truncated <==> mode.Lenient? && ByteLength(input) > maxTotal)
            && (mode.Strict? && r.Parsed? ==> r.problems == [])
  {
    var lines := Lines(ParseInput(input, maxTotal));
    ConcludeEnds(mode, ByteLength(input) > maxTotal, Frames(reader, maxFrame, lines), Problems(reader, maxFrame, lines, 1));
  }

  lemma {:induction false} ConcludeEnds<J>(mode: Mode, truncated: bool, frames: seq<J>, problems: seq<Problem>)
    ensures var r := Conclude(mode, truncated, frames, problems);
            && (r.Parsed? ==> r.frames != [] && r.final == r.frames[|r.frames| - 1])
            && (mode.Strict? && !truncated ==> !r.truncated && (r.Parsed? ==> r.problems == []))
            && (mode.Lenient? ==> r.truncated == truncated)
  {
  }

  method Parse<J>(reader: Reader<J>, mode: Mode, maxTotal: nat, maxFrame: nat, input: string) returns (r: Outcome<J>)
    ensures r == Answer(reader, mode, maxTotal, maxFrame, input)
    ensures r.Parsed? ==> r.frames != [] && r.final == r.frames[|r.frames| - 1]
    ensures r.truncated <==> mode.Lenient? && ByteLength(input) > maxTotal
    ensures mode.Strict? && r.Parsed? ==> r.problems == []
  {
    AnswerEnds(reader, mode, maxTotal, maxFrame, input);
    var truncated, text := false, input;
    if ByteLength(input) > maxTotal {
      if mode.Strict? {
        return Refused([TotalTooLong], false);
      }
      var slice := ByteSlice(input, maxTotal);
      text, truncated := ThroughLastNewline(slice), true;
    }
    r := ParseLines(reader, mode, maxFrame, truncated, Lines(text));
  }

  method ParseLines<J>(reader: Reader<J>, mode: Mode, maxFrame: nat, truncated: bool, lines: seq<string>) returns (r: Outcome<J>)
    ensures r == Conclude(mode, truncated, Frames(reader, maxFrame, lines), Problems(reader, maxFrame, lines, 1))
  {
    var frames, problems := ReadLines(reader, mode, maxFrame, lines);
    if mode.Strict? && problems != [] {
      return Refused(problems, false);
    }
    if frames == [] {
      return Refused([NoFrames], truncated);
    }
    r := Parsed(frames, frames[|frames| - 1], (if truncated then [Truncated] else []) + problems, truncated);
  }

  /** Where strict mode succeeds, lenient mode gives the same answer, without a complaint; and
      strict mode succeeds exactly when lenient mode does so without a complaint. */
  lemma {:induction false} StrictIsCleanLenient<J>(reader: Reader<J>, maxTotal: nat, maxFrame: nat, input: string)
    ensures var strict := Answer(reader, Strict, maxTotal, maxFrame, input);
            var lenient := Answer(reader, Lenient, maxTotal, maxFrame, input);
            && (strict.Parsed? ==> strict == lenient && strict.problems == [] && !strict.truncated)
            && (strict.Parsed? <==> lenient.Parsed? && lenient.problems == [])
  {
  }

  // ---------------------------------------------------------------- smaller caps find a prefix

  predicate StartsWithBom(s: string) {
    s != "" && s[0] == BOM
  }

  /** What the decoder sees when it has to truncate: a leading byte order mark is gone. */
  function Body(s: string): string {
    if StartsWithBom(s) then s[1..] else s
  }

  /** How many characters of the body fit under the cap. */
  function Fit(s: string, max: nat): nat {
    if !StartsWithBom(s) then WholeChars(s, max)
    else if max < 3 then 0
    else WholeChars(s[1..], max - 3)
  }

  lemma {:induction false} DropShown(s: string, k: nat)
    ensures DropReplacements(Shown(s, k)) == DropReplacements(s[..WholeChars(s, k)])
  {
    var kept := s[..WholeChars(s, k)];
    if ByteLength(kept) < k {
      assert (kept + [REPLACEMENT])[..|kept|] == kept;
    } else {
      assert kept + [] == kept;
    }
  }

  /** byteSlice returns whole characters from the front of its input, at most max bytes of them. */
  lemma {:induction false} SliceIsPrefix(s: string, max: nat)
    requires ByteLength(s) > max
    ensures Fit(s, max) <= |Body(s)| && Slice(s, max) == DropReplacements(Body(s)[..Fit(s, max)])
    ensures !StartsWithBom(s) ==> Slice(s, max) <= s && ByteLength(Slice(s, max)) <= max
  {
    if !StartsWithBom(s) {
      NoBomNoSurprise(s, max);
      DecodeCut(s, max);
      DropShown(s, max);
      WholeCharsFit(s, max);
      PrefixIsShorter(s[..WholeChars(s, max)], Slice(s, max));
    } else {
      BomSlice(s, max);
    }
  }

  lemma {:induction false} PrefixIsShorter(s: string, p: string)
    requires p <= s
    ensures ByteLength(p) <= ByteLength(s)
  {
    assert s == p + s[|p|..];
    ByteLengthConcat(p, s[|p|..]);
  }

  lemma {:induction false} BomBytesDecode(s: string)
    requires StartsWithBom(s)
    ensures Encode(s) == [0xEF as byte, 0xBB as byte, 0xBF as byte] + Encode(s[1..])
  {
    assert EncodeChar(BOM) == [0xEF as byte, 0xBB as byte, 0xBF as byte];
  }

  /** A split byte order mark leaves nothing. */
  lemma {:induction false} SplitBom(cut: seq<byte>)
    requires |cut| < 3 && (cut != [] ==> cut[0] == 0xEF)
    ensures DropReplacements(TextDecode(cut)) == ""
  {
    if cut != [] {
      assert DecodeLossy(cut) == [REPLACEMENT];
      assert [REPLACEMENT][..0] == "";
    }
  }

  lemma {:induction false} SwallowedBom(cut: seq<byte>, rest: seq<byte>)
    requires cut == [0xEF as byte, 0xBB as byte, 0xBF as byte] + rest
    ensures TextDecode(cut) == DecodeLossy(rest)
  {
    assert cut[3..] == rest;
  }

  lemma {:induction false} BomSlice(s: string, max: nat)
    requires ByteLength(s) > max && StartsWithBom(s)
    ensures Fit(s, max) <= |Body(s)| && Slice(s, max) == DropReplacements(Body(s)[..Fit(s, max)])
  {
    BomBytesDecode(s);
    if max < 3 {
      SplitBom(Encode(s)[..max]);
      assert Slice(s, max) == "" && Body(s)[..Fit(s, max)] == "";
    } else {
      BomSliceLong(s, max);
    }
  }

  lemma {:induction false} BomCut(s: string, max: nat)
    requires ByteLength(s) > max >= 3 && StartsWithBom(s)
    ensures max - 3 <= ByteLength(s[1..])
    ensures Encode(s)[..max] == [0xEF as byte, 0xBB as byte, 0xBF as byte] + Encode(s[1..])[..max - 3]
  {
    BomBytesDecode(s);
  }

  lemma {:induction false} BomSliceLong(s: string, max: nat)
    requires ByteLength(s) > max >= 3 && StartsWithBom(s)
    ensures Slice(s, max) == DropReplacements(s[1..][..WholeChars(s[1..], max - 3)])
  {
    BomTextDecode(s, max);
    DropShown(s[1..], max - 3);
  }

  lemma {:induction false} BomTextDecode(s: string, max: nat)
    requires ByteLength(s) > max >= 3 && StartsWithBom(s)
    ensures TextDecode(Encode(s)[..max]) == Shown(s[1..], max - 3)
  {
    BomCut(s, max);
    SwallowedBom(Encode(s)[..max], Encode(s[1..])[..max - 3]);
    DecodeCut(s[1..], max - 3);
  }

  lemma {:induction false} WholeOnlyIfItFits(s: string, k: nat)
    ensures WholeChars(s, k) == |s| <==> ByteLength(s) <= k
  {
    if s != "" && Width(s[0]) <= k {
      WholeOnlyIfItFits(s[1..], k - Width(s[0]));
    }
  }

  lemma {:induction false} FitGrows(s: string, small: nat, large: nat)
    requires small <= large < ByteLength(s)
    ensures Fit(s, small) <= Fit(s, large) <= |Body(s)| && (Body(s) != "" ==> Fit(s, large) < |Body(s)|)
  {
    if !StartsWithBom(s) {
      WholeCharsGrow(s, small, large);
      WholeOnlyIfItFits(s, large);
    } else {
      BomBytesDecode(s);
      if small >= 3 {
        WholeCharsGrow(s[1..], small - 3, large - 3);
      }
      if large >= 3 {
        WholeOnlyIfItFits(s[1..], large - 3);
      }
    }
  }

  lemma {:induction false} DropGrows(s: string, t: string)
    requires s <= t
    ensures DropReplacements(s) <= DropReplacements(t)
    decreases |t|
  {
    if s != t && t[|t| - 1] == REPLACEMENT {
      assert s <= t[..|t| - 1];
      DropGrows(s, t[..|t| - 1]);
    }
  }

  lemma {:induction false} ThroughGrows(s: string, t: string)
    requires s <= t
    ensures ThroughLastNewline(s) <= ThroughLastNewline(t)
    decreases |t|
  {
    if s != t && t[|t| - 1] != '\n' {
      assert s <= t[..|t| - 1];
      ThroughGrows(s, t[..|t| - 1]);
    }
  }

  /** Under a larger cap the truncated input only grows. */
  lemma {:induction false} TruncatedInputsGrow(s: string, small: nat, large: nat)
    requires small <= large < ByteLength(s)
    ensures ParseInput(s, small) <= ParseInput(s, large) <= Body(s)
  {
    SliceIsPrefix(s, small);
    SliceIsPrefix(s, large);
    FitGrows(s, small, large);
    assert Body(s)[..Fit(s, small)] <= Body(s)[..Fit(s, large)];
    DropGrows(Body(s)[..Fit(s, small)], Body(s)[..Fit(s, large)]);
    ThroughGrows(Slice(s, small), Slice(s, large));
  }

  lemma {:induction false} NonBlankConcat(s: seq<string>, t: seq<string>)
    ensures NonBlank(s + t) == NonBlank(s) + NonBlank(t)
  {
    if s == [] {
      assert s + t == t;
    } else {
      assert (s + t)[1..] == s[1..] + t;
      NonBlankConcat(s[1..], t);
    }
  }

  /** No line is split: the lines of a terminated prefix come first in the whole. */
  lemma {:induction false} PrefixLines(p: string, s: string)
    requires Terminated(p) && p <= s
    ensures Lines(p) <= Lines(s)
  {
    var q := s[|p|..];
    assert s == p + q;
    SplitConcat(p, q);
    PrefixNonBlank(SplitLines(p), SplitLines(q));
  }

  lemma {:induction false} PrefixNonBlank(lines: seq<string>, more: seq<string>)
    requires lines != [] && lines[|lines| - 1] == ""
    ensures NonBlank(lines) <= NonBlank(lines[..|lines| - 1] + more)
  {
    var init := lines[..|lines| - 1];
    assert lines == init + [""];
    NonBlankConcat(init, [""]);
    NonBlankConcat(init, more);
    EmptyIsDropped([""]);
  }

  lemma {:induction false} EmptyIsDropped(lines: seq<string>)
    requires |lines| == 1 && lines[0] == ""
    ensures NonBlank(lines) == []
  {
    assert lines[1..] == [];
  }

  /** The one case where a smaller cap finds more: a byte order mark in front of a first line that
      has something in it and something after it.  Truncation swallows the mark, so the first line
      may become a frame that it is not in the whole input. */
  predicate BomTrouble(s: string) {
    StartsWithBom(s) && var t := s[1..]; LineEnd(t) + 1 < |t| && !Blank(t[..LineEnd(t)])
  }

  lemma {:induction false} LineEndAfter(c: char, t: string)
    requires c != '\n'
    ensures LineEnd([c] + t) == LineEnd(t) + 1
  {
    assert ([c] + t)[1..] == t;
  }

  lemma {:induction false} BomFirstLine(s: string)
    requires StartsWithBom(s) && LineEnd(s[1..]) < |s| - 1
    ensures var t, i := s[1..], LineEnd(s[1..]);
            && SplitLines(s) == [ChopReturn([BOM] + t[..i])] + SplitLines(t[i + 1..])
            && SplitLines(t) == [ChopReturn(t[..i])] + SplitLines(t[i + 1..])
  {
    var t, i := s[1..], LineEnd(s[1..]);
    assert s == [BOM] + t;
    LineEndAfter(BOM, t);
    FirstLineAt(t, i);
    BomCuts(s, i);
    FirstLineIs(s, [BOM] + t[..i], t[i + 1..]);
  }

  lemma {:induction false} BomCuts(s: string, i: nat)
    requires StartsWithBom(s) && i + 1 < |s|
    ensures s[..i + 1] == [BOM] + s[1..][..i] && s[i + 2..] == s[1..][i + 1..]
  {
  }

  lemma {:induction false} LastOccurs(p: string)
    ensures p == "" || p[|p| - 1] in p
  {
  }

  lemma {:induction false} NoEarlierLine(t: string, p: string)
    requires p <= t && Terminated(p) && (LineEnd(t) == |t| || |p| <= LineEnd(t))
    ensures p == ""
  {
    assert p == t[..LineEnd(t)][..|p|];
    LineEndIs(t);
    LastOccurs(p);
  }

  lemma {:induction false} BlankFirstLine(s: string)
    requires StartsWithBom(s) && LineEnd(s[1..]) < |s| - 1 && Blank(s[1..][..LineEnd(s[1..])])
    ensures Lines(s[1..]) == Lines(s)
  {
    BomFirstLine(s);
    SkipBlankLines(SplitLines(s), SplitLines(s[1..]));
  }

  lemma {:induction false} SkipBlankLines(a: seq<string>, b: seq<string>)
    requires a != [] && b != [] && Blank(a[0]) && Blank(b[0]) && a[1..] == b[1..]
    ensures NonBlank(a) == NonBlank(b)
  {
  }

  lemma {:induction false} LoneLineVanishes(s: string, small: nat)
    requires small < ByteLength(s) && StartsWithBom(s) && LineEnd(s[1..]) + 1 >= |s| - 1
    ensures ParseInput(s, small) == ""
  {
    FitGrows(s, small, small);
    SliceIsPrefix(s, small);
    TruncatedInputsGrow(s, small, small);
    NoEarlierLine(s[1..], ParseInput(s, small));
  }

  lemma {:induction false} TruncatedLinesComeFirst(s: string, small: nat)
    requires small < ByteLength(s) && !BomTrouble(s)
    ensures Lines(ParseInput(s, small)) <= Lines(s)
  {
    TruncatedInputsGrow(s, small, small);
    PrefixLines(ParseInput(s, small), Body(s));
    if StartsWithBom(s) {
      if LineEnd(s[1..]) + 1 < |s| - 1 {
        BlankFirstLine(s);
      } else {
        LoneLineVanishes(s, small);
        NothingHasNoLines();
      }
    }
  }

  lemma {:induction false} NothingHasNoLines()
    ensures Lines("") == []
  {
    assert SplitLines("") == [""] && Blank("");
  }

  /** The frames found under a cap. */
  function Found<J>(reader: Reader<J>, maxFrame: nat, s: string, max: nat): seq<J> {
    Frames(reader, maxFrame, Lines(ParseInput(s, max)))
  }

  lemma {:induction false} FramesPrefix<J>(reader: Reader<J>, maxFrame: nat, s: seq<string>, t: seq<string>)
    requires s <= t
    ensures Frames(reader, maxFrame, s) <= Frames(reader, maxFrame, t)
  {
    assert t == s + t[|s|..];
    FramesConcat(reader, maxFrame, s, t[|s|..]);
  }

  /** Truncation keeps whole frames: what is found under a smaller cap is a prefix of what is found
      under a larger one. */
  lemma {:induction false} TruncationKeepsFrames<J>(reader: Reader<J>, maxFrame: nat, s: string, small: nat, large: nat)
    requires small <= large && !BomTrouble(s)
    ensures Found(reader, maxFrame, s, small) <= Found(reader, maxFrame, s, large)
  {
    if large < ByteLength(s) {
      TruncatedInputsGrow(s, small, large);
      PrefixLines(ParseInput(s, small), ParseInput(s, large));
      FramesPrefix(reader, maxFrame, Lines(ParseInput(s, small)), Lines(ParseInput(s, large)));
    } else if small < ByteLength(s) {
      TruncatedLinesComeFirst(s, small);
      FramesPrefix(reader, maxFrame, Lines(ParseInput(s, small)), Lines(s));
    }
  }

  // ---------------------------------------------------------------- and the condition is exact

  /** A reader that takes every line for a frame. */
  function Everything(): Reader<string> {
    Reader(line => Some(line), frame => true)
  }

  lemma {:induction false} DropKeepsNewline(s: string, i: nat)
    requires i < |s| && s[i] == '\n'
    ensures i < |DropReplacements(s)|
  {
    if s[|s| - 1] == REPLACEMENT {
      DropKeepsNewline(s[..|s| - 1], i);
    }
  }

  lemma {:induction false} ThroughKeepsNewline(s: string, i: nat)
    requires i < |s| && s[i] == '\n'
    ensures i < |ThroughLastNewline(s)|
  {
    if s[|s| - 1] != '\n' {
      ThroughKeepsNewline(s[..|s| - 1], i);
    }
  }

  /** Cutting one byte costs at most the last character. */
  lemma {:induction false} OneByteLess(s: string)
    requires s != ""
    ensures WholeChars(s, ByteLength(s) - 1) == |s| - 1
  {
    if |s| > 1 {
      OneByteLess(s[1..]);
    } else {
      assert s[1..] == "";
    }
  }

  lemma {:induction false} TroubleFirstLine(s: string, t: string, max: nat)
    requires StartsWithBom(s) && t == s[1..] && LineEnd(t) + 1 < |t| && max + 1 == ByteLength(s)
    ensures LineEnd(t) < |ParseInput(s, max)|
  {
    TroubleSlice(s, max);
    NewlineSurvives(t, Slice(s, max));
    TruncatedInput(s, max);
  }

  lemma {:induction false} TruncatedInput(s: string, max: nat)
    requires ByteLength(s) > max
    ensures ParseInput(s, max) == ThroughLastNewline(Slice(s, max))
  {
  }

  lemma {:induction false} TroubleSlice(s: string, max: nat)
    requires StartsWithBom(s) && |s| > 1 && max + 1 == ByteLength(s)
    ensures Slice(s, max) == DropReplacements(s[1..][..|s[1..]| - 1])
  {
    AllButTheLast(s);
    SliceIsPrefix(s, max);
    assert Body(s) == s[1..] && Fit(s, max) == |s[1..]| - 1;
  }

  lemma {:induction false} NewlineSurvives(t: string, slice: string)
    requires LineEnd(t) + 1 < |t| && slice == DropReplacements(t[..|t| - 1])
    ensures LineEnd(t) < |ThroughLastNewline(slice)|
  {
    var kept := t[..|t| - 1];
    LineEndIs(t);
    assert kept[LineEnd(t)] == '\n';
    DropKeepsNewline(kept, LineEnd(t));
    ThroughKeepsNewline(DropReplacements(kept), LineEnd(t));
  }

  lemma {:induction false} AllButTheLast(s: string)
    requires StartsWithBom(s) && |s| > 1
    ensures Fit(s, ByteLength(s) - 1) == |s| - 2
  {
    assert ByteLength(s) == 3 + ByteLength(s[1..]);
    OneByteLess(s[1..]);
  }

  lemma {:induction false} HeadFrame(maxFrame: nat, lines: seq<string>)
    requires lines != [] && !Blank(lines[0]) && ByteLength(lines[0]) <= maxFrame
    ensures Frames(Everything(), maxFrame, NonBlank(lines)) != []
    ensures Frames(Everything(), maxFrame, NonBlank(lines))[0] == lines[0]
  {
  }

  lemma {:induction false} ChoppedStaysNonBlank(line: string)
    requires !Blank(line)
    ensures !Blank(ChopReturn(line)) && !Blank(ChopReturn([BOM] + line))
  {
    var k :| 0 <= k < |line| && !IsSpace(line[k]);
    assert ChopReturn(line)[k] == line[k];
    assert ChopReturn([BOM] + line)[k + 1] == line[k];
    assert line[k] in ChopReturn(line) && line[k] in ChopReturn([BOM] + line);
  }

  lemma {:induction false} NewlineBounds(p: string, i: nat)
    requires i < |p| && p[i] == '\n'
    ensures LineEnd(p) <= i
  {
    if p[0] != '\n' {
      NewlineBounds(p[1..], i - 1);
    }
  }

  lemma {:induction false} PrefixFirstLine(p: string, t: string)
    requires p <= t && LineEnd(t) < |p|
    ensures LineEnd(p) == LineEnd(t) && p[..LineEnd(p)] == t[..LineEnd(t)]
    ensures SplitLines(p)[0] == ChopReturn(t[..LineEnd(t)])
  {
    LineEndIs(t);
    NewlineBounds(p, LineEnd(t));
    LineEndConcat(p, t[|p|..]);
    assert p + t[|p|..] == t;
  }

  lemma {:induction false} NotAPrefix<T>(s: seq<T>, t: seq<T>)
    requires s != [] && t != [] && s[0] != t[0]
    ensures !(s <= t)
  {
  }

  lemma {:induction false} HeadsDiffer(maxFrame: nat, a: seq<string>, b: seq<string>)
    requires a != [] && !Blank(a[0]) && ByteLength(a[0]) <= maxFrame
    requires b != [] && !Blank(b[0]) && ByteLength(b[0]) <= maxFrame
    requires a[0] != b[0]
    ensures !(Frames(Everything(), maxFrame, NonBlank(a)) <= Frames(Everything(), maxFrame, NonBlank(b)))
  {
    HeadFrame(maxFrame, a);
    HeadFrame(maxFrame, b);
    NotAPrefix(Frames(Everything(), maxFrame, NonBlank(a)), Frames(Everything(), maxFrame, NonBlank(b)));
  }

  lemma {:induction false} MarkedLine(line: string)
    requires !Blank(line)
    ensures ChopReturn([BOM] + line) != ChopReturn(line)
  {
    assert |ChopReturn([BOM] + line)| == |ChopReturn(line)| + 1;
  }

  /** The heads of the lines with and without the last byte. */
  lemma {:induction false} TroubleHeads(s: string, max: nat)
    requires BomTrouble(s) && max + 1 == ByteLength(s)
    ensures var t, i := s[1..], LineEnd(s[1..]);
            && SplitLines(ParseInput(s, max))[0] == ChopReturn(t[..i])
            && SplitLines(s)[0] == ChopReturn([BOM] + t[..i])
  {
    TruncatedInputsGrow(s, max, max);
    TroubleFirstLine(s, s[1..], max);
    PrefixFirstLine(ParseInput(s, max), s[1..]);
    BomFirstLine(s);
  }

  lemma {:induction false} TroubleFound(s: string, max: nat, first: string, maxFrame: nat)
    requires BomTrouble(s) && max + 1 == ByteLength(s) && first == s[1..][..LineEnd(s[1..])]
    requires ByteLength(ChopReturn(first)) <= maxFrame && ByteLength(ChopReturn([BOM] + first)) <= maxFrame
    ensures !(Found(Everything(), maxFrame, s, max) <= Found(Everything(), maxFrame, s, max + 1))
  {
    TroubleHeads(s, max);
    ChoppedStaysNonBlank(first);
    MarkedLine(first);
    HeadsDiffer(maxFrame, SplitLines(ParseInput(s, max)), SplitLines(ParseInput(s, max + 1)));
  }

  lemma {:induction false} TroubleShows(s: string)
    requires BomTrouble(s)
    ensures exists maxFrame, small, large ::
              small <= large && !(Found(Everything(), maxFrame, s, small) <= Found(Everything(), maxFrame, s, large))
  {
    var first := s[1..][..LineEnd(s[1..])];
    TroubleFound(s, ByteLength(s) - 1, first, ByteLength(ChopReturn(first)) + ByteLength(ChopReturn([BOM] + first)));
  }

  /** For every reader and every pair of caps the smaller cap finds a prefix, exactly when the input
      is not troubled by a byte order mark. */
  lemma {:induction false} TruncationKeepsFramesIff(s: string)
    ensures (forall reader: Reader<string>, maxFrame, small, large ::
               small <= large ==> Found(reader, maxFrame, s, small) <= Found(reader, maxFrame, s, large))
            <==> !BomTrouble(s)
  {
    if BomTrouble(s) {
      TroubleShows(s);
    } else {
      forall reader: Reader<string>, maxFrame, small, large | small <= large
        ensures Found(reader, maxFrame, s, small) <= Found(reader, maxFrame, s, large)
      {
        TruncationKeepsFrames(reader, maxFrame, s, small, large);
      }
    }
  }
}
