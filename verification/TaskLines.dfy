/** Which lines are tasks and fences to parseOpenSpecTasksMarkdown
    (shared/openspec-auto-deliver-validators.ts:80-115): what its two patterns match, and between which
    fence lines nothing counts. */
module TaskLines {
  import opened Wrappers
  import opened Text
  import opened TaskScan

  // ---------------------------------------------------------------- what the patterns match

  lemma {:induction false} TrimBlank(p: string, rest: string)
    requires Blank(p)
    ensures TrimStart(p + rest) == TrimStart(rest)
  {
    if p == "" {
      assert p + rest == rest;
    } else {
      assert p[0] in p && (p + rest)[1..] == p[1..] + rest;
      TrimBlank(p[1..], rest);
    }
  }

  lemma {:induction false} TrimNone(rest: string)
    requires rest != "" && !IsSpace(rest[0])
    ensures TrimStart(rest) == rest
  {
  }

  /** The blank part in front. */
  function Lead(s: string): (p: string)
    ensures Blank(p) && s == p + TrimStart(s)
  {
    s[..|s| - |TrimStart(s)|]
  }

  /** Some white space, a dash, white space, a box, white space, and words on one line. */
  predicate Reads(line: string, p: string, q: string, box: char, r: string, words: string) {
    && line == p + (['-'] + (q + (['[', box, ']'] + (r + words))))
    && Blank(p) && Blank(q) && q != "" && Blank(r) && r != ""
    && (box == ' ' || box == 'x' || box == 'X') && forall i :: 0 <= i < |words| ==> !LineTerminator(words[i])
  }

  lemma {:induction false} LabelReads(r: string, words: string, checked: bool)
    requires Blank(r) && r != "" && forall i :: 0 <= i < |words| ==> !LineTerminator(words[i])
    ensures AfterBox(checked, r + words) == Some(Task(checked, Trim(words)))
  {
    var w := r + words;
    assert r[0] in r && w[0] == r[0];
    TrimBlank(r, words);
    var t := TrimStart(words);
    forall c | c in t ensures !LineTerminator(c) {
      assert c in words;
    }
    TrimAgain(words);
  }

  lemma {:induction false} TrimAgain(s: string)
    ensures Trim(TrimStart(s)) == Trim(s)
  {
    if TrimStart(s) != "" {
      TrimNone(TrimStart(s));
    }
  }

  lemma {:induction false} AtBoxReads(box: char, w: string)
    requires box == ' ' || box == 'x' || box == 'X'
    ensures AtBox(['[', box, ']'] + w) == AfterBox(box != ' ', w)
  {
    ThreeThen('[', box, ']', w);
  }

  lemma {:induction false} ThreeThen(a: char, b: char, c: char, w: string)
    ensures var v := [a, b, c] + w; |v| >= 3 && v[0] == a && v[1] == b && v[2] == c && v[3..] == w
  {
  }

  lemma {:induction false} BoxReads(q: string, v: string)
    requires Blank(q) && q != "" && v != "" && !IsSpace(v[0])
    ensures AfterDash(q + v) == AtBox(v)
  {
    assert q[0] in q && (q + v)[0] == q[0];
    TrimBlank(q, v);
    TrimNone(v);
  }

  lemma {:induction false} DashReads(p: string, u: string)
    requires Blank(p)
    ensures TaskOf(p + (['-'] + u)) == AfterDash(u)
  {
    TrimBlank(p, ['-'] + u);
    TrimNone(['-'] + u);
    assert (['-'] + u)[1..] == u;
  }

  lemma {:induction false} ReadsIsTask(line: string, p: string, q: string, box: char, r: string, words: string)
    requires Reads(line, p, q, box, r, words)
    ensures TaskOf(line) == Some(Task(box != ' ', Trim(words)))
  {
    DashReads(p, q + (['[', box, ']'] + (r + words)));
    BoxReads(q, ['[', box, ']'] + (r + words));
    AtBoxReads(box, r + words);
    LabelReads(r, words, box != ' ');
  }

  lemma {:induction false} TaskIsRead(line: string) returns (p: string, q: string, box: char, r: string, words: string)
    requires TaskOf(line).Some?
    ensures Reads(line, p, q, box, r, words) && TaskOf(line) == Some(Task(box != ' ', Trim(words)))
  {
    p := Lead(line);
    var u := DashIsRead(TrimStart(line));
    q := Lead(u);
    LeadOfSpace(u);
    var w;
    box, w := BoxIsRead(TrimStart(u));
    r, words := LabelIsRead(w, box != ' ');
  }

  lemma {:induction false} DashIsRead(t: string) returns (u: string)
    requires AtDash(t).Some?
    ensures t == ['-'] + u && AtDash(t) == AfterDash(u) && u != "" && IsSpace(u[0])
  {
    u := t[1..];
    HeadAndTail(t);
  }

  lemma {:induction false} HeadAndTail(t: string)
    requires t != ""
    ensures t == [t[0]] + t[1..]
  {
  }

  lemma {:induction false} ThreeAndTail(v: string)
    requires |v| >= 3
    ensures v == [v[0], v[1], v[2]] + v[3..]
  {
  }

  lemma {:induction false} BoxIsRead(v: string) returns (box: char, w: string)
    requires AtBox(v).Some?
    ensures v == ['[', box, ']'] + w && (box == ' ' || box == 'x' || box == 'X') && AtBox(v) == AfterBox(box != ' ', w)
  {
    box, w := v[1], v[3..];
    ThreeAndTail(v);
  }

  lemma {:induction false} LeadOfSpace(u: string)
    requires u != "" && IsSpace(u[0])
    ensures Lead(u) != ""
  {
  }

  lemma {:induction false} LabelIsRead(w: string, checked: bool) returns (r: string, words: string)
    requires AfterBox(checked, w).Some?
    ensures w == r + words && Blank(r) && r != "" && forall i :: 0 <= i < |words| ==> !LineTerminator(words[i])
    ensures AfterBox(checked, w) == Some(Task(checked, Trim(words)))
  {
    r, words := Lead(w), TrimStart(w);
    LeadOfSpace(w);
    forall i | 0 <= i < |words| ensures !LineTerminator(words[i]) {
      assert words[i] in words;
    }
  }

  /** A line is a task exactly when it is white space, a dash, white space, a box with a blank or an x in it,
      white space, and words without a line terminator; it is checked exactly when the box holds an x, and
      its text is the words, trimmed. */
  lemma {:induction false} TaskIff(line: string, task: Task)
    ensures TaskOf(line) == Some(task)
            <==> exists p, q, box, r, words :: Reads(line, p, q, box, r, words) && task == Task(box != ' ', Trim(words))
  {
    if TaskOf(line) == Some(task) {
      var p, q, box, r, words := TaskIsRead(line);
    }
    if p, q, box, r, words :| Reads(line, p, q, box, r, words) && task == Task(box != ' ', Trim(words)) {
      ReadsIsTask(line, p, q, box, r, words);
    }
  }

  lemma {:induction false} HeadIff(t: string, c: char)
    ensures FenceHead(t) == Some(c) <==> (c == '`' || c == '~') && [c, c, c] <= t
  {
  }

  /** A line is a fence exactly when three backquotes or three tildes follow white space. */
  lemma {:induction false} FenceIff(line: string, c: char)
    ensures FenceOf(line) == Some(c)
            <==> (c == '`' || c == '~') && exists p, t :: FencedBy(line, p, t, c)
  {
    HeadIff(TrimStart(line), c);
    if FenceOf(line) == Some(c) {
      assert line == Lead(line) + TrimStart(line);
      assert FencedBy(line, Lead(line), TrimStart(line), c);
    }
    if c == '`' || c == '~' {
      if p, t :| FencedBy(line, p, t, c) {
        FenceBehind(p, t, c);
      }
    }
  }

  /** White space, and then three of this character. */
  ghost predicate FencedBy(line: string, p: string, t: string, c: char) {
    Blank(p) && line == p + t && [c, c, c] <= t
  }

  lemma {:induction false} FenceBehind(p: string, t: string, c: char)
    requires Blank(p) && [c, c, c] <= t && !IsSpace(c)
    ensures TrimStart(p + t) == t
  {
    assert t[0] == c;
    TrimBlank(p, t);
    TrimNone(t);
  }

  // ---------------------------------------------------------------- between which fences

  /** A fence is opened at line k, outside any other, and not closed since. */
  ghost predicate OpenSince(lines: seq<Reading>, k: nat, marker: char) {
    && k < |lines| && lines[k] == FenceLine(marker) && After(Outside, lines[..k]).Outside?
    && forall j :: k < j < |lines| ==> lines[j] != FenceLine(marker)
  }

  lemma {:induction false} AfterLast(f: Fence, lines: seq<Reading>)
    requires lines != []
    ensures After(f, lines) == Next(After(f, lines[..|lines| - 1]), lines[|lines| - 1])
  {
    var last := |lines| - 1;
    LastStep(f, lines[..last], lines[last], 0);
    assert lines == lines[..last] + [lines[last]];
  }

  /** The scan is inside a fence exactly when some fence line, met outside, has not been followed by another
      of its kind. */
  lemma {:induction false} InsideIff(lines: seq<Reading>, marker: char)
    ensures After(Outside, lines) == Inside(marker) <==> exists k: nat :: OpenSince(lines, k, marker)
    decreases |lines|
  {
    if lines != [] {
      var last := |lines| - 1;
      var init := lines[..last];
      AfterLast(Outside, lines);
      InsideIff(init, marker);
      if k: nat :| OpenSince(lines, k, marker) {
        if k < last {
          assert init[..k] == lines[..k];
          assert OpenSince(init, k, marker);
          StaysInside(lines, init, marker);
        }
      }
      if After(Outside, lines) == Inside(marker) {
        if After(Outside, init).Outside? {
          assert OpenSince(lines, last, marker);
        } else {
          var k: nat :| OpenSince(init, k, marker);
          assert init[..k] == lines[..k];
          assert OpenSince(lines, k, marker);
        }
      }
    }
  }

  lemma {:induction false} StaysInside(lines: seq<Reading>, init: seq<Reading>, marker: char)
    requires lines != [] && init == lines[..|lines| - 1] && After(Outside, init) == Inside(marker)
    requires lines[|lines| - 1] != FenceLine(marker)
    ensures After(Outside, lines) == Inside(marker)
  {
    AfterLast(Outside, lines);
  }
}
