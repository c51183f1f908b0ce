/** String helpers of the JavaScript standard library that several modules share. */
module Text {

  /** String(n) */
  function Decimal(n: nat): (r: string)
    ensures r != "" && forall c :: c in r ==> '0' <= c <= '9'
  {
    if n < 10 then ["0123456789"[n]] else Decimal(n / 10) + ["0123456789"[n % 10]]
  }

  /** The characters String.prototype.trim removes and \s matches. */
  predicate IsSpace(c: char) {
    || '\t' <= c <= '\r' || c == ' ' || c == '\U{00A0}' || c == '\U{1680}'
    || '\U{2000}' <= c <= '\U{200A}' || c == '\U{2028}' || c == '\U{2029}'
    || c == '\U{202F}' || c == '\U{205F}' || c == '\U{3000}' || c == '\U{FEFF}'
  }

  /** trim() would leave nothing. */
  predicate Blank(s: string) {
    forall c :: c in s ==> IsSpace(c)
  }

  function TrimStart(s: string): (r: string)
    ensures |r| <= |s| && r == s[|s| - |r|..]
    ensures r != "" ==> !IsSpace(r[0])
    ensures Blank(s[..|s| - |r|])
  {
    if s != "" && IsSpace(s[0]) then
      var r := TrimStart(s[1..]);
      assert s[..|s| - |r|] == [s[0]] + s[1..][..|s| - 1 - |r|];
      r
    else s
  }

  function TrimEnd(s: string): (r: string)
    ensures r <= s
    ensures r != "" ==> !IsSpace(r[|r| - 1])
    ensures Blank(s[|r|..])
  {
    if s != "" && IsSpace(s[|s| - 1]) then TrimEnd(s[..|s| - 1]) else s
  }

  function Trim(s: string): (r: string) {
    TrimEnd(TrimStart(s))
  }

  /** The position of the first newline, or |s|. */
  function LineEnd(s: string): (i: nat)
    ensures i <= |s|
  {
    if s == "" || s[0] == '\n' then 0 else 1 + LineEnd(s[1..])
  }

  lemma {:induction false} LineEndIs(s: string)
    ensures '\n' !in s[..LineEnd(s)]
    ensures LineEnd(s) < |s| ==> s[LineEnd(s)] == '\n'
  {
    if s != "" && s[0] != '\n' {
      LineEndIs(s[1..]);
      assert s[..LineEnd(s)] == [s[0]] + s[1..][..LineEnd(s[1..])];
    }
  }

  /** A carriage return right before the newline belongs to the line break. */
  function ChopReturn(line: string): string {
    if line != "" && line[|line| - 1] == '\r' then line[..|line| - 1] else line
  }

  /** s.split(/\r?\n/) */
  function SplitLines(s: string): (r: seq<string>)
    ensures |r| >= 1
    ensures s == "" ==> r == [""]
    decreases |s|
  {
    var i := LineEnd(s);
    if i == |s| then [s] else [ChopReturn(s[..i])] + SplitLines(s[i + 1..])
  }

  /** ASCII toLowerCase */
  function Lower(s: string): (r: string)
    ensures |r| == |s|
    ensures forall i :: 0 <= i < |s| ==> r[i] == if 'A' <= s[i] <= 'Z' then (s[i] as int + 32) as char else s[i]
  {
    if s == "" then "" else [if 'A' <= s[0] <= 'Z' then (s[0] as int + 32) as char else s[0]] + Lower(s[1..])
  }

  predicate EndsWith(s: string, suffix: string) {
    |suffix| <= |s| && s[|s| - |suffix|..] == suffix
  }

  ghost predicate Terminated(p: string) {
    p == "" || p[|p| - 1] == '\n'
  }

  lemma {:induction false} LineEndConcat(p: string, q: string)
    requires LineEnd(p) < |p|
    ensures LineEnd(p + q) == LineEnd(p)
  {
    if p[0] != '\n' {
      assert (p + q)[1..] == p[1..] + q;
      LineEndConcat(p[1..], q);
    }
  }

  /** Lines that are terminated do not depend on what follows. */
  lemma {:induction false} SplitConcat(p: string, q: string)
    requires Terminated(p)
    ensures SplitLines(p)[|SplitLines(p)| - 1] == ""
    ensures SplitLines(p + q) == SplitLines(p)[..|SplitLines(p)| - 1] + SplitLines(q)
    decreases |p|
  {
    if p == "" {
      assert p + q == q;
    } else {
      TerminatedHasEnd(p);
      SplitConcat(p[LineEnd(p) + 1..], q);
      SplitStep(p, p[LineEnd(p) + 1..], q);
    }
  }

  lemma {:induction false} SplitStep(p: string, rest: string, q: string)
    requires LineEnd(p) < |p| && rest == p[LineEnd(p) + 1..] && SplitLines(rest)[|SplitLines(rest)| - 1] == ""
    requires SplitLines(rest + q) == SplitLines(rest)[..|SplitLines(rest)| - 1] + SplitLines(q)
    ensures SplitLines(p)[|SplitLines(p)| - 1] == ""
    ensures SplitLines(p + q) == SplitLines(p)[..|SplitLines(p)| - 1] + SplitLines(q)
  {
    FirstLineAlone(p);
    FirstLineKept(p, q);
    PrependJoined(FirstLine(p), SplitLines(rest), SplitLines(rest + q), SplitLines(q));
  }

  lemma {:induction false} PrependJoined(head: string, lines: seq<string>, joined: seq<string>, more: seq<string>)
    requires lines != [] && lines[|lines| - 1] == "" && joined == lines[..|lines| - 1] + more
    ensures var all := [head] + lines; all[|all| - 1] == "" && [head] + joined == all[..|all| - 1] + more
  {
  }

  /** The first line, without its line break. */
  function FirstLine(p: string): string {
    ChopReturn(p[..LineEnd(p)])
  }

  lemma {:induction false} FirstLineAlone(p: string)
    requires LineEnd(p) < |p|
    ensures SplitLines(p) == [FirstLine(p)] + SplitLines(p[LineEnd(p) + 1..])
  {
  }

  lemma {:induction false} FirstLineAt(s: string, i: nat)
    requires LineEnd(s) == i < |s|
    ensures SplitLines(s) == [ChopReturn(s[..i])] + SplitLines(s[i + 1..])
  {
  }

  lemma {:induction false} CutConcat(p: string, q: string, i: nat)
    requires i < |p|
    ensures (p + q)[..i] == p[..i] && (p + q)[i + 1..] == p[i + 1..] + q
  {
  }

  lemma {:induction false} FirstLineKept(p: string, q: string)
    requires LineEnd(p) < |p|
    ensures SplitLines(p + q) == [FirstLine(p)] + SplitLines(p[LineEnd(p) + 1..] + q)
  {
    LineEndConcat(p, q);
    CutConcat(p, q, LineEnd(p));
    FirstLineIs(p + q, p[..LineEnd(p)], p[LineEnd(p) + 1..] + q);
  }

  lemma {:induction false} FirstLineIs(t: string, line: string, rest: string)
    requires LineEnd(t) == |line| < |t| && t[..|line|] == line && t[|line| + 1..] == rest
    ensures SplitLines(t) == [ChopReturn(line)] + SplitLines(rest)
  {
    FirstLineAt(t, |line|);
  }

  lemma {:induction false} TerminatedHasEnd(p: string)
    requires p != "" && Terminated(p)
    ensures LineEnd(p) < |p| && Terminated(p[LineEnd(p) + 1..])
  {
    LineEndIs(p);
    assert p[|p| - 1] in p;
    assert p[..|p|] == p;
  }

  lemma {:induction false} Reassociate<T>(a: seq<T>, b: seq<T>, c: seq<T>)
    ensures (a + b) + c == a + (b + c)
  {
  }

  lemma {:induction false} SameMiddle<T>(p: seq<T>, x: seq<T>, y: seq<T>, q: seq<T>)
    ensures p + x + q == p + y + q <==> x == y
  {
    if p + x + q == p + y + q {
      assert |x| == |y|;
      assert (p + x + q)[|p|..|p| + |x|] == x && (p + y + q)[|p|..|p| + |y|] == y;
    }
  }

  /** parts.join(separator), for a one-character separator. */
  function Join(separator: char, parts: seq<string>): string {
    if parts == [] then ""
    else if |parts| == 1 then parts[0]
    else parts[0] + [separator] + Join(separator, parts[1..])
  }

  lemma {:induction false} LongerHeadHoldsSeparator(separator: char, a: string, b: string, x: string, y: string)
    requires a + [separator] + x == b + [separator] + y
    ensures |a| < |b| ==> separator in b
  {
    if |a| < |b| {
      assert b[|a|] == (b + [separator] + y)[|a|] == (a + [separator] + x)[|a|] == separator;
    }
  }

  lemma {:induction false} FirstSeparator(separator: char, a: string, b: string, x: string, y: string)
    requires a + [separator] + x == b + [separator] + y && separator !in a && separator !in b
    ensures a == b && x == y
  {
    LongerHeadHoldsSeparator(separator, a, b, x, y);
    LongerHeadHoldsSeparator(separator, b, a, y, x);
    var s, t := a + [separator] + x, b + [separator] + y;
    assert s[..|a|] == a && t[..|b|] == b && s[|a| + 1..] == x && t[|b| + 1..] == y;
  }

  /** Equally many parts, none holding the separator, can be told apart after joining. */
  lemma {:induction false} JoinIsInjective(separator: char, a: seq<string>, b: seq<string>)
    requires |a| == |b| && (forall p :: p in a ==> separator !in p) && (forall p :: p in b ==> separator !in p)
    ensures Join(separator, a) == Join(separator, b) <==> a == b
  {
    if |a| > 1 && Join(separator, a) == Join(separator, b) {
      assert a[0] in a && b[0] in b;
      FirstSeparator(separator, a[0], b[0], Join(separator, a[1..]), Join(separator, b[1..]));
      JoinIsInjective(separator, a[1..], b[1..]);
      assert a == [a[0]] + a[1..] && b == [b[0]] + b[1..];
    } else if |a| == 1 {
      assert a == [a[0]] && b == [b[0]];
    }
  }
}
