/** What of a memory's text enters its fingerprint (shared/memory-fingerprint.ts:42-98): its words, however
    they are spaced, and its lines, however they end. */
module FingerprintText {
  import opened Wrappers
  import opened Text
  import opened Fingerprint

  // ---------------------------------------------------------------- the words of a text

  /** The runs of characters that are not white space. */
  function Words(s: string): seq<string> {
    if s == "" then []
    else if IsSpace(s[0]) then Words(s[1..])
    else if |s| == 1 || IsSpace(s[1]) then [[s[0]]] + Words(s[1..])
    else
      var rest := Words(s[1..]);
      if rest == [] then [[s[0]]] else [[s[0]] + rest[0]] + rest[1..]
  }

  lemma {:induction false} WordsThere(s: string)
    requires s != "" && !IsSpace(s[0])
    ensures Words(s) != []
  {
  }

  /** The first character decides where a word ends, and collapsing keeps what kind it is. */
  lemma {:induction false} CollapseStart(s: string, inSpace: bool)
    ensures !inSpace ==> (Collapse(s, inSpace) == "" <==> s == "")
    ensures !inSpace && s != "" ==> (IsSpace(Collapse(s, inSpace)[0]) <==> IsSpace(s[0]))
    ensures inSpace && Collapse(s, inSpace) != "" ==> !IsSpace(Collapse(s, inSpace)[0])
  {
    if s != "" && IsSpace(s[0]) && inSpace {
      CollapseStart(s[1..], true);
    }
  }

  lemma {:induction false} WordsCons(c: char, s: string, t: string)
    requires !IsSpace(c) && Words(s) == Words(t) && (s == "" <==> t == "") && (s != "" ==> (IsSpace(s[0]) <==> IsSpace(t[0])))
    ensures Words([c] + s) == Words([c] + t)
  {
    assert ([c] + s)[1..] == s && ([c] + t)[1..] == t;
  }

  lemma {:induction false} CollapseKeepsWords(s: string, inSpace: bool)
    ensures Words(Collapse(s, inSpace)) == Words(s)
  {
    if s != "" {
      var rest := Collapse(s[1..], IsSpace(s[0]));
      CollapseKeepsWords(s[1..], IsSpace(s[0]));
      if IsSpace(s[0]) {
        assert (" " + rest)[1..] == rest && "" + rest == rest;
      } else {
        CollapseStart(s[1..], false);
        WordsCons(s[0], rest, s[1..]);
        assert [s[0]] + s[1..] == s;
      }
    }
  }

  lemma {:induction false} WordsEnd(s: string, c: char)
    requires IsSpace(c)
    ensures Words(s + [c]) == Words(s)
  {
    if s == "" {
      assert s + [c] == [c] && [c][1..] == "";
    } else {
      assert (s + [c])[1..] == s[1..] + [c] && (s + [c])[0] == s[0];
      WordsEnd(s[1..], c);
      if !IsSpace(s[0]) && |s| > 1 {
        assert (s + [c])[1] == s[1];
      }
      if !IsSpace(s[0]) && |s| == 1 {
        assert s[1..] == "" && Words(s) == [[s[0]]];
      }
    }
  }

  lemma {:induction false} TrimStartKeepsWords(s: string)
    ensures Words(TrimStart(s)) == Words(s)
  {
    if s != "" && IsSpace(s[0]) {
      TrimStartKeepsWords(s[1..]);
    }
  }

  lemma {:induction false} TrimEndKeepsWords(s: string)
    ensures Words(TrimEnd(s)) == Words(s)
  {
    if s != "" && IsSpace(s[|s| - 1]) {
      TrimEndKeepsWords(s[..|s| - 1]);
      WordsEnd(s[..|s| - 1], s[|s| - 1]);
      assert s == s[..|s| - 1] + [s[|s| - 1]];
    }
  }

  // ---------------------------------------------------------------- collapsed text

  /** Single blanks are the only white space. */
  predicate Single(s: string) {
    forall i :: 0 <= i < |s| && IsSpace(s[i]) ==> s[i] == ' ' && (i + 1 < |s| ==> !IsSpace(s[i + 1]))
  }

  predicate Tidy(s: string) {
    Single(s) && (s != "" ==> !IsSpace(s[0]) && !IsSpace(s[|s| - 1]))
  }

  lemma {:induction false} CollapseIsSingle(s: string, inSpace: bool)
    ensures Single(Collapse(s, inSpace))
  {
    if s != "" {
      var rest := Collapse(s[1..], IsSpace(s[0]));
      CollapseIsSingle(s[1..], IsSpace(s[0]));
      CollapseStart(s[1..], IsSpace(s[0]));
      SingleCons(' ', rest);
      SingleCons(s[0], rest);
    }
  }

  lemma {:induction false} SingleCons(c: char, rest: string)
    requires Single(rest)
    ensures !IsSpace(c) || (c == ' ' && (rest != "" ==> !IsSpace(rest[0]))) ==> Single([c] + rest)
  {
  }

  lemma {:induction false} PartIsSingle(s: string, t: string)
    requires Single(s) && (t <= s || (|t| <= |s| && t == s[|s| - |t|..]))
    ensures Single(t)
  {
    var k := if t <= s then 0 else |s| - |t|;
    forall i | 0 <= i < |t| && IsSpace(t[i]) ensures t[i] == ' ' && (i + 1 < |t| ==> !IsSpace(t[i + 1])) {
      assert t[i] == s[k + i];
      assert i + 1 < |t| ==> t[i + 1] == s[k + i + 1];
    }
  }

  /** A tidy text is its words, one blank between each two. */
  lemma {:induction false} TidyIsJoined(s: string)
    requires Tidy(s)
    ensures s == Join(' ', Words(s))
  {
    if |s| == 1 {
      assert s[1..] == "" && Words(s) == [[s[0]]];
    } else if s != "" {
      if IsSpace(s[1]) {
        assert |s| > 2;
        TidyRest(s, 2);
        TidyIsJoined(s[2..]);
        WordsThere(s[2..]);
        assert s[1..][1..] == s[2..];
        FirstWord(s[0], Words(s[2..]));
        assert s == [s[0]] + [' '] + s[2..];
      } else {
        TidyRest(s, 1);
        TidyIsJoined(s[1..]);
        WordsThere(s[1..]);
        Longer(s[0], Words(s[1..]));
        assert s == [s[0]] + s[1..];
      }
    }
  }

  lemma {:induction false} TidyRest(s: string, k: nat)
    requires Tidy(s) && 0 < k < |s| && !IsSpace(s[k])
    ensures Tidy(s[k..])
  {
    PartIsSingle(s, s[k..]);
  }

  lemma {:induction false} FirstWord(c: char, words: seq<string>)
    requires words != []
    ensures Join(' ', [[c]] + words) == [c] + [' '] + Join(' ', words)
  {
    assert ([[c]] + words)[1..] == words;
  }

  lemma {:induction false} Longer(c: char, words: seq<string>)
    requires words != []
    ensures Join(' ', [[c] + words[0]] + words[1..]) == [c] + Join(' ', words)
  {
    assert ([[c] + words[0]] + words[1..])[1..] == words[1..];
    if |words| > 1 {
      assert ([c] + words[0]) + [' '] + Join(' ', words[1..]) == [c] + (words[0] + [' '] + Join(' ', words[1..]));
    }
  }

  /** Collapsing white space leaves the words, one blank between each two. */
  lemma {:induction false} CollapsedIsWords(s: string)
    ensures CollapseWhitespace(s) == Join(' ', Words(s)) && Words(CollapseWhitespace(s)) == Words(s)
  {
    var c := Collapse(s, false);
    CollapseKeepsWords(s, false);
    TrimStartKeepsWords(c);
    TrimEndKeepsWords(TrimStart(c));
    CollapseIsSingle(s, false);
    TrimIsTidy(c);
    TidyIsJoined(Trim(c));
  }

  lemma {:induction false} PrefixStart(r: string, t: string)
    requires r <= t && r != ""
    ensures r[0] == t[0]
  {
  }

  lemma {:induction false} TrimEnds(c: string)
    ensures Trim(c) != "" ==> !IsSpace(Trim(c)[0]) && !IsSpace(Trim(c)[|Trim(c)| - 1])
  {
    if Trim(c) != "" {
      PrefixStart(TrimEnd(TrimStart(c)), TrimStart(c));
    }
  }

  lemma {:induction false} TrimIsTidy(c: string)
    requires Single(c)
    ensures Tidy(Trim(c))
  {
    TrimEnds(c);
    PartIsSingle(c, TrimStart(c));
    PartIsSingle(TrimStart(c), Trim(c));
  }

  // ---------------------------------------------------------------- what enters by kind

  /** Of a note the words count, of a summary or a decision the words in lower case, of a preference those
      behind its prefix, and of a skill its text. */
  lemma {:induction false} ContentByKind(m: Machinery, k: Kind, content: string)
    ensures var fixed := Fix(m, content);
            && (k.Note? ==> NormalizeContent(m, k, content) == Join(' ', Words(fixed)))
            && (k.Summary? || k.Decision? ==> NormalizeContent(m, k, content) == m.lower(Join(' ', Words(fixed))))
            && (k.Preference? ==> NormalizeContent(m, k, content) == m.lower(Join(' ', Words(Fix(m, m.stripPreference(fixed))))))
            && (k.Skill? ==> NormalizeContent(m, k, content) == m.tidySkill(fixed))
  {
    CollapsedIsWords(Fix(m, content));
    CollapsedIsWords(Fix(m, m.stripPreference(Fix(m, content))));
  }

  /** Two notes are hashed alike exactly when they have the same words, in order. */
  lemma {:induction false} NotesAgreeIff(m: Machinery, a: string, b: string)
    ensures NormalizeContent(m, Note, a) == NormalizeContent(m, Note, b) <==> Words(Fix(m, a)) == Words(Fix(m, b))
  {
    CollapsedIsWords(Fix(m, a));
    CollapsedIsWords(Fix(m, b));
  }

  // ---------------------------------------------------------------- line ends

  /** Line ends are replaced one by one. */
  lemma {:induction false} UnixConcat(a: string, b: string)
    requires a == "" || b == "" || !(a[|a| - 1] == '\r' && b[0] == '\n')
    ensures UnixLines(a + b) == UnixLines(a) + UnixLines(b)
    decreases |a|
  {
    if a == "" {
      assert a + b == b;
    } else {
      var skip := if a[0] == '\r' && |a| > 1 && a[1] == '\n' then 2 else 1;
      assert (a + b)[skip..] == a[skip..] + b;
      UnixConcat(a[skip..], b);
    }
  }

  /** A carriage return and newline, a carriage return, and a newline each become a newline; any other
      character stays. */
  lemma {:induction false} UnixEnds(c: char)
    ensures UnixLines("\r\n") == "\n" && UnixLines([c]) == if c == '\r' then "\n" else [c]
  {
    assert "\r\n"[2..] == "" && [c][1..] == "";
  }

  /** Text is normalized, then its line ends, and then every NUL is replaced. */
  lemma {:induction false} FixedAre(m: Machinery, s: string)
    ensures var lines, fixed := UnixLines(m.nfc(s)), Fix(m, s);
            && |fixed| == |lines| && '\r' !in fixed && NUL !in fixed
            && forall i :: 0 <= i < |fixed| ==> fixed[i] == if lines[i] == NUL then '\U{FFFD}' else lines[i]
  {
    var lines, fixed := UnixLines(m.nfc(s)), Fix(m, s);
    forall i | 0 <= i < |fixed| ensures fixed[i] != '\r' {
      assert lines[i] in lines;
    }
  }

  /** a, with white space around it. */
  ghost predicate Padded(s: string, a: string) {
    exists k: nat :: k + |a| <= |s| && s[k..k + |a|] == a && Blank(s[..k]) && Blank(s[k + |a|..])
  }

  /** The scope is what stands between the white space at the ends of the key; it is empty if none is given. */
  lemma {:induction false} ScopeIs(m: Machinery, scopeKey: Option<string>)
    ensures var fixed, scope := Fix(m, scopeKey.GetOr("")), NormalizeScope(m, scopeKey);
            Padded(fixed, scope) && (scope != "" ==> !IsSpace(scope[0]) && !IsSpace(scope[|scope| - 1]))
  {
    TrimIsPadded(Fix(m, scopeKey.GetOr("")));
  }

  lemma {:induction false} TrimIsPadded(s: string)
    ensures Padded(s, Trim(s)) && (Trim(s) != "" ==> !IsSpace(Trim(s)[0]) && !IsSpace(Trim(s)[|Trim(s)| - 1]))
  {
    TrimEnds(s);
    MiddleIsPadded(s, TrimStart(s), Trim(s));
  }

  lemma {:induction false} MiddleIsPadded(s: string, t: string, r: string)
    requires |t| <= |s| && t == s[|s| - |t|..] && Blank(s[..|s| - |t|]) && r <= t && Blank(t[|r|..])
    ensures Padded(s, r)
  {
    var k := |s| - |t|;
    assert s[k..k + |r|] == r && s[k + |r|..] == t[|r|..];
  }
}
