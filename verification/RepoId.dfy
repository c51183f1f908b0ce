/** normalizeCanonicalRepoId (shared/memory-namespace.ts:161-186) on ASCII texts without a colon, which
    are neither ssh addresses nor URLs, and on addresses git@host:path. */
module RepoId {
  import opened Wrappers
  import opened Text

  predicate Plain(raw: string) {
    forall c :: c in raw ==> c < '\U{0080}' && c != ':'
  }

  function StripGit(s: string): (r: string)
    ensures r <= s
  {
    if EndsWith(s, ".git") then s[..|s| - 4] else s
  }

  function StripStart(s: string): (r: string)
    ensures |r| <= |s| && r == s[|s| - |r|..]
    ensures r != "" ==> r[0] != '/'
  {
    if s != "" && s[0] == '/' then StripStart(s[1..]) else s
  }

  function StripEnd(s: string): (r: string)
    ensures r <= s
    ensures r != "" ==> r[|r| - 1] != '/'
  {
    if s != "" && s[|s| - 1] == '/' then StripEnd(s[..|s| - 1]) else s
  }

  /** replace(/^\/+|\/+$/g, '') */
  function StripSlashes(s: string): string {
    StripEnd(StripStart(s))
  }

  /** replace(/\/+/g, '/') */
  function CollapseSlashes(s: string): (r: string)
    ensures |r| <= |s|
  {
    if |s| < 2 then s
    else if s[0] == '/' && s[1] == '/' then CollapseSlashes(s[1..])
    else [s[0]] + CollapseSlashes(s[1..])
  }

  lemma {:induction false} CollapseFacts(s: string)
    ensures forall c :: c in CollapseSlashes(s) ==> c in s
    ensures s != "" ==> CollapseSlashes(s) != "" && CollapseSlashes(s)[0] == s[0]
    ensures s != "" ==> CollapseSlashes(s)[|CollapseSlashes(s)| - 1] == s[|s| - 1]
  {
    if |s| >= 2 {
      CollapseFacts(s[1..]);
    }
  }

  /** The id before slashes are collapsed. */
  function Stripped(raw: string): string {
    StripSlashes(StripGit(Lower(Trim(raw))))
  }

  function PlainRepoId(raw: string): Option<string> {
    if Trim(raw) == "" then None else Some(CollapseSlashes(Stripped(raw)))
  }

  /** Nothing is left that a second normalization would take away. */
  predicate Done(s: string) {
    s != "" ==> !IsSpace(s[0]) && !IsSpace(s[|s| - 1]) && !EndsWith(s, ".git")
  }

  ghost predicate Stable(s: string) {
    s != "" ==> s[0] != '/' && s[|s| - 1] != '/'
  }

  lemma {:induction false} StripIsStable(s: string)
    ensures Stable(StripSlashes(s))
    ensures forall c :: c in StripSlashes(s) ==> c in s
  {
    var t := StripStart(s);
    var r := StripEnd(t);
    if r != "" {
      assert r[0] == t[0];
    }
    forall c | c in r ensures c in s {
      assert c in t;
    }
  }

  lemma {:induction false} StrippedIsStable(raw: string)
    ensures Stable(Stripped(raw))
    ensures forall c :: c in Stripped(raw) ==> c in Lower(Trim(raw))
  {
    var low := Lower(Trim(raw));
    StripIsStable(StripGit(low));
    forall c | c in StripGit(low) ensures c in low {
    }
  }

  lemma {:induction false} StripKeeps(s: string)
    requires Stable(s)
    ensures StripSlashes(s) == s
  {
  }

  lemma {:induction false} TrimKeeps(s: string)
    requires s != "" ==> !IsSpace(s[0]) && !IsSpace(s[|s| - 1])
    ensures Trim(s) == s
  {
  }

  lemma {:induction false} LowerKeeps(s: string)
    requires forall c :: c in s ==> !('A' <= c <= 'Z')
    ensures Lower(s) == s
  {
    forall i | 0 <= i < |s| ensures Lower(s)[i] == s[i] {
      assert s[i] in s;
    }
  }

  lemma {:induction false} LowerHasNoCapital(s: string)
    ensures forall c :: c in Lower(s) ==> !('A' <= c <= 'Z')
  {
  }

  lemma {:induction false} CollapseTwice(s: string)
    ensures CollapseSlashes(CollapseSlashes(s)) == CollapseSlashes(s)
  {
    if |s| >= 2 {
      CollapseTwice(s[1..]);
      var r := CollapseSlashes(s[1..]);
      if !(s[0] == '/' && s[1] == '/') {
        assert ([s[0]] + r)[1..] == r;
      }
    }
  }

  lemma {:induction false} CollapseStep(s: string, rest: string)
    requires |s| >= 2 && s[1..] == rest
    ensures CollapseSlashes(s) == if s[0] == '/' && s[1] == '/' then CollapseSlashes(rest) else [s[0]] + CollapseSlashes(rest)
  {
  }

  lemma {:induction false} CollapseConcat(p: string, q: string)
    requires q != "" && q[0] != '/'
    ensures CollapseSlashes(p + q) == CollapseSlashes(p) + CollapseSlashes(q)
  {
    if p == "" {
      assert p + q == q;
    } else if |p| == 1 {
      assert (p + q)[1..] == q;
      CollapseStep(p + q, q);
    } else {
      CollapseConcat(p[1..], q);
      assert (p + q)[1..] == p[1..] + q;
      CollapseStep(p + q, p[1..] + q);
      CollapseStep(p, p[1..]);
    }
  }

  lemma {:induction false} CollapseKeeps(q: string)
    requires '/' !in q
    ensures CollapseSlashes(q) == q
  {
    if |q| >= 2 {
      CollapseKeeps(q[1..]);
    }
  }

  /** Where the part behind the last slash starts. */
  function LastPart(s: string): (k: nat)
    ensures k <= |s| && '/' !in s[k..] && (k > 0 ==> s[k - 1] == '/')
  {
    if s == "" || s[|s| - 1] == '/' then |s|
    else
      var k := LastPart(s[..|s| - 1]);
      assert s[k..] == s[..|s| - 1][k..] + [s[|s| - 1]];
      k
  }

  lemma {:induction false} CollapsedTail(s: string)
    requires Stable(s) && s != ""
    ensures var p, q := s[..LastPart(s)], s[LastPart(s)..];
            && s == p + q && CollapseSlashes(s) == CollapseSlashes(p) + q && q != ""
            && (p != "" ==> p[|p| - 1] == '/' && CollapseSlashes(p)[|CollapseSlashes(p)| - 1] == '/')
  {
    var p, q := s[..LastPart(s)], s[LastPart(s)..];
    assert s == p + q;
    TailStays(p, q);
    CollapseFacts(p);
  }

  lemma {:induction false} TailStays(p: string, q: string)
    requires q != "" && '/' !in q
    ensures CollapseSlashes(p + q) == CollapseSlashes(p) + q
  {
    assert q[0] in q;
    CollapseConcat(p, q);
    CollapseKeeps(q);
  }

  lemma {:induction false} SuffixOfTail(p: string, q: string)
    requires '/' !in q && (p != "" ==> p[|p| - 1] == '/')
    ensures EndsWith(p + q, ".git") <==> EndsWith(q, ".git")
  {
    var s := p + q;
    if |q| >= 4 {
      assert s[|s| - 4..] == q[|q| - 4..];
    } else if |s| >= 4 {
      assert s[|p| - 1] == '/' && s[|s| - 4..][|p| - 1 - (|s| - 4)] == '/';
      assert '/' !in ".git";
    }
  }

  /** Collapsing slashes does not change whether something is left to take away. */
  lemma {:induction false} CollapseKeepsDone(s: string)
    requires Stable(s)
    ensures Done(CollapseSlashes(s)) <==> Done(s)
  {
    CollapseFacts(s);
    if s != "" {
      CollapsedTail(s);
      SuffixOfTail(s[..LastPart(s)], s[LastPart(s)..]);
      SuffixOfTail(CollapseSlashes(s[..LastPart(s)]), s[LastPart(s)..]);
    }
  }

  lemma {:induction false} NormalizeKeeps(t: string)
    requires t != "" && Stable(t) && Done(t) && CollapseSlashes(t) == t && forall c :: c in t ==> !('A' <= c <= 'Z')
    ensures PlainRepoId(t) == Some(t)
  {
    TrimKeeps(t);
    LowerKeeps(t);
    StripKeeps(t);
  }

  lemma {:induction false} NormalizeShortens(t: string)
    requires t != "" && !Done(t)
    ensures PlainRepoId(t) != Some(t)
  {
    var trimmed := Trim(t);
    if |trimmed| == |t| {
      assert trimmed == t;
      TrimmedEnds(t);
      if trimmed != "" {
        LowerKeepsGit(t);
      }
    }
  }

  lemma {:induction false} TrimmedEnds(t: string)
    requires Trim(t) == t && t != ""
    ensures !IsSpace(t[0]) && !IsSpace(t[|t| - 1])
  {
    assert TrimStart(t) == t;
  }

  lemma {:induction false} LowerKeepsGit(t: string)
    requires EndsWith(t, ".git")
    ensures EndsWith(Lower(t), ".git")
  {
    GitIsSmall(".git");
    SmallSuffixStays(t, ".git");
  }

  lemma {:induction false} GitIsSmall(git: string)
    requires git == ".git"
    ensures forall i :: 0 <= i < |git| ==> !('A' <= git[i] <= 'Z')
  {
  }

  lemma {:induction false} SmallSuffixStays(t: string, end: string)
    requires EndsWith(t, end) && forall i :: 0 <= i < |end| ==> !('A' <= end[i] <= 'Z')
    ensures EndsWith(Lower(t), end)
  {
    var n := |t| - |end|;
    forall i | 0 <= i < |end| ensures Lower(t)[n..][i] == end[i] {
      assert t[n + i] == end[i];
    }
  }

  lemma {:induction false} NormalizeOnceMore(t: string)
    requires Stable(t) && CollapseSlashes(t) == t && forall c :: c in t ==> !('A' <= c <= 'Z')
    ensures PlainRepoId(t).GetOr("") == t <==> Done(t)
  {
    if t != "" {
      if Done(t) {
        NormalizeKeeps(t);
      } else {
        NormalizeShortens(t);
      }
    }
  }

  /** Normalizing a plain id a second time changes nothing exactly when what the first time strips
      leaves no space at the ends and no further ".git". */
  lemma {:induction false} NormalizeTwiceIff(raw: string)
    ensures PlainRepoId(raw).Some? ==>
              (PlainRepoId(PlainRepoId(raw).value).GetOr("") == PlainRepoId(raw).value <==> Done(Stripped(raw)))
  {
    if PlainRepoId(raw).Some? {
      var w := Stripped(raw);
      StrippedIsStable(raw);
      LowerHasNoCapital(Trim(raw));
      CollapseKeepsDone(w);
      CollapseTwice(w);
      CollapseFacts(w);
      NormalizeOnceMore(CollapseSlashes(w));
    }
  }

  lemma {:induction false} LowerStaysPlain(s: string)
    requires Plain(s)
    ensures Plain(Lower(s))
  {
    forall i | 0 <= i < |s| ensures Lower(s)[i] < '\U{0080}' && Lower(s)[i] != ':' {
      assert s[i] in s;
    }
  }

  lemma {:induction false} TrimStaysPlain(s: string)
    requires Plain(s)
    ensures Plain(Trim(s))
  {
    var t := TrimStart(s);
    forall c | c in Trim(s) ensures c in s {
      assert c in t;
    }
  }

  lemma {:induction false} PlainStaysPlain(raw: string)
    requires Plain(raw)
    ensures PlainRepoId(raw).Some? ==> Plain(PlainRepoId(raw).value)
  {
    TrimStaysPlain(raw);
    LowerStaysPlain(Trim(raw));
    StrippedIsStable(raw);
    CollapseFacts(Stripped(raw));
  }

  // ---------------------------------------------------------------- git@host:path

  function Tidy(raw: string): string {
    Lower(Trim(raw))
  }

  /** The position of the first colon, or |s|. */
  function Colon(s: string): (k: nat)
    ensures k <= |s|
  {
    if s == "" || s[0] == ':' then 0 else 1 + Colon(s[1..])
  }

  lemma {:induction false} NoColonBefore(s: string)
    ensures ':' !in s[..Colon(s)]
  {
    if s != "" && s[0] != ':' {
      NoColonBefore(s[1..]);
      assert s[..Colon(s)] == [s[0]] + s[1..][..Colon(s[1..])];
    }
  }

  /** Matches /^git@([^:]+):(.+)$/, with no second colon in the path. */
  predicate IsAddress(s: string) {
    var k := Colon(s);
    && 4 < k < |s| - 1 && s[..4] == "git@"
    && ':' !in s[k + 1..] && '\n' !in s[k + 1..] && '\r' !in s[k + 1..] && '\U{2028}' !in s[k + 1..] && '\U{2029}' !in s[k + 1..]
  }

  predicate Ascii(raw: string) {
    forall c :: c in raw ==> c < '\U{0080}'
  }

  /** host/path */
  function HostPath(s: string): string
    requires IsAddress(s)
  {
    s[4..Colon(s)] + ['/'] + s[Colon(s) + 1..]
  }

  /** host/path without ".git". */
  function Address(s: string): string
    requires IsAddress(s)
  {
    StripGit(HostPath(s))
  }

  function AddressRepoId(raw: string): string
    requires IsAddress(Tidy(raw))
  {
    CollapseSlashes(Address(Tidy(raw)))
  }

  lemma {:induction false} HostPathIsPlain(s: string)
    requires IsAddress(s) && Ascii(s)
    ensures Plain(HostPath(s))
    ensures forall c :: c in HostPath(s) ==> c in s || c == '/'
  {
    var k := Colon(s);
    NoColonBefore(s);
    forall c | c in HostPath(s) ensures c < '\U{0080}' && c != ':' && (c in s || c == '/') {
      if c in s[4..k] {
        var i :| 4 <= i < k && s[i] == c;
        assert c in s && s[..k][i] == c;
      } else if c in s[k + 1..] {
        assert c in s;
      }
    }
  }

  /** With a slash in it, something stays in front of ".git". */
  lemma {:induction false} StripGitLeaves(s: string, git: string)
    requires '/' in s && git == ".git"
    ensures StripGit(s) != ""
  {
    assert '/' !in git;
  }

  lemma {:induction false} AddressIsPlain(s: string)
    requires IsAddress(s) && Ascii(s) && forall c :: c in s ==> !('A' <= c <= 'Z')
    ensures Plain(Address(s)) && Address(s) != "" && forall c :: c in Address(s) ==> !('A' <= c <= 'Z')
  {
    HostPathIsPlain(s);
    StripHostPath(s);
  }

  lemma {:induction false} TidyIsSmall(raw: string)
    requires Ascii(raw)
    ensures Ascii(Tidy(raw)) && forall c :: c in Tidy(raw) ==> !('A' <= c <= 'Z')
  {
    TrimStaysAscii(raw);
    LowerStaysAscii(Trim(raw));
    LowerHasNoCapital(Trim(raw));
  }

  lemma {:induction false} StripHostPath(s: string)
    requires IsAddress(s)
    ensures StripGit(HostPath(s)) != "" && forall c :: c in StripGit(HostPath(s)) ==> c in HostPath(s)
  {
    assert HostPath(s)[Colon(s) - 4] == '/';
    StripGitLeaves(HostPath(s), ".git");
  }

  lemma {:induction false} LowerStaysAscii(s: string)
    requires Ascii(s)
    ensures Ascii(Lower(s))
  {
    forall i | 0 <= i < |s| ensures Lower(s)[i] < '\U{0080}' {
      assert s[i] in s;
    }
  }

  lemma {:induction false} TrimStaysAscii(s: string)
    requires Ascii(s)
    ensures Ascii(Trim(s))
  {
    PartStaysAscii(s, TrimStart(s));
    PartStaysAscii(TrimStart(s), Trim(s));
  }

  lemma {:induction false} PartStaysAscii(s: string, t: string)
    requires Ascii(s) && (t <= s || (|t| <= |s| && t == s[|s| - |t|..]))
    ensures Ascii(t)
  {
    forall c | c in t ensures c in s {
    }
  }

  lemma {:induction false} CollapseKeepsStable(s: string)
    ensures Stable(CollapseSlashes(s)) <==> Stable(s)
  {
    CollapseFacts(s);
  }

  lemma {:induction false} NormalizeStabilizes(t: string)
    requires !Stable(t)
    ensures PlainRepoId(t).GetOr("") != t
  {
    if Trim(t) != "" {
      StrippedIsStable(t);
      CollapseKeepsStable(Stripped(t));
    }
  }

  /** Normalizing an address a second time changes nothing exactly when host/path, without one ".git",
      has no space or slash at its ends and no further ".git". */
  lemma {:induction false} AddressTwiceIff(raw: string)
    requires Ascii(raw) && IsAddress(Tidy(raw))
    ensures Plain(AddressRepoId(raw))
    ensures PlainRepoId(AddressRepoId(raw)).GetOr("") == AddressRepoId(raw) <==> Stable(Address(Tidy(raw))) && Done(Address(Tidy(raw)))
  {
    var w := Address(Tidy(raw));
    TidyIsSmall(raw);
    AddressIsPlain(Tidy(raw));
    CollapseFacts(w);
    CollapseKeepsStable(w);
    if Stable(w) {
      CollapseKeepsDone(w);
      CollapseTwice(w);
      NormalizeOnceMore(CollapseSlashes(w));
    } else {
      NormalizeStabilizes(CollapseSlashes(w));
    }
  }

  lemma {:induction false} LastOfSuffix(t: string, end: string)
    requires end != "" && EndsWith(t, end)
    ensures t[|t| - 1] == end[|end| - 1]
  {
  }

  lemma {:induction false} NoGitAfterSlash(t: string)
    requires t != "" && t[|t| - 1] == '/'
    ensures StripGit(t) == t
  {
    if EndsWith(t, ".git") {
      LastOfSuffix(t, ".git");
    }
  }

  /** A slash at the end of an address survives the first time and not the second. */
  lemma {:induction false} SlashStays(s: string)
    requires IsAddress(s) && s[|s| - 1] == '/'
    ensures !Stable(Address(s))
  {
    var t := HostPath(s);
    assert t[|t| - 1] == s[|s| - 1];
    NoGitAfterSlash(t);
  }

  /** A plain lower-case name. */
  predicate Name(x: string) {
    Plain(x) && x != "" && !IsSpace(x[0]) && x[0] != '/' && forall c :: c in x ==> !('A' <= c <= 'Z')
  }

  lemma {:induction false} GitName(x: string, git: string)
    requires Name(x) && git == ".git"
    ensures Name(x + git) && EndsWith(x + git, git) && x + git != "" && !Done(x + git)
    ensures StripGit(x + git) == x && (x + git)[|x + git| - 1] == 't'
  {
    forall c | c in x + git ensures c < '\U{0080}' && c != ':' && !('A' <= c <= 'Z') {
      assert c in x || c in git;
    }
  }

  lemma {:induction false} NameIsTidy(x: string)
    requires Name(x) && !IsSpace(x[|x| - 1]) && x[|x| - 1] != '/'
    ensures Trim(x) == x && Lower(x) == x && StripSlashes(x) == x
  {
    TrimKeeps(x);
    LowerKeeps(x);
    StripKeeps(x);
  }

  /** Of a name with ".git" twice, one is left. */
  lemma {:induction false} GitTwice(x: string, git: string)
    requires Name(x) && git == ".git"
    ensures Plain(x + git + git) && Trim(x + git + git) != "" && !Done(Stripped(x + git + git))
  {
    GitName(x, git);
    GitName(x + git, git);
    NameIsTidy(x + git);
    NameIsTidy(x + git + git);
  }
}
