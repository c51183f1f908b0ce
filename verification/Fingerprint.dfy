/** computeMemoryFingerprint (shared/memory-fingerprint.ts:42-117): the text that is hashed.  NFC,
    case folding and the preference and skill patterns are parameters; SHA-256 is left out. */
module Fingerprint {
  import opened Wrappers
  import Text

  const NUL: char := '\0'
  const REPLACEMENT: char := '\U{FFFD}'
  const DOMAIN: string := "imcodes:memory-fingerprint"

  datatype Kind = Summary | Preference | Skill | Decision | Note

  function KindName(k: Kind): string {
    match k
    case Summary => "summary"
    case Preference => "preference"
    case Skill => "skill"
    case Decision => "decision"
    case Note => "note"
  }

  /** The Unicode and pattern machinery: any functions will do that make no NUL out of nothing. */
  datatype Machinery = Machinery(
    nfc: string -> string, lower: string -> string, stripPreference: string -> string, tidySkill: string -> string)

  ghost predicate InventsNoNul(f: string -> string) {
    forall s :: NUL !in s ==> NUL !in f(s)
  }

  ghost predicate Tame(m: Machinery) {
    InventsNoNul(m.lower) && InventsNoNul(m.stripPreference) && InventsNoNul(m.tidySkill)
  }

  /** replace(/\r\n?/g, '\n') */
  function UnixLines(s: string): (r: string)
    ensures '\r' !in r
  {
    if s == "" then ""
    else if s[0] == '\r' then "\n" + UnixLines(if |s| > 1 && s[1] == '\n' then s[2..] else s[1..])
    else [s[0]] + UnixLines(s[1..])
  }

  /** replace(/\0/g, '\uFFFD') */
  function NoNul(s: string): (r: string)
    ensures |r| == |s| && NUL !in r
    ensures forall i :: 0 <= i < |s| ==> r[i] == if s[i] == NUL then REPLACEMENT else s[i]
  {
    if s == "" then "" else [if s[0] == NUL then REPLACEMENT else s[0]] + NoNul(s[1..])
  }

  /** normalizeUnicodeAndLineEndings */
  function Fix(m: Machinery, s: string): (r: string)
    ensures NUL !in r
  {
    NoNul(UnixLines(m.nfc(s)))
  }

  /** replace(/\s+/gu, ' '), given whether the character before was white space */
  function Collapse(s: string, inSpace: bool): (r: string)
    ensures NUL !in s ==> NUL !in r
  {
    if s == "" then ""
    else if Text.IsSpace(s[0]) then (if inSpace then "" else " ") + Collapse(s[1..], true)
    else [s[0]] + Collapse(s[1..], false)
  }

  function CollapseWhitespace(s: string): string {
    Text.Trim(Collapse(s, false))
  }

  lemma {:induction false} TrimKeeps(s: string, c: char)
    requires c !in s
    ensures c !in Text.Trim(s)
  {
    PartLacks(s, Text.TrimStart(s), c);
    PartLacks(Text.TrimStart(s), Text.Trim(s), c);
  }

  lemma {:induction false} PartLacks(s: string, t: string, c: char)
    requires c !in s && (t <= s || (|t| <= |s| && t == s[|s| - |t|..]))
    ensures c !in t
  {
  }

  function Folded(m: Machinery, s: string): string {
    m.lower(CollapseWhitespace(Fix(m, s)))
  }

  /** normalizeContentForFingerprint */
  function NormalizeContent(m: Machinery, k: Kind, content: string): string {
    match k
    case Summary | Decision => Folded(m, content)
    case Preference => Folded(m, m.stripPreference(Fix(m, content)))
    case Skill => m.tidySkill(Fix(m, content))
    case Note => CollapseWhitespace(Fix(m, content))
  }

  function NormalizeScope(m: Machinery, scopeKey: Option<string>): string {
    Text.Trim(Fix(m, scopeKey.GetOr("")))
  }

  function JoinParts(version: string, kind: string, scope: string, content: string): string {
    Text.Join(NUL, [DOMAIN, version, kind, scope, content])
  }

  /** What computeMemoryFingerprint is given, and what of it goes into the hash. */
  datatype Args = Args(version: string, kind: Kind, scopeKey: Option<string>, content: string)
  datatype Parts = Parts(version: string, kind: Kind, scope: string, content: string)

  function PartsOf(m: Machinery, x: Args): Parts {
    Parts(x.version, x.kind, NormalizeScope(m, x.scopeKey), NormalizeContent(m, x.kind, x.content))
  }

  function Preimage(m: Machinery, x: Args): string {
    var p := PartsOf(m, x);
    JoinParts(p.version, KindName(p.kind), p.scope, p.content)
  }

  lemma {:induction false} NormalizedHasNoNul(m: Machinery, k: Kind, scopeKey: Option<string>, content: string)
    requires Tame(m)
    ensures NUL !in NormalizeContent(m, k, content) && NUL !in NormalizeScope(m, scopeKey)
  {
    TrimKeeps(Fix(m, scopeKey.GetOr("")), NUL);
    TrimKeeps(Collapse(Fix(m, content), false), NUL);
    TrimKeeps(Collapse(Fix(m, m.stripPreference(Fix(m, content))), false), NUL);
  }

  lemma {:induction false} KindNamesDiffer(j: Kind, k: Kind)
    ensures KindName(j) == KindName(k) <==> j == k
    ensures NUL !in KindName(k) && NUL !in DOMAIN
  {
    assert |KindName(Summary)| == 7 && |KindName(Preference)| == 10 && |KindName(Skill)| == 5;
    assert |KindName(Decision)| == 8 && |KindName(Note)| == 4;
  }

  /** The hashed text determines version, kind, normalized scope and normalized content, and is
      determined by them: no memory can pose as one of another scope or kind. */
  lemma {:induction false} PreimageDeterminesParts(m: Machinery, x: Args, y: Args)
    requires Tame(m) && NUL !in x.version && NUL !in y.version
    ensures Preimage(m, x) == Preimage(m, y) <==> PartsOf(m, x) == PartsOf(m, y)
  {
    var p, q := PartsOf(m, x), PartsOf(m, y);
    NormalizedHasNoNul(m, x.kind, x.scopeKey, x.content);
    NormalizedHasNoNul(m, y.kind, y.scopeKey, y.content);
    KindNamesDiffer(x.kind, y.kind);
    KindNamesDiffer(y.kind, x.kind);
    PartsAreReadable(p.version, KindName(p.kind), p.scope, p.content, q.version, KindName(q.kind), q.scope, q.content);
  }

  lemma {:induction false} PartsAreReadable(v: string, j: string, s: string, a: string, w: string, k: string, t: string, b: string)
    requires NUL !in v && NUL !in j && NUL !in s && NUL !in a && NUL !in w && NUL !in k && NUL !in t && NUL !in b
    ensures JoinParts(v, j, s, a) == JoinParts(w, k, t, b) <==> v == w && j == k && s == t && a == b
  {
    var p, q := [DOMAIN, v, j, s, a], [DOMAIN, w, k, t, b];
    assert NUL !in DOMAIN;
    assert p[1] == v && p[2] == j && p[3] == s && p[4] == a && q[1] == w && q[2] == k && q[3] == t && q[4] == b;
    Text.JoinIsInjective(NUL, p, q);
  }

  /** Two memories are hashed alike exactly when they have the same version and kind and, normalized, the same
      scope and content. */
  lemma {:induction false} PreimagesAgreeIff(m: Machinery, x: Args, y: Args)
    requires Tame(m) && NUL !in x.version && NUL !in y.version
    ensures Preimage(m, x) == Preimage(m, y)
            <==> && x.version == y.version && x.kind == y.kind
                 && NormalizeScope(m, x.scopeKey) == NormalizeScope(m, y.scopeKey)
                 && NormalizeContent(m, x.kind, x.content) == NormalizeContent(m, y.kind, y.content)
  {
    PreimageDeterminesParts(m, x, y);
  }

  /** However a preimage is cut at its NULs, the five pieces are the domain, the version, the kind's name, the
      scope and the content, in this order. */
  lemma {:induction false} PreimageReadsBack(m: Machinery, x: Args, pieces: seq<string>)
    requires Tame(m) && NUL !in x.version && |pieces| == 5 && (forall k :: 0 <= k < 5 ==> NUL !in pieces[k])
    requires Preimage(m, x) == Text.Join(NUL, pieces)
    ensures pieces[0] == DOMAIN && pieces[1] == x.version && pieces[2] == KindName(x.kind)
    ensures pieces[3] == NormalizeScope(m, x.scopeKey) && pieces[4] == NormalizeContent(m, x.kind, x.content)
  {
    NormalizedHasNoNul(m, x.kind, x.scopeKey, x.content);
    KindNamesDiffer(x.kind, x.kind);
    CutReads(x.version, KindName(x.kind), NormalizeScope(m, x.scopeKey), NormalizeContent(m, x.kind, x.content), pieces);
  }

  lemma {:induction false} CutReads(version: string, kind: string, scope: string, content: string, pieces: seq<string>)
    requires NUL !in DOMAIN && NUL !in version && NUL !in kind && NUL !in scope && NUL !in content
    requires |pieces| == 5 && (forall k :: 0 <= k < 5 ==> NUL !in pieces[k])
    requires JoinParts(version, kind, scope, content) == Text.Join(NUL, pieces)
    ensures pieces[0] == DOMAIN && pieces[1] == version && pieces[2] == kind && pieces[3] == scope && pieces[4] == content
  {
    FivePieces([DOMAIN, version, kind, scope, content], pieces);
  }

  lemma {:induction false} FivePieces(parts: seq<string>, pieces: seq<string>)
    requires |parts| == |pieces| == 5 && Text.Join(NUL, parts) == Text.Join(NUL, pieces)
    requires NUL !in parts[0] && NUL !in parts[1] && NUL !in parts[2] && NUL !in parts[3] && NUL !in parts[4]
    requires forall k :: 0 <= k < 5 ==> NUL !in pieces[k]
    ensures parts == pieces
  {
    Text.JoinIsInjective(NUL, parts, pieces);
  }
}
