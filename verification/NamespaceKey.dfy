/** buildNamespaceKey (shared/memory-namespace.ts:193-207): nine cleaned components, percent-encoded
    (section 2.1 of RFC 3986) and joined by colons. */
module NamespaceKey {
  import opened Wrappers
  import RepoId
  import Text
  import Utf8

  type byte = Utf8.byte

  // ---------------------------------------------------------------- encodeURIComponent

  /** The bytes encodeURIComponent copies. */
  predicate Unreserved(b: byte) {
    || 0x41 <= b <= 0x5A || 0x61 <= b <= 0x7A || 0x30 <= b <= 0x39
    || b == 0x2D || b == 0x5F || b == 0x2E || b == 0x21 || b == 0x7E || b == 0x2A
    || b == 0x27 || b == 0x28 || b == 0x29
  }

  function HexDigit(n: int): char
    requires 0 <= n < 16
  {
    if n < 10 then (0x30 + n) as char else (0x41 + n - 10) as char
  }

  function HexValue(c: char): int {
    if '0' <= c <= '9' then c as int - 0x30 else c as int - 0x41 + 10
  }

  function EncodeByte(b: byte): string {
    if Unreserved(b) then [b as char] else ['%', HexDigit(b as int / 16), HexDigit(b as int % 16)]
  }

  function EncodeBytes(bytes: seq<byte>): string {
    if bytes == [] then "" else EncodeByte(bytes[0]) + EncodeBytes(bytes[1..])
  }

  function EncodeComponent(s: string): string {
    EncodeBytes(Utf8.Encode(s))
  }

  function AsByte(n: int): byte {
    if 0 <= n < 256 then n as byte else 0
  }

  function DecodeBytes(t: string): seq<byte> {
    if t == "" then []
    else if t[0] == '%' && |t| >= 3 then [AsByte(HexValue(t[1]) * 16 + HexValue(t[2]))] + DecodeBytes(t[3..])
    else [AsByte(t[0] as int)] + DecodeBytes(t[1..])
  }

  lemma {:induction false} DecodeByte(b: byte, rest: string)
    ensures DecodeBytes(EncodeByte(b) + rest) == [b] + DecodeBytes(rest)
  {
    var t := EncodeByte(b) + rest;
    if Unreserved(b) {
      assert t[1..] == rest;
    } else {
      assert t[3..] == rest;
      assert HexValue(HexDigit(b as int / 16)) == b as int / 16 && HexValue(HexDigit(b as int % 16)) == b as int % 16;
    }
  }

  lemma {:induction false} DecodeEncoded(bytes: seq<byte>)
    ensures DecodeBytes(EncodeBytes(bytes)) == bytes
  {
    if bytes != [] {
      DecodeByte(bytes[0], EncodeBytes(bytes[1..]));
      DecodeEncoded(bytes[1..]);
    }
  }

  lemma {:induction false} NoColon(bytes: seq<byte>)
    ensures ':' !in EncodeBytes(bytes)
  {
    if bytes != [] {
      NoColon(bytes[1..]);
      assert ':' !in EncodeByte(bytes[0]);
    }
  }

  /** Percent-encoding loses nothing and never produces the separator. */
  lemma {:induction false} EncodeComponentIsInjective(s: string, t: string)
    ensures EncodeComponent(s) == EncodeComponent(t) <==> s == t
    ensures ':' !in EncodeComponent(s)
  {
    DecodeEncoded(Utf8.Encode(s));
    DecodeEncoded(Utf8.Encode(t));
    Utf8.EncodeIsInjective(s, t);
    NoColon(Utf8.Encode(s));
  }

  // ---------------------------------------------------------------- the key

  datatype Input = Input(
    scope: string, userId: Option<string>, orgId: Option<string>, enterpriseId: Option<string>,
    workspaceId: Option<string>, canonicalRepoId: Option<string>, projectId: Option<string>,
    rootSessionId: Option<string>, sessionTreeId: Option<string>, sessionId: Option<string>,
    key: Option<string>, name: Option<string>)

  /** a ?? b */
  function Or(a: Option<string>, b: Option<string>): Option<string> {
    if a.Some? then a else b
  }

  function Clean(v: Option<string>): Option<string> {
    if v.Some? && Text.Trim(v.value) != "" then Some(Text.Trim(v.value)) else None
  }

  /** normalizeCanonicalRepoId, of which the branches for plain ids and for addresses are known. */
  type Normalizer = Option<string> -> Option<string>

  ghost predicate FollowsPlain(normalize: Normalizer) {
    && normalize(None) == None
    && forall raw :: RepoId.Plain(raw) ==> normalize(Some(raw)) == RepoId.PlainRepoId(raw)
  }

  function ProjectOf(normalize: Normalizer, i: Input): string {
    normalize(Or(i.canonicalRepoId, i.projectId)).GetOr("")
  }

  function OwnerParts(i: Input): (r: seq<string>)
    ensures |r| == 5
  {
    [ "ctxns:v1",
      i.scope,
      Clean(i.userId).GetOr(""),
      Clean(Or(i.orgId, i.enterpriseId)).GetOr(""),
      Clean(i.workspaceId).GetOr("") ]
  }

  function SessionParts(i: Input): (r: seq<string>)
    ensures |r| == 3
  {
    [ Clean(Or(i.rootSessionId, i.sessionTreeId)).GetOr(""),
      Clean(i.sessionId).GetOr(""),
      Clean(Or(i.name, Some("default"))).GetOr("default") ]
  }

  /** The nine parts of a key. */
  function Components(normalize: Normalizer, i: Input): (r: seq<string>)
    ensures |r| == 9
  {
    OwnerParts(i) + [ProjectOf(normalize, i)] + SessionParts(i)
  }

  function EncodeAll(parts: seq<string>): (r: seq<string>)
    ensures |r| == |parts| && forall i :: 0 <= i < |r| ==> r[i] == EncodeComponent(parts[i])
  {
    seq(|parts|, i requires 0 <= i < |parts| => EncodeComponent(parts[i]))
  }

  function BuildKey(normalize: Normalizer, i: Input): string {
    Text.Join(':', EncodeAll(Components(normalize, i)))
  }

  lemma {:induction false} EncodedJoin(p: seq<string>, q: seq<string>)
    requires |p| == |q|
    ensures Text.Join(':', EncodeAll(p)) == Text.Join(':', EncodeAll(q)) <==> p == q
  {
    var a, b := EncodeAll(p), EncodeAll(q);
    forall k | 0 <= k < |p|
      ensures a[k] == b[k] <==> p[k] == q[k]
      ensures ':' !in a[k] && ':' !in b[k]
    {
      EncodeComponentIsInjective(p[k], q[k]);
      EncodeComponentIsInjective(q[k], p[k]);
    }
    Text.JoinIsInjective(':', a, b);
    if a == b {
      assert forall k :: 0 <= k < |p| ==> a[k] == b[k];
    }
  }

  /** Two inputs get the same key exactly when their nine cleaned components are equal. */
  lemma {:induction false} KeyDeterminesComponents(normalize: Normalizer, i: Input, j: Input)
    ensures BuildKey(normalize, i) == BuildKey(normalize, j) <==> Components(normalize, i) == Components(normalize, j)
  {
    EncodedJoin(Components(normalize, i), Components(normalize, j));
  }

  // ---------------------------------------------------------------- what a key is made of

  /** A field without the space at its ends, empty if it is missing. */
  ghost function Said(v: Option<string>): string {
    if v.None? then "" else Text.Trim(v.value)
  }

  ghost function OrgOf(i: Input): string {
    if i.orgId.Some? then Said(i.orgId) else Said(i.enterpriseId)
  }

  ghost function RootOf(i: Input): string {
    if i.rootSessionId.Some? then Said(i.rootSessionId) else Said(i.sessionTreeId)
  }

  ghost function NameOf(i: Input): string {
    if Said(i.name) == "" then "default" else Said(i.name)
  }

  ghost function RepoOf(normalize: Normalizer, i: Input): string {
    if i.canonicalRepoId.Some? then normalize(i.canonicalRepoId).GetOr("") else normalize(i.projectId).GetOr("")
  }

  lemma {:induction false} CleanIs(v: Option<string>)
    ensures Clean(v).GetOr("") == Said(v) && (Clean(v).None? <==> Said(v) == "")
  {
  }

  lemma {:induction false} OrgIs(i: Input)
    ensures Clean(Or(i.orgId, i.enterpriseId)).GetOr("") == OrgOf(i)
  {
    CleanIs(Or(i.orgId, i.enterpriseId));
  }

  lemma {:induction false} RootIs(i: Input)
    ensures Clean(Or(i.rootSessionId, i.sessionTreeId)).GetOr("") == RootOf(i)
  {
    CleanIs(Or(i.rootSessionId, i.sessionTreeId));
  }

  lemma {:induction false} NameIs(i: Input, name: string)
    requires name == "default"
    ensures Clean(Or(i.name, Some(name))).GetOr(name) == NameOf(i)
  {
    CleanIs(i.name);
    if i.name.None? {
      RepoId.TrimKeeps(name);
    }
  }

  lemma {:induction false} OwnerPartsAre(i: Input)
    ensures var p := OwnerParts(i);
            p[0] == "ctxns:v1" && p[1] == i.scope && p[2] == Said(i.userId) && p[3] == OrgOf(i) && p[4] == Said(i.workspaceId)
  {
    var user, org, workspace := Clean(i.userId).GetOr(""), Clean(Or(i.orgId, i.enterpriseId)).GetOr(""), Clean(i.workspaceId).GetOr("");
    var p := OwnerParts(i);
    assert p[0] == "ctxns:v1" && p[1] == i.scope && p[2] == user && p[3] == org && p[4] == workspace;
    assert user == Said(i.userId) by {
      CleanIs(i.userId);
    }
    assert org == OrgOf(i) by {
      OrgIs(i);
    }
    assert workspace == Said(i.workspaceId) by {
      CleanIs(i.workspaceId);
    }
  }

  lemma {:induction false} SessionPartsAre(i: Input)
    ensures var p := SessionParts(i); p[0] == RootOf(i) && p[1] == Said(i.sessionId) && p[2] == NameOf(i)
  {
    RootIs(i);
    CleanIs(i.sessionId);
    NameIs(i, "default");
  }

  lemma {:induction false} Pieces<T>(a: seq<T>, x: T, b: seq<T>)
    requires |a| == 5 && |b| == 3
    ensures var s := a + [x] + b;
            && |s| == 9 && s[0] == a[0] && s[1] == a[1] && s[2] == a[2] && s[3] == a[3] && s[4] == a[4]
            && s[5] == x && s[6] == b[0] && s[7] == b[1] && s[8] == b[2]
  {
  }

  lemma {:induction false} ComponentsAre(normalize: Normalizer, i: Input)
    ensures var s := Components(normalize, i);
            && s[0] == "ctxns:v1" && s[1] == i.scope && s[2] == Said(i.userId) && s[3] == OrgOf(i)
            && s[4] == Said(i.workspaceId) && s[5] == RepoOf(normalize, i)
            && s[6] == RootOf(i) && s[7] == Said(i.sessionId) && s[8] == NameOf(i)
  {
    OwnerPartsAre(i);
    SessionPartsAre(i);
    Pieces(OwnerParts(i), ProjectOf(normalize, i), SessionParts(i));
  }

  /** Two inputs get the same key exactly when they agree, cleaned, on scope, user, organization (or
      enterprise), workspace, project, root session (or session tree), session and name. */
  lemma {:induction false} KeysAgreeIff(normalize: Normalizer, i: Input, j: Input)
    ensures BuildKey(normalize, i) == BuildKey(normalize, j)
            <==> && i.scope == j.scope && Said(i.userId) == Said(j.userId) && OrgOf(i) == OrgOf(j)
                 && Said(i.workspaceId) == Said(j.workspaceId) && RepoOf(normalize, i) == RepoOf(normalize, j)
                 && RootOf(i) == RootOf(j) && Said(i.sessionId) == Said(j.sessionId) && NameOf(i) == NameOf(j)
  {
    KeyDeterminesComponents(normalize, i, j);
    ComponentsAre(normalize, i);
    ComponentsAre(normalize, j);
    NineAlike(Components(normalize, i), Components(normalize, j));
  }

  lemma {:induction false} NineAlike(s: seq<string>, t: seq<string>)
    requires |s| == 9 && |t| == 9
    ensures s == t <==> && s[0] == t[0] && s[1] == t[1] && s[2] == t[2] && s[3] == t[3] && s[4] == t[4] && s[5] == t[5]
                        && s[6] == t[6] && s[7] == t[7] && s[8] == t[8]
  {
  }

  /** However a key is cut at its colons, the nine pieces are the encoded fields, in this order. */
  lemma {:induction false} KeyReadsBack(normalize: Normalizer, i: Input, pieces: seq<string>)
    requires |pieces| == 9 && (forall k :: 0 <= k < 9 ==> ':' !in pieces[k]) && BuildKey(normalize, i) == Text.Join(':', pieces)
    ensures pieces[0] == EncodeComponent("ctxns:v1") && pieces[1] == EncodeComponent(i.scope)
    ensures pieces[2] == EncodeComponent(Said(i.userId)) && pieces[3] == EncodeComponent(OrgOf(i))
    ensures pieces[4] == EncodeComponent(Said(i.workspaceId)) && pieces[5] == EncodeComponent(RepoOf(normalize, i))
    ensures pieces[6] == EncodeComponent(RootOf(i)) && pieces[7] == EncodeComponent(Said(i.sessionId))
    ensures pieces[8] == EncodeComponent(NameOf(i))
  {
    var encoded := EncodeAll(Components(normalize, i));
    forall k | 0 <= k < 9 ensures ':' !in encoded[k] {
      EncodeComponentIsInjective(Components(normalize, i)[k], "");
    }
    Text.JoinIsInjective(':', encoded, pieces);
    ComponentsAre(normalize, i);
  }

  /** createContextNamespaceBinding's key: an explicit one, else built from the input with its
      project id already normalized - so normalized a second time. */
  function BindingKey(normalize: Normalizer, i: Input): string {
    var given := Clean(i.key);
    if given.Some? then given.value
    else BuildKey(normalize, i.(projectId := normalize(Or(i.canonicalRepoId, i.projectId))))
  }

  /** An explicit key is taken as it is.  Otherwise a binding's key is the input's key exactly when a
      canonical repo id is given or normalizing the project id twice changes nothing more. */
  lemma {:induction false} BindingKeyAgreesIff(normalize: Normalizer, i: Input)
    ensures Said(i.key) != "" ==> BindingKey(normalize, i) == Said(i.key)
    ensures Said(i.key) == "" ==>
              (BindingKey(normalize, i) == BuildKey(normalize, i)
               <==> i.canonicalRepoId.Some? || normalize(normalize(i.projectId)).GetOr("") == normalize(i.projectId).GetOr(""))
  {
    var j := i.(projectId := normalize(Or(i.canonicalRepoId, i.projectId)));
    CleanIs(i.key);
    KeyDeterminesComponents(normalize, j, i);
    SameButProject(normalize, j, i);
  }

  /** For a plain project id the keys agree exactly when what normalizing strips from it leaves no
      space at the ends and no further ".git". */
  lemma {:induction false} PlainBindingKeyAgreesIff(normalize: Normalizer, i: Input)
    requires FollowsPlain(normalize) && Said(i.key) == "" && i.canonicalRepoId.None?
    requires i.projectId.Some? && RepoId.Plain(i.projectId.value)
    ensures BindingKey(normalize, i) == BuildKey(normalize, i)
            <==> Text.Trim(i.projectId.value) == "" || RepoId.Done(RepoId.Stripped(i.projectId.value))
  {
    var raw := i.projectId.value;
    BindingKeyAgreesIff(normalize, i);
    RepoId.NormalizeTwiceIff(raw);
    RepoId.PlainStaysPlain(raw);
  }

  ghost predicate FollowsAddresses(normalize: Normalizer) {
    forall raw :: RepoId.Ascii(raw) && RepoId.IsAddress(RepoId.Tidy(raw)) ==>
                    normalize(Some(raw)) == Some(RepoId.AddressRepoId(raw))
  }

  /** For an address git@host:path the keys agree exactly when host/path, without one ".git", has no
      space or slash at its ends and no further ".git". */
  lemma {:induction false} AddressBindingKeyAgreesIff(normalize: Normalizer, i: Input)
    requires FollowsPlain(normalize) && FollowsAddresses(normalize) && Said(i.key) == "" && i.canonicalRepoId.None?
    requires i.projectId.Some? && RepoId.Ascii(i.projectId.value) && RepoId.IsAddress(RepoId.Tidy(i.projectId.value))
    ensures var w := RepoId.Address(RepoId.Tidy(i.projectId.value));
            BindingKey(normalize, i) == BuildKey(normalize, i) <==> RepoId.Stable(w) && RepoId.Done(w)
  {
    BindingKeyAgreesIff(normalize, i);
    RepoId.AddressTwiceIff(i.projectId.value);
  }

  /** The keys differ for every address that ends in a slash. */
  lemma {:induction false} AddressKeyCanDiffer(normalize: Normalizer, i: Input)
    requires FollowsPlain(normalize) && FollowsAddresses(normalize) && Said(i.key) == "" && i.canonicalRepoId.None?
    requires i.projectId.Some? && RepoId.Ascii(i.projectId.value)
    requires var s := RepoId.Tidy(i.projectId.value); RepoId.IsAddress(s) && s[|s| - 1] == '/'
    ensures BindingKey(normalize, i) != BuildKey(normalize, i)
  {
    RepoId.SlashStays(RepoId.Tidy(i.projectId.value));
    AddressBindingKeyAgreesIff(normalize, i);
  }

  /** The keys differ for every project id x.git.git with a lower-case name x. */
  lemma {:induction false} BindingKeyCanDiffer(normalize: Normalizer, i: Input, x: string)
    requires FollowsPlain(normalize) && Said(i.key) == "" && i.canonicalRepoId.None?
    requires RepoId.Name(x) && i.projectId == Some(x + ".git" + ".git")
    ensures BindingKey(normalize, i) != BuildKey(normalize, i)
  {
    RepoId.GitTwice(x, ".git");
    PlainBindingKeyAgreesIff(normalize, i);
  }

  lemma {:induction false} SameButProject(normalize: Normalizer, j: Input, i: Input)
    requires OwnerParts(j) == OwnerParts(i) && SessionParts(j) == SessionParts(i)
    ensures Components(normalize, j) == Components(normalize, i) <==> ProjectOf(normalize, j) == ProjectOf(normalize, i)
  {
    Text.SameMiddle(OwnerParts(i), [ProjectOf(normalize, j)], [ProjectOf(normalize, i)], SessionParts(i));
  }
}
