/** What computeProjectionContentHash hashes (shared/memory-content-hash.ts:30-49): owner metadata
    is stripped from the top level, the summary is trimmed, and the two are joined by a newline.
    SHA-256 itself stays uninterpreted: everything is about its input. */
module ContentHash {
  import opened CodeUnits
  import opened Json
  import opened CanonicalJson

  function Strip(reserved: set<Text>, members: seq<Member>): (r: seq<Member>)
    ensures |r| <= |members| && (|r| == |members| ==> r == members)
  {
    if members == [] then []
    else (if members[0].key in reserved then [] else [members[0]]) + Strip(reserved, members[1..])
  }

  lemma {:induction false} StripKeeps(reserved: set<Text>, members: seq<Member>)
    ensures forall m :: m in Strip(reserved, members) <==> m in members && m.key !in reserved
  {
    if members != [] {
      StripKeeps(reserved, members[1..]);
      assert forall m :: m in members <==> m == members[0] || m in members[1..];
    }
  }

  lemma {:induction false} StripDistinct(reserved: set<Text>, members: seq<Member>)
    requires DistinctKeys(members)
    ensures DistinctKeys(Strip(reserved, members))
  {
    if members != [] {
      assert DistinctKeys(members[1..]);
      StripDistinct(reserved, members[1..]);
      StripKeeps(reserved, members[1..]);
      var tail := Strip(reserved, members[1..]);
      forall k | 0 <= k < |tail| ensures tail[k].key != members[0].key {
        assert tail[k] in tail;
        var i :| 0 < i < |members| && members[i] == tail[k];
      }
    }
  }

  /** projectionSemanticContent: only top-level reserved keys go; anything else is untouched. */
  method SemanticContent(reserved: set<Text>, content: Value) returns (r: Value)
    ensures r == Semantic(reserved, content)
  {
    if !content.Record? {
      return content;
    }
    var stripped := false;
    var semantic: seq<Member> := [];
    var rest := content.members;
    while rest != []
      invariant semantic + Strip(reserved, rest) == Strip(reserved, content.members)
      invariant stripped <==> |semantic| + |rest| < |content.members|
      invariant |semantic| + |rest| <= |content.members|
      decreases |rest|
    {
      NextKept(reserved, rest, semantic);
      if rest[0].key in reserved {
        stripped := true;
      } else {
        semantic := semantic + [rest[0]];
      }
      rest := rest[1..];
    }
    assert semantic + [] == semantic;
    r := if stripped then Record(semantic) else content;
  }

  lemma {:induction false} NextKept(reserved: set<Text>, rest: seq<Member>, before: seq<Member>)
    requires rest != []
    ensures before + Strip(reserved, rest)
            == (if rest[0].key in reserved then before else before + [rest[0]]) + Strip(reserved, rest[1..])
  {
  }

  function Semantic(reserved: set<Text>, content: Value): Value {
    if content.Record? then Record(Strip(reserved, content.members)) else content
  }

  /** `${domain}${summary.trim()}\n${stableJson(semantic)}` */
  function Preimage(domain: Text, reserved: set<Text>, trimmedSummary: Text, content: Value): Text {
    domain + trimmedSummary + [NEWLINE] + StableJson(Semantic(reserved, content))
  }

  lemma {:induction false} EscapeHasNoNewline(s: Text)
    ensures NEWLINE !in Escape(s)
  {
    if s == [] {
    } else if |s| > 1 && IsHigh(s[0]) && IsLow(s[1]) {
      EscapeHasNoNewline(s[2..]);
    } else {
      EscapeHasNoNewline(s[1..]);
      assert NEWLINE !in EscapeUnit(s[0]);
    }
  }

  lemma {:induction false} PrintHasNoNewline(v: Value)
    ensures NEWLINE !in Print(v)
    decreases v
  {
    match v
    case Str(text) => EscapeHasNoNewline(text);
    case List(items) => ItemsHaveNoNewline(v, items);
    case Record(members) => MembersHaveNoNewline(v, members);
    case _ =>
  }

  lemma {:induction false} ItemsHaveNoNewline(owner: Value, items: seq<Value>)
    requires forall i :: 0 <= i < |items| ==> (owner decreases to items[i])
    ensures NEWLINE !in PrintItems(items)
    decreases owner, |items|
  {
    if items != [] {
      PrintHasNoNewline(items[0]);
      ItemsHaveNoNewline(owner, items[1..]);
    }
  }

  lemma {:induction false} MembersHaveNoNewline(owner: Value, members: seq<Member>)
    requires forall m :: m in members ==> (owner decreases to m.value)
    ensures NEWLINE !in PrintMembers(members)
    decreases owner, |members|
  {
    if members != [] {
      EscapeHasNoNewline(members[0].key);
      PrintHasNoNewline(members[0].value);
      MembersHaveNoNewline(owner, members[1..]);
    }
  }

  lemma {:induction false} LongerHeadMeansNewline(a: Text, b: Text, x: Text, y: Text)
    requires a + [NEWLINE] + x == b + [NEWLINE] + y
    ensures |a| < |b| ==> NEWLINE in x
  {
    if |a| < |b| {
      assert (a + [NEWLINE] + x)[|b|] == (b + [NEWLINE] + y)[|b|] == NEWLINE;
      assert x[|b| - |a| - 1] == NEWLINE;
    }
  }

  /** A text splits at its last newline in one way only. */
  lemma {:induction false} LastNewline(a: Text, b: Text, x: Text, y: Text)
    requires a + [NEWLINE] + x == b + [NEWLINE] + y && NEWLINE !in x && NEWLINE !in y
    ensures a == b && x == y
  {
    LongerHeadMeansNewline(a, b, x, y);
    LongerHeadMeansNewline(b, a, y, x);
    var s, t := a + [NEWLINE] + x, b + [NEWLINE] + y;
    assert s[..|a|] == a && t[..|b|] == b && s[|a| + 1..] == x && t[|b| + 1..] == y;
  }

  lemma {:induction false} SemanticIsObject(reserved: set<Text>, content: Value)
    requires IsObject(content)
    ensures IsObject(Semantic(reserved, content))
  {
    if content.Record? {
      var r := Strip(reserved, content.members);
      StripKeeps(reserved, content.members);
      StripDistinct(reserved, content.members);
      forall k | 0 <= k < |r| ensures IsObject(r[k].value) {
        assert r[k] in content.members;
      }
    }
  }

  /** Two projections hash the same input exactly when their trimmed summaries are equal and their
      contents, owner metadata aside, are the same JSON value: the newline separator cannot be
      faked, although a summary may contain newlines and JSON. */
  lemma {:induction false} PreimageIsUnambiguous(domain: Text, reserved: set<Text>, s: Text, v: Value, t: Text, w: Value)
    requires IsObject(v) && IsObject(w)
    ensures Preimage(domain, reserved, s, v) == Preimage(domain, reserved, t, w)
            <==> s == t && Same(Semantic(reserved, v), Semantic(reserved, w))
  {
    var a, b := Semantic(reserved, v), Semantic(reserved, w);
    SemanticIsObject(reserved, v);
    SemanticIsObject(reserved, w);
    StableJsonIsUnambiguous(a, b);
    StableIsCanonical(a);
    StableIsCanonical(b);
    PrintHasNoNewline(Canon(a));
    PrintHasNoNewline(Canon(b));
    if Preimage(domain, reserved, s, v) == Preimage(domain, reserved, t, w) {
      LastNewline(domain + s, domain + t, StableJson(a), StableJson(b));
      assert (domain + s)[|domain|..] == s && (domain + t)[|domain|..] == t;
    }
  }
}
