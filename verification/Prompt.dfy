/** shared/p2p-workflow-prompt.ts: prompt sections are put into a fixed order and printed between
    fences that their text does not contain, so that the print can be undone. */
module Prompt {
  import opened Wrappers
  import Sorting
  import Text
  import Utf8

  /** P2P_PROMPT_SECTION_ORDER */
  datatype Kind =
    | RuntimeContract | PresetScaffold | NodeContract | ContextReferences
    | EvidenceSummary | PromptAppend | Guardrail

  datatype Section = Section(kind: Kind, text: string)

  const MAX_APPEND_BYTES: nat := 16 * 1024
  const MAX_FENCES: nat := 100

  function Rank(k: Kind): nat {
    match k
    case RuntimeContract => 0
    case PresetScaffold => 1
    case NodeContract => 2
    case ContextReferences => 3
    case EvidenceSummary => 4
    case PromptAppend => 5
    case Guardrail => 6
  }

  function KindName(k: Kind): string {
    match k
    case RuntimeContract => "system_runtime_contract"
    case PresetScaffold => "preset_scaffold"
    case NodeContract => "node_contract"
    case ContextReferences => "structured_context_references"
    case EvidenceSummary => "previous_evidence_summary"
    case PromptAppend => "prompt_append"
    case Guardrail => "final_runtime_guardrail"
  }

  // ---------------------------------------------------------------- assembling

  predicate Control(c: char) {
    c <= '\U{0008}' || c == '\U{000B}' || c == '\U{000C}' || '\U{000E}' <= c <= '\U{001F}' || c == '\U{007F}'
  }

  /** A prompt_append section is short enough and holds no control characters. */
  predicate Safe(s: Section) {
    s.kind.PromptAppend? ==> Utf8.ByteLength(s.text) <= MAX_APPEND_BYTES && forall c :: c in s.text ==> !Control(c)
  }

  datatype Problem = AppendTooLong | AppendHasControls

  function SectionRank(s: Section): int {
    Rank(s.kind)
  }

  predicate AtMost(a: int, b: int) {
    a <= b
  }

  function Ordered(sections: seq<Section>): seq<Section> {
    Sorting.Sort(Sorting.By(AtMost, SectionRank), sections)
  }

  method Assemble(sections: seq<Section>) returns (ok: bool, ordered: seq<Section>, problems: seq<Problem>)
    ensures ok <==> forall s :: s in sections ==> Safe(s)
    ensures ok <==> problems == []
    ensures ordered == Ordered(sections)
  {
    problems := [];
    for i := 0 to |sections|
      invariant problems == [] <==> forall k :: 0 <= k < i ==> Safe(sections[k])
    {
      var s := sections[i];
      if s.kind.PromptAppend? {
        if Utf8.ByteLength(s.text) > MAX_APPEND_BYTES {
          problems := problems + [AppendTooLong];
        }
        if exists c :: c in s.text && Control(c) {
          problems := problems + [AppendHasControls];
        }
      }
    }
    ok, ordered := problems == [], Ordered(sections);
  }

  /** The texts of one kind, in order. */
  ghost function OfKind(k: Kind, sections: seq<Section>): seq<Section> {
    if sections == [] then []
    else (if sections[0].kind == k then [sections[0]] else []) + OfKind(k, sections[1..])
  }

  lemma {:induction false} OfKindIsTies(k: Kind, sections: seq<Section>)
    ensures OfKind(k, sections) == Sorting.Ties(Sorting.By(AtMost, SectionRank), Section(k, ""), sections)
  {
    if sections != [] {
      OfKindIsTies(k, sections[1..]);
      var le := Sorting.By(AtMost, SectionRank);
      var x, y := Section(k, ""), sections[0];
      assert le(x, y) == AtMost(SectionRank(x), SectionRank(y)) && le(y, x) == AtMost(SectionRank(y), SectionRank(x));
    }
  }

  lemma {:induction false} RankOrder()
    ensures Sorting.TotalPreorder(Sorting.By(AtMost, SectionRank))
  {
    Sorting.ByPreorder(AtMost, SectionRank);
  }

  /** Assembly is a stable permutation into the fixed order. */
  lemma {:induction false} AssemblyIsStable(sections: seq<Section>, k: Kind)
    ensures multiset(Ordered(sections)) == multiset(sections)
    ensures forall i, j :: 0 <= i < j < |Ordered(sections)| ==> Rank(Ordered(sections)[i].kind) <= Rank(Ordered(sections)[j].kind)
    ensures OfKind(k, Ordered(sections)) == OfKind(k, sections)
  {
    RankOrder();
    var le := Sorting.By(AtMost, SectionRank);
    Sorting.SortSorted(le, sections);
    var r := Ordered(sections);
    forall i, j | 0 <= i < j < |r| ensures Rank(r[i].kind) <= Rank(r[j].kind) {
      assert le(r[i], r[j]);
    }
    Sorting.SortStable(le, Section(k, ""), sections);
    OfKindIsTies(k, sections);
    OfKindIsTies(k, r);
  }

  /** The kinds of section, in the order in which they are put. */
  const ORDER: seq<Kind> :=
    [RuntimeContract, PresetScaffold, NodeContract, ContextReferences, EvidenceSummary, PromptAppend, Guardrail]

  lemma {:induction false} RankIsPlace(k: Kind)
    ensures Rank(k) < |ORDER| && ORDER[Rank(k)] == k
  {
  }

  /** Sections stand in the order of their kinds, so nothing but a guardrail follows a guardrail, nothing but
      those and appended prompts follow an appended prompt, and a runtime contract comes before all else. */
  lemma {:induction false} SectionsInOrder(sections: seq<Section>, i: nat, j: nat)
    requires i < j < |Ordered(sections)|
    ensures var a, b := Ordered(sections)[i].kind, Ordered(sections)[j].kind;
            && (exists x, y :: 0 <= x <= y < |ORDER| && ORDER[x] == a && ORDER[y] == b)
            && (a == Guardrail ==> b == Guardrail)
            && (a == PromptAppend ==> b == PromptAppend || b == Guardrail)
            && (b == RuntimeContract ==> a == RuntimeContract)
  {
    var a, b := Ordered(sections)[i].kind, Ordered(sections)[j].kind;
    AssemblyIsStable(sections, a);
    RankIsPlace(a);
    RankIsPlace(b);
    assert Rank(a) <= Rank(b);
  }

  // ---------------------------------------------------------------- fences

  /** Where pattern first occurs in text. */
  function Find(text: string, pattern: string): (r: Option<nat>)
    ensures r.Some? ==> r.value + |pattern| <= |text| && pattern <= text[r.value..]
    ensures r.None? ==> !(pattern <= text)
  {
    if pattern <= text then Some(0)
    else if text == "" then None
    else
      var r := Find(text[1..], pattern);
      if r.Some? then Some(r.value + 1) else None
  }

  function FenceAt(index: nat): string {
    "<<<P2P_SECTION_" + Text.Decimal(index) + ">>>"
  }

  function FenceFrom(text: string, index: nat): (r: Option<string>)
    ensures r.Some? ==> Find(text, r.value).None?
    decreases MAX_FENCES - index
  {
    if index >= MAX_FENCES then None
    else if Find(text, FenceAt(index)).None? then Some(FenceAt(index))
    else FenceFrom(text, index + 1)
  }

  predicate Taken(text: string, index: nat) {
    Find(text, FenceAt(index)).Some?
  }

  /** The first of a hundred fences that the text does not contain. */
  method ChooseFence(text: string) returns (r: Option<string>)
    ensures r == FenceFrom(text, 0)
  {
    var index := 0;
    while index < MAX_FENCES
      invariant 0 <= index <= MAX_FENCES && FenceFrom(text, 0) == FenceFrom(text, index)
    {
      var fence := FenceAt(index);
      if Find(text, fence).None? {
        return Some(fence);
      }
      index := index + 1;
    }
    r := None;
  }

  lemma {:induction false} FenceStep(text: string, index: nat)
    requires index < MAX_FENCES
    ensures FenceFrom(text, index) == if Taken(text, index) then FenceFrom(text, index + 1) else Some(FenceAt(index))
  {
  }

  ghost predicate AllTaken(text: string, index: nat) {
    forall i :: index <= i < MAX_FENCES ==> Taken(text, i)
  }

  lemma {:induction false} AllTakenStep(text: string, index: nat)
    requires index < MAX_FENCES
    ensures AllTaken(text, index) <==> Taken(text, index) && AllTaken(text, index + 1)
  {
    if Taken(text, index) && AllTaken(text, index + 1) {
      forall i | index <= i < MAX_FENCES ensures Taken(text, i) {
        if i > index {
          assert index + 1 <= i;
        }
      }
    }
  }

  /** There is no fence exactly when the text contains all of them. */
  lemma {:induction false} NoFenceIffAllTaken(text: string, index: nat)
    ensures FenceFrom(text, index).None? <==> AllTaken(text, index)
    decreases MAX_FENCES - index
  {
    if index < MAX_FENCES {
      FenceStep(text, index);
      AllTakenStep(text, index);
      NoFenceIffAllTaken(text, index + 1);
    }
  }

  lemma {:induction false} FenceChars(index: nat)
    ensures ' ' !in FenceAt(index) && '\n' !in FenceAt(index) && FenceAt(index) != ""
  {
  }

  lemma {:induction false} ChosenFence(text: string, index: nat)
    ensures var r := FenceFrom(text, index); r.Some? ==> ' ' !in r.value && '\n' !in r.value && r.value != ""
    decreases MAX_FENCES - index
  {
    if index < MAX_FENCES {
      FenceChars(index);
      ChosenFence(text, index + 1);
    }
  }

  // ---------------------------------------------------------------- printing

  datatype Role = System | User | Assistant
  datatype Message = Message(role: Role, content: string)
  datatype Failure = UnsafeAppend | NoFence

  function RoleOf(k: Kind): Role {
    match k
    case EvidenceSummary => Assistant
    case PromptAppend | ContextReferences => User
    case _ => System
  }

  function Render(fence: string, s: Section): string {
    fence + " " + KindName(s.kind) + "\n" + s.text + "\n" + fence
  }

  /** map(...).join('\n\n'), unless some text contains every fence. */
  function RenderAll(sections: seq<Section>): Option<string> {
    if sections == [] then Some("")
    else
      var fence := FenceFrom(sections[0].text, 0);
      if fence.None? then None
      else if |sections| == 1 then Some(Render(fence.value, sections[0]))
      else
        var rest := RenderAll(sections[1..]);
        if rest.None? then None else Some(Render(fence.value, sections[0]) + "\n\n" + rest.value)
  }

  lemma {:induction false} PrintsStep(sections: seq<Section>)
    requires sections != []
    ensures RenderAll(sections).None? <==> FenceFrom(sections[0].text, 0).None? || RenderAll(sections[1..]).None?
  {
    assert |sections| == 1 ==> sections[1..] == [];
  }

  /** No fence is left for the text of some section. */
  ghost predicate SomeTakesAll(sections: seq<Section>) {
    exists s :: s in sections && AllTaken(s.text, 0)
  }

  lemma {:induction false} TakesAllStep(head: Section, tail: seq<Section>)
    ensures SomeTakesAll([head] + tail) <==> AllTaken(head.text, 0) || SomeTakesAll(tail)
  {
    assert forall s :: s in [head] + tail <==> s == head || s in tail;
  }

  /** Printing fails exactly when the text of some section contains all hundred fences. */
  lemma {:induction false} PrintsIff(sections: seq<Section>)
    ensures RenderAll(sections).None? <==> SomeTakesAll(sections)
  {
    if sections != [] {
      NoFenceIffAllTaken(sections[0].text, 0);
      PrintsStep(sections);
      PrintsIff(sections[1..]);
      TakesAllStep(sections[0], sections[1..]);
      assert sections == [sections[0]] + sections[1..];
    }
  }

  method ProjectPlaintext(sections: seq<Section>) returns (r: Result<string, Failure>)
    ensures r.Err? && r.error.UnsafeAppend? <==> exists s :: s in sections && !Safe(s)
    ensures r.Ok? ==> RenderAll(Ordered(sections)) == Some(r.value)
    ensures r.Err? && r.error.NoFence? <==> (forall s :: s in sections ==> Safe(s)) && SomeTakesAll(sections)
  {
    PrintsIff(Ordered(sections));
    var ok, ordered, problems := Assemble(sections);
    if !ok {
      return Err(UnsafeAppend);
    }
    var text := RenderAll(ordered);
    r := if text.Some? then Ok(text.value) else Err(NoFence);
  }

  method ProjectChat(sections: seq<Section>) returns (r: Result<seq<Message>, Failure>)
    ensures r.Err? <==> exists s :: s in sections && !Safe(s)
    ensures r.Ok? ==> IsChat(r.value, Ordered(sections))
  {
    var ok, ordered, problems := Assemble(sections);
    if !ok {
      return Err(UnsafeAppend);
    }
    ChatIsChat(ordered);
    r := Ok(Chat(ordered));
  }

  function Chat(ordered: seq<Section>): (r: seq<Message>)
    ensures |r| == |ordered| && forall i :: 0 <= i < |r| ==> r[i] == Message(RoleOf(ordered[i].kind), ordered[i].text)
  {
    seq(|ordered|, i requires 0 <= i < |ordered| => Message(RoleOf(ordered[i].kind), ordered[i].text))
  }

  /** One message a section, with its text: references and appended prompts come from the user, the evidence
      from the assistant, all else from the system. */
  predicate IsChat(messages: seq<Message>, ordered: seq<Section>) {
    && |messages| == |ordered|
    && (forall i :: 0 <= i < |ordered| ==> messages[i].content == ordered[i].text)
    && (forall i :: 0 <= i < |ordered| ==> (messages[i].role.User? <==> ordered[i].kind.PromptAppend? || ordered[i].kind.ContextReferences?))
    && (forall i :: 0 <= i < |ordered| ==> (messages[i].role.Assistant? <==> ordered[i].kind.EvidenceSummary?))
  }

  lemma {:induction false} ChatIsChat(ordered: seq<Section>)
    ensures IsChat(Chat(ordered), ordered)
  {
  }

  // ---------------------------------------------------------------- reading back

  function KindOf(name: string): Option<Kind> {
    if name == KindName(RuntimeContract) then Some(RuntimeContract)
    else if name == KindName(PresetScaffold) then Some(PresetScaffold)
    else if name == KindName(NodeContract) then Some(NodeContract)
    else if name == KindName(ContextReferences) then Some(ContextReferences)
    else if name == KindName(EvidenceSummary) then Some(EvidenceSummary)
    else if name == KindName(PromptAppend) then Some(PromptAppend)
    else if name == KindName(Guardrail) then Some(Guardrail)
    else None
  }

  lemma {:induction false} KindNamesDiffer(k: Kind)
    ensures KindOf(KindName(k)) == Some(k)
  {
    KindShapes();
  }

  lemma {:induction false} KindShapes()
    ensures |KindName(RuntimeContract)| == |KindName(Guardrail)| == 23
    ensures KindName(RuntimeContract)[0] != KindName(Guardrail)[0]
    ensures |KindName(NodeContract)| == |KindName(PromptAppend)| == 13
    ensures KindName(NodeContract)[0] != KindName(PromptAppend)[0]
    ensures |KindName(PresetScaffold)| == 15 && |KindName(ContextReferences)| == 29 && |KindName(EvidenceSummary)| == 25
  {
  }

  lemma {:induction false} OneLine(k: Kind)
    ensures '\n' !in KindName(k)
  {
    match k
    case RuntimeContract => assert '\n' !in "system_runtime_contract";
    case PresetScaffold => assert '\n' !in "preset_scaffold";
    case NodeContract => assert '\n' !in "node_contract";
    case ContextReferences => assert '\n' !in "structured_context_references";
    case EvidenceSummary => assert '\n' !in "previous_evidence_summary";
    case PromptAppend => assert '\n' !in "prompt_append";
    case Guardrail => assert '\n' !in "final_runtime_guardrail";
  }

  datatype Header = Header(fence: string, name: string, body: string)

  /** The fence ends at the first space, the kind at the first newline after it. */
  function ReadHeader(t: string): (r: Option<Header>)
    ensures r.Some? ==> |r.value.fence| + |r.value.body| < |t|
  {
    var space := Find(t, " ");
    if space.None? then None
    else
      var after := t[space.value + 1..];
      var newline := Find(after, "\n");
      if newline.None? then None
      else Some(Header(t[..space.value], after[..newline.value], after[newline.value + 1..]))
  }

  /** Undo one printed section: its text ends just before the next fence. */
  function ReadSection(t: string): (r: Option<(Section, string)>)
    ensures r.Some? ==> |r.value.1| < |t|
  {
    var header := ReadHeader(t);
    if header.None? then None
    else
      var kind := KindOf(header.value.name);
      if kind.None? then None else CutSection(kind.value, header.value)
  }

  function CutSection(kind: Kind, h: Header): (r: Option<(Section, string)>)
    ensures r.Some? ==> |r.value.1| <= |h.body|
  {
    var close := Find(h.body, h.fence);
    if close.None? || close.value == 0 then None
    else Some((Section(kind, h.body[..close.value - 1]), h.body[close.value + |h.fence|..]))
  }

  function ReadAll(t: string): Option<seq<Section>>
    decreases |t|
  {
    if t == "" then Some([])
    else
      var first := ReadSection(t);
      if first.None? then None
      else if first.value.1 == "" then Some([first.value.0])
      else if !("\n\n" <= first.value.1) then None
      else
        var rest := ReadAll(first.value.1[2..]);
        if rest.None? then None else Some([first.value.0] + rest.value)
  }

  lemma {:induction false} FindChar(p: string, c: char, q: string)
    requires c !in p
    ensures Find(p + [c] + q, [c]) == Some(|p|)
  {
    var t := p + [c] + q;
    if p != "" {
      assert t[1..] == p[1..] + [c] + q;
      FindChar(p[1..], c, q);
      assert t[0] == p[0];
    }
  }

  ghost predicate StartsAt(t: string, pattern: string, j: int)
    requires 0 <= j <= |t|
  {
    pattern <= t[j..]
  }

  lemma {:induction false} StartsLater(t: string, pattern: string, j: int)
    requires 0 < j <= |t|
    ensures StartsAt(t, pattern, j) <==> StartsAt(t[1..], pattern, j - 1)
  {
    assert t[1..][j - 1..] == t[j..];
  }

  lemma {:induction false} FindFirst(t: string, pattern: string, k: nat)
    requires k <= |t| && StartsAt(t, pattern, k) && forall j :: 0 <= j < k ==> !StartsAt(t, pattern, j)
    ensures Find(t, pattern) == Some(k)
  {
    assert t[0..] == t;
    if k > 0 {
      assert !StartsAt(t, pattern, 0);
      forall j | 0 <= j < k ensures StartsAt(t[1..], pattern, j) <==> StartsAt(t, pattern, j + 1) {
        StartsLater(t, pattern, j + 1);
      }
      FindFirst(t[1..], pattern, k - 1);
    }
  }

  lemma {:induction false} FoundNowhere(t: string, pattern: string, j: nat)
    requires Find(t, pattern).None? && j <= |t|
    ensures !StartsAt(t, pattern, j)
  {
    assert t[0..] == t;
    if j > 0 {
      StartsLater(t, pattern, j);
      FoundNowhere(t[1..], pattern, j - 1);
    }
  }

  /** The fence cannot span the newline before it, so its first occurrence is its own. */
  lemma {:induction false} FindFence(text: string, fence: string, q: string)
    requires Find(text, fence).None? && '\n' !in fence && fence != ""
    ensures Find(text + "\n" + fence + q, fence) == Some(|text| + 1)
  {
    var t := text + "\n" + fence + q;
    forall j | 0 <= j <= |text| ensures !StartsAt(t, fence, j) {
      FoundNowhere(text, fence, j);
      NotAcross(text, fence, t, j);
    }
    assert t[|text| + 1..] == fence + q;
    FindFirst(t, fence, |text| + 1);
  }

  lemma {:induction false} NotAcross(text: string, fence: string, t: string, j: nat)
    requires j <= |text| < |t| && !StartsAt(text, fence, j) && '\n' !in fence && t[..|text|] == text && t[|text|] == '\n'
    ensures !StartsAt(t, fence, j)
  {
    if |text| - j < |fence| {
      assert t[j..][|text| - j] == '\n';
    } else {
      var rest := t[|text|..];
      assert t == text + rest && t[j..] == text[j..] + rest;
    }
  }

  lemma {:induction false} ReadRendered(fence: string, s: Section, q: string)
    requires Find(s.text, fence).None? && ' ' !in fence && '\n' !in fence && fence != ""
    ensures ReadSection(Render(fence, s) + q) == Some((s, q))
  {
    var name, body := KindName(s.kind), s.text + "\n" + fence + q;
    var t := Render(fence, s) + q;
    assert ReadHeader(t) == Some(Header(fence, name, body)) by {
      OneLine(s.kind);
      ReadHead(fence, name, body);
      RenderParts(fence, name, s.text, q);
    }
    KindNamesDiffer(s.kind);
    TakeBody(fence, s, Header(fence, name, body), q);
  }

  lemma {:induction false} TakeBody(fence: string, s: Section, h: Header, q: string)
    requires Find(s.text, fence).None? && '\n' !in fence && fence != ""
    requires h.fence == fence && h.body == s.text + "\n" + fence + q
    ensures CutSection(s.kind, h) == Some((s, q))
  {
    FindFence(s.text, fence, q);
    assert h.body[..|s.text|] == s.text && h.body[|s.text| + 1 + |fence|..] == q;
  }

  lemma {:induction false} RenderParts(fence: string, name: string, text: string, q: string)
    ensures (fence + " " + name + "\n" + text + "\n" + fence) + q == fence + [' '] + (name + ['\n'] + (text + "\n" + fence + q))
  {
  }

  lemma {:induction false} ReadHead(fence: string, name: string, body: string)
    requires ' ' !in fence && '\n' !in name
    ensures ReadHeader(fence + [' '] + (name + ['\n'] + body)) == Some(Header(fence, name, body))
  {
    SplitAt(fence, ' ', name + ['\n'] + body);
    SplitAt(name, '\n', body);
  }

  lemma {:induction false} SplitAt(p: string, c: char, q: string)
    requires c !in p
    ensures var t := p + [c] + q; Find(t, [c]) == Some(|p|) && t[..|p|] == p && t[|p| + 1..] == q
  {
    FindChar(p, c, q);
  }

  lemma {:induction false} ReadOnly(t: string, s: Section)
    requires ReadSection(t + "") == Some((s, ""))
    ensures ReadAll(t) == Some([s])
  {
    assert t + "" == t;
  }

  lemma {:induction false} ReadStep(head: string, s: Section, rest: string, sections: seq<Section>)
    requires ReadSection(head + ("\n\n" + rest)) == Some((s, "\n\n" + rest)) && ReadAll(rest) == Some(sections)
    ensures ReadAll(head + "\n\n" + rest) == Some([s] + sections)
  {
    Regroup(head, rest);
    assert ("\n\n" + rest)[2..] == rest;
  }

  lemma {:induction false} ReadOne(sections: seq<Section>)
    requires |sections| == 1 && RenderAll(sections).Some?
    ensures ReadAll(RenderAll(sections).value) == Some(sections)
  {
    var s, fence := sections[0], FenceFrom(sections[0].text, 0).value;
    ChosenFence(s.text, 0);
    ReadRendered(fence, s, "");
    ReadOnly(Render(fence, s), s);
    assert sections == [s];
  }

  lemma {:induction false} RenderStep(sections: seq<Section>, fence: string, rest: string)
    requires |sections| > 1 && RenderAll(sections).Some?
    requires FenceFrom(sections[0].text, 0) == Some(fence) && RenderAll(sections[1..]) == Some(rest)
    ensures RenderAll(sections).value == Render(fence, sections[0]) + "\n\n" + rest
  {
  }

  lemma {:induction false} RenderedParts(sections: seq<Section>)
    requires sections != [] && RenderAll(sections).Some?
    ensures FenceFrom(sections[0].text, 0).Some? && RenderAll(sections[1..]).Some?
  {
  }

  /** Printing can be undone: reading the print gives back the sections, kinds, texts and order. */
  lemma {:induction false} ReadRenderedAll(sections: seq<Section>)
    requires RenderAll(sections).Some?
    ensures ReadAll(RenderAll(sections).value) == Some(sections)
  {
    if |sections| == 1 {
      ReadOne(sections);
    } else if sections != [] {
      RenderedParts(sections);
      ReadRenderedAll(sections[1..]);
      ReadMore(sections, FenceFrom(sections[0].text, 0).value, RenderAll(sections[1..]).value);
    }
  }

  lemma {:induction false} ReadMore(sections: seq<Section>, fence: string, rest: string)
    requires |sections| > 1 && RenderAll(sections).Some?
    requires FenceFrom(sections[0].text, 0) == Some(fence) && RenderAll(sections[1..]) == Some(rest)
    requires ReadAll(rest) == Some(sections[1..])
    ensures ReadAll(RenderAll(sections).value) == Some(sections)
  {
    ChosenFence(sections[0].text, 0);
    RenderStep(sections, fence, rest);
    ReadBack(fence, sections[0], rest, sections[1..]);
    assert sections == [sections[0]] + sections[1..];
  }

  lemma {:induction false} ReadBack(fence: string, s: Section, rest: string, sections: seq<Section>)
    requires Find(s.text, fence).None? && ' ' !in fence && '\n' !in fence && fence != "" && ReadAll(rest) == Some(sections)
    ensures ReadAll(Render(fence, s) + "\n\n" + rest) == Some([s] + sections)
  {
    ReadRendered(fence, s, "\n\n" + rest);
    ReadStep(Render(fence, s), s, rest, sections);
  }

  lemma {:induction false} Regroup(p: string, q: string)
    ensures p + "\n\n" + q == p + ("\n\n" + q)
  {
  }

  /** So two section lists with the same plaintext are the same in order. */
  lemma {:induction false} PlaintextDeterminesSections(a: seq<Section>, b: seq<Section>)
    requires RenderAll(Ordered(a)).Some? && RenderAll(Ordered(a)) == RenderAll(Ordered(b))
    ensures Ordered(a) == Ordered(b)
  {
    ReadRenderedAll(Ordered(a));
    ReadRenderedAll(Ordered(b));
  }
}
