/** shared/p2p-workflow-library.ts: the workflows a user saved, one of them active. */
module Library {
  import opened Wrappers
  import opened Text
  import opened Utf8

  const MAX_ENTRIES := 20
  const MAX_TITLE_BYTES := 128
  const DEFAULT_TITLE: string := "Untitled workflow"

  // ---------------------------------------------------------------- titles

  /** clampWorkflowTitle on a string (anything else takes the default title). */
  function ClampTitle(input: string): string {
    var trimmed := Trim(input);
    if trimmed == "" then DEFAULT_TITLE
    else if ByteLength(trimmed) <= MAX_TITLE_BYTES then trimmed
    else
      var cut := Cut(trimmed);
      if cut == "" then DEFAULT_TITLE else cut
  }

  /** Characters are dropped from the end until the rest fits. */
  function Cut(s: string): (r: string)
    ensures r <= s && ByteLength(r) <= MAX_TITLE_BYTES
  {
    if ByteLength(s) <= MAX_TITLE_BYTES then s
    else
      assert s != "";
      Cut(s[..|s| - 1])
  }

  method Clamp(input: Option<string>) returns (r: string)
    ensures r == if input.Some? then ClampTitle(input.value) else DEFAULT_TITLE
  {
    if input.None? {
      return DEFAULT_TITLE;
    }
    var trimmed := Trim(input.value);
    if trimmed == "" {
      return DEFAULT_TITLE;
    }
    if |trimmed| <= MAX_TITLE_BYTES && ByteLength(trimmed) <= MAX_TITLE_BYTES {
      return trimmed;
    }
    var chars := trimmed;
    while |chars| > 0
      invariant Cut(chars) == Cut(trimmed)
      decreases |chars|
    {
      if ByteLength(chars) <= MAX_TITLE_BYTES {
        return chars;
      }
      chars := chars[..|chars| - 1];
    }
    r := DEFAULT_TITLE;
  }

  lemma {:induction false} TrimFacts(s: string)
    ensures Trim(s) != "" ==> !IsSpace(Trim(s)[0]) && !IsSpace(Trim(s)[|Trim(s)| - 1])
  {
    var t := TrimStart(s);
    if Trim(s) != "" {
      assert Trim(s)[0] == t[0];
    }
  }

  lemma {:induction false} TrimFixed(s: string)
    requires s != "" ==> !IsSpace(s[0]) && !IsSpace(s[|s| - 1])
    ensures Trim(s) == s
  {
  }

  lemma {:induction false} CutKeepsStart(s: string)
    requires s != ""
    ensures Cut(s) != "" && Cut(s)[0] == s[0]
    decreases |s|
  {
    if ByteLength(s) > MAX_TITLE_BYTES {
      assert |s| > 1;
      CutKeepsStart(s[..|s| - 1]);
    }
  }

  lemma {:induction false} DefaultIsShort()
    ensures ByteLength(DEFAULT_TITLE) <= MAX_TITLE_BYTES && Trim(DEFAULT_TITLE) == DEFAULT_TITLE
  {
    assert |DEFAULT_TITLE| == 17;
    TrimFixed(DEFAULT_TITLE);
  }

  /** A title that fits, holds something, and has no space at its ends. */
  ghost predicate Settled(t: string) {
    t != "" && ByteLength(t) <= MAX_TITLE_BYTES && !IsSpace(t[0]) && !IsSpace(t[|t| - 1])
  }

  lemma {:induction false} CutFits(t: string)
    requires t != "" && !IsSpace(t[0])
    ensures Cut(t) != "" && ByteLength(Cut(t)) <= MAX_TITLE_BYTES && !IsSpace(Cut(t)[0])
  {
    CutKeepsStart(t);
  }

  /** Clamped titles are never empty, never start with a space and fit in 128 bytes. */
  lemma {:induction false} ClampFits(s: string)
    ensures ClampTitle(s) != "" && ByteLength(ClampTitle(s)) <= MAX_TITLE_BYTES && !IsSpace(ClampTitle(s)[0])
  {
    if Trim(s) != "" {
      TrimFacts(s);
      CutFits(Trim(s));
    } else {
      DefaultIsShort();
      assert DEFAULT_TITLE[0] == 'U';
    }
  }

  lemma {:induction false} TrimStartKeeps(s: string)
    requires s != "" && !IsSpace(s[0])
    ensures TrimStart(s) == s
  {
  }

  lemma {:induction false} TrimEndKeepsStart(s: string)
    requires s != "" && !IsSpace(s[0])
    ensures TrimEnd(s) != "" && TrimEnd(s)[0] == s[0]
    decreases |s|
  {
    if IsSpace(s[|s| - 1]) {
      TrimEndKeepsStart(s[..|s| - 1]);
    }
  }

  lemma {:induction false} TrimOfClamped(t: string)
    requires t != "" && !IsSpace(t[0]) && ByteLength(t) <= MAX_TITLE_BYTES
    ensures Settled(Trim(t)) && ClampTitle(t) == Trim(t)
  {
    TrimStartKeeps(t);
    TrimEndKeepsStart(t);
    var r := TrimEnd(t);
    assert t == r + t[|r|..];
    ByteLengthConcat(r, t[|r|..]);
  }

  /** Two clamps settle a title: a third changes nothing. */
  lemma {:induction false} TwoClampsSettle(s: string)
    ensures Settled(ClampTitle(ClampTitle(s)))
    ensures ClampTitle(ClampTitle(ClampTitle(s))) == ClampTitle(ClampTitle(s))
  {
    ClampFits(s);
    TrimOfClamped(ClampTitle(s));
    FixedIffSettled(ClampTitle(ClampTitle(s)));
  }

  /** A title stays as it is exactly when it is settled. */
  lemma {:induction false} FixedIffSettled(t: string)
    ensures ClampTitle(t) == t <==> Settled(t)
  {
    if Settled(t) {
      TrimFixed(t);
    }
    if ClampTitle(t) == t {
      ClampFits(t);
      TrimOfClamped(t);
    }
  }

  /** The byte limit falls right behind a space. */
  predicate CutsAtSpace(t: string) {
    var kept := WholeChars(t, MAX_TITLE_BYTES);
    ByteLength(t) > MAX_TITLE_BYTES && kept > 0 && IsSpace(t[kept - 1])
  }

  lemma {:induction false} WholeCharsOfPrefix(t: string, k: nat)
    requires t != "" && ByteLength(t) > k
    ensures WholeChars(t, k) == WholeChars(t[..|t| - 1], k) < |t|
  {
    if |t| > 1 && Width(t[0]) <= k {
      assert t[1..][..|t| - 2] == t[..|t| - 1][1..];
      WholeCharsOfPrefix(t[1..], k - Width(t[0]));
    } else if |t| == 1 {
      assert t[1..] == "" && t[..0] == "";
    }
  }

  lemma {:induction false} WholeIfItFits(t: string, k: nat)
    requires ByteLength(t) <= k
    ensures WholeChars(t, k) == |t|
  {
    if t != "" {
      WholeIfItFits(t[1..], k - Width(t[0]));
    }
  }

  /** Popping characters until the rest fits keeps the whole characters of the first 128 bytes. */
  lemma {:induction false} CutKeepsWholeChars(t: string)
    ensures Cut(t) == t[..WholeChars(t, MAX_TITLE_BYTES)]
    decreases |t|
  {
    if ByteLength(t) <= MAX_TITLE_BYTES {
      WholeIfItFits(t, MAX_TITLE_BYTES);
    } else {
      CutKeepsWholeChars(t[..|t| - 1]);
      WholeCharsOfPrefix(t, MAX_TITLE_BYTES);
    }
  }

  lemma {:induction false} CutIsSettledIff(t: string)
    requires t != "" && !IsSpace(t[0]) && !IsSpace(t[|t| - 1])
    ensures Settled(Cut(t)) <==> !CutsAtSpace(t)
  {
    CutFits(t);
    CutKeepsWholeChars(t);
    if ByteLength(t) <= MAX_TITLE_BYTES {
      WholeIfItFits(t, MAX_TITLE_BYTES);
    }
  }

  lemma {:induction false} ClampIsCut(s: string)
    requires Trim(s) != ""
    ensures ClampTitle(s) == Cut(Trim(s))
  {
    TrimFacts(s);
    CutFits(Trim(s));
  }

  lemma {:induction false} DefaultIsFixed()
    ensures ClampTitle(DEFAULT_TITLE) == DEFAULT_TITLE
  {
    DefaultIsShort();
  }

  lemma {:induction false} OneCutSettlesIff(t: string)
    requires t != "" && !IsSpace(t[0]) && !IsSpace(t[|t| - 1])
    ensures ClampTitle(Cut(t)) == Cut(t) <==> !CutsAtSpace(t)
  {
    CutIsSettledIff(t);
    FixedIffSettled(Cut(t));
  }

  /** One clamp is enough exactly when the trimmed title fits or the limit does not fall right behind
      a space. */
  lemma {:induction false} OneClampSettlesIff(s: string)
    ensures ClampTitle(ClampTitle(s)) == ClampTitle(s) <==> !CutsAtSpace(Trim(s))
  {
    var t := Trim(s);
    if t == "" {
      DefaultIsFixed();
    } else {
      TrimFacts(s);
      ClampIsCut(s);
      OneCutSettlesIff(t);
    }
  }

  lemma {:induction false} AsciiBytes(s: string)
    requires forall i :: 0 <= i < |s| ==> s[i] < '\U{0080}'
    ensures ByteLength(s) == |s|
  {
    if s != "" {
      AsciiBytes(s[1..]);
    }
  }

  /** One clamp is not enough: cutting may leave a space at the end, which the next clamp trims. */
  lemma {:induction false} OneClampIsNotEnough() returns (s: string)
    ensures !Settled(ClampTitle(s))
  {
    var kept := seq(127, i => 'a') + " ";
    s := kept + "b";
    AsciiBytes(s);
    AsciiBytes(kept);
    TrimFixed(s);
    assert s[..|s| - 1] == kept && Cut(kept) == kept && Cut(s) == kept;
    assert kept[|kept| - 1] == ' ';
  }

  // ---------------------------------------------------------------- the library

  /** A draft as the library sees it: content is everything but id and title. */
  datatype Entry = Entry(id: string, title: Option<string>, content: string)
  datatype Config = Config(library: Option<seq<Entry>>, active: Option<string>, legacy: Option<Entry>)

  function Title(t: Option<string>): string {
    if t.Some? then ClampTitle(t.value) else DEFAULT_TITLE
  }

  function Tidy(e: Entry): Entry {
    e.(title := Some(Title(e.title)))
  }

  function Ids(lib: seq<Entry>): set<string> {
    set e | e in lib :: e.id
  }

  lemma {:induction false} IdsOfCons(head: Entry, rest: seq<Entry>)
    ensures Ids([head] + rest) == {head.id} + Ids(rest)
  {
    var all := [head] + rest;
    assert head in all;
    forall e | e in rest ensures e in all {
    }
    forall e | e in all ensures e == head || e in rest {
    }
  }

  /** Map.set: a known id keeps its place and takes the new value. */
  function Put(lib: seq<Entry>, e: Entry): (r: seq<Entry>)
    ensures Ids(r) == Ids(lib) + {e.id}
  {
    if lib == [] then [e]
    else
      IdsOfCons(lib[0], lib[1..]);
      assert lib == [lib[0]] + lib[1..];
      if lib[0].id == e.id then
        IdsOfCons(e, lib[1..]);
        [e] + lib[1..]
      else
        IdsOfCons(lib[0], Put(lib[1..], e));
        [lib[0]] + Put(lib[1..], e)
  }

  function PutAll(lib: seq<Entry>, entries: seq<Entry>): seq<Entry>
    decreases |entries|
  {
    if entries == [] then lib
    else PutAll(if entries[0].id == "" then lib else Put(lib, Tidy(entries[0])), entries[1..])
  }

  function Take(lib: seq<Entry>): seq<Entry> {
    if |lib| <= MAX_ENTRIES then lib else lib[..MAX_ENTRIES]
  }

  /** normalizeWorkflowLibrary on typed entries. */
  function Normalize(entries: seq<Entry>): seq<Entry> {
    Take(PutAll([], entries))
  }

  method NormalizeLibrary(entries: seq<Entry>) returns (r: seq<Entry>)
    ensures r == Normalize(entries)
  {
    var seen: seq<Entry> := [];
    var rest := entries;
    while rest != []
      invariant PutAll(seen, rest) == PutAll([], entries)
      decreases |rest|
    {
      if rest[0].id != "" {
        seen := Put(seen, Tidy(rest[0]));
      }
      rest := rest[1..];
    }
    r := Take(seen);
  }

  ghost predicate DistinctIds(lib: seq<Entry>) {
    && (forall i, j :: 0 <= i < j < |lib| ==> lib[i].id != lib[j].id)
    && forall i :: 0 <= i < |lib| ==> lib[i].id != ""
  }

  lemma {:induction false} PutKeepsDistinct(lib: seq<Entry>, e: Entry)
    requires DistinctIds(lib) && e.id != ""
    ensures DistinctIds(Put(lib, e))
  {
    if lib != [] && lib[0].id != e.id {
      PutKeepsDistinct(lib[1..], e);
      var r := Put(lib[1..], e);
      forall k | 0 <= k < |r| ensures r[k].id != lib[0].id {
        assert r[k].id in Ids(r);
        if r[k].id != e.id {
          var x :| x in lib[1..] && x.id == r[k].id;
        }
      }
    }
  }

  lemma {:induction false} PutAllDistinct(lib: seq<Entry>, entries: seq<Entry>)
    requires DistinctIds(lib)
    ensures DistinctIds(PutAll(lib, entries))
    decreases |entries|
  {
    if entries != [] {
      if entries[0].id != "" {
        PutKeepsDistinct(lib, Tidy(entries[0]));
      }
      PutAllDistinct(if entries[0].id == "" then lib else Put(lib, Tidy(entries[0])), entries[1..]);
    }
  }

  /** Whatever comes in, a normalized library has at most twenty entries with distinct, non-empty
      ids. */
  lemma {:induction false} NormalizeIsWellFormed(entries: seq<Entry>)
    ensures DistinctIds(Normalize(entries)) && |Normalize(entries)| <= MAX_ENTRIES
  {
    PutAllDistinct([], entries);
  }

  function TidyAll(lib: seq<Entry>): (r: seq<Entry>)
    ensures |r| == |lib| && forall i :: 0 <= i < |r| ==> r[i] == Tidy(lib[i])
  {
    seq(|lib|, i requires 0 <= i < |lib| => Tidy(lib[i]))
  }

  lemma {:induction false} PutNew(lib: seq<Entry>, e: Entry)
    requires e.id !in Ids(lib)
    ensures Put(lib, e) == lib + [e]
  {
    if lib != [] {
      assert lib[0] in lib;
      assert forall x :: x in lib[1..] ==> x in lib;
      PutNew(lib[1..], e);
    }
  }

  lemma {:induction false} PutAllNew(lib: seq<Entry>, entries: seq<Entry>)
    requires DistinctIds(entries) && Ids(lib) !! Ids(entries)
    ensures PutAll(lib, entries) == lib + TidyAll(entries)
    decreases |entries|
  {
    if entries == [] {
      assert TidyAll(entries) == [];
    } else {
      var head, rest := Tidy(entries[0]), entries[1..];
      assert entries[0] in entries;
      PutNew(lib, head);
      StillApart(lib, entries);
      PutAllNew(lib + [head], rest);
      TidyCons(lib, entries);
    }
  }

  lemma {:induction false} TidyCons(lib: seq<Entry>, entries: seq<Entry>)
    requires entries != []
    ensures lib + [Tidy(entries[0])] + TidyAll(entries[1..]) == lib + TidyAll(entries)
  {
    assert TidyAll(entries) == [Tidy(entries[0])] + TidyAll(entries[1..]);
    Reassociate(lib, [Tidy(entries[0])], TidyAll(entries[1..]));
  }

  lemma {:induction false} StillApart(lib: seq<Entry>, entries: seq<Entry>)
    requires DistinctIds(entries) && entries != [] && Ids(lib) !! Ids(entries)
    ensures DistinctIds(entries[1..]) && Ids(lib + [Tidy(entries[0])]) !! Ids(entries[1..])
  {
    var more := lib + [Tidy(entries[0])];
    forall x | x in entries[1..] ensures x.id !in Ids(more) {
      var k :| 0 < k < |entries| && entries[k] == x;
      assert x in entries && x.id in Ids(entries);
      assert forall e :: e in more ==> e in lib || e == Tidy(entries[0]);
    }
  }

  /** A library that is already in order only has its titles clamped. */
  lemma {:induction false} NormalizeTidies(entries: seq<Entry>)
    requires DistinctIds(entries) && |entries| <= MAX_ENTRIES
    ensures Normalize(entries) == TidyAll(entries)
  {
    PutAllNew([], entries);
  }

  // ---------------------------------------------------------------- the operations

  /** The library, or the legacy draft standing in for one. */
  function Base(c: Config): seq<Entry> {
    if c.library.Some? then c.library.value
    else if c.legacy.Some? then [c.legacy.value]
    else []
  }

  function Migrate(c: Config): Config {
    if c.library.Some? || c.legacy.None? then c
    else Config(Some([Tidy(c.legacy.value)]), Some(c.legacy.value.id), c.legacy)
  }

  function FindId(lib: seq<Entry>, id: string): (r: Option<Entry>)
    ensures r.Some? <==> id in Ids(lib)
    ensures r.Some? ==> r.value in lib && r.value.id == id
  {
    if lib == [] then None
    else
      assert lib == [lib[0]] + lib[1..];
      if lib[0].id == id then Some(lib[0]) else FindId(lib[1..], id)
  }

  function GetActive(c: Config): Option<Entry> {
    if c.library.Some? && c.library.value != [] then
      var named := if c.active.Some? && c.active.value != "" then FindId(c.library.value, c.active.value) else None;
      if named.Some? then named else Some(c.library.value[0])
    else c.legacy
  }

  function ActiveId(c: Config, next: Entry): string {
    if c.active.Some? then c.active.value
    else if Base(c) != [] then Base(c)[0].id
    else next.id
  }

  /** Every entry with this id takes next's title and content. */
  function Substitute(lib: seq<Entry>, id: string, next: Entry): (r: seq<Entry>)
    ensures |r| == |lib|
    ensures forall i :: 0 <= i < |r| ==> r[i] == if lib[i].id == id then next.(id := id) else lib[i]
  {
    seq(|lib|, i requires 0 <= i < |lib| => if lib[i].id == id then next.(id := id) else lib[i])
  }

  function ReplaceActive(c: Config, next: Entry): Config {
    var clean, id := Tidy(next), ActiveId(c, next);
    var placed := id in Ids(Base(c));
    var lib := Substitute(Base(c), id, clean) + if placed then [] else [clean];
    c.(library := Some(Normalize(lib)), active := Some(if placed then id else clean.id))
  }

  /** The id under which Add files a draft; newId is the id that generateWorkflowDraftId finally
      comes up with, if one is needed. */
  function FiledAs(c: Config, draft: Entry, newId: string): string {
    if draft.id == "" || draft.id in Ids(Base(c)) then newId else draft.id
  }

  function Filed(c: Config, draft: Entry, newId: string): Entry {
    Tidy(draft).(id := FiledAs(c, draft, newId))
  }

  function Add(c: Config, draft: Entry, activate: bool, newId: string): Config {
    var lib := Base(c);
    if |lib| >= MAX_ENTRIES then c
    else
      c.(library := Some(Normalize(lib + [Filed(c, draft, newId)])),
         active := if activate || c.active.None? then Some(FiledAs(c, draft, newId)) else c.active)
  }

  function Without(lib: seq<Entry>, id: string): (r: seq<Entry>)
    ensures forall e :: e in r <==> e in lib && e.id != id
    ensures |r| <= |lib|
  {
    if lib == [] then []
    else
      assert lib == [lib[0]] + lib[1..];
      (if lib[0].id == id then [] else [lib[0]]) + Without(lib[1..], id)
  }

  function Remove(c: Config, id: string): Config {
    var lib := if c.library.Some? then Without(c.library.value, id) else [];
    c.(library := Some(Normalize(lib)),
       active := if c.active == Some(id) then (if lib == [] then None else Some(lib[0].id)) else c.active)
  }

  function Duplicate(c: Config, id: string, suffix: string, generated: string, newId: string): Config {
    var source := FindId(Base(c), id);
    if source.None? || |Base(c)| >= MAX_ENTRIES then c
    else
      var title := ClampTitle(source.value.title.GetOr(DEFAULT_TITLE) + suffix);
      Add(c, Entry(generated, Some(title), source.value.content), true, newId)
  }

  // ---------------------------------------------------------------- what every operation keeps

  /** At most twenty entries with distinct, non-empty ids, and an active id that names one of them;
      an empty or missing library has none. */
  ghost predicate Inv(c: Config) {
    && DistinctIds(Base(c)) && |Base(c)| <= MAX_ENTRIES
    && (c.library.Some? && c.library.value != [] ==> c.active.Some? && c.active.value in Ids(c.library.value))
    && (c.library.None? || c.library.value == [] ==> c.active.None?)
  }

  lemma {:induction false} WithoutDistinct(lib: seq<Entry>, id: string)
    requires DistinctIds(lib)
    ensures DistinctIds(Without(lib, id))
  {
    if lib != [] {
      assert DistinctIds(lib[1..]);
      WithoutDistinct(lib[1..], id);
      HeadStaysApart(lib, Without(lib[1..], id));
    }
  }

  lemma {:induction false} HeadStaysApart(lib: seq<Entry>, r: seq<Entry>)
    requires DistinctIds(lib) && lib != [] && DistinctIds(r) && forall e :: e in r ==> e in lib[1..]
    ensures DistinctIds([lib[0]] + r)
  {
    forall k | 0 <= k < |r| ensures r[k].id != lib[0].id {
      assert r[k] in lib[1..];
      var i :| 0 < i < |lib| && lib[i] == r[k];
    }
  }

  lemma {:induction false} TidyIds(lib: seq<Entry>)
    ensures Ids(TidyAll(lib)) == Ids(lib)
    ensures DistinctIds(lib) ==> DistinctIds(TidyAll(lib))
  {
    var r := TidyAll(lib);
    forall e | e in lib ensures e.id in Ids(r) {
      var i :| 0 <= i < |lib| && lib[i] == e;
      assert r[i] in r;
    }
    forall e | e in r ensures e.id in Ids(lib) {
      var i :| 0 <= i < |r| && r[i] == e;
      assert lib[i] in lib;
    }
  }

  /** Normalizing a library in order keeps its ids, so an id it names stays named. */
  lemma {:induction false} NormalizedIds(lib: seq<Entry>)
    requires DistinctIds(lib) && |lib| <= MAX_ENTRIES
    ensures Normalize(lib) == TidyAll(lib) && Ids(Normalize(lib)) == Ids(lib) && DistinctIds(Normalize(lib))
  {
    NormalizeTidies(lib);
    TidyIds(lib);
  }

  lemma {:induction false} RemoveKeeps(c: Config, id: string)
    requires Inv(c)
    ensures Inv(Remove(c, id))
  {
    if c.library.Some? {
      var lib := Without(c.library.value, id);
      WithoutDistinct(c.library.value, id);
      NormalizedIds(lib);
      if lib != [] {
        assert lib[0] in lib;
      }
      if c.active.Some? && c.active.value != id {
        var e :| e in c.library.value && e.id == c.active.value;
        assert e in lib;
      }
    } else {
      NormalizedIds([]);
    }
  }

  lemma {:induction false} FreeIdFits(lib: seq<Entry>, e: Entry)
    requires DistinctIds(lib) && e.id != "" && e.id !in Ids(lib)
    ensures DistinctIds(lib + [e]) && Ids(lib + [e]) == Ids(lib) + {e.id}
  {
    forall i | 0 <= i < |lib| ensures lib[i].id != e.id {
      assert lib[i] in lib;
    }
    forall x ensures x in lib + [e] <==> x in lib || x == e {
    }
  }

  lemma {:induction false} AddKeeps(c: Config, draft: Entry, activate: bool, newId: string)
    requires Inv(c) && FreshIfNeeded(c, draft.id, newId)
    ensures Inv(Add(c, draft, activate, newId))
  {
    var lib := Base(c);
    if |lib| < MAX_ENTRIES {
      FreeIdFits(lib, Filed(c, draft, newId));
      NormalizedIds(lib + [Filed(c, draft, newId)]);
    }
  }

  lemma {:induction false} SubstituteIds(lib: seq<Entry>, id: string, next: Entry)
    ensures Ids(Substitute(lib, id, next)) == Ids(lib)
    ensures DistinctIds(lib) ==> DistinctIds(Substitute(lib, id, next))
  {
    var r := Substitute(lib, id, next);
    forall e | e in lib ensures e.id in Ids(r) {
      var i :| 0 <= i < |lib| && lib[i] == e;
      assert r[i] in r;
    }
    forall e | e in r ensures e.id in Ids(lib) {
      var i :| 0 <= i < |r| && r[i] == e;
      assert lib[i] in lib;
    }
  }

  /** Replacing keeps the invariant exactly when there is something to replace or the new entry
      brings an id of its own. */
  lemma {:induction false} ReplaceKeepsIff(c: Config, next: Entry)
    requires Inv(c)
    ensures Inv(ReplaceActive(c, next)) <==> Base(c) != [] || next.id != ""
  {
    if Base(c) != [] {
      ReplacePlaced(c, next);
    } else {
      ReplaceFirst(c, next);
    }
  }

  /** With something to replace, the library keeps its ids and its active id. */
  lemma {:induction false} ReplacePlaced(c: Config, next: Entry)
    requires Inv(c) && Base(c) != []
    ensures var d, id := ReplaceActive(c, next), ActiveId(c, next);
            && Inv(d) && d.active == Some(id) && id in Ids(Base(c))
            && d.library == Some(TidyAll(Substitute(Base(c), id, Tidy(next))))
  {
    var lib, id := Base(c), ActiveId(c, next);
    assert lib[0] in lib;
    var r := Substitute(lib, id, Tidy(next));
    SubstituteIds(lib, id, Tidy(next));
    assert r + [] == r;
    NormalizedIds(r);
  }

  lemma {:induction false} NormalizeNamed(e: Entry)
    requires e.id != ""
    ensures DistinctIds(Normalize([e])) && |Normalize([e])| == 1 && Ids(Normalize([e])) == {e.id}
  {
    NormalizedIds([e]);
    assert Ids([e]) == {e.id};
  }

  lemma {:induction false} NormalizeNameless(e: Entry)
    requires e.id == ""
    ensures Normalize([e]) == []
  {
    assert [e][1..] == [];
    assert PutAll([], [e]) == [];
  }

  lemma {:induction false} ReplaceFirst(c: Config, next: Entry)
    requires Inv(c) && Base(c) == []
    ensures Inv(ReplaceActive(c, next)) <==> next.id != ""
  {
    var clean := Tidy(next);
    assert Substitute([], ActiveId(c, next), clean) + [clean] == [clean];
    if next.id != "" {
      NormalizeNamed(clean);
    } else {
      NormalizeNameless(clean);
    }
  }

  datatype Op =
    | MigrateOp
    | ReplaceOp(next: Entry)
    | AddOp(draft: Entry, activate: bool, newId: string)
    | RemoveOp(id: string)
    | DuplicateOp(id: string, suffix: string, generated: string, newId: string)

  function Apply(c: Config, op: Op): Config {
    match op
    case MigrateOp => Migrate(c)
    case ReplaceOp(next) => ReplaceActive(c, next)
    case AddOp(draft, activate, newId) => Add(c, draft, activate, newId)
    case RemoveOp(id) => Remove(c, id)
    case DuplicateOp(id, suffix, generated, newId) => Duplicate(c, id, suffix, generated, newId)
  }

  /** generateWorkflowDraftId is asked until it gives a new id, but only if one is needed. */
  predicate FreshIfNeeded(c: Config, id: string, newId: string) {
    id == "" || id in Ids(Base(c)) ==> newId != "" && newId !in Ids(Base(c))
  }

  /** The first entry of a library brings an id, and generated ids are new. */
  ghost predicate Sensible(c: Config, op: Op) {
    match op
    case ReplaceOp(next) => Base(c) != [] || next.id != ""
    case AddOp(draft, _, newId) => FreshIfNeeded(c, draft.id, newId)
    case DuplicateOp(_, _, generated, newId) => FreshIfNeeded(c, generated, newId)
    case _ => true
  }

  lemma {:induction false} ApplyKeeps(c: Config, op: Op)
    requires Inv(c) && Sensible(c, op)
    ensures Inv(Apply(c, op))
  {
    match op
    case MigrateOp =>
      if c.library.None? && c.legacy.Some? {
        assert Base(c)[0].id != "";
        assert Tidy(c.legacy.value) in Migrate(c).library.value;
      }
    case ReplaceOp(next) => ReplaceKeepsIff(c, next);
    case AddOp(draft, activate, newId) => AddKeeps(c, draft, activate, newId);
    case RemoveOp(id) => RemoveKeeps(c, id);
    case DuplicateOp(id, suffix, generated, newId) =>
      var source := FindId(Base(c), id);
      if source.Some? && |Base(c)| < MAX_ENTRIES {
        var title := ClampTitle(source.value.title.GetOr(DEFAULT_TITLE) + suffix);
        AddKeeps(c, Entry(generated, Some(title), source.value.content), true, newId);
      }
  }

  ghost predicate AllSensible(c: Config, ops: seq<Op>)
    decreases |ops|
  {
    ops == [] || (Sensible(c, ops[0]) && AllSensible(Apply(c, ops[0]), ops[1..]))
  }

  function ApplyAll(c: Config, ops: seq<Op>): Config
    decreases |ops|
  {
    if ops == [] then c else ApplyAll(Apply(c, ops[0]), ops[1..])
  }

  /** The invariant holds after every sequence of operations. */
  lemma {:induction false} EverySequenceKeeps(c: Config, ops: seq<Op>)
    requires Inv(c) && AllSensible(c, ops)
    ensures Inv(ApplyAll(c, ops))
    decreases |ops|
  {
    if ops != [] {
      ApplyKeeps(c, ops[0]);
      EverySequenceKeeps(Apply(c, ops[0]), ops[1..]);
    }
  }

  /** Replacing and reading back gives the new title (clamped, then clamped again) and content under
      the old active id; every other entry stays in its place with its title clamped, so it is
      unchanged exactly when its title was settled. */
  lemma {:induction false} ReplaceThenGet(c: Config, next: Entry, i: nat)
    requires Inv(c) && i < |Base(c)|
    ensures var id, d := ActiveId(c, next), ReplaceActive(c, next);
            && GetActive(d) == Some(Entry(id, Some(ClampTitle(Title(next.title))), next.content))
            && GetActive(c).Some? && id == GetActive(c).value.id
            && d.active == Some(id) && |d.library.value| == |Base(c)|
            && (Base(c)[i].id != id ==>
                  && d.library.value[i] == Tidy(Base(c)[i])
                  && (d.library.value[i] == Base(c)[i] <==> Base(c)[i].title.Some? && Settled(Base(c)[i].title.value)))
  {
    var lib, id := Base(c), ActiveId(c, next);
    ReplacePlaced(c, next);
    var e :| e in lib && e.id == id;
    var k :| 0 <= k < |lib| && lib[k] == e;
    var d := ReplaceActive(c, next);
    FoundAt(d.library.value, k);
    FoundAt(lib, k);
    if lib[i].title.Some? {
      FixedIffSettled(lib[i].title.value);
    }
  }

  lemma {:induction false} FoundAt(lib: seq<Entry>, k: nat)
    requires DistinctIds(lib) && k < |lib|
    ensures FindId(lib, lib[k].id) == Some(lib[k])
  {
    if k > 0 {
      assert DistinctIds(lib[1..]);
      FoundAt(lib[1..], k - 1);
    }
  }

  lemma {:induction false} WithoutMissing(lib: seq<Entry>, id: string)
    requires id !in Ids(lib)
    ensures Without(lib, id) == lib
  {
    forall i | 0 <= i < |lib| ensures lib[i].id != id {
      assert lib[i] in lib;
    }
    WithoutOther(lib, id);
  }

  lemma {:induction false} WithoutOther(lib: seq<Entry>, id: string)
    requires forall i :: 0 <= i < |lib| ==> lib[i].id != id
    ensures Without(lib, id) == lib
  {
    if lib != [] {
      WithoutOther(lib[1..], id);
      assert lib == [lib[0]] + lib[1..];
    }
  }

  lemma {:induction false} WithoutConcat(lib: seq<Entry>, more: seq<Entry>, id: string)
    ensures Without(lib + more, id) == Without(lib, id) + Without(more, id)
  {
    if lib == [] {
      assert lib + more == more;
    } else {
      assert (lib + more)[1..] == lib[1..] + more;
      WithoutConcat(lib[1..], more, id);
    }
  }

  lemma {:induction false} TidyAllAppend(lib: seq<Entry>, e: Entry)
    ensures TidyAll(lib + [e]) == TidyAll(lib) + [Tidy(e)]
  {
  }

  lemma {:induction false} AppendFree(lib: seq<Entry>, e: Entry)
    requires DistinctIds(lib) && |lib| < MAX_ENTRIES && e.id != "" && e.id !in Ids(lib)
    ensures Normalize(lib + [e]) == TidyAll(lib) + [Tidy(e)]
  {
    forall i | 0 <= i < |lib| ensures lib[i].id != e.id {
      assert lib[i] in lib;
    }
    NormalizeTidies(lib + [e]);
    TidyAllAppend(lib, e);
  }

  /** Adding puts the draft last, under an id that was free, and only clamps the titles of the
      entries before it. */
  lemma {:induction false} AddAppends(c: Config, draft: Entry, activate: bool, newId: string)
    requires Inv(c) && |Base(c)| < MAX_ENTRIES && FreshIfNeeded(c, draft.id, newId)
    ensures var id, d := FiledAs(c, draft, newId), Add(c, draft, activate, newId);
            && id !in Ids(Base(c)) && id != ""
            && d.library == Some(TidyAll(Base(c)) + [Tidy(Filed(c, draft, newId))])
            && d.active == if activate || c.active.None? then Some(id) else c.active
  {
    AppendFree(Base(c), Filed(c, draft, newId));
  }

  lemma {:induction false} AppendedThenWithout(lib: seq<Entry>, e: Entry, id: string)
    requires DistinctIds(lib) && |lib| < MAX_ENTRIES && e.id == id && id !in Ids(lib)
    ensures Normalize(Without(lib + [e], id)) == TidyAll(lib)
  {
    WithoutConcat(lib, [e], id);
    WithoutMissing(lib, id);
    assert Without([e], id) == [] && lib + [] == lib;
    NormalizeTidies(lib);
  }

  /** Removing what was added gives the library back, its titles clamped twice, which a third time
      would not change; and the active id too, if it was not taken over. */
  lemma {:induction false} AddThenRemove(c: Config, draft: Entry, activate: bool, newId: string)
    requires Inv(c) && |Base(c)| < MAX_ENTRIES && FreshIfNeeded(c, draft.id, newId)
    ensures var d := Remove(Add(c, draft, activate, newId), FiledAs(c, draft, newId));
            && d.library == Some(TidyAll(TidyAll(Base(c))))
            && (!activate && c.active.Some? && c.library.Some? ==> d.active == c.active)
  {
    var lib, id := Base(c), FiledAs(c, draft, newId);
    AddAppends(c, draft, activate, newId);
    TidyIds(lib);
    AppendedThenWithout(TidyAll(lib), Tidy(Filed(c, draft, newId)), id);
  }
}
