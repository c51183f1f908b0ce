/** What is read back from the workflow library after its operations (shared/p2p-workflow-library.ts:97-270):
    which of several entries under one id is kept, and which entry is active. */
module LibraryReads {
  import opened Wrappers
  import opened Library

  // ---------------------------------------------------------------- normalizing: later entries win

  /** The last entry under this id. */
  ghost function LastOf(entries: seq<Entry>, id: string): Option<Entry> {
    if entries == [] then None
    else
      var last := entries[|entries| - 1];
      if last.id == id then Some(last) else LastOf(entries[..|entries| - 1], id)
  }

  /** The ids, without the empty one, in the order in which they first occur. */
  ghost function FirstIds(entries: seq<Entry>): seq<string> {
    if entries == [] then []
    else
      var before, id := FirstIds(entries[..|entries| - 1]), entries[|entries| - 1].id;
      if id == "" || id in before then before else before + [id]
  }

  function IdList(lib: seq<Entry>): (r: seq<string>)
    ensures |r| == |lib| && forall i :: 0 <= i < |r| ==> r[i] == lib[i].id
  {
    seq(|lib|, i requires 0 <= i < |lib| => lib[i].id)
  }

  lemma {:induction false} FindAfterPut(lib: seq<Entry>, e: Entry, id: string)
    ensures FindId(Put(lib, e), id) == if id == e.id then Some(e) else FindId(lib, id)
  {
    if lib != [] && lib[0].id != e.id {
      FindAfterPut(lib[1..], e, id);
      assert ([lib[0]] + Put(lib[1..], e))[1..] == Put(lib[1..], e);
    } else if lib != [] {
      assert ([e] + lib[1..])[1..] == lib[1..];
    }
  }

  lemma {:induction false} IdsAfterPut(lib: seq<Entry>, e: Entry)
    ensures IdList(Put(lib, e)) == if e.id in IdList(lib) then IdList(lib) else IdList(lib) + [e.id]
  {
    if lib != [] {
      IdListCons(lib);
      if lib[0].id != e.id {
        IdsAfterPut(lib[1..], e);
        IdListCons(Put(lib, e));
        assert ([lib[0]] + Put(lib[1..], e))[1..] == Put(lib[1..], e);
      }
    }
  }

  lemma {:induction false} IdListCons(lib: seq<Entry>)
    requires lib != []
    ensures IdList(lib) == [lib[0].id] + IdList(lib[1..])
  {
  }

  lemma {:induction false} PutAllLast(lib: seq<Entry>, entries: seq<Entry>, e: Entry)
    ensures PutAll(lib, entries + [e]) == if e.id == "" then PutAll(lib, entries) else Put(PutAll(lib, entries), Tidy(e))
    decreases |entries|
  {
    if entries == [] {
      assert [] + [e] == [e] && [e][1..] == [];
    } else {
      assert (entries + [e])[1..] == entries[1..] + [e] && (entries + [e])[0] == entries[0];
      PutAllLast(if entries[0].id == "" then lib else Put(lib, Tidy(entries[0])), entries[1..], e);
    }
  }

  /** Of several entries under one id the last one is kept, tidied, in the place of the first one. */
  lemma {:induction false} LaterEntriesWin(entries: seq<Entry>, id: string)
    requires id != ""
    ensures var all := PutAll([], entries);
            && IdList(all) == FirstIds(entries)
            && FindId(all, id) == if LastOf(entries, id).Some? then Some(Tidy(LastOf(entries, id).value)) else None
  {
    if entries != [] {
      var before, last := entries[..|entries| - 1], entries[|entries| - 1];
      assert entries == before + [last];
      LaterEntriesWin(before, id);
      PutAllLast([], before, last);
      FindAfterPut(PutAll([], before), Tidy(last), id);
      IdsAfterPut(PutAll([], before), Tidy(last));
    }
  }

  /** And of the ids the first twenty. */
  lemma {:induction false} NormalizedIdsAre(entries: seq<Entry>)
    ensures var ids := FirstIds(entries); IdList(Normalize(entries)) == if |ids| <= MAX_ENTRIES then ids else ids[..MAX_ENTRIES]
  {
    LaterEntriesWin(entries, "x");
  }

  // ---------------------------------------------------------------- which entry is active

  /** Migrating lifts the legacy draft, which stays the one that is active, and is done once. */
  lemma {:induction false} MigrateLifts(c: Config)
    ensures Migrate(Migrate(c)) == Migrate(c) && Migrate(c).legacy == c.legacy
    ensures c.library.None? && c.legacy.Some? ==>
              Migrate(c).library == Some([Tidy(c.legacy.value)]) && Migrate(c).active == Some(c.legacy.value.id)
              && GetActive(Migrate(c)) == Some(Tidy(c.legacy.value))
    ensures c.library.Some? ==> Migrate(c) == c
  {
  }

  lemma {:induction false} FindTidied(lib: seq<Entry>, id: string)
    ensures FindId(TidyAll(lib), id) == if FindId(lib, id).Some? then Some(Tidy(FindId(lib, id).value)) else None
  {
    if lib != [] {
      assert TidyAll(lib)[1..] == TidyAll(lib[1..]);
      FindTidied(lib[1..], id);
    }
  }

  lemma {:induction false} FindWithout(lib: seq<Entry>, gone: string, id: string)
    ensures FindId(Without(lib, gone), id) == if id == gone then None else FindId(lib, id)
  {
    if lib != [] {
      FindWithout(lib[1..], gone, id);
      var rest := Without(lib[1..], gone);
      assert ([lib[0]] + rest)[1..] == rest && [] + rest == rest;
    }
  }

  /** Removing another entry leaves the active one active; removing the active one makes the first that is
      left active, and leaves none if it was the last; only titles are clamped. */
  lemma {:induction false} RemovePromotes(c: Config, id: string)
    requires Inv(c) && c.library.Some?
    ensures var d, lib := Remove(c, id), Without(c.library.value, id);
            && d.library == Some(TidyAll(lib)) && d.legacy == c.legacy
            && (c.active.Some? && c.active.value != id ==>
                  d.active == c.active && GetActive(c).Some? && GetActive(d) == Some(Tidy(GetActive(c).value)))
            && (c.active == Some(id) && lib != [] ==> GetActive(d) == Some(Tidy(lib[0])) && d.active == Some(lib[0].id))
            && (c.active == Some(id) && lib == [] ==> d.active.None?)
  {
    var lib := Without(c.library.value, id);
    WithoutDistinct(c.library.value, id);
    NormalizedIds(lib);
    if c.active.Some? {
      FindTidied(lib, if c.active.value == id && lib != [] then lib[0].id else c.active.value);
      FindWithout(c.library.value, id, c.active.value);
    }
    if lib != [] {
      FoundAt(lib, 0);
    }
  }

  lemma {:induction false} FindLast(lib: seq<Entry>, e: Entry)
    requires e.id !in Ids(lib)
    ensures FindId(lib + [e], e.id) == Some(e)
  {
    if lib == [] {
      assert lib + [e] == [e];
    } else {
      assert lib[0] in lib && (lib + [e])[1..] == lib[1..] + [e];
      assert forall x :: x in lib[1..] ==> x in lib;
      FindLast(lib[1..], e);
    }
  }

  /** A duplicate is the last entry, under an id of its own, active, with the content of its source and its
      title marked; all other entries stay, their titles clamped. */
  lemma {:induction false} DuplicateCopies(c: Config, id: string, suffix: string, generated: string, newId: string)
    requires Inv(c) && |Base(c)| < MAX_ENTRIES && FindId(Base(c), id).Some? && FreshIfNeeded(c, generated, newId)
    ensures var d, source := Duplicate(c, id, suffix, generated, newId), FindId(Base(c), id).value;
            var copy := GetActive(d);
            && copy.Some? && copy.value.content == source.content && copy.value.id !in Ids(Base(c))
            && copy.value.title == Some(ClampTitle(ClampTitle(ClampTitle(source.title.GetOr(DEFAULT_TITLE) + suffix))))
            && d.library == Some(TidyAll(Base(c)) + [copy.value]) && d.active == Some(copy.value.id)
  {
    var source := FindId(Base(c), id).value;
    var draft := Entry(generated, Some(ClampTitle(source.title.GetOr(DEFAULT_TITLE) + suffix)), source.content);
    AddAppends(c, draft, true, newId);
    TidyIds(Base(c));
    FindLast(TidyAll(Base(c)), Tidy(Filed(c, draft, newId)));
  }

  /** Adding with activation makes the draft active; without it, the active entry stays active. */
  lemma {:induction false} AddActivates(c: Config, draft: Entry, activate: bool, newId: string)
    requires Inv(c) && |Base(c)| < MAX_ENTRIES && FreshIfNeeded(c, draft.id, newId)
    ensures var d, e := Add(c, draft, activate, newId), Tidy(Filed(c, draft, newId));
            && e.content == draft.content && e.title == Some(ClampTitle(Title(draft.title)))
            && (activate || c.active.None? ==> GetActive(d) == Some(e))
            && (!activate && c.active.Some? && c.library.Some? ==>
                  GetActive(c).Some? && GetActive(d) == Some(Tidy(GetActive(c).value)))
  {
    var e := Tidy(Filed(c, draft, newId));
    AddAppends(c, draft, activate, newId);
    TidyIds(Base(c));
    FindLast(TidyAll(Base(c)), e);
    if !activate && c.active.Some? && c.library.Some? {
      FindFirst(TidyAll(Base(c)), e, c.active.value);
      FindTidied(Base(c), c.active.value);
    }
  }

  lemma {:induction false} FindFirst(lib: seq<Entry>, e: Entry, id: string)
    requires id in Ids(lib)
    ensures FindId(lib + [e], id) == FindId(lib, id)
  {
    assert (lib + [e])[1..] == lib[1..] + [e];
    if lib[0].id != id {
      assert exists x :: x in lib[1..] && x.id == id;
      FindFirst(lib[1..], e, id);
    }
  }
}
