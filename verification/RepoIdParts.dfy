/** What a normalized repository id is made of (shared/memory-namespace.ts:161-186): the names between the
    slashes, in lower case, and one slash between any two. */
module RepoIdParts {
  import opened Text
  import opened RepoId
  import opened Wrappers

  /** The non-empty pieces between the slashes. */
  ghost function Names(s: string): (r: seq<string>)
    ensures s != "" && s[0] != '/' ==> r != []
  {
    if s == "" then []
    else
      var tail := Names(s[1..]);
      if s[0] == '/' then tail
      else if |s| == 1 || s[1] == '/' then [[s[0]]] + tail
      else [[s[0]] + tail[0]] + tail[1..]
  }

  ghost predicate SingleSlashes(s: string) {
    forall i :: 0 <= i < |s| - 1 ==> !(s[i] == '/' && s[i + 1] == '/')
  }

  // ---------------------------------------------------------------- collapsing and stripping keep the names

  lemma {:induction false} NamesOfCons(c: char, s: string)
    ensures Names([c] + s) == if c == '/' then Names(s)
                              else if s == "" || s[0] == '/' then [[c]] + Names(s)
                              else [[c] + Names(s)[0]] + Names(s)[1..]
  {
    assert ([c] + s)[1..] == s;
  }

  lemma {:induction false} CollapseKeepsNames(s: string)
    ensures Names(CollapseSlashes(s)) == Names(s)
  {
    if |s| >= 2 {
      CollapseKeepsNames(s[1..]);
      CollapseFacts(s[1..]);
      NamesOfCons(s[0], s[1..]);
      NamesOfCons(s[0], CollapseSlashes(s[1..]));
      assert s == [s[0]] + s[1..];
    }
  }

  lemma {:induction false} CollapseIsSingle(s: string)
    ensures SingleSlashes(CollapseSlashes(s))
  {
    if |s| >= 2 {
      CollapseIsSingle(s[1..]);
      CollapseFacts(s[1..]);
      if !(s[0] == '/' && s[1] == '/') {
        SingleCons(s[0], CollapseSlashes(s[1..]));
      }
    }
  }

  lemma {:induction false} SingleCons(c: char, s: string)
    requires SingleSlashes(s) && (s != "" && s[0] == '/' ==> c != '/')
    ensures SingleSlashes([c] + s)
  {
  }

  lemma {:induction false} StripStartKeepsNames(s: string)
    ensures Names(StripStart(s)) == Names(s)
  {
    if s != "" && s[0] == '/' {
      StripStartKeepsNames(s[1..]);
    }
  }

  lemma {:induction false} SlashAtEnd(s: string)
    ensures Names(s + ['/']) == Names(s)
  {
    if s == "" {
      assert (s + ['/'])[1..] == "";
    } else {
      SlashAtEnd(s[1..]);
      assert s + ['/'] == [s[0]] + (s[1..] + ['/']);
      assert s == [s[0]] + s[1..];
      NamesOfCons(s[0], s[1..]);
      NamesOfCons(s[0], s[1..] + ['/']);
    }
  }

  lemma {:induction false} StripEndKeepsNames(s: string)
    ensures Names(StripEnd(s)) == Names(s)
  {
    if s != "" && s[|s| - 1] == '/' {
      StripEndKeepsNames(s[..|s| - 1]);
      SlashAtEnd(s[..|s| - 1]);
      assert s == s[..|s| - 1] + ['/'];
    }
  }

  // ---------------------------------------------------------------- and the names make the id

  /** Without slashes at its ends or next to each other, a text is its names joined by slashes. */
  lemma {:induction false} NamesJoined(s: string)
    requires Stable(s) && SingleSlashes(s)
    ensures s == Join('/', Names(s))
    decreases |s|
  {
    if |s| > 1 {
      var t := s[1..];
      assert s == [s[0]] + t;
      NamesOfCons(s[0], t);
      if t[0] == '/' {
        var u := t[1..];
        assert t == ['/'] + u;
        NamesOfCons('/', u);
        NextName(s, t, u);
        NamesJoined(u);
        JoinStep([s[0]], Names(u));
        assert s == [s[0]] + ['/'] + u;
      } else {
        assert Stable(t) && SingleSlashes(t) by {
          TailIsStable(s, t);
        }
        NamesJoined(t);
        JoinLonger(s[0], Names(t));
      }
    } else if |s| == 1 {
      NamesOfCons(s[0], "");
      assert s == [s[0]] + "";
    }
  }

  lemma {:induction false} TailIsStable(s: string, t: string)
    requires |s| > 1 && t == s[1..] && Stable(s) && SingleSlashes(s) && t[0] != '/'
    ensures Stable(t) && SingleSlashes(t)
  {
    forall i | 0 <= i < |t| - 1 ensures !(t[i] == '/' && t[i + 1] == '/') {
      assert t[i] == s[i + 1] && t[i + 1] == s[i + 2];
    }
  }

  lemma {:induction false} NextName(s: string, t: string, u: string)
    requires |s| > 1 && t == s[1..] && t[0] == '/' && u == t[1..] && Stable(s) && SingleSlashes(s)
    ensures u != "" && u[0] != '/' && Stable(u) && SingleSlashes(u)
  {
    assert s[1] == '/' && s[|s| - 1] != '/';
    assert u[0] == s[2];
    assert !(s[1] == '/' && s[1 + 1] == '/');
    forall i | 0 <= i < |u| - 1 ensures !(u[i] == '/' && u[i + 1] == '/') {
      assert u[i] == s[i + 2] && u[i + 1] == s[i + 2 + 1];
    }
  }

  lemma {:induction false} JoinStep(head: string, tail: seq<string>)
    requires tail != []
    ensures Join('/', [head] + tail) == head + ['/'] + Join('/', tail)
  {
    assert ([head] + tail)[1..] == tail;
  }

  lemma {:induction false} JoinLonger(c: char, names: seq<string>)
    requires names != []
    ensures Join('/', [[c] + names[0]] + names[1..]) == [c] + Join('/', names)
  {
    if |names| > 1 {
      JoinStep([c] + names[0], names[1..]);
      JoinStep(names[0], names[1..]);
      assert names == [names[0]] + names[1..];
    }
  }

  // ---------------------------------------------------------------- the ids

  /** What normalizing a plain id or an address leaves aside: one .git at the end. */
  ghost predicate WithoutGit(s: string, bare: string) {
    s == bare + ".git" || (s == bare && !EndsWith(s, ".git"))
  }

  lemma {:induction false} StripGitIs(s: string, bare: string)
    requires WithoutGit(s, bare)
    ensures StripGit(s) == bare
  {
  }

  /** A plain id becomes the names between its slashes, trimmed and in lower case, one .git taken off first. */
  lemma {:induction false} PlainIdIs(raw: string, bare: string)
    requires Trim(raw) != "" && WithoutGit(Lower(Trim(raw)), bare)
    ensures PlainRepoId(raw) == Some(Join('/', Names(bare)))
  {
    var s := StripSlashes(bare);
    StripGitIs(Lower(Trim(raw)), bare);
    StripStartKeepsNames(bare);
    StripEndKeepsNames(StripStart(bare));
    CollapseKeepsNames(s);
    CollapseIsSingle(s);
    StripIsStable(bare);
    CollapseKeepsStable(s);
    NamesJoined(CollapseSlashes(s));
  }

  lemma {:induction false} ColonAt(p: string, q: string)
    requires ':' !in p
    ensures Colon(p + [':'] + q) == |p|
  {
    var s := p + [':'] + q;
    if p != "" {
      ColonAt(p[1..], q);
      assert s[1..] == p[1..] + [':'] + q;
    }
  }

  /** A path: on one line, and without a colon. */
  ghost predicate PathText(path: string) {
    path != "" && ':' !in path && '\n' !in path && '\r' !in path && '\U{2028}' !in path && '\U{2029}' !in path
  }

  lemma {:induction false} AddressParts(start: string, host: string, path: string, s: string)
    requires start == "git@" && host != "" && ':' !in host && PathText(path) && s == start + host + [':'] + path
    ensures IsAddress(s) && HostPath(s) == host + ['/'] + path
  {
    var p := start + host;
    assert ':' !in start;
    ColonAt(p, path);
    assert s[..4] == start && s[4..|p|] == host && s[|p| + 1..] == path;
  }

  /** The id of git@host:path has the names of host/path, one .git taken off, single slashes, and the same ends. */
  lemma {:induction false} AddressIdIs(start: string, host: string, path: string, raw: string, bare: string)
    requires start == "git@" && host != "" && ':' !in host && PathText(path) && Tidy(raw) == start + host + [':'] + path
    requires WithoutGit(host + ['/'] + path, bare)
    ensures IsAddress(Tidy(raw))
    ensures var id := AddressRepoId(raw);
            && Names(id) == Names(bare) && SingleSlashes(id)
            && (bare == "" <==> id == "") && (bare != "" ==> id[0] == bare[0] && id[|id| - 1] == bare[|bare| - 1])
  {
    AddressParts(start, host, path, Tidy(raw));
    StripGitIs(HostPath(Tidy(raw)), bare);
    CollapseKeepsNames(bare);
    CollapseIsSingle(bare);
    CollapseFacts(bare);
  }
}
