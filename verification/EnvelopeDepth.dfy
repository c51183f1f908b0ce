/** What the depth limit of findForbiddenEnvelopeField (shared/p2p-workflow-validators.ts:82-123)
    measures: how deep the search gets, not how far objects are away. */
module EnvelopeDepth {
  import opened Wrappers
  import opened EnvelopeScan

  function UpTo(n: nat): (r: set<nat>)
    ensures forall id: nat :: id in r <==> id <= n
    ensures |r| == n + 1
  {
    if n == 0 then {0} else UpTo(n - 1) + {n}
  }

  /** Arrays 0, 1, ..., n: each holds the next one, and array 0 then holds the last one too. */
  function Shortcut(n: nat): Heap {
    map id | id in UpTo(n) :: if id == 0 then List([Ref(1), Ref(n)]) else if id < n then List([Ref(id + 1)]) else List([])
  }

  function Zeros(k: nat): (r: seq<nat>)
    ensures |r| == k
  {
    if k == 0 then [] else [0] + Zeros(k - 1)
  }

  /** From array k > 0 there is one way to the last array. */
  lemma {:induction false} OneWay(n: nat, k: nat, q: seq<nat>)
    requires 0 < k <= n && Follow(Shortcut(n), Ref(k), q) == Some(Ref(n))
    ensures q == Zeros(n - k)
    decreases n - k
  {
    if k == n {
      assert Children(Shortcut(n)[n]) == [];
    } else {
      assert Children(Shortcut(n)[k]) == [Ref(k + 1)];
      if q != [] {
        OneWay(n, k + 1, q[1..]);
        assert q == [q[0]] + q[1..];
      }
    }
  }

  lemma {:induction false} LongWay(n: nat, k: nat)
    requires k <= n && n > 0
    ensures var h, way := Shortcut(n), Zeros(n - k);
            && Follow(h, Ref(k), way) == Some(Ref(n)) && |Spine(h, Ref(k), way)| == n - k + 1
            && forall i :: 0 <= i <= n - k ==> Spine(h, Ref(k), way)[i] == k + i
    decreases n - k
  {
    if k < n {
      LongWay(n, k + 1);
      assert Zeros(n - k)[1..] == Zeros(n - k - 1);
      assert Children(Shortcut(n)[k])[0] == Ref(k + 1);
    }
  }

  lemma {:induction false} LongWayIsFirst(n: nat)
    requires n > 1
    ensures First(Shortcut(n), Ref(0), Zeros(n), n, {})
  {
    var h := Shortcut(n);
    LongWay(n, 0);
    forall q | Leads(h, Ref(0), q, n, {}) ensures q == Zeros(n) || Before(Zeros(n), q) {
      assert Children(h[0]) == [Ref(1), Ref(n)];
      if q != [] && q[0] == 0 {
        OneWay(n, 1, q[1..]);
        assert q == [0] + q[1..];
      }
    }
  }

  lemma {:induction false} ShortcutReaches(n: nat, v: Value, sels: seq<nat>)
    requires n > 1 && v.Ref? && v.id <= n
    ensures Follow(Shortcut(n), v, sels).Some? ==>
              Follow(Shortcut(n), v, sels).value.Ref? && Follow(Shortcut(n), v, sels).value.id <= n
    decreases sels
  {
    var h := Shortcut(n);
    if sels != [] && sels[0] < |Children(h[v.id])| {
      ShortcutReaches(n, Children(h[v.id])[sels[0]], sels[1..]);
    }
  }

  lemma {:induction false} ShortcutObjects(n: nat, lower: string -> string, id: nat)
    requires 1 < n && id <= n
    ensures Clean(lower, Shortcut(n)[id])
    ensures forall i :: 0 <= i < |Children(Shortcut(n)[id])| ==>
                          Children(Shortcut(n)[id])[i].Ref? && Children(Shortcut(n)[id])[i].id <= n
  {
  }

  lemma {:induction false} ShortcutIsFew(n: nat)
    requires 1 < n < MAX_NODES
    ensures Few(Shortcut(n), Ref(0))
  {
    var h := Shortcut(n);
    forall ids: set<nat> | (forall id :: id in ids ==> Reachable(h, Ref(0), id)) ensures |ids| <= MAX_NODES {
      forall id | id in ids ensures id in UpTo(n) {
        var sels :| Follow(h, Ref(0), sels) == Some(Ref(id));
        ShortcutReaches(n, Ref(0), sels);
      }
      SubsetSize(ids, UpTo(n));
    }
  }

  lemma {:induction false} ShortcutIsHarmless(n: nat, lower: string -> string)
    requires 1 < n < MAX_NODES
    ensures Closed(Shortcut(n)) && Harmless(Shortcut(n), lower, Ref(0))
  {
    var h := Shortcut(n);
    forall id | id in h ensures Clean(lower, h[id]) {
      ShortcutObjects(n, lower, id);
    }
    forall id, i | id in h && 0 <= i < |Children(h[id])| ensures Children(h[id])[i].Ref? ==> Children(h[id])[i].id in h {
      ShortcutObjects(n, lower, id);
    }
    forall sels | Follow(h, Ref(0), sels).Some? ensures CleanText(Follow(h, Ref(0), sels).value) {
      ShortcutReaches(n, Ref(0), sels);
    }
    ShortcutIsFew(n);
  }

  lemma {:induction false} WayTo(n: nat, k: nat)
    requires k < n
    ensures Follow(Shortcut(n), Ref(0), Zeros(k)) == Some(Ref(k))
  {
    StepsFrom(n, 0, k);
  }

  lemma {:induction false} StepsFrom(n: nat, i: nat, k: nat)
    requires i + k < n
    ensures Follow(Shortcut(n), Ref(i), Zeros(k)) == Some(Ref(i + k))
    decreases k
  {
    if k > 0 {
      StepsFrom(n, i + 1, k - 1);
      assert Zeros(k)[1..] == Zeros(k - 1);
      assert Children(Shortcut(n)[i])[0] == Ref(i + 1);
    }
  }

  lemma {:induction false} ShortcutIsShallow(n: nat)
    requires n > 1
    ensures AllShallow(Shortcut(n), Ref(0), n - 1)
  {
    var h := Shortcut(n);
    forall id: nat | Reachable(h, Ref(0), id) ensures (exists sels :: |sels| <= n - 1 && Follow(h, Ref(0), sels) == Some(Ref(id))) {
      var p :| Follow(h, Ref(0), p) == Some(Ref(id));
      ShortcutReaches(n, Ref(0), p);
      if id < n {
        WayTo(n, id);
        assert |Zeros(id)| <= n - 1;
      } else {
        assert Children(h[0])[1] == Ref(n);
        assert [1 as nat][1..] == [];
        assert Follow(h, Ref(0), [1]) == Some(Ref(n));
      }
    }
  }

  /** A harmless graph whose objects all lie within the depth limit can be searched too deeply: the
      search takes the long way to an object before it sees the short one. */
  lemma {:induction false} ShallowCanBeRefused(lower: string -> string) returns (h: Heap)
    ensures Closed(h) && InHeap(h, Ref(0)) && Harmless(h, lower, Ref(0)) && AllShallow(h, Ref(0), MAX_DEPTH)
    ensures SearchedDeep(h, Ref(0))
  {
    h := Shortcut(MAX_DEPTH + 1);
    ShortcutIsHarmless(MAX_DEPTH + 1, lower);
    ShortcutIsShallow(MAX_DEPTH + 1);
    LongWayIsFirst(MAX_DEPTH + 1);
  }
}
