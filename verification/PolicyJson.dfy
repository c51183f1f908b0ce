/** stableStringify and canonicalize (shared/p2p-workflow-policy.ts:27-29 and 69-83), and how they
    differ from stableJson.  Keys that JavaScript reorders (array indices) or swallows (__proto__)
    do not occur. */
module PolicyJson {
  import opened CodeUnits
  import opened Json
  import opened CanonicalJson
  import Sorting
  import Strings = Text

  /** canonicalize: keys sorted, undefined entries of objects dropped, other undefined read as null. */
  function Canonicalize(v: Value): Value
    decreases v
  {
    match v
    case Undefined => Null
    case List(items) => List(CanonicalItems(v, items))
    case Record(members) => Record(CanonicalMembers(v, SortMembers(members)))
    case _ => v
  }

  function CanonicalItems(ghost owner: Value, items: seq<Value>): (r: seq<Value>)
    requires forall i :: 0 <= i < |items| ==> (owner decreases to items[i])
    ensures |r| == |items| && forall i :: 0 <= i < |r| ==> r[i] == Canonicalize(items[i])
    decreases owner, |items|
  {
    if items == [] then [] else [Canonicalize(items[0])] + CanonicalItems(owner, items[1..])
  }

  function CanonicalMembers(ghost owner: Value, members: seq<Member>): seq<Member>
    requires forall m :: m in members ==> (owner decreases to m.value)
    decreases owner, |members|
  {
    if members == [] then []
    else
      (if members[0].value.Undefined? then [] else [Member(members[0].key, Canonicalize(members[0].value))])
      + CanonicalMembers(owner, members[1..])
  }

  function StableStringify(v: Value): Text {
    Print(Canonicalize(v))
  }

  /** The same computation the way the source runs it: a record filled key by key. */
  method CanonicalizeStepwise(v: Value) returns (r: Value)
    ensures r == Canonicalize(v)
    decreases v
  {
    match v
    case Undefined => r := Null;
    case List(items) => r := CanonicalizeList(v);
    case Record(members) =>
      var result := CanonicalizeMembers(v, SortMembers(members));
      r := Record(result);
    case _ => r := v;
  }

  method CanonicalizeList(v: Value) returns (r: Value)
    requires v.List?
    ensures r == Canonicalize(v)
    decreases v, 0
  {
    var list: seq<Value> := [];
    for i := 0 to |v.items|
      invariant |list| == i && forall k :: 0 <= k < i ==> list[k] == Canonicalize(v.items[k])
    {
      var item := CanonicalizeStepwise(v.items[i]);
      list := list + [item];
    }
    ItemsAre(v, v.items, list);
    r := List(list);
  }

  lemma {:induction false} ItemsAre(owner: Value, items: seq<Value>, list: seq<Value>)
    requires forall i :: 0 <= i < |items| ==> (owner decreases to items[i])
    requires |list| == |items| && forall k :: 0 <= k < |items| ==> list[k] == Canonicalize(items[k])
    ensures list == CanonicalItems(owner, items)
  {
  }

  method CanonicalizeMembers(v: Value, sorted: seq<Member>) returns (result: seq<Member>)
    requires v.Record? && forall m :: m in sorted ==> m in v.members
    ensures result == CanonicalMembers(v, sorted)
    decreases v, 1
  {
    var rest: seq<Member>;
    ghost var whole := CanonicalMembers(v, sorted);
    result, rest := [], sorted;
    while rest != []
      invariant forall m :: m in rest ==> m in v.members
      invariant result + CanonicalMembers(v, rest) == whole
      decreases |rest|
    {
      ghost var before := result;
      result := AddEntry(v, rest[0], result);
      NextMember(v, rest, before, result);
      rest := rest[1..];
    }
    assert result + [] == result;
  }

  /** if (entry !== undefined) result[key] = canonicalize(entry) */
  method AddEntry(ghost owner: Value, m: Member, result: seq<Member>) returns (r: seq<Member>)
    requires owner.Record? && m in owner.members
    ensures r == result + if m.value.Undefined? then [] else [Member(m.key, Canonicalize(m.value))]
    decreases owner, 0
  {
    r := result;
    if !m.value.Undefined? {
      var entry := CanonicalizeStepwise(m.value);
      r := r + [Member(m.key, entry)];
    }
  }

  lemma {:induction false} NextMember(owner: Value, rest: seq<Member>, before: seq<Member>, after: seq<Member>)
    requires rest != [] && forall m :: m in rest ==> (owner decreases to m.value)
    requires after == before + if rest[0].value.Undefined? then [] else [Member(rest[0].key, Canonicalize(rest[0].value))]
    ensures after + CanonicalMembers(owner, rest[1..]) == before + CanonicalMembers(owner, rest)
  {
    var head := if rest[0].value.Undefined? then [] else [Member(rest[0].key, Canonicalize(rest[0].value))];
    Strings.Reassociate(before, head, CanonicalMembers(owner, rest[1..]));
  }

  /** Drop the undefined entries of every object. */
  ghost function Prune(v: Value): Value
    decreases v
  {
    match v
    case List(items) => List(PruneItems(v, items))
    case Record(members) => Record(PruneMembers(v, members))
    case _ => v
  }

  ghost function PruneItems(owner: Value, items: seq<Value>): (r: seq<Value>)
    requires forall i :: 0 <= i < |items| ==> (owner decreases to items[i])
    ensures |r| == |items| && forall i :: 0 <= i < |r| ==> r[i] == Prune(items[i])
    decreases owner, |items|
  {
    if items == [] then [] else [Prune(items[0])] + PruneItems(owner, items[1..])
  }

  ghost function PruneMembers(owner: Value, members: seq<Member>): (r: seq<Member>)
    requires forall m :: m in members ==> (owner decreases to m.value)
    ensures forall x :: x in r <==> exists m :: m in members && !m.value.Undefined? && x == Member(m.key, Prune(m.value))
    decreases owner, |members|
  {
    if members == [] then []
    else
      (if members[0].value.Undefined? then [] else [Member(members[0].key, Prune(members[0].value))])
      + PruneMembers(owner, members[1..])
  }

  lemma {:induction false} PruneKeys(owner: Value, members: seq<Member>)
    requires forall m :: m in members ==> (owner decreases to m.value)
    requires DistinctKeys(members)
    ensures DistinctKeys(PruneMembers(owner, members))
    decreases |members|
  {
    if members != [] {
      assert DistinctKeys(members[1..]);
      PruneKeys(owner, members[1..]);
      var tail := PruneMembers(owner, members[1..]);
      forall k | 0 <= k < |tail| ensures tail[k].key != members[0].key {
        assert tail[k] in tail;
        var m :| m in members[1..] && tail[k] == Member(m.key, Prune(m.value));
        var i :| 0 < i < |members| && members[i] == m;
      }
    }
  }

  lemma {:induction false} PruneIsObject(v: Value)
    requires IsObject(v)
    ensures IsObject(Prune(v))
    decreases v
  {
    match v
    case List(items) =>
      forall i | 0 <= i < |items| ensures IsObject(Prune(items[i])) {
        PruneIsObject(items[i]);
      }
    case Record(members) =>
      PruneKeys(v, members);
      var r := PruneMembers(v, members);
      forall k | 0 <= k < |r| ensures IsObject(r[k].value) {
        assert r[k] in r;
        var m :| m in members && !m.value.Undefined? && r[k] == Member(m.key, Prune(m.value));
        var i :| 0 <= i < |members| && members[i] == m;
        PruneIsObject(members[i].value);
      }
    case _ =>
  }

  lemma {:induction false} CanonicalMembersAre(owner: Value, members: seq<Member>)
    requires forall m :: m in members ==> (owner decreases to m.value)
    requires StrictlySorted(members)
    ensures StrictlySorted(CanonicalMembers(owner, members))
    ensures forall x :: x in CanonicalMembers(owner, members) <==> FromEntry(members, x)
    decreases |members|
  {
    if members != [] {
      assert StrictlySorted(members[1..]);
      CanonicalMembersAre(owner, members[1..]);
      NextEntry(members);
      HeadStaysFirst(members, CanonicalMembers(owner, members[1..]));
    }
  }

  /** What comes from the other entries comes after the first one. */
  lemma {:induction false} HeadStaysFirst(members: seq<Member>, tail: seq<Member>)
    requires members != [] && StrictlySorted(members) && StrictlySorted(tail)
    requires forall x :: x in tail ==> FromEntry(members[1..], x)
    ensures forall v :: StrictlySorted([Member(members[0].key, v)] + tail)
  {
    forall k | 0 <= k < |tail| ensures TextLe(members[0].key, tail[k].key) && members[0].key != tail[k].key {
      assert tail[k] in tail;
      var m :| m in members[1..] && tail[k] == Member(m.key, Canonicalize(m.value));
      var i :| 0 < i < |members| && members[i] == m;
    }
  }

  lemma {:induction false} NextEntry(members: seq<Member>)
    requires members != []
    ensures forall x :: FromEntry(members, x)
                        <==> FromEntry(members[1..], x)
                             || (!members[0].value.Undefined? && x == Member(members[0].key, Canonicalize(members[0].value)))
  {
    assert forall m :: m in members <==> m == members[0] || m in members[1..];
  }

  /** Canonicalizing is pruning and then sorting. */
  lemma {:induction false} CanonicalizePrunes(v: Value)
    requires IsObject(v)
    ensures Canonicalize(v) == Canon(Prune(v))
    decreases v
  {
    match v
    case List(items) =>
      forall i | 0 <= i < |items| ensures Canonicalize(items[i]) == Canon(Prune(items[i])) {
        CanonicalizePrunes(items[i]);
      }
      assert Canonicalize(v).items == Canon(Prune(v)).items;
    case Record(members) =>
      forall m | m in members ensures Canonicalize(m.value) == Canon(Prune(m.value)) {
        var i :| 0 <= i < |members| && members[i] == m;
        CanonicalizePrunes(members[i].value);
      }
      RecordPrunes(v);
    case _ =>
  }

  lemma {:induction false} RecordPrunes(v: Value)
    requires IsObject(v) && v.Record?
    requires forall m :: m in v.members ==> Canonicalize(m.value) == Canon(Prune(m.value))
    ensures Canonicalize(v) == Canon(Prune(v))
  {
    var sorted := SortMembers(v.members);
    SortedMembers(v.members);
    CanonicalMembersAre(v, sorted);
    PruneIsObject(v);
    var right := CanonRecord(Prune(v));
    forall x ensures x in CanonicalMembers(v, sorted) <==> x in right {
      PrunedMember(v, sorted, right, x);
    }
    StrictlySortedUnique(CanonicalMembers(v, sorted), right);
  }

  /** x is what canonicalizing one present entry of v gives. */
  ghost predicate FromEntry(members: seq<Member>, x: Member) {
    exists m :: m in members && !m.value.Undefined? && x == Member(m.key, Canonicalize(m.value))
  }

  lemma {:induction false} PrunedMember(v: Value, sorted: seq<Member>, right: seq<Member>, x: Member)
    requires v.Record? && forall m :: m in sorted <==> m in v.members
    requires forall m :: m in v.members ==> Canonicalize(m.value) == Canon(Prune(m.value))
    requires Lists(right, Prune(v))
    ensures FromEntry(sorted, x) <==> x in right
  {
    var pruned := PruneMembers(v, v.members);
    if FromEntry(sorted, x) {
      var m :| m in sorted && !m.value.Undefined? && x == Member(m.key, Canonicalize(m.value));
      assert m in v.members;
      assert Member(m.key, Prune(m.value)) in pruned;
      var k :| 0 <= k < |pruned| && pruned[k] == Member(m.key, Prune(m.value));
      assert CanonMember(Prune(v).members[k]) in right;
    }
    if x in right {
      var k :| 0 <= k < |Prune(v).members| && CanonMember(Prune(v).members[k]) == x;
      assert pruned[k] in pruned;
      var m :| m in v.members && !m.value.Undefined? && pruned[k] == Member(m.key, Prune(m.value));
      assert m in sorted;
    }
  }

  /** stableStringify is stableJson on the pruned value, so it is unambiguous up to key order and
      undefined entries. */
  lemma {:induction false} StableStringifyIsUnambiguous(v: Value, w: Value)
    requires IsObject(v) && IsObject(w)
    ensures StableStringify(v) == StableJson(Prune(v))
    ensures StableStringify(v) == StableStringify(w) <==> Same(Prune(v), Prune(w))
  {
    CanonicalizePrunes(v);
    CanonicalizePrunes(w);
    PruneIsObject(v);
    PruneIsObject(w);
    StableIsCanonical(Prune(v));
    StableIsCanonical(Prune(w));
    StableJsonIsUnambiguous(Prune(v), Prune(w));
  }

  lemma {:induction false} CanonicalIsDefined(v: Value)
    ensures Defined(Canonicalize(v))
    decreases v
  {
    match v
    case List(items) =>
      forall i | 0 <= i < |items| ensures Defined(Canonicalize(items[i])) {
        CanonicalIsDefined(items[i]);
      }
    case Record(members) =>
      CanonicalMembersDefined(v, SortMembers(members));
    case _ =>
  }

  lemma {:induction false} CanonicalMembersDefined(owner: Value, members: seq<Member>)
    requires forall m :: m in members ==> (owner decreases to m.value)
    ensures forall m :: m in CanonicalMembers(owner, members) ==> Defined(m.value)
    decreases owner, |members|
  {
    if members != [] {
      CanonicalIsDefined(members[0].value);
      CanonicalMembersDefined(owner, members[1..]);
    }
  }

  /** stableStringify prints two values alike exactly when it canonicalizes them alike. */
  lemma {:induction false} PrintsCanonical(v: Value, w: Value)
    ensures StableStringify(v) == StableStringify(w) <==> Canonicalize(v) == Canonicalize(w)
  {
    CanonicalIsDefined(v);
    CanonicalIsDefined(w);
    RoundTrip(Canonicalize(v));
    RoundTrip(Canonicalize(w));
  }

  /** Each canonical member comes from a member of the record. */
  lemma {:induction false} CameFrom(v: Value, c: seq<Member>, k: nat) returns (i: nat)
    requires IsObject(v) && v.Record? && Lists(c, v) && k < |c|
    ensures i < |v.members| && c[k] == CanonMember(v.members[i])
    ensures IsObject(v.members[i].value) && (v decreases to v.members[i].value)
  {
    assert c[k] in c;
    i :| 0 <= i < |v.members| && CanonMember(v.members[i]) == c[k];
  }

  /** Canonical values stay as they are. */
  lemma {:induction false} CanonIsFixed(v: Value)
    requires IsObject(v)
    ensures Canon(Canon(v)) == Canon(v)
    decreases v
  {
    match v
    case List(items) =>
      forall i | 0 <= i < |items| ensures Canon(Canon(items[i])) == Canon(items[i]) {
        CanonIsFixed(items[i]);
      }
      assert Canon(Canon(v)).items == Canon(v).items;
    case Record(members) =>
      var c := CanonRecord(v);
      forall k | 0 <= k < |c| ensures Canon(c[k].value) == c[k].value {
        var i := CameFrom(v, c, k);
        CanonIsFixed(v.members[i].value);
      }
      SortedIsFixed(c);
    case _ =>
  }

  lemma {:induction false} SortedIsFixed(c: seq<Member>)
    requires StrictlySorted(c) && forall k :: 0 <= k < |c| ==> Canon(c[k].value) == c[k].value
    ensures Canon(Record(c)) == Record(c)
  {
    SortMembersFixed(c);
    CanonMembersFixed(Record(c), c);
  }

  lemma {:induction false} CanonMembersFixed(owner: Value, c: seq<Member>)
    requires forall m :: m in c ==> (owner decreases to m.value)
    requires forall k :: 0 <= k < |c| ==> Canon(c[k].value) == c[k].value
    ensures CanonMembers(owner, c) == c
  {
    var members := CanonMembers(owner, c);
    assert forall k :: 0 <= k < |c| ==> members[k] == c[k];
  }

  lemma {:induction false} SortMembersFixed(c: seq<Member>)
    requires StrictlySorted(c)
    ensures SortMembers(c) == c
  {
    var le := Sorting.By(TextLe, KeyOf);
    forall i, j | 0 <= i < j < |c| ensures le(c[i], c[j]) {
      assert TextLe(c[i].key, c[j].key);
    }
    Sorting.SortFixed(le, c);
  }

  lemma {:induction false} CanonIsObject(v: Value)
    requires IsObject(v)
    ensures IsObject(Canon(v))
    decreases v
  {
    match v
    case List(items) =>
      forall i | 0 <= i < |items| ensures IsObject(Canon(items[i])) {
        CanonIsObject(items[i]);
      }
    case Record(members) =>
      var c := CanonRecord(v);
      forall k | 0 <= k < |c| ensures IsObject(c[k].value) {
        var i := CameFrom(v, c, k);
        CanonIsObject(v.members[i].value);
      }
    case _ =>
  }

  // ---------------------------------------------------------------- when the two printers agree

  /** No object has an undefined entry, at any depth. */
  ghost predicate NoHoles(v: Value) {
    match v
    case List(items) => forall i :: 0 <= i < |items| ==> NoHoles(items[i])
    case Record(members) =>
      forall i :: 0 <= i < |members| ==> !members[i].value.Undefined? && NoHoles(members[i].value)
    case _ => true
  }

  lemma {:induction false} PruneKeepsFull(v: Value)
    requires NoHoles(v)
    ensures Prune(v) == v
    decreases v
  {
    match v
    case List(items) =>
      forall i | 0 <= i < |items| ensures Prune(items[i]) == items[i] {
        PruneKeepsFull(items[i]);
      }
      assert Prune(v).items == items;
    case Record(members) =>
      forall i | 0 <= i < |members| ensures Prune(members[i].value) == members[i].value {
        PruneKeepsFull(members[i].value);
      }
      PruneKeepsMembers(v, members);
    case _ =>
  }

  lemma {:induction false} PruneKeepsMembers(owner: Value, members: seq<Member>)
    requires forall m :: m in members ==> (owner decreases to m.value)
    requires forall i :: 0 <= i < |members| ==> !members[i].value.Undefined? && Prune(members[i].value) == members[i].value
    ensures PruneMembers(owner, members) == members
    decreases |members|
  {
    if members != [] {
      PruneKeepsMembers(owner, members[1..]);
      assert members == [members[0]] + members[1..];
      assert members[0] == Member(members[0].key, Prune(members[0].value));
    }
  }

  lemma {:induction false} DefinedHasNoHoles(v: Value)
    requires Defined(v)
    ensures NoHoles(v)
    decreases v
  {
    match v
    case List(items) =>
      forall i | 0 <= i < |items| ensures NoHoles(items[i]) {
        DefinedHasNoHoles(items[i]);
      }
    case Record(members) =>
      forall i | 0 <= i < |members| ensures NoHoles(members[i].value) {
        DefinedHasNoHoles(members[i].value);
      }
    case _ =>
  }

  lemma {:induction false} CanonicalizeIsIdempotent(v: Value)
    requires IsObject(v)
    ensures Canonicalize(Canonicalize(v)) == Canonicalize(v)
  {
    var c := Canonicalize(v);
    CanonicalizePrunes(v);
    PruneIsObject(v);
    CanonIsDefined(Prune(v));
    CanonIsObject(Prune(v));
    CanonicalizePrunes(c);
    DefinedHasNoHoles(c);
    PruneKeepsFull(c);
    CanonIsFixed(Prune(v));
  }

  lemma {:induction false} HolesShow(v: Value)
    requires IsObject(v) && Same(Prune(v), v)
    ensures NoHoles(v)
    decreases v
  {
    match v
    case List(items) =>
      forall i | 0 <= i < |items| ensures NoHoles(items[i]) {
        assert Same(Prune(v).items[i], items[i]);
        HolesShow(items[i]);
      }
    case Record(members) =>
      var pruned := PruneMembers(v, members);
      forall j | 0 <= j < |members| ensures !members[j].value.Undefined? && NoHoles(members[j].value) {
        assert FoundFor(Prune(v), v, j);
        var i :| 0 <= i < |pruned| && Matches(Prune(v), i, v, j);
        assert pruned[i] in pruned;
        var m :| m in members && !m.value.Undefined? && pruned[i] == Member(m.key, Prune(m.value));
        var k :| 0 <= k < |members| && members[k] == m;
        assert k == j;
        HolesShow(members[j].value);
      }
    case _ =>
  }

  /** The two printers give the same text exactly when no object has an undefined entry. */
  lemma {:induction false} PrintersAgreeIff(v: Value)
    requires IsObject(v)
    ensures StableStringify(v) == StableJson(v) <==> NoHoles(v)
  {
    StableStringifyIsUnambiguous(v, v);
    PruneIsObject(v);
    StableJsonIsUnambiguous(Prune(v), v);
    if NoHoles(v) {
      PruneKeepsFull(v);
    }
    if Same(Prune(v), v) {
      HolesShow(v);
    }
  }
}
