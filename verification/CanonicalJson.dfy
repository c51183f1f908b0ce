/** The two canonical printers: stableJson (shared/memory-content-hash.ts:13-41) and
    stableStringify / canonicalize (shared/p2p-workflow-policy.ts:27-29 and 69-83). */
module CanonicalJson {
  import opened Wrappers
  import opened CodeUnits
  import opened Json
  import Sorting

  function KeyOf(m: Member): Text { m.key }

  function SortMembers(members: seq<Member>): (r: seq<Member>)
    ensures multiset(r) == multiset(members) && |r| == |members|
    ensures forall m :: m in r <==> m in members
  {
    Sorting.Sort(Sorting.By(TextLe, KeyOf), members)
  }

  ghost predicate DistinctKeys(members: seq<Member>) {
    forall i, j :: 0 <= i < j < |members| ==> members[i].key != members[j].key
  }

  /** An object has one value a key, at every depth. */
  ghost predicate IsObject(v: Value) {
    match v
    case List(items) => forall i :: 0 <= i < |items| ==> IsObject(items[i])
    case Record(members) =>
      && DistinctKeys(members)
      && forall i :: 0 <= i < |members| ==> IsObject(members[i].value)
    case _ => true
  }

  // ---------------------------------------------------------------- stableJson

  function StableJson(v: Value): Text
    decreases v
  {
    match v
    case Null | Undefined => NULL_TEXT
    case List(items) => [OPEN_LIST] + StableItems(v, items) + [CLOSE_LIST]
    case Record(members) => [OPEN_RECORD] + StableMembers(v, SortMembers(members)) + [CLOSE_RECORD]
    case _ => Print(v)
  }

  function StableItems(ghost owner: Value, items: seq<Value>): Text
    requires forall i :: 0 <= i < |items| ==> (owner decreases to items[i])
    decreases owner, |items|
  {
    if items == [] then []
    else if |items| == 1 then StableJson(items[0])
    else StableJson(items[0]) + [COMMA] + StableItems(owner, items[1..])
  }

  function StableMembers(ghost owner: Value, members: seq<Member>): Text
    requires forall m :: m in members ==> (owner decreases to m.value)
    decreases owner, |members|
  {
    if members == [] then []
    else
      var first := Quote(members[0].key) + [COLON] + StableJson(members[0].value);
      if |members| == 1 then first else first + [COMMA] + StableMembers(owner, members[1..])
  }

  // ---------------------------------------------------------------- canonical values

  /** Members in key order at every depth, undefined read as null. */
  function Canon(v: Value): Value
    decreases v
  {
    match v
    case Undefined => Null
    case List(items) => List(CanonItems(v, items))
    case Record(members) => Record(CanonMembers(v, SortMembers(members)))
    case _ => v
  }

  function CanonItems(ghost owner: Value, items: seq<Value>): (r: seq<Value>)
    requires forall i :: 0 <= i < |items| ==> (owner decreases to items[i])
    ensures |r| == |items| && forall i :: 0 <= i < |r| ==> r[i] == Canon(items[i])
    decreases owner, |items|
  {
    if items == [] then [] else [Canon(items[0])] + CanonItems(owner, items[1..])
  }

  function CanonMembers(ghost owner: Value, members: seq<Member>): (r: seq<Member>)
    requires forall m :: m in members ==> (owner decreases to m.value)
    ensures |r| == |members| && forall i :: 0 <= i < |r| ==> r[i] == Member(members[i].key, Canon(members[i].value))
    decreases owner, |members|
  {
    if members == [] then []
    else [Member(members[0].key, Canon(members[0].value))] + CanonMembers(owner, members[1..])
  }

  lemma {:induction false} CanonIsDefined(v: Value)
    ensures Defined(Canon(v))
    decreases v
  {
    match v
    case List(items) =>
      forall i | 0 <= i < |items| ensures Defined(Canon(items[i])) {
        CanonIsDefined(items[i]);
      }
    case Record(members) =>
      var sorted := SortMembers(members);
      forall i | 0 <= i < |sorted| ensures Defined(Canon(sorted[i].value)) {
        assert sorted[i] in members;
        CanonIsDefined(sorted[i].value);
      }
    case _ =>
  }

  /** stableJson prints the canonical value. */
  lemma {:induction false} StableIsCanonical(v: Value)
    ensures StableJson(v) == Print(Canon(v))
    decreases v
  {
    match v
    case List(items) => StableItemsCanonical(v, items);
    case Record(members) => StableMembersCanonical(v, SortMembers(members));
    case _ =>
  }

  lemma {:induction false} StableItemsCanonical(owner: Value, items: seq<Value>)
    requires forall i :: 0 <= i < |items| ==> (owner decreases to items[i])
    ensures StableItems(owner, items) == PrintItems(CanonItems(owner, items))
    decreases owner, |items|
  {
    if items != [] {
      StableIsCanonical(items[0]);
      StableItemsCanonical(owner, items[1..]);
      assert CanonItems(owner, items)[1..] == CanonItems(owner, items[1..]);
    }
  }

  lemma {:induction false} StableMembersCanonical(owner: Value, members: seq<Member>)
    requires forall m :: m in members ==> (owner decreases to m.value)
    ensures StableMembers(owner, members) == PrintMembers(CanonMembers(owner, members))
    decreases owner, |members|
  {
    if members != [] {
      StableIsCanonical(members[0].value);
      StableMembersCanonical(owner, members[1..]);
      assert CanonMembers(owner, members)[1..] == CanonMembers(owner, members[1..]);
    }
  }

  /** Parsing a printed value gives the value back, in canonical order. */
  lemma {:induction false} StableJsonRoundTrip(v: Value)
    ensures ReadValue(StableJson(v)) == Some(Read(Canon(v), []))
  {
    CanonIsDefined(v);
    StableIsCanonical(v);
    RoundTrip(Canon(v));
  }

  // ---------------------------------------------------------------- equality up to key order

  /** The same JSON value, whatever order its keys were inserted in, at every depth. */
  ghost predicate Same(v: Value, w: Value)
    decreases v
  {
    match v
    case Null | Undefined => w.Null? || w.Undefined?
    case List(items) =>
      w.List? && |w.items| == |items| && forall i :: 0 <= i < |items| ==> Same(items[i], w.items[i])
    case Record(members) =>
      && w.Record?
      && (forall i :: 0 <= i < |members| ==> FoundIn(v, i, w))
      && (forall j :: 0 <= j < |w.members| ==> FoundFor(v, w, j))
    case _ => v == w
  }

  ghost predicate FoundIn(v: Value, i: nat, w: Value)
    requires v.Record? && w.Record? && i < |v.members|
    decreases v, 1
  {
    exists j :: 0 <= j < |w.members| && Matches(v, i, w, j)
  }

  ghost predicate FoundFor(v: Value, w: Value, j: nat)
    requires v.Record? && w.Record? && j < |w.members|
    decreases v, 1
  {
    exists i :: 0 <= i < |v.members| && Matches(v, i, w, j)
  }

  ghost predicate Matches(v: Value, i: nat, w: Value, j: nat)
    requires v.Record? && w.Record? && i < |v.members| && j < |w.members|
    decreases v, 0
  {
    v.members[i].key == w.members[j].key && Same(v.members[i].value, w.members[j].value)
  }

  ghost predicate StrictlySorted(ms: seq<Member>) {
    forall i, j :: 0 <= i < j < |ms| ==> TextLe(ms[i].key, ms[j].key) && ms[i].key != ms[j].key
  }

  lemma {:induction false} SomeMember(t: seq<Member>)
    ensures t == [] || exists m :: m in t
  {
    if t != [] {
      assert t[0] in t;
    }
  }

  lemma {:induction false} SameHead(s: seq<Member>, t: seq<Member>)
    requires StrictlySorted(s) && StrictlySorted(t) && s != [] && t != [] && s[0] in t && t[0] in s
    ensures s[0] == t[0]
  {
    var i :| 0 <= i < |t| && t[i] == s[0];
    var j :| 0 <= j < |s| && s[j] == t[0];
    if i > 0 && j > 0 {
      TextLeAntisymmetric(s[0].key, t[0].key);
    }
  }

  lemma {:induction false} SameTail(s: seq<Member>, t: seq<Member>)
    requires StrictlySorted(s) && StrictlySorted(t) && s != [] && t != [] && s[0] == t[0]
    requires forall m :: m in s <==> m in t
    ensures forall m :: m in s[1..] <==> m in t[1..]
  {
    forall m ensures m in s[1..] <==> m in t[1..] {
      assert m in s <==> m == s[0] || m in s[1..];
      assert m in t <==> m == t[0] || m in t[1..];
    }
  }

  lemma {:induction false} StrictlySortedUnique(s: seq<Member>, t: seq<Member>)
    requires StrictlySorted(s) && StrictlySorted(t) && forall m :: m in s <==> m in t
    ensures s == t
  {
    SomeMember(t);
    if s != [] {
      assert s[0] in s && t[0] in t;
      SameHead(s, t);
      SameTail(s, t);
      StrictlySortedUnique(s[1..], t[1..]);
      assert s == [s[0]] + s[1..] && t == [t[0]] + t[1..];
    }
  }

  lemma {:induction false} SortedMembers(members: seq<Member>)
    requires DistinctKeys(members)
    ensures StrictlySorted(SortMembers(members))
  {
    TextLeIsTotalOrder();
    Sorting.ByPreorder(TextLe, KeyOf);
    Sorting.SortSorted(Sorting.By(TextLe, KeyOf), members);
    var s := SortMembers(members);
    Sorting.DistinctKept(members, s, KeyOf);
    forall i, j | 0 <= i < j < |s| ensures TextLe(s[i].key, s[j].key) && s[i].key != s[j].key {
      assert Sorting.By(TextLe, KeyOf)(s[i], s[j]);
      assert KeyOf(s[i]) != KeyOf(s[j]);
    }
  }

  /** Canonical values are equal exactly for values that are the same up to key order. */
  lemma {:induction false} CanonDecidesSame(v: Value, w: Value)
    requires IsObject(v) && IsObject(w)
    ensures Canon(v) == Canon(w) <==> Same(v, w)
    decreases v
  {
    if v.List? && w.List? && |v.items| == |w.items| {
      forall i | 0 <= i < |v.items| ensures Canon(v.items[i]) == Canon(w.items[i]) <==> Same(v.items[i], w.items[i]) {
        CanonDecidesSame(v.items[i], w.items[i]);
      }
    } else if v.Record? && w.Record? {
      forall i, j | 0 <= i < |v.members| && 0 <= j < |w.members|
        ensures Matches(v, i, w, j) <==> CanonMember(v.members[i]) == CanonMember(w.members[j])
      {
        CanonDecidesSame(v.members[i].value, w.members[j].value);
      }
      RecordsAgree(v, w);
    }
  }

  function CanonMember(m: Member): Member {
    Member(m.key, Canon(m.value))
  }

  lemma {:induction false} ListsSorted(v: Value, s: seq<Member>, c: seq<Member>)
    requires v.Record? && |c| == |s| && forall m :: m in s <==> m in v.members
    requires forall k :: 0 <= k < |s| ==> c[k] == CanonMember(s[k])
    ensures Lists(c, v)
  {
    forall x | x in c ensures exists i :: 0 <= i < |v.members| && CanonMember(v.members[i]) == x {
      var k :| 0 <= k < |c| && c[k] == x;
      assert s[k] in v.members;
      var i :| 0 <= i < |v.members| && v.members[i] == s[k];
    }
    forall i | 0 <= i < |v.members| ensures CanonMember(v.members[i]) in c {
      assert v.members[i] in s;
      var k :| 0 <= k < |s| && s[k] == v.members[i];
      assert c[k] == CanonMember(v.members[i]);
    }
  }

  lemma {:induction false} CanonRecord(v: Value) returns (c: seq<Member>)
    requires IsObject(v) && v.Record?
    ensures Canon(v) == Record(c) && StrictlySorted(c) && Lists(c, v)
  {
    var s := SortMembers(v.members);
    SortedMembers(v.members);
    c := CanonMembers(v, s);
    ListsSorted(v, s, c);
  }

  lemma {:induction false} RecordsAgree(v: Value, w: Value)
    requires IsObject(v) && IsObject(w) && v.Record? && w.Record?
    requires forall i, j :: 0 <= i < |v.members| && 0 <= j < |w.members| ==>
                              (Matches(v, i, w, j) <==> CanonMember(v.members[i]) == CanonMember(w.members[j]))
    ensures Canon(v) == Canon(w) <==> Same(v, w)
  {
    var c := CanonRecord(v);
    var d := CanonRecord(w);
    assert Same(v, w) <==> forall x :: x in c <==> x in d by {
      MembersAgree(v, w, c, d);
    }
    if Same(v, w) {
      StrictlySortedUnique(c, d);
    }
  }

  ghost predicate Lists(c: seq<Member>, v: Value)
    requires v.Record?
  {
    && (forall x :: x in c ==> exists i :: 0 <= i < |v.members| && CanonMember(v.members[i]) == x)
    && forall i :: 0 <= i < |v.members| ==> CanonMember(v.members[i]) in c
  }

  lemma {:induction false} MembersAgree(v: Value, w: Value, c: seq<Member>, d: seq<Member>)
    requires v.Record? && w.Record? && Lists(c, v) && Lists(d, w)
    requires forall i, j :: 0 <= i < |v.members| && 0 <= j < |w.members| ==>
                              (Matches(v, i, w, j) <==> CanonMember(v.members[i]) == CanonMember(w.members[j]))
    ensures Same(v, w) <==> forall x :: x in c <==> x in d
  {
    if forall x :: x in c <==> x in d {
      forall i | 0 <= i < |v.members| ensures FoundIn(v, i, w) {
        assert CanonMember(v.members[i]) in d;
        var j :| 0 <= j < |w.members| && CanonMember(w.members[j]) == CanonMember(v.members[i]);
        assert Matches(v, i, w, j);
      }
      forall j | 0 <= j < |w.members| ensures FoundFor(v, w, j) {
        assert CanonMember(w.members[j]) in c;
        var i :| 0 <= i < |v.members| && CanonMember(v.members[i]) == CanonMember(w.members[j]);
        assert Matches(v, i, w, j);
      }
    }
    if Same(v, w) {
      forall x | x in c ensures x in d {
        var i :| 0 <= i < |v.members| && CanonMember(v.members[i]) == x;
        assert FoundIn(v, i, w);
        var j :| 0 <= j < |w.members| && Matches(v, i, w, j);
        assert CanonMember(w.members[j]) in d;
      }
      forall x | x in d ensures x in c {
        var j :| 0 <= j < |w.members| && CanonMember(w.members[j]) == x;
        assert FoundFor(v, w, j);
        var i :| 0 <= i < |v.members| && Matches(v, i, w, j);
        assert CanonMember(v.members[i]) in c;
      }
    }
  }

  /** Canonical printing is unambiguous: two values print to the same text exactly when they are
      the same up to key order. */
  lemma {:induction false} StableJsonIsUnambiguous(v: Value, w: Value)
    requires IsObject(v) && IsObject(w)
    ensures StableJson(v) == StableJson(w) <==> Same(v, w)
  {
    StableJsonRoundTrip(v);
    StableJsonRoundTrip(w);
    StableIsCanonical(v);
    StableIsCanonical(w);
    CanonDecidesSame(v, w);
  }
}
