/** The JSON value of a contract, contractInput in shared/p2p-workflow-compiler.ts:51-61 with the nodes
    of compileNode (71-93), and that its canonical form separates contracts. */
module ContractJson {
  import opened Wrappers
  import opened Workflow
  import opened CodeUnits
  import opened Json
  import opened CanonicalJson
  import opened PolicyJson

  /** How JavaScript prints a number. */
  type Numerals = Number -> NumberText

  ghost predicate Apart(n: Numerals) {
    forall x, y :: n(x) == n(y) ==> x == y
  }

  // ---------------------------------------------------------------- records, lists, options

  function ObjectOf(keys: seq<string>, values: seq<Value>): Value
    requires |keys| == |values|
  {
    Record(seq(|keys|, i requires 0 <= i < |keys| => Member(Utf16(keys[i]), values[i])))
  }

  function ListOf<T>(f: T -> Value, s: seq<T>): Value {
    List(seq(|s|, i requires 0 <= i < |s| => f(s[i])))
  }

  /** An absent field is an undefined entry. */
  function MaybeOf<T>(f: T -> Value, x: Option<T>): Value {
    if x.None? then Undefined else f(x.value)
  }

  function TextOf(s: string): Value { Str(Utf16(s)) }
  function FlagOf(b: bool): Value { Bool(b) }
  function NumberOf(n: Numerals): Number -> Value { (x: Number) => Value.Number(n(x)) }
  function TextsOf(s: seq<string>): Value { ListOf(TextOf, s) }

  /** The canonical value tells every two values apart, and from null. */
  ghost predicate Separates<T(!new)>(f: T -> Value) {
    && (forall x, y :: Canonicalize(f(x)) == Canonicalize(f(y)) ==> x == y)
    && forall x :: Canonicalize(f(x)) != Null
  }

  ghost predicate Differ(keys: seq<string>) {
    forall i, j :: 0 <= i < j < |keys| ==> keys[i] != keys[j]
  }

  lemma {:induction false} TextSeparates()
    ensures Separates(TextOf)
  {
    forall x, y | Canonicalize(TextOf(x)) == Canonicalize(TextOf(y)) ensures x == y {
      Utf16IsInjective(x, y);
    }
  }

  lemma {:induction false} NumberSeparates(n: Numerals)
    requires Apart(n)
    ensures Separates(NumberOf(n))
  {
  }

  lemma {:induction false} FlagSeparates()
    ensures Separates(FlagOf)
  {
  }

  lemma {:induction false} ListAgrees<T(!new)>(f: T -> Value, s: seq<T>, t: seq<T>)
    requires Separates(f) && Canonicalize(ListOf(f, s)) == Canonicalize(ListOf(f, t))
    ensures s == t
  {
    var a, b := Canonicalize(ListOf(f, s)).items, Canonicalize(ListOf(f, t)).items;
    assert |a| == |s| && |b| == |t|;
    forall i | 0 <= i < |s| ensures s[i] == t[i] {
      assert a[i] == Canonicalize(f(s[i])) && b[i] == Canonicalize(f(t[i]));
    }
  }

  lemma {:induction false} TextsSeparate()
    ensures Separates(TextsOf)
  {
    TextSeparates();
    forall x, y | Canonicalize(TextsOf(x)) == Canonicalize(TextsOf(y)) ensures x == y {
      ListAgrees(TextOf, x, y);
    }
  }

  lemma {:induction false} MaybeAgrees<T(!new)>(f: T -> Value, x: Option<T>, y: Option<T>)
    requires Separates(f) && Canonicalize(MaybeOf(f, x)) == Canonicalize(MaybeOf(f, y))
    ensures x == y
  {
  }

  /** What the canonical record says of the entry m. */
  lemma {:induction false} EntryShows(ms: seq<Member>, m: Member)
    requires DistinctKeys(ms) && m in ms
    ensures var c := Canonicalize(Record(ms)).members;
            && (!m.value.Undefined? ==> Member(m.key, Canonicalize(m.value)) in c)
            && (forall x :: x in c && x.key == m.key ==> !m.value.Undefined? && x.value == Canonicalize(m.value))
  {
    var v, sorted := Record(ms), SortMembers(ms);
    SortedMembers(ms);
    CanonicalMembersAre(v, sorted);
    forall x | x in CanonicalMembers(v, sorted) && x.key == m.key ensures !m.value.Undefined? && x.value == Canonicalize(m.value) {
      var e :| e in sorted && !e.value.Undefined? && x == Member(e.key, Canonicalize(e.value));
      SameKeySameMember(ms, e, m);
    }
    if !m.value.Undefined? {
      assert FromEntry(sorted, Member(m.key, Canonicalize(m.value)));
    }
  }

  lemma {:induction false} SameKeySameMember(ms: seq<Member>, x: Member, y: Member)
    requires DistinctKeys(ms) && x in ms && y in ms && x.key == y.key
    ensures x == y
  {
    var i :| 0 <= i < |ms| && ms[i] == x;
    var j :| 0 <= j < |ms| && ms[j] == y;
  }

  /** Records that canonicalize alike agree on every key they share. */
  lemma {:induction false} EntriesAgree(ms: seq<Member>, ns: seq<Member>, m: Member, n: Member)
    requires DistinctKeys(ms) && DistinctKeys(ns) && m in ms && n in ns && m.key == n.key
    requires Canonicalize(Record(ms)) == Canonicalize(Record(ns))
    ensures Canonicalize(m.value) == Canonicalize(n.value)
  {
    EntryShows(ms, m);
    EntryShows(ns, n);
  }

  lemma {:induction false} ObjectKeys(keys: seq<string>, values: seq<Value>)
    requires Differ(keys) && |keys| == |values|
    ensures DistinctKeys(ObjectOf(keys, values).members)
  {
    forall i, j | 0 <= i < j < |keys| ensures Utf16(keys[i]) != Utf16(keys[j]) {
      if Utf16(keys[i]) == Utf16(keys[j]) {
        Utf16IsInjective(keys[i], keys[j]);
      }
    }
  }

  lemma {:induction false} ObjectIsThere(keys: seq<string>, values: seq<Value>)
    requires |keys| == |values|
    ensures Canonicalize(ObjectOf(keys, values)) != Null
  {
  }

  lemma {:induction false} ObjectAgrees(keys: seq<string>, s: seq<Value>, t: seq<Value>)
    requires Differ(keys) && |s| == |keys| && |t| == |keys|
    requires Canonicalize(ObjectOf(keys, s)) == Canonicalize(ObjectOf(keys, t))
    ensures forall i :: 0 <= i < |keys| ==> Canonicalize(s[i]) == Canonicalize(t[i])
  {
    ObjectKeys(keys, s);
    ObjectKeys(keys, t);
    var ms, ns := ObjectOf(keys, s).members, ObjectOf(keys, t).members;
    forall i | 0 <= i < |keys| ensures Canonicalize(s[i]) == Canonicalize(t[i]) {
      assert ms[i] in ms && ns[i] in ns;
      EntriesAgree(ms, ns, ms[i], ns[i]);
    }
  }
}
