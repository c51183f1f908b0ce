/** findForbiddenEnvelopeField (shared/p2p-workflow-validators.ts:78-123): a depth-first search
    for secrets over an arbitrary object graph, sharing and cycles included, with one mutable
    state for the whole search. */
module EnvelopeScan {
  import opened Wrappers
  import Utf8
  import Text

  const MAX_DEPTH := 32
  const MAX_NODES := 5_000
  const MAX_ITEMS := 1_000
  const MAX_TEXT_BYTES := 256 * 1024

  /** A value is a string, another primitive, or a reference to an object of the heap. */
  datatype Value = Str(text: string) | Scalar | Ref(id: nat)
  datatype Field = Field(key: string, value: Value)
  datatype Object = List(items: seq<Value>) | Record(fields: seq<Field>)
  type Heap = map<nat, Object>

  /** The names the scan refuses.  lower stands for String.prototype.toLowerCase. */
  const FORBIDDEN_NAMES: set<string> := {
    "compiledWorkflow", "boundWorkflow", "privateRuntimeState", "runtimePrivateState", "rawPrompt",
    "rawPromptText", "scriptRawOutputs", "rawScriptOutput", "artifactBaselines", "privateArtifactBaselines",
    "editorCache", "hiddenEditorCache", "env", "environment", "token", "accessToken", "refreshToken",
    "apiKey", "secret"
  }

  predicate Forbidden(lower: string -> string, key: string) {
    || key in FORBIDDEN_NAMES
    || Text.EndsWith(lower(key), "token") || Text.EndsWith(lower(key), "secret") || Text.EndsWith(lower(key), "apikey")
    || lower(key) == "env" || lower(key) == "environment"
  }

  /** The ends of keys that are refused in any case, and the whole keys. */
  const SECRET_ENDS: set<string> := {"token", "secret", "apikey"}
  const ENVIRONMENTS: set<string> := {"env", "environment"}

  /** A key is refused exactly when it is on the list, or in lower case ends like a secret or names the environment. */
  lemma {:induction false} ForbiddenIff(lower: string -> string, key: string)
    ensures Forbidden(lower, key)
            <==> || key in FORBIDDEN_NAMES || lower(key) in ENVIRONMENTS
                 || exists front, end :: end in SECRET_ENDS && lower(key) == front + end
  {
    forall end: string | Text.EndsWith(lower(key), end) ensures exists front :: lower(key) == front + end {
      assert lower(key) == lower(key)[..|lower(key)| - |end|] + end;
    }
  }

  function FieldValues(fields: seq<Field>): (r: seq<Value>)
    ensures |r| == |fields| && forall i :: 0 <= i < |r| ==> r[i] == fields[i].value
  {
    seq(|fields|, i requires 0 <= i < |fields| => fields[i].value)
  }

  function Children(o: Object): seq<Value> {
    if o.List? then o.items else FieldValues(o.fields)
  }

  /** No reference leaves the heap. */
  ghost predicate Closed(h: Heap) {
    forall id, i :: id in h && 0 <= i < |Children(h[id])| && Children(h[id])[i].Ref? ==> Children(h[id])[i].id in h
  }

  ghost predicate InHeap(h: Heap, v: Value) {
    v.Ref? ==> v.id in h
  }

  // ---------------------------------------------------------------- paths into the graph

  /** The value reached from v by taking child sels[0], then child sels[1], ... */
  ghost function Follow(h: Heap, v: Value, sels: seq<nat>): Option<Value>
    decreases sels
  {
    if sels == [] then Some(v)
    else if v.Ref? && v.id in h && sels[0] < |Children(h[v.id])| then
      Follow(h, Children(h[v.id])[sels[0]], sels[1..])
    else None
  }

  ghost predicate Reachable(h: Heap, v: Value, id: nat) {
    exists sels :: Follow(h, v, sels) == Some(Ref(id))
  }

  /** The objects that path sels passes through, both ends included. */
  ghost function Spine(h: Heap, v: Value, sels: seq<nat>): seq<nat>
    decreases sels
  {
    if !v.Ref? then []
    else if sels == [] || v.id !in h || sels[0] >= |Children(h[v.id])| then [v.id]
    else [v.id] + Spine(h, Children(h[v.id])[sels[0]], sels[1..])
  }

  /** ${path}[${index}], ${path}.${key}, or the bare key at the top. */
  function Extend(path: string, o: Object, i: nat): string
    requires i < |Children(o)|
  {
    if o.List? then path + "[" + Text.Decimal(i) + "]"
    else if path != "" then path + "." + o.fields[i].key
    else o.fields[i].key
  }

  function OrDollar(path: string): string {
    if path != "" then path else "$"
  }

  /** As in a, a.b and a.b[2]. */
  lemma {:induction false} PathTexts(a: string, b: string, record: Object, list: Object)
    requires record.Record? && |record.fields| == 2 && record.fields[0].key == a && record.fields[1].key == b && a != ""
    requires list.List? && |list.items| == 3
    ensures Extend("", record, 0) == a && Extend(a, record, 1) == a + "." + b
    ensures Extend(a + "." + b, list, 2) == a + "." + b + "[2]" && Extend("", list, 2) == "[2]"
    ensures OrDollar("") == "$" && OrDollar(a) == a
  {
    TwoInDecimal(2);
  }

  lemma {:induction false} TwoInDecimal(n: nat)
    requires n == 2
    ensures Text.Decimal(n) == "2"
  {
  }

  /** How the scan writes down the path sels, starting from prefix path. */
  ghost function Render(h: Heap, v: Value, path: string, sels: seq<nat>): string
    decreases sels
  {
    if sels == [] || !v.Ref? || v.id !in h || sels[0] >= |Children(h[v.id])| then path
    else Render(h, Children(h[v.id])[sels[0]], Extend(path, h[v.id], sels[0]), sels[1..])
  }

  // ---------------------------------------------------------------- what is being looked for

  ghost predicate CleanText(v: Value) {
    v.Str? ==> Utf8.ByteLength(v.text) <= MAX_TEXT_BYTES
  }

  /** An object the scan has nothing against. */
  ghost predicate Clean(lower: string -> string, o: Object) {
    && (forall i :: 0 <= i < |Children(o)| ==> CleanText(Children(o)[i]))
    && (o.List? ==> |o.items| <= MAX_ITEMS)
    && (o.Record? ==> forall i :: 0 <= i < |o.fields| ==> !Forbidden(lower, o.fields[i].key))
  }

  ghost predicate Seen(v: Value, visited: set<nat>) {
    CleanText(v) && (v.Ref? ==> v.id in visited)
  }

  /** Every object found between the two visited sets is clean and its children are seen. */
  ghost predicate Covered(h: Heap, lower: string -> string, before: set<nat>, after: set<nat>) {
    forall id :: id in after && id !in before && id in h ==>
                   Clean(lower, h[id]) && forall i :: 0 <= i < |Children(h[id])| ==> Seen(Children(h[id])[i], after)
  }

  /** What a returned path says: following sels from v leads to the offence it names. */
  datatype Offence = ForbiddenKey | LongText | LongList | TooDeep | TooMany

  ghost predicate Blames(h: Heap, lower: string -> string, v: Value, path: string, depth: int,
                         sels: seq<nat>, what: Offence, found: string)
  {
    && Follow(h, v, sels).Some?
    && var at := Follow(h, v, sels).value;
    match what
    case LongText => at.Str? && !CleanText(at) && found == OrDollar(Render(h, v, path, sels))
    case LongList =>
      at.Ref? && at.id in h && h[at.id].List? && |h[at.id].items| > MAX_ITEMS && found == OrDollar(Render(h, v, path, sels))
    case TooDeep => at.Ref? && depth + |sels| > MAX_DEPTH && found == OrDollar(Render(h, v, path, sels))
    case TooMany => at.Ref? && found == OrDollar(Render(h, v, path, sels))
    case ForbiddenKey =>
      && sels != [] && Follow(h, v, sels[..|sels| - 1]).Some?
      && var owner := Follow(h, v, sels[..|sels| - 1]).value;
      && owner.Ref? && owner.id in h && h[owner.id].Record? && sels[|sels| - 1] < |h[owner.id].fields|
      && Forbidden(lower, h[owner.id].fields[sels[|sels| - 1]].key)
      && found == Render(h, v, path, sels)
  }

  ghost predicate Distinct(s: seq<nat>) {
    forall i, j :: 0 <= i < j < |s| ==> s[i] != s[j]
  }

  // ---------------------------------------------------------------- the first simple path to an object

  /** The path runs through none of these objects, and through none twice. */
  ghost predicate FreshSpine(spine: seq<nat>, avoid: set<nat>) {
    Distinct(spine) && forall x :: x in spine ==> x !in avoid
  }

  /** sels is a simple path from v to object x that avoids some objects. */
  ghost predicate Leads(h: Heap, v: Value, sels: seq<nat>, x: nat, avoid: set<nat>) {
    Follow(h, v, sels) == Some(Ref(x)) && FreshSpine(Spine(h, v, sels), avoid)
  }

  /** Where the two paths part, p takes the earlier child. */
  ghost predicate Before(p: seq<nat>, q: seq<nat>)
    decreases p
  {
    p != [] && q != [] && (p[0] < q[0] || (p[0] == q[0] && Before(p[1..], q[1..])))
  }

  /** Of all simple paths to x, sels takes earlier children than any other. */
  ghost predicate First(h: Heap, v: Value, sels: seq<nat>, x: nat, avoid: set<nat>) {
    Leads(h, v, sels, x, avoid) && forall q :: Leads(h, v, q, x, avoid) ==> q == sels || Before(sels, q)
  }

  /** The same for paths from object id of which only the part below id counts. */
  ghost predicate LeadsBelow(h: Heap, id: nat, sels: seq<nat>, x: nat, avoid: set<nat>) {
    id in h && sels != [] && sels[0] < |Children(h[id])| && Leads(h, Children(h[id])[sels[0]], sels[1..], x, avoid)
  }

  ghost predicate FirstBelow(h: Heap, id: nat, sels: seq<nat>, x: nat, avoid: set<nat>) {
    LeadsBelow(h, id, sels, x, avoid) && forall q :: LeadsBelow(h, id, q, x, avoid) ==> q == sels || Before(sels, q)
  }

  /** What was found on the way has a first path of at most k steps. */
  ghost predicate AllFirst(h: Heap, v: Value, before: set<nat>, after: set<nat>, k: int) {
    forall x :: x in after && x !in before ==> FirstWithin(h, v, x, before, k)
  }

  ghost predicate FirstWithin(h: Heap, v: Value, x: nat, avoid: set<nat>, k: int) {
    exists sels :: |sels| <= k && First(h, v, sels, x, avoid)
  }

  ghost predicate AllFirstBelow(h: Heap, id: nat, before: set<nat>, after: set<nat>, k: int) {
    forall x :: x in after && x !in before ==> FirstBelowWithin(h, id, x, before, k)
  }

  ghost predicate FirstBelowWithin(h: Heap, id: nat, x: nat, avoid: set<nat>, k: int) {
    exists sels :: |sels| <= k && FirstBelow(h, id, sels, x, avoid)
  }

  lemma {:induction false} NotBothBefore(p: seq<nat>, q: seq<nat>)
    requires Before(p, q)
    ensures !Before(q, p)
    decreases p
  {
    if p[0] == q[0] {
      NotBothBefore(p[1..], q[1..]);
    }
  }

  lemma {:induction false} FirstIsUnique(h: Heap, v: Value, p: seq<nat>, q: seq<nat>, x: nat, avoid: set<nat>)
    requires First(h, v, p, x, avoid) && First(h, v, q, x, avoid)
    ensures p == q
  {
    if p != q {
      NotBothBefore(p, q);
    }
  }

  lemma {:induction false} SpineEnds(h: Heap, v: Value, sels: seq<nat>, x: nat)
    requires Follow(h, v, sels) == Some(Ref(x))
    ensures v.Ref? && |Spine(h, v, sels)| == |sels| + 1 && Spine(h, v, sels)[0] == v.id && Spine(h, v, sels)[|sels|] == x
    decreases sels
  {
    if sels != [] {
      SpineEnds(h, Children(h[v.id])[sels[0]], sels[1..], x);
    }
  }

  lemma {:induction false} LoopIsNotSimple(h: Heap, id: nat, q: seq<nat>)
    requires Follow(h, Ref(id), q) == Some(Ref(id)) && q != []
    ensures !Distinct(Spine(h, Ref(id), q))
  {
    SpineEnds(h, Ref(id), q, id);
    var spine := Spine(h, Ref(id), q);
    assert spine[0] == spine[|q|];
  }

  /** The only simple path from an object to itself is the empty one. */
  lemma {:induction false} SelfIsFirst(h: Heap, id: nat, avoid: set<nat>)
    requires id !in avoid
    ensures First(h, Ref(id), [], id, avoid)
  {
    forall q ensures Leads(h, Ref(id), q, id, avoid) ==> q == [] {
      if Follow(h, Ref(id), q) == Some(Ref(id)) && q != [] {
        LoopIsNotSimple(h, id, q);
      }
    }
  }

  lemma {:induction false} SpineOfStep(h: Heap, id: nat, sels: seq<nat>)
    requires id in h && sels != [] && sels[0] < |Children(h[id])|
    ensures Follow(h, Ref(id), sels) == Follow(h, Children(h[id])[sels[0]], sels[1..])
    ensures Spine(h, Ref(id), sels) == [id] + Spine(h, Children(h[id])[sels[0]], sels[1..])
  {
  }

  lemma {:induction false} BelowIsLead(h: Heap, id: nat, sels: seq<nat>, x: nat, avoid: set<nat>)
    requires id !in avoid && id in h && sels != []
    ensures LeadsBelow(h, id, sels, x, avoid + {id}) <==> Leads(h, Ref(id), sels, x, avoid)
  {
    if sels[0] < |Children(h[id])| {
      SpineOfStep(h, id, sels);
      FreshCons(id, Spine(h, Children(h[id])[sels[0]], sels[1..]), avoid);
    }
  }

  lemma {:induction false} FreshCons(id: nat, spine: seq<nat>, avoid: set<nat>)
    requires id !in avoid
    ensures FreshSpine([id] + spine, avoid) <==> FreshSpine(spine, avoid + {id})
  {
    var all := [id] + spine;
    if FreshSpine(all, avoid) {
      forall x | x in spine ensures x !in avoid + {id} {
        var k :| 0 <= k < |spine| && spine[k] == x;
        assert all[k + 1] == x && all[0] == id && x in all;
      }
      forall i, j | 0 <= i < j < |spine| ensures spine[i] != spine[j] {
        assert all[i + 1] == spine[i] && all[j + 1] == spine[j];
      }
    }
    if FreshSpine(spine, avoid + {id}) {
      forall i, j | 0 <= i < j < |all| ensures all[i] != all[j] {
        assert all[j] == spine[j - 1] && all[j] in spine;
      }
    }
  }

  /** The first path below an object is the first path from it. */
  lemma {:induction false} FirstFromAbove(h: Heap, id: nat, sels: seq<nat>, x: nat, avoid: set<nat>)
    requires id !in avoid && id in h && x != id && FirstBelow(h, id, sels, x, avoid + {id})
    ensures First(h, Ref(id), sels, x, avoid)
  {
    BelowIsLead(h, id, sels, x, avoid);
    forall q | Leads(h, Ref(id), q, x, avoid) ensures q == sels || Before(sels, q) {
      assert q != [];
      BelowIsLead(h, id, q, x, avoid);
    }
  }

  lemma {:induction false} AllFirstFromAbove(h: Heap, id: nat, avoid: set<nat>, after: set<nat>, k: int)
    requires id !in avoid && id in h && k >= 0 && AllFirstBelow(h, id, avoid + {id}, after, k)
    ensures AllFirst(h, Ref(id), avoid, after, k)
  {
    forall x | x in after && x !in avoid ensures FirstWithin(h, Ref(id), x, avoid, k) {
      if x == id {
        SelfIsFirst(h, id, avoid);
      } else {
        assert FirstBelowWithin(h, id, x, avoid + {id}, k);
        var sels :| |sels| <= k && FirstBelow(h, id, sels, x, avoid + {id});
        FirstFromAbove(h, id, sels, x, avoid);
      }
    }
  }

  /** The children of what was found between the two visited sets are all in the second. */
  ghost predicate Absorbing(h: Heap, before: set<nat>, after: set<nat>) {
    forall id, i :: id in after && id !in before && id in h && 0 <= i < |Children(h[id])| && Children(h[id])[i].Ref? ==>
                      Children(h[id])[i].id in after
  }

  /** So a path that avoids the first set and touches the second ends in it. */
  lemma {:induction false} PathStaysIn(h: Heap, w: Value, q: seq<nat>, x: nat, a: set<nat>, b: set<nat>)
    requires Absorbing(h, a, b) && Leads(h, w, q, x, a)
    requires exists y :: y in Spine(h, w, q) && y in b
    ensures x in b
    decreases q
  {
    SpineEnds(h, w, q, x);
    if q != [] {
      var child := Children(h[w.id])[q[0]];
      SpineOfStep(h, w.id, q);
      LeadsTail(h, w.id, q, x, a);
      if w.id in b {
        SpineEnds(h, child, q[1..], x);
        assert w.id in Spine(h, w, q);
        assert child.id in Spine(h, child, q[1..]);
        PathStaysIn(h, child, q[1..], x, a, b);
      } else {
        var y :| y in Spine(h, w, q) && y in b;
        assert y in Spine(h, child, q[1..]);
        PathStaysIn(h, child, q[1..], x, a, b);
      }
    }
  }

  lemma {:induction false} LeadsTail(h: Heap, id: nat, q: seq<nat>, x: nat, avoid: set<nat>)
    requires q != [] && Leads(h, Ref(id), q, x, avoid)
    ensures id in h && q[0] < |Children(h[id])| && Leads(h, Children(h[id])[q[0]], q[1..], x, avoid)
  {
    SpineOfStep(h, id, q);
    var spine := Spine(h, Children(h[id])[q[0]], q[1..]);
    forall i, j | 0 <= i < j < |spine| ensures spine[i] != spine[j] {
      assert Spine(h, Ref(id), q)[i + 1] == spine[i] && Spine(h, Ref(id), q)[j + 1] == spine[j];
    }
  }

  /** What the search of child i finds first, no path through an earlier child or through an object
      visited meanwhile can reach. */
  lemma {:induction false} FirstThroughChild(h: Heap, id: nat, i: nat, p: seq<nat>, x: nat, a: set<nat>, b: set<nat>)
    requires id in h && i < |Children(h[id])| && a <= b && Absorbing(h, a, b)
    requires forall j :: 0 <= j < i && Children(h[id])[j].Ref? ==> Children(h[id])[j].id in b
    requires First(h, Children(h[id])[i], p, x, b)
    ensures FirstBelow(h, id, [i] + p, x, a)
  {
    SpineEnds(h, Children(h[id])[i], p, x);
    assert x in Spine(h, Children(h[id])[i], p) && x !in b;
    assert ([i] + p)[1..] == p;
    forall q | LeadsBelow(h, id, q, x, a) ensures q == [i] + p || Before([i] + p, q) {
      var w := Children(h[id])[q[0]];
      AvoidsVisited(h, w, q[1..], x, a, b);
      if q[0] == i {
        assert q == [i] + q[1..];
      }
    }
  }

  /** A path to an object that is not visited does not start at a visited one. */
  lemma {:induction false} AvoidsVisited(h: Heap, w: Value, q: seq<nat>, x: nat, a: set<nat>, b: set<nat>)
    requires Absorbing(h, a, b) && Leads(h, w, q, x, a) && x !in b
    ensures Leads(h, w, q, x, b) && w.Ref? && w.id !in b
  {
    SpineEnds(h, w, q, x);
    if exists y :: y in Spine(h, w, q) && y in b {
      PathStaysIn(h, w, q, x, a, b);
    }
    assert w.id in Spine(h, w, q);
  }

  lemma {:induction false} AllFirstThroughChild(h: Heap, id: nat, i: nat, a: set<nat>, b: set<nat>, c: set<nat>, k: int)
    requires id in h && i < |Children(h[id])| && a <= b && Absorbing(h, a, b)
    requires forall j :: 0 <= j < i && Children(h[id])[j].Ref? ==> Children(h[id])[j].id in b
    requires AllFirst(h, Children(h[id])[i], b, c, k) && AllFirstBelow(h, id, a, b, k + 1)
    ensures AllFirstBelow(h, id, a, c, k + 1)
  {
    forall x | x in c && x !in a ensures FirstBelowWithin(h, id, x, a, k + 1) {
      if x !in b {
        assert FirstWithin(h, Children(h[id])[i], x, b, k);
        var p :| |p| <= k && First(h, Children(h[id])[i], p, x, b);
        FirstThroughChild(h, id, i, p, x, a, b);
      }
    }
  }

  /** Blame one level up: what child i of object o is blamed for, the object's value is too. */
  lemma {:induction false} BlamesUp(h: Heap, lower: string -> string, id: nat, i: nat, path: string, depth: int,
                                    sels: seq<nat>, what: Offence, found: string)
    requires id in h && i < |Children(h[id])|
    requires Blames(h, lower, Children(h[id])[i], Extend(path, h[id], i), depth + 1, sels, what, found)
    ensures Blames(h, lower, Ref(id), path, depth, [i] + sels, what, found)
    ensures Spine(h, Ref(id), [i] + sels) == [id] + Spine(h, Children(h[id])[i], sels)
  {
    assert ([i] + sels)[1..] == sels;
    if what.ForbiddenKey? {
      assert ([i] + sels)[..|sels|] == [i] + sels[..|sels| - 1];
      assert ([i] + sels[..|sels| - 1])[1..] == sels[..|sels| - 1];
    }
  }

  // ---------------------------------------------------------------- the scan

  class ScanState {
    var depth: int
    var nodes: int
    var visited: set<nat>

    constructor ()
      ensures depth == 0 && nodes == 0 && visited == {}
    {
      depth, nodes, visited := 0, 0, {};
    }
  }

  ghost predicate AllReached(h: Heap, v: Value, before: set<nat>, after: set<nat>) {
    forall x :: x in after && x !in before ==> Reachable(h, v, x)
  }

  lemma {:induction false} SelfReached(h: Heap, id: nat)
    ensures Reachable(h, Ref(id), id)
  {
    assert Follow(h, Ref(id), []) == Some(Ref(id));
  }

  lemma {:induction false} AllOneStepUp(h: Heap, id: nat, i: nat, before: set<nat>, after: set<nat>)
    requires id in h && i < |Children(h[id])|
    ensures AllReached(h, Children(h[id])[i], before, after) ==> AllReached(h, Ref(id), before, after)
  {
    var child := Children(h[id])[i];
    forall x, sels | Follow(h, child, sels) == Some(Ref(x)) ensures Follow(h, Ref(id), [i] + sels) == Some(Ref(x)) {
      assert ([i] + sels)[1..] == sels;
    }
  }

  /** The object a path was blamed for. */
  ghost function EndOf(h: Heap, v: Value, sels: seq<nat>): nat {
    var at := Follow(h, v, sels);
    if at.Some? && at.value.Ref? then at.value.id else 0
  }

  method Find(h: Heap, lower: string -> string, v: Value, path: string, state: ScanState)
    returns (r: Option<string>, ghost sels: seq<nat>, ghost what: Offence)
    requires Closed(h) && InHeap(h, v) && state.visited <= h.Keys && lower("") == ""
    modifies state
    ensures state.depth == old(state.depth)
    ensures old(state.visited) <= state.visited <= h.Keys
    ensures state.nodes - |state.visited| == old(state.nodes - |state.visited|)
    ensures AllReached(h, v, old(state.visited), state.visited)
    ensures r.None? ==> Seen(v, state.visited) && Covered(h, lower, old(state.visited), state.visited)
    ensures r.None? ==> AllFirst(h, v, old(state.visited), state.visited, MAX_DEPTH - state.depth)
    ensures r.None? ==> state.visited == old(state.visited) || state.nodes <= MAX_NODES
    ensures r.Some? ==> r.value != "" && Blames(h, lower, v, path, state.depth, sels, what, r.value)
    ensures r.Some? && what.TooMany? ==> state.nodes > MAX_NODES
    ensures r.Some? && what.TooDeep? ==> First(h, v, sels, EndOf(h, v, sels), old(state.visited))
    decreases h.Keys - state.visited, 1
  {
    r, sels, what := None, [], TooMany;
    if v.Str? {
      if Utf8.ByteLength(v.text) > MAX_TEXT_BYTES {
        r, what := Some(OrDollar(path)), LongText;
      }
      return;
    }
    if !v.Ref? || v.id in state.visited {
      return;
    }
    r, sels, what := Visit(h, lower, v.id, path, state);
  }

  /** An object or array met for the first time: mark it, charge it, and scan what it holds. */
  method Visit(h: Heap, lower: string -> string, id: nat, path: string, state: ScanState)
    returns (r: Option<string>, ghost sels: seq<nat>, ghost what: Offence)
    requires Closed(h) && id in h && id !in state.visited && state.visited <= h.Keys && lower("") == ""
    modifies state
    ensures state.depth == old(state.depth)
    ensures old(state.visited) + {id} <= state.visited <= h.Keys
    ensures state.nodes - |state.visited| == old(state.nodes - |state.visited|)
    ensures AllReached(h, Ref(id), old(state.visited), state.visited)
    ensures r.None? ==> Covered(h, lower, old(state.visited), state.visited)
    ensures r.None? ==> AllFirst(h, Ref(id), old(state.visited), state.visited, MAX_DEPTH - state.depth)
    ensures r.None? ==> state.nodes <= MAX_NODES
    ensures r.Some? ==> r.value != "" && Blames(h, lower, Ref(id), path, state.depth, sels, what, r.value)
    ensures r.Some? && what.TooMany? ==> state.nodes > MAX_NODES
    ensures r.Some? && what.TooDeep? ==> First(h, Ref(id), sels, EndOf(h, Ref(id), sels), old(state.visited))
    decreases h.Keys - state.visited, 0
  {
    ghost var before := state.visited;
    state.visited := state.visited + {id};
    state.nodes := state.nodes + 1;
    SelfReached(h, id);
    SelfIsFirst(h, id, before);
    if state.depth > MAX_DEPTH {
      BlamedHere(h, lower, id, path, state.depth, TooDeep);
      return Some(OrDollar(path)), [], TooDeep;
    }
    if state.nodes > MAX_NODES {
      BlamedHere(h, lower, id, path, state.depth, TooMany);
      return Some(OrDollar(path)), [], TooMany;
    }
    if h[id].List? && |h[id].items| > MAX_ITEMS {
      BlamedHere(h, lower, id, path, state.depth, LongList);
      return Some(OrDollar(path)), [], LongList;
    }
    r, sels, what := ScanChildren(h, lower, id, path, state);
    if r.None? {
      CoveredFromAbove(h, lower, id, before, state.visited);
      AllFirstFromAbove(h, id, before, state.visited, MAX_DEPTH - state.depth);
    } else if what.TooDeep? {
      DeepFromAbove(h, id, sels, before);
    }
  }

  lemma {:induction false} BlamedHere(h: Heap, lower: string -> string, id: nat, path: string, depth: int, what: Offence)
    requires id in h && (what.TooDeep? ==> depth > MAX_DEPTH) && !what.LongText? && !what.ForbiddenKey?
    requires what.LongList? ==> h[id].List? && |h[id].items| > MAX_ITEMS
    ensures Blames(h, lower, Ref(id), path, depth, [], what, OrDollar(path)) && OrDollar(path) != ""
    ensures EndOf(h, Ref(id), []) == id
  {
  }

  lemma {:induction false} CoveredFromAbove(h: Heap, lower: string -> string, id: nat, before: set<nat>, after: set<nat>)
    requires id in h && Covered(h, lower, before + {id}, after) && ChildrenSeen(h, lower, id, |Children(h[id])|, after)
    requires h[id].List? ==> |h[id].items| <= MAX_ITEMS
    ensures Covered(h, lower, before, after)
  {
  }

  method ScanChildren(h: Heap, lower: string -> string, id: nat, path: string, state: ScanState)
    returns (r: Option<string>, ghost sels: seq<nat>, ghost what: Offence)
    requires Closed(h) && id in state.visited && state.visited <= h.Keys && lower("") == ""
    requires state.nodes <= MAX_NODES
    modifies state
    ensures state.depth == old(state.depth)
    ensures old(state.visited) <= state.visited <= h.Keys
    ensures state.nodes - |state.visited| == old(state.nodes - |state.visited|)
    ensures AllReached(h, Ref(id), old(state.visited), state.visited)
    ensures r.None? ==> ChildrenSeen(h, lower, id, |Children(h[id])|, state.visited)
    ensures r.None? ==> Covered(h, lower, old(state.visited), state.visited)
    ensures r.None? ==> AllFirstBelow(h, id, old(state.visited), state.visited, MAX_DEPTH - state.depth)
    ensures r.None? ==> state.nodes <= MAX_NODES
    ensures r.Some? ==> r.value != "" && Blames(h, lower, Ref(id), path, state.depth, sels, what, r.value)
    ensures r.Some? && what.TooMany? ==> state.nodes > MAX_NODES
    ensures r.Some? && what.TooDeep? ==> FirstBelow(h, id, sels, EndOf(h, Ref(id), sels), old(state.visited))
    decreases h.Keys - state.visited, 3
  {
    r, sels, what := None, [], TooMany;
    var i := 0;
    while i < |Children(h[id])|
      invariant 0 <= i <= |Children(h[id])| && r.None?
      invariant state.depth == old(state.depth)
      invariant old(state.visited) <= state.visited <= h.Keys
      invariant state.nodes - |state.visited| == old(state.nodes - |state.visited|)
      invariant AllReached(h, Ref(id), old(state.visited), state.visited)
      invariant ChildrenSeen(h, lower, id, i, state.visited)
      invariant Covered(h, lower, old(state.visited), state.visited)
      invariant AllFirstBelow(h, id, old(state.visited), state.visited, MAX_DEPTH - state.depth)
      invariant state.nodes <= MAX_NODES
    {
      ghost var before := state.visited;
      r, sels, what := ScanChild(h, lower, id, i, path, state);
      JoinScans(h, lower, id, old(state.visited), before, state.visited);
      CoveredAbsorbs(h, lower, old(state.visited), before);
      if r.Some? {
        if what.TooDeep? {
          DeepThroughChild(h, id, i, sels, old(state.visited), before);
        }
        return;
      }
      AllFirstThroughChild(h, id, i, old(state.visited), before, state.visited, MAX_DEPTH - state.depth - 1);
      OneMoreSeen(h, lower, id, i, before, state.visited);
      i := i + 1;
    }
  }

  /** One turn of the loop: refuse the key, or search the child one level deeper. */
  method ScanChild(h: Heap, lower: string -> string, id: nat, i: nat, path: string, state: ScanState)
    returns (r: Option<string>, ghost sels: seq<nat>, ghost what: Offence)
    requires Closed(h) && id in state.visited && state.visited <= h.Keys && lower("") == ""
    requires i < |Children(h[id])| && state.nodes <= MAX_NODES
    modifies state
    ensures state.depth == old(state.depth)
    ensures old(state.visited) <= state.visited <= h.Keys
    ensures state.nodes - |state.visited| == old(state.nodes - |state.visited|)
    ensures AllReached(h, Ref(id), old(state.visited), state.visited)
    ensures r.None? ==> Seen(Children(h[id])[i], state.visited)
    ensures r.None? && h[id].Record? ==> !Forbidden(lower, h[id].fields[i].key)
    ensures r.None? ==> Covered(h, lower, old(state.visited), state.visited)
    ensures r.None? ==> AllFirst(h, Children(h[id])[i], old(state.visited), state.visited, MAX_DEPTH - state.depth - 1)
    ensures r.None? ==> state.nodes <= MAX_NODES
    ensures r.Some? ==> r.value != "" && Blames(h, lower, Ref(id), path, state.depth, sels, what, r.value)
    ensures r.Some? && what.TooMany? ==> state.nodes > MAX_NODES
    ensures r.Some? && what.TooDeep? ==>
              && sels != [] && sels[0] == i
              && First(h, Children(h[id])[i], sels[1..], EndOf(h, Children(h[id])[i], sels[1..]), old(state.visited))
    decreases h.Keys - state.visited, 2
  {
    var childPath := Extend(path, h[id], i);
    if h[id].Record? && Forbidden(lower, h[id].fields[i].key) {
      ForbiddenHere(h, lower, id, i, path, state.depth);
      return Some(childPath), [i], ForbiddenKey;
    }
    var previousDepth := state.depth;
    state.depth := previousDepth + 1;
    ghost var below: seq<nat>;
    r, below, what := Find(h, lower, Children(h[id])[i], childPath, state);
    state.depth := previousDepth;
    AllOneStepUp(h, id, i, old(state.visited), state.visited);
    sels := [i] + below;
    assert sels[1..] == below;
    if r.Some? {
      BlamesUp(h, lower, id, i, path, previousDepth, below, what, r.value);
    }
  }

  ghost predicate ChildrenSeen(h: Heap, lower: string -> string, id: nat, n: nat, visited: set<nat>)
    requires id in h && n <= |Children(h[id])|
  {
    && (forall j :: 0 <= j < n ==> Seen(Children(h[id])[j], visited))
    && (h[id].Record? ==> forall j :: 0 <= j < n ==> !Forbidden(lower, h[id].fields[j].key))
  }

  lemma {:induction false} CoveredAbsorbs(h: Heap, lower: string -> string, a: set<nat>, b: set<nat>)
    requires Covered(h, lower, a, b)
    ensures Absorbing(h, a, b)
  {
    forall id, i | id in b && id !in a && id in h && 0 <= i < |Children(h[id])| && Children(h[id])[i].Ref?
      ensures Children(h[id])[i].id in b
    {
      assert Seen(Children(h[id])[i], b);
    }
  }

  lemma {:induction false} DeepThroughChild(h: Heap, id: nat, i: nat, sels: seq<nat>, a: set<nat>, b: set<nat>)
    requires id in h && i < |Children(h[id])| && a <= b && Absorbing(h, a, b) && sels != [] && sels[0] == i
    requires forall j :: 0 <= j < i && Children(h[id])[j].Ref? ==> Children(h[id])[j].id in b
    requires First(h, Children(h[id])[i], sels[1..], EndOf(h, Children(h[id])[i], sels[1..]), b)
    ensures FirstBelow(h, id, sels, EndOf(h, Ref(id), sels), a)
  {
    FirstThroughChild(h, id, i, sels[1..], EndOf(h, Children(h[id])[i], sels[1..]), a, b);
    assert sels == [i] + sels[1..];
    SpineOfStep(h, id, sels);
  }

  lemma {:induction false} DeepFromAbove(h: Heap, id: nat, sels: seq<nat>, avoid: set<nat>)
    requires id in h && id !in avoid && FirstBelow(h, id, sels, EndOf(h, Ref(id), sels), avoid + {id})
    ensures First(h, Ref(id), sels, EndOf(h, Ref(id), sels), avoid)
  {
    var x := EndOf(h, Ref(id), sels);
    SpineEnds(h, Children(h[id])[sels[0]], sels[1..], x);
    assert x in Spine(h, Children(h[id])[sels[0]], sels[1..]);
    FirstFromAbove(h, id, sels, x, avoid);
  }

  lemma {:induction false} OneMoreSeen(h: Heap, lower: string -> string, id: nat, i: nat, b: set<nat>, c: set<nat>)
    requires id in h && i < |Children(h[id])| && b <= c && ChildrenSeen(h, lower, id, i, b)
    requires Seen(Children(h[id])[i], c) && (h[id].Record? ==> !Forbidden(lower, h[id].fields[i].key))
    ensures ChildrenSeen(h, lower, id, i + 1, c)
  {
  }

  lemma {:induction false} JoinScans(h: Heap, lower: string -> string, id: nat, a: set<nat>, b: set<nat>, c: set<nat>)
    requires a <= b <= c
    requires AllReached(h, Ref(id), a, b) && AllReached(h, Ref(id), b, c)
    ensures AllReached(h, Ref(id), a, c)
    ensures Covered(h, lower, a, b) && Covered(h, lower, b, c) ==> Covered(h, lower, a, c)
  {
  }

  lemma {:induction false} ForbiddenHere(h: Heap, lower: string -> string, id: nat, i: nat, path: string, depth: int)
    requires id in h && h[id].Record? && i < |h[id].fields| && Forbidden(lower, h[id].fields[i].key)
    ensures Blames(h, lower, Ref(id), path, depth, [i], ForbiddenKey, Extend(path, h[id], i))
  {
    assert [i][..0] == [];
    assert Follow(h, Ref(id), [i]) == Follow(h, Children(h[id])[i], []);
    assert Render(h, Ref(id), path, [i]) == Render(h, Children(h[id])[i], Extend(path, h[id], i), []);
  }

  // ---------------------------------------------------------------- what the verdict means

  lemma {:induction false} ClosedFollow(h: Heap, v: Value, sels: seq<nat>, visited: set<nat>)
    requires Seen(v, visited)
    requires forall id, i :: id in visited && id in h && 0 <= i < |Children(h[id])| ==> Seen(Children(h[id])[i], visited)
    ensures Follow(h, v, sels).Some? ==> Seen(Follow(h, v, sels).value, visited)
    decreases sels
  {
    if sels != [] && v.Ref? && v.id in h && sels[0] < |Children(h[v.id])| {
      ClosedFollow(h, Children(h[v.id])[sels[0]], sels[1..], visited);
    }
  }

  /** Everything reachable from v is clean, and there is not too much of it. */
  ghost predicate Harmless(h: Heap, lower: string -> string, v: Value) {
    && (forall sels :: Follow(h, v, sels).Some? ==> CleanText(Follow(h, v, sels).value))
    && (forall id :: id in h && Reachable(h, v, id) ==> Clean(lower, h[id]))
    && Few(h, v)
  }

  /** At most MAX_NODES objects are reachable from v. */
  ghost predicate Few(h: Heap, v: Value) {
    forall ids: set<nat> :: (forall id :: id in ids ==> Reachable(h, v, id)) ==> |ids| <= MAX_NODES
  }

  /** Every object lies at most k steps away. */
  ghost predicate AllShallow(h: Heap, v: Value, k: nat) {
    forall id :: Reachable(h, v, id) ==> exists sels :: |sels| <= k && Follow(h, v, sels) == Some(Ref(id))
  }

  /** The path by which the search first gets to some object is longer than MAX_DEPTH. */
  ghost predicate SearchedDeep(h: Heap, v: Value) {
    exists sels, x :: |sels| > MAX_DEPTH && First(h, v, sels, x, {})
  }

  /** findForbiddenEnvelopeField(value).  The answer is null exactly for a harmless graph that the
      search never enters too deeply, and then no object is far away; any other answer names, by its
      path, an offence that is there. */
  method FindForbiddenEnvelopeField(h: Heap, lower: string -> string, v: Value)
    returns (r: Option<string>, ghost sels: seq<nat>, ghost what: Offence)
    requires Closed(h) && InHeap(h, v) && lower("") == ""
    ensures r.None? <==> Harmless(h, lower, v) && !SearchedDeep(h, v)
    ensures r.None? ==> AllShallow(h, v, MAX_DEPTH)
    ensures r.Some? ==> r.value != "" && Blames(h, lower, v, "", 0, sels, what, r.value)
  {
    var state := new ScanState();
    r, sels, what := Find(h, lower, v, "", state);
    if r.None? {
      NullMeansHarmless(h, lower, v, state.visited);
      assert AllFirst(h, v, {}, state.visited, MAX_DEPTH);
      NullMeansShallow(h, v, state.visited);
    } else {
      BlameMeansHarm(h, lower, v, sels, what, r.value, state.visited);
    }
  }

  lemma {:induction false} NullMeansHarmless(h: Heap, lower: string -> string, v: Value, visited: set<nat>)
    requires Seen(v, visited) && Covered(h, lower, {}, visited) && visited <= h.Keys && |visited| <= MAX_NODES
    ensures Harmless(h, lower, v) && forall id :: Reachable(h, v, id) ==> id in visited
  {
    forall sels ensures Follow(h, v, sels).Some? ==> Seen(Follow(h, v, sels).value, visited) {
      ClosedFollow(h, v, sels, visited);
    }
    forall id | Reachable(h, v, id) ensures id in visited {
      var sels :| Follow(h, v, sels) == Some(Ref(id));
      assert Seen(Ref(id), visited);
    }
    forall ids: set<nat> | (forall id :: id in ids ==> Reachable(h, v, id)) ensures |ids| <= MAX_NODES {
      SubsetSize(ids, visited);
    }
  }

  lemma {:induction false} NullMeansShallow(h: Heap, v: Value, visited: set<nat>)
    requires AllFirst(h, v, {}, visited, MAX_DEPTH)
    requires forall id :: Reachable(h, v, id) ==> id in visited
    ensures !SearchedDeep(h, v) && AllShallow(h, v, MAX_DEPTH)
  {
    forall id | Reachable(h, v, id) ensures (exists sels :: |sels| <= MAX_DEPTH && Follow(h, v, sels) == Some(Ref(id))) {
      assert FirstWithin(h, v, id, {}, MAX_DEPTH);
    }
    forall sels, x ensures First(h, v, sels, x, {}) ==> |sels| <= MAX_DEPTH {
      if First(h, v, sels, x, {}) {
        assert Reachable(h, v, x);
        assert FirstWithin(h, v, x, {}, MAX_DEPTH);
        var p :| |p| <= MAX_DEPTH && First(h, v, p, x, {});
        FirstIsUnique(h, v, p, sels, x, {});
      }
    }
  }

  lemma {:induction false} BlameMeansHarm(h: Heap, lower: string -> string, v: Value, sels: seq<nat>, what: Offence, found: string, visited: set<nat>)
    requires Blames(h, lower, v, "", 0, sels, what, found)
    requires what.TooMany? ==> |visited| > MAX_NODES && AllReached(h, v, {}, visited)
    requires what.TooDeep? ==> First(h, v, sels, EndOf(h, v, sels), {})
    ensures !Harmless(h, lower, v) || SearchedDeep(h, v)
  {
    var at := Follow(h, v, sels).value;
    match what
    case LongText => assert !CleanText(at);
    case LongList => assert Reachable(h, v, at.id) && !Clean(lower, h[at.id]);
    case TooDeep =>
    case TooMany => assert !Few(h, v);
    case ForbiddenKey =>
      var owner := Follow(h, v, sels[..|sels| - 1]).value;
      assert Reachable(h, v, owner.id) && !Clean(lower, h[owner.id]);
  }
}
