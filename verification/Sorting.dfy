/** JavaScript's Array.prototype.sort: a stable sort driven by a comparator.
    The comparator is the relation le(a, b), "b may not come before a"; ties are
    kept in their original order.  Everything the other modules say about sorted
    output rests on the lemmas here. */
module Sorting {

  ghost predicate TotalPreorder<T(!new)>(le: (T, T) -> bool) {
    && (forall a, b :: le(a, b) || le(b, a))
    && (forall a, b, c :: le(a, b) && le(b, c) ==> le(a, c))
  }

  ghost predicate TotalOrder<T(!new)>(le: (T, T) -> bool) {
    TotalPreorder(le) && forall a, b :: le(a, b) && le(b, a) ==> a == b
  }

  /** Compare by a key. */
  function By<T, K>(le: (K, K) -> bool, key: T -> K): (T, T) -> bool {
    (a, b) => le(key(a), key(b))
  }

  lemma {:induction false} ByPreorder<T(!new), K(!new)>(le: (K, K) -> bool, key: T -> K)
    requires TotalPreorder(le)
    ensures TotalPreorder(By(le, key))
  {
    var lift := By(le, key);
    forall a, b ensures lift(a, b) || lift(b, a) {
      assert le(key(a), key(b)) || le(key(b), key(a));
    }
    forall a, b, c | lift(a, b) && lift(b, c) ensures lift(a, c) {
      assert le(key(a), key(b)) && le(key(b), key(c));
    }
  }

  /** With an order that separates keys, and keys that separate elements, nothing ties. */
  lemma {:induction false} ByNoTies<T(!new), K(!new)>(le: (K, K) -> bool, key: T -> K, s: seq<T>)
    requires TotalOrder(le)
    requires forall i, j :: 0 <= i < j < |s| ==> key(s[i]) != key(s[j])
    ensures NoTies(By(le, key), s)
  {
    forall x, y | x in s && y in s && By(le, key)(x, y) && By(le, key)(y, x) ensures x == y {
      assert le(key(x), key(y)) && le(key(y), key(x));
      var i :| 0 <= i < |s| && s[i] == x;
      var j :| 0 <= j < |s| && s[j] == y;
    }
  }

  ghost predicate Sorted<T>(le: (T, T) -> bool, s: seq<T>) {
    forall i, j :: 0 <= i < j < |s| ==> le(s[i], s[j])
  }

  /** No two different elements of s tie. */
  ghost predicate NoTies<T>(le: (T, T) -> bool, s: seq<T>) {
    forall x, y :: x in s && y in s && le(x, y) && le(y, x) ==> x == y
  }

  function Insert<T>(le: (T, T) -> bool, x: T, s: seq<T>): (r: seq<T>)
    ensures multiset(r) == multiset([x] + s)
  {
    if s == [] || le(x, s[0]) then [x] + s
    else
      assert s == [s[0]] + s[1..];
      [s[0]] + Insert(le, x, s[1..])
  }

  function Sort<T(!new)>(le: (T, T) -> bool, s: seq<T>): (r: seq<T>)
    ensures multiset(r) == multiset(s)
    ensures |r| == |s|
    ensures forall x :: x in r <==> x in s
  {
    if s == [] then []
    else
      var tail := Sort(le, s[1..]);
      assert s == [s[0]] + s[1..];
      var r := Insert(le, s[0], tail);
      SamePool(r, s);
      r
  }

  lemma {:induction false} SamePool<T(!new)>(r: seq<T>, s: seq<T>)
    requires multiset(r) == multiset(s)
    ensures |r| == |s|
    ensures forall x :: x in r <==> x in s
  {
    assert |r| == |multiset(r)| && |s| == |multiset(s)|;
    forall x ensures x in r <==> x in s {
      assert x in multiset(r) <==> x in r;
      assert x in multiset(s) <==> x in s;
    }
  }

  lemma {:induction false} InsertSorted<T(!new)>(le: (T, T) -> bool, x: T, s: seq<T>)
    requires TotalPreorder(le) && Sorted(le, s)
    ensures Sorted(le, Insert(le, x, s))
  {
    if s == [] {
    } else if le(x, s[0]) {
      assert forall j :: 0 <= j < |s| ==> le(s[0], s[j]);
    } else {
      InsertSorted(le, x, s[1..]);
      var t := Insert(le, x, s[1..]);
      SamePool(t, [x] + s[1..]);
      forall j | 0 <= j < |t| ensures le(s[0], t[j]) {
        assert t[j] in [x] + s[1..];
      }
    }
  }

  lemma {:induction false} SortSorted<T(!new)>(le: (T, T) -> bool, s: seq<T>)
    requires TotalPreorder(le)
    ensures Sorted(le, Sort(le, s))
  {
    if s != [] {
      SortSorted(le, s[1..]);
      InsertSorted(le, s[0], Sort(le, s[1..]));
    }
  }

  /** A list already in order is left alone. */
  lemma {:induction false} SortFixed<T(!new)>(le: (T, T) -> bool, s: seq<T>)
    requires Sorted(le, s)
    ensures Sort(le, s) == s
  {
    if s != [] {
      SortedTail(le, s);
      SortFixed(le, s[1..]);
      InsertFirst(le, s);
    }
  }

  lemma {:induction false} SortedTail<T>(le: (T, T) -> bool, s: seq<T>)
    requires Sorted(le, s) && s != []
    ensures Sorted(le, s[1..])
  {
  }

  lemma {:induction false} InsertFirst<T>(le: (T, T) -> bool, s: seq<T>)
    requires Sorted(le, s) && s != []
    ensures Insert(le, s[0], s[1..]) == s
  {
    assert s == [s[0]] + s[1..];
    if |s| > 1 {
      assert le(s[0], s[1]);
    }
  }

  /** Without ties there is only one sorted arrangement. */
  lemma {:induction false} SortedUnique<T(!new)>(le: (T, T) -> bool, s: seq<T>, t: seq<T>)
    requires Sorted(le, s) && Sorted(le, t) && multiset(s) == multiset(t) && NoTies(le, s)
    requires forall x :: x in s ==> le(x, x)
    ensures s == t
  {
    SamePool(s, t);
    if s != [] {
      assert s[0] == t[0] by { SortedHead(le, s, t); }
      SamePoolTail(s, t);
      forall i, j | 0 <= i < j < |s| - 1 ensures le(s[1..][i], s[1..][j]) && le(t[1..][i], t[1..][j]) {
        assert le(s[i + 1], s[j + 1]) && le(t[i + 1], t[j + 1]);
      }
      SortedUnique(le, s[1..], t[1..]);
      assert s == [s[0]] + s[1..] && t == [t[0]] + t[1..];
    }
  }

  lemma {:induction false} SamePoolTail<T>(s: seq<T>, t: seq<T>)
    requires multiset(s) == multiset(t) && s != [] && t != [] && s[0] == t[0]
    ensures multiset(s[1..]) == multiset(t[1..])
  {
    assert s == [s[0]] + s[1..] && t == [t[0]] + t[1..];
    assert multiset(s[1..]) == multiset(s) - multiset{s[0]};
    assert multiset(t[1..]) == multiset(t) - multiset{t[0]};
  }

  lemma {:induction false} SortedHead<T(!new)>(le: (T, T) -> bool, s: seq<T>, t: seq<T>)
    requires Sorted(le, s) && Sorted(le, t) && multiset(s) == multiset(t) && NoTies(le, s) && |s| > 0
    requires forall x :: x in s ==> le(x, x)
    ensures |t| > 0 && s[0] == t[0]
  {
    SamePool(s, t);
    assert s[0] in s && t[0] in t;
    var i :| 0 <= i < |t| && t[i] == s[0];
    var j :| 0 <= j < |s| && s[j] == t[0];
    assert le(s[0], t[0]);
    assert le(t[0], s[0]);
  }

  /** With an order on keys, sorted lists of the same elements, each with a key of its own, are equal. */
  lemma {:induction false} SortedSetUnique<T(!new), K(!new)>(le: (K, K) -> bool, key: T -> K, s: seq<T>, t: seq<T>)
    requires TotalOrder(le) && Sorted(By(le, key), s) && Sorted(By(le, key), t)
    requires (forall i, j :: 0 <= i < j < |s| ==> key(s[i]) != key(s[j])) && (forall i, j :: 0 <= i < j < |t| ==> key(t[i]) != key(t[j]))
    requires forall x :: x in s <==> x in t
    ensures s == t
  {
    ByNoTies(le, key, s);
    ByPreorder(le, key);
    forall x ensures multiset(s)[x] == multiset(t)[x] {
      OnceOnly(s, key, x);
      OnceOnly(t, key, x);
      assert x in multiset(s) <==> x in s;
      assert x in multiset(t) <==> x in t;
    }
    SortedUnique(By(le, key), s, t);
  }

  /** Sorting forgets the input order as soon as no two different elements tie. */
  lemma {:induction false} SortForgetsOrder<T(!new)>(le: (T, T) -> bool, s: seq<T>, t: seq<T>)
    requires TotalPreorder(le) && NoTies(le, s) && multiset(s) == multiset(t)
    ensures Sort(le, s) == Sort(le, t)
  {
    SortSorted(le, s);
    SortSorted(le, t);
    SortedUnique(le, Sort(le, s), Sort(le, t));
  }

  /** The elements of s that tie with a, in order. */
  ghost function Ties<T>(le: (T, T) -> bool, a: T, s: seq<T>): (r: seq<T>)
    ensures |r| <= |s|
  {
    if s == [] then []
    else IfTied(le, a, s[0]) + Ties(le, a, s[1..])
  }

  lemma {:induction false} TiesConcat<T>(le: (T, T) -> bool, a: T, s: seq<T>, t: seq<T>)
    ensures Ties(le, a, s + t) == Ties(le, a, s) + Ties(le, a, t)
  {
    if s == [] {
      assert s + t == t;
    } else {
      assert (s + t)[1..] == s[1..] + t;
      TiesConcat(le, a, s[1..], t);
    }
  }

  lemma {:induction false} InsertStable<T(!new)>(le: (T, T) -> bool, a: T, x: T, s: seq<T>)
    requires TotalPreorder(le)
    ensures Ties(le, a, Insert(le, x, s)) == Ties(le, a, [x] + s)
  {
    if s != [] && !le(x, s[0]) {
      InsertStable(le, a, x, s[1..]);
      TiesCons(le, a, s[0], Insert(le, x, s[1..]));
      TiesCons(le, a, x, s[1..]);
      TiesCons(le, a, x, s);
      NotBothTied(le, a, x, s[0]);
      EitherFirst(IfTied(le, a, x), IfTied(le, a, s[0]), Ties(le, a, s[1..]));
    }
  }

  ghost function IfTied<T>(le: (T, T) -> bool, a: T, x: T): seq<T> {
    if le(a, x) && le(x, a) then [x] else []
  }

  lemma {:induction false} TiesCons<T>(le: (T, T) -> bool, a: T, x: T, s: seq<T>)
    ensures Ties(le, a, [x] + s) == IfTied(le, a, x) + Ties(le, a, s)
  {
    assert ([x] + s)[1..] == s;
  }

  lemma {:induction false} NotBothTied<T(!new)>(le: (T, T) -> bool, a: T, x: T, y: T)
    requires TotalPreorder(le) && !le(x, y)
    ensures IfTied(le, a, x) == [] || IfTied(le, a, y) == []
  {
  }

  lemma {:induction false} EitherFirst<T>(p: seq<T>, q: seq<T>, rest: seq<T>)
    requires p == [] || q == []
    ensures p + (q + rest) == q + (p + rest)
  {
    assert [] + rest == rest;
  }

  /** Stability: among tied elements the original order survives. */
  lemma {:induction false} SortStable<T(!new)>(le: (T, T) -> bool, a: T, s: seq<T>)
    requires TotalPreorder(le)
    ensures Ties(le, a, Sort(le, s)) == Ties(le, a, s)
  {
    if s != [] {
      SortStable(le, a, s[1..]);
      var r := Sort(le, s[1..]);
      InsertStable(le, a, s[0], r);
      assert ([s[0]] + r)[1..] == r;
    }
  }

  lemma {:induction false} TiedIff<T>(le: (T, T) -> bool, a: T, s: seq<T>, x: T)
    ensures x in Ties(le, a, s) <==> x in s && le(a, x) && le(x, a)
  {
    if s != [] {
      TiedIff(le, a, s[1..], x);
      assert x in s <==> x == s[0] || x in s[1..];
    }
  }

  /** Every tie has the same elements in s and t, in the same order. */
  ghost predicate SameTies<T(!new)>(le: (T, T) -> bool, s: seq<T>, t: seq<T>) {
    forall a :: Ties(le, a, s) == Ties(le, a, t)
  }

  lemma {:induction false} HeadIsTied<T(!new)>(le: (T, T) -> bool, u: seq<T>, v: seq<T>)
    requires TotalPreorder(le) && Sorted(le, v) && u != [] && SameTies(le, u, v)
    ensures v != [] && le(v[0], u[0])
  {
    TiedIff(le, u[0], u, u[0]);
    TiedIff(le, u[0], v, u[0]);
    var k :| 0 <= k < |v| && v[k] == u[0];
  }

  lemma {:induction false} SameTiedHead<T(!new)>(le: (T, T) -> bool, u: seq<T>, v: seq<T>)
    requires TotalPreorder(le) && Sorted(le, u) && Sorted(le, v) && u != [] && SameTies(le, u, v)
    ensures v != [] && u[0] == v[0]
  {
    HeadIsTied(le, u, v);
    HeadIsTied(le, v, u);
    assert Ties(le, u[0], u)[0] == u[0] && Ties(le, u[0], v)[0] == v[0];
  }

  lemma {:induction false} SameTiesTail<T(!new)>(le: (T, T) -> bool, u: seq<T>, v: seq<T>)
    requires u != [] && v != [] && u[0] == v[0] && SameTies(le, u, v)
    ensures SameTies(le, u[1..], v[1..])
  {
    forall a ensures Ties(le, a, u[1..]) == Ties(le, a, v[1..]) {
      assert Ties(le, a, u) == Ties(le, a, v);
      var head := if le(a, u[0]) && le(u[0], a) then [u[0]] else [];
      SameRest(head, Ties(le, a, u[1..]), Ties(le, a, v[1..]));
    }
  }

  lemma {:induction false} SameRest<T>(p: seq<T>, s: seq<T>, t: seq<T>)
    requires p + s == p + t
    ensures s == t
  {
    assert (p + s)[|p|..] == s && (p + t)[|p|..] == t;
  }

  lemma {:induction false} SortedByTies<T(!new)>(le: (T, T) -> bool, u: seq<T>, v: seq<T>)
    requires TotalPreorder(le) && Sorted(le, u) && Sorted(le, v) && SameTies(le, u, v)
    ensures u == v
  {
    if u != [] {
      SameTiedHead(le, u, v);
      SameTiesTail(le, u, v);
      SortedTail(le, u);
      SortedTail(le, v);
      SortedByTies(le, u[1..], v[1..]);
      assert u == [u[0]] + u[1..] && v == [v[0]] + v[1..];
    } else if v != [] {
      HeadIsTied(le, v, u);
    }
  }

  lemma {:induction false} SortKeepsTies<T(!new)>(le: (T, T) -> bool, s: seq<T>)
    requires TotalPreorder(le)
    ensures SameTies(le, Sort(le, s), s)
  {
    forall a ensures Ties(le, a, Sort(le, s)) == Ties(le, a, s) {
      SortStable(le, a, s);
    }
  }

  /** Two lists sort alike exactly when they hold the same elements of every tie, in the same order. */
  lemma {:induction false} TiesDecideSort<T(!new)>(le: (T, T) -> bool, s: seq<T>, t: seq<T>)
    requires TotalPreorder(le)
    ensures Sort(le, s) == Sort(le, t) <==> SameTies(le, s, t)
  {
    SortSorted(le, s);
    SortSorted(le, t);
    SortKeepsTies(le, s);
    SortKeepsTies(le, t);
    if SameTies(le, s, t) {
      SortedByTies(le, Sort(le, s), Sort(le, t));
    }
  }

  lemma {:induction false} TiesDecideSortBy<T(!new), K(!new)>(le: (K, K) -> bool, key: T -> K, s: seq<T>, t: seq<T>)
    requires TotalPreorder(le)
    ensures Sort(By(le, key), s) == Sort(By(le, key), t) <==> SameTies(By(le, key), s, t)
  {
    ByPreorder(le, key);
    TiesDecideSort(By(le, key), s, t);
  }

  function Swap<T>(s: seq<T>, i: nat, j: nat): (r: seq<T>)
    requires i < j < |s|
    ensures multiset(r) == multiset(s)
  {
    var r := s[i := s[j]][j := s[i]];
    assert multiset(r) == multiset(s);
    r
  }

  /** Among elements that tie, some arrangement sorts differently. */
  lemma {:induction false} TieShows<T(!new)>(le: (T, T) -> bool, s: seq<T>) returns (t: seq<T>)
    requires TotalPreorder(le) && !NoTies(le, s)
    ensures multiset(t) == multiset(s) && Sort(le, t) != Sort(le, s)
  {
    var x, y :| x in s && y in s && le(x, y) && le(y, x) && x != y;
    var i0 :| 0 <= i0 < |s| && s[i0] == x;
    var j0 :| 0 <= j0 < |s| && s[j0] == y;
    var i, j := if i0 < j0 then i0 else j0, if i0 < j0 then j0 else i0;
    SwapShows(le, s, i, j);
    t := Swap(s, i, j);
  }

  /** The exact condition for sorted output to be independent of input order. */
  lemma {:induction false} OrderIndependentIffNoTies<T(!new)>(le: (T, T) -> bool, s: seq<T>)
    requires TotalPreorder(le)
    ensures (forall t :: multiset(t) == multiset(s) ==> Sort(le, t) == Sort(le, s)) <==> NoTies(le, s)
  {
    if NoTies(le, s) {
      forall t | multiset(t) == multiset(s) ensures Sort(le, t) == Sort(le, s) {
        SortForgetsOrder(le, s, t);
      }
    } else {
      var t := TieShows(le, s);
    }
  }

  lemma {:induction false} OnceOnly<T(!new), K>(s: seq<T>, key: T -> K, x: T)
    requires forall i, j :: 0 <= i < j < |s| ==> key(s[i]) != key(s[j])
    ensures multiset(s)[x] <= 1
  {
    if s != [] {
      OnceOnly(s[1..], key, x);
      assert s == [s[0]] + s[1..];
      if s[0] == x {
        forall k | 0 < k < |s| ensures s[k] != x {
          assert key(s[0]) != key(s[k]);
        }
        assert x !in s[1..];
      }
      assert x in multiset(s[1..]) <==> x in s[1..];
    }
  }

  lemma {:induction false} PairCounts<T>(t: seq<T>, i: nat, j: nat)
    requires i < j < |t| && t[i] == t[j]
    ensures multiset(t)[t[i]] >= 2
  {
    assert t == t[..i] + [t[i]] + t[i + 1..j] + [t[j]] + t[j + 1..];
  }

  /** Keys that differ pairwise still do in another arrangement. */
  lemma {:induction false} DistinctKept<T(!new), K>(s: seq<T>, t: seq<T>, key: T -> K)
    requires multiset(t) == multiset(s) && forall i, j :: 0 <= i < j < |s| ==> key(s[i]) != key(s[j])
    ensures forall i, j :: 0 <= i < j < |t| ==> key(t[i]) != key(t[j])
  {
    SamePool(t, s);
    forall i, j | 0 <= i < j < |t| ensures key(t[i]) != key(t[j]) {
      if t[i] == t[j] {
        PairCounts(t, i, j);
        OnceOnly(s, key, t[i]);
      } else {
        assert t[i] in s && t[j] in s;
        var k :| 0 <= k < |s| && s[k] == t[i];
        var l :| 0 <= l < |s| && s[l] == t[j];
      }
    }
  }

  lemma {:induction false} TieAfter<T>(le: (T, T) -> bool, a: T, p: seq<T>, x: T, q: seq<T>)
    requires le(a, x) && le(x, a)
    ensures |Ties(le, a, p)| < |Ties(le, a, p + ([x] + q))| && Ties(le, a, p + ([x] + q))[|Ties(le, a, p)|] == x
  {
    TiesConcat(le, a, p, [x] + q);
    assert ([x] + q)[0] == x;
  }

  lemma {:induction false} TiesDiffer<T>(le: (T, T) -> bool, a: T, p: seq<T>, x: T, y: T, q: seq<T>, r: seq<T>)
    requires le(a, x) && le(x, a) && le(a, y) && le(y, a) && x != y
    ensures Ties(le, a, p + ([x] + q)) != Ties(le, a, p + ([y] + r))
  {
    TieAfter(le, a, p, x, q);
    TieAfter(le, a, p, y, r);
  }

  lemma {:induction false} SwapParts<T>(s: seq<T>, i: nat, j: nat)
    requires i < j < |s|
    ensures s == s[..i] + ([s[i]] + s[i + 1..])
    ensures Swap(s, i, j) == s[..i] + ([s[j]] + Swap(s, i, j)[i + 1..])
  {
  }

  lemma {:induction false} SwapShows<T(!new)>(le: (T, T) -> bool, s: seq<T>, i: nat, j: nat)
    requires TotalPreorder(le) && i < j < |s|
    requires le(s[i], s[j]) && le(s[j], s[i]) && s[i] != s[j]
    ensures Sort(le, Swap(s, i, j)) != Sort(le, s)
  {
    var t, a := Swap(s, i, j), s[i];
    SwapParts(s, i, j);
    assert le(a, a);
    TiesDiffer(le, a, s[..i], s[i], s[j], s[i + 1..], t[i + 1..]);
    SortStable(le, a, s);
    SortStable(le, a, t);
  }
}
