/** shared/memory-scoring.ts: weights, the composite score over the reals, and the rule that picks
    how many memories to recall. */
module Recall {
  import opened Wrappers
  import Sorting

  // ---------------------------------------------------------------- weights and score

  datatype Weights = Weights(similarity: real, recency: real, frequency: real, project: real)

  const DEFAULT_WEIGHTS := Weights(0.4, 0.25, 0.15, 0.2)

  function NonNegative(given: Option<real>, default: real): (r: real)
    requires default >= 0.0
    ensures r >= 0.0
  {
    if given.None? then default else if given.value < 0.0 then 0.0 else given.value
  }

  /** Math.round(x * 10000) / 10000 */
  function Round4(x: real): real {
    (x * 10000.0 + 0.5).Floor as real / 10000.0
  }

  function Normalize(similarity: Option<real>, recency: Option<real>, frequency: Option<real>, project: Option<real>): Weights {
    var s, r := NonNegative(similarity, 0.4), NonNegative(recency, 0.25);
    var f, p := NonNegative(frequency, 0.15), NonNegative(project, 0.2);
    var total := s + r + f + p;
    if total <= 0.0 then DEFAULT_WEIGHTS
    else Weights(Round4(s / total), Round4(r / total), Round4(f / total), Round4(p / total))
  }

  function Sum(w: Weights): real {
    w.similarity + w.recency + w.frequency + w.project
  }

  lemma {:induction false} RoundIsClose(x: real)
    requires x >= 0.0
    ensures Round4(x) >= 0.0 && x - 0.00005 <= Round4(x) <= x + 0.00005
  {
    var n := (x * 10000.0 + 0.5).Floor;
    assert n as real <= x * 10000.0 + 0.5 < n as real + 1.0;
  }

  lemma {:induction false} SharesAddUp(s: real, r: real, f: real, p: real)
    requires s >= 0.0 && r >= 0.0 && f >= 0.0 && p >= 0.0 && s + r + f + p > 0.0
    ensures var t := s + r + f + p; s / t + r / t + f / t + p / t == 1.0 && s / t >= 0.0 && r / t >= 0.0 && f / t >= 0.0 && p / t >= 0.0
  {
    var t := s + r + f + p;
    assert s / t + r / t + f / t + p / t == (s + r + f + p) / t;
  }

  /** Normalized weights are non-negative and sum to one, up to the rounding of four digits. */
  lemma {:induction false} WeightsSumToOne(similarity: Option<real>, recency: Option<real>, frequency: Option<real>, project: Option<real>)
    ensures var w := Normalize(similarity, recency, frequency, project);
            && w.similarity >= 0.0 && w.recency >= 0.0 && w.frequency >= 0.0 && w.project >= 0.0
            && 0.9998 <= Sum(w) <= 1.0002
  {
    var s, r := NonNegative(similarity, 0.4), NonNegative(recency, 0.25);
    var f, p := NonNegative(frequency, 0.15), NonNegative(project, 0.2);
    var t := s + r + f + p;
    if t > 0.0 {
      SharesAddUp(s, r, f, p);
      RoundIsClose(s / t);
      RoundIsClose(r / t);
      RoundIsClose(f / t);
      RoundIsClose(p / t);
    }
  }

  /** What a weight counts for: a negative one for nothing, a missing one for its default. */
  ghost predicate CountsFor(given: Option<real>, default: real, x: real) {
    if given.None? then x == default else if given.value >= 0.0 then x == given.value else x == 0.0
  }

  /** The weight is this share of the total, to four digits. */
  ghost predicate IsShare(weight: real, part: real, total: real)
    requires total > 0.0
  {
    part / total - 0.00005 <= weight <= part / total + 0.00005 && FourDigits(weight)
  }

  ghost predicate FourDigits(x: real) {
    (x * 10000.0).Floor as real == x * 10000.0
  }

  lemma {:induction false} RoundHasFourDigits(x: real)
    ensures FourDigits(Round4(x))
  {
    var n := (x * 10000.0 + 0.5).Floor;
    assert Round4(x) * 10000.0 == n as real;
  }

  lemma {:induction false} RoundIsShare(part: real, total: real)
    requires part >= 0.0 && total > 0.0
    ensures IsShare(Round4(part / total), part, total)
  {
    assert part / total >= 0.0;
    RoundIsClose(part / total);
    RoundHasFourDigits(part / total);
  }

  lemma {:induction false} NonNegativeIs(given: Option<real>, default: real, x: real)
    requires default >= 0.0 && CountsFor(given, default, x)
    ensures NonNegative(given, default) == x
  {
  }

  lemma {:induction false} ByShares(s: real, r: real, f: real, p: real, w: Weights)
    requires s >= 0.0 && r >= 0.0 && f >= 0.0 && p >= 0.0 && s + r + f + p > 0.0
    requires var t := s + r + f + p; w == Weights(Round4(s / t), Round4(r / t), Round4(f / t), Round4(p / t))
    ensures var t := s + r + f + p;
            IsShare(w.similarity, s, t) && IsShare(w.recency, r, t) && IsShare(w.frequency, f, t) && IsShare(w.project, p, t)
  {
    RoundIsShare(s, s + r + f + p);
    RoundIsShare(r, s + r + f + p);
    RoundIsShare(f, s + r + f + p);
    RoundIsShare(p, s + r + f + p);
  }

  /** The weights are the given ones as shares of their sum, each to four digits, and the default ones if the
      given ones count for nothing. */
  lemma {:induction false} WeightsAreShares(similarity: Option<real>, recency: Option<real>, frequency: Option<real>, project: Option<real>,
                                            s: real, r: real, f: real, p: real)
    requires CountsFor(similarity, 0.4, s) && CountsFor(recency, 0.25, r) && CountsFor(frequency, 0.15, f) && CountsFor(project, 0.2, p)
    ensures var w, total := Normalize(similarity, recency, frequency, project), s + r + f + p;
            if total <= 0.0 then w == Weights(0.4, 0.25, 0.15, 0.2)
            else IsShare(w.similarity, s, total) && IsShare(w.recency, r, total) && IsShare(w.frequency, f, total) && IsShare(w.project, p, total)
  {
    NonNegativeIs(similarity, 0.4, s);
    NonNegativeIs(recency, 0.25, r);
    NonNegativeIs(frequency, 0.15, f);
    NonNegativeIs(project, 0.2, p);
    if s + r + f + p > 0.0 {
      ByShares(s, r, f, p, Normalize(similarity, recency, frequency, project));
    }
  }

  function Share(weight: real, component: real): real {
    weight * component
  }

  function Dot(weights: seq<real>, components: seq<real>): real
    requires |weights| == |components|
  {
    if weights == [] then 0.0 else Share(weights[0], components[0]) + Dot(weights[1..], components[1..])
  }

  function Total(weights: seq<real>): real {
    if weights == [] then 0.0 else weights[0] + Total(weights[1..])
  }

  function Vector(w: Weights): (r: seq<real>)
    ensures |r| == 4
  {
    [w.similarity, w.recency, w.frequency, w.project]
  }

  /** The weighted sum of similarity, recency, frequency and project affinity; the two boosts that
      need exp and log2 are given as numbers in [0, 1]. */
  function Score(w: Weights, components: seq<real>): real
    requires |components| == 4
  {
    Dot(Vector(w), components)
  }

  /** Similarity, recency, frequency and project affinity, each by its own weight. */
  lemma {:induction false} ScoreIs(w: Weights, similarity: real, recency: real, frequency: real, project: real)
    ensures Score(w, [similarity, recency, frequency, project])
            == w.similarity * similarity + w.recency * recency + w.frequency * frequency + w.project * project
  {
    DotStep(w.project, [], project, []);
    DotStep(w.frequency, [w.project], frequency, [project]);
    DotStep(w.recency, [w.frequency, w.project], recency, [frequency, project]);
    DotStep(w.similarity, [w.recency, w.frequency, w.project], similarity, [recency, frequency, project]);
  }

  lemma {:induction false} DotStep(weight: real, weights: seq<real>, component: real, components: seq<real>)
    requires |weights| == |components|
    ensures Dot([weight] + weights, [component] + components) == weight * component + Dot(weights, components)
  {
    assert ([weight] + weights)[1..] == weights && ([component] + components)[1..] == components;
  }

  predicate Unit(x: real) {
    0.0 <= x <= 1.0
  }

  ghost predicate Fair(weights: seq<real>, components: seq<real>) {
    && |weights| == |components|
    && (forall w :: w in weights ==> w >= 0.0) && forall c :: c in components ==> Unit(c)
  }

  lemma {:induction false} DotIsBounded(weights: seq<real>, components: seq<real>)
    requires Fair(weights, components)
    ensures 0.0 <= Dot(weights, components) <= Total(weights)
  {
    if weights != [] {
      FairTail(weights, components);
      DotIsBounded(weights[1..], components[1..]);
      ShareIsBounded(weights[0], components[0]);
    }
  }

  lemma {:induction false} FairTail(weights: seq<real>, components: seq<real>)
    requires Fair(weights, components) && weights != []
    ensures Fair(weights[1..], components[1..]) && weights[0] >= 0.0 && Unit(components[0])
  {
    assert weights[0] in weights && components[0] in components;
    assert forall w :: w in weights[1..] ==> w in weights;
    assert forall c :: c in components[1..] ==> c in components;
  }

  lemma {:induction false} ShareIsBounded(weight: real, component: real)
    requires weight >= 0.0 && Unit(component)
    ensures 0.0 <= Share(weight, component) <= weight
  {
  }

  lemma {:induction false} TotalIsSum(w: Weights)
    ensures Total(Vector(w)) == Sum(w)
  {
    TotalStep(w.project, []);
    TotalStep(w.frequency, [w.project]);
    TotalStep(w.recency, [w.frequency, w.project]);
    TotalStep(w.similarity, [w.recency, w.frequency, w.project]);
  }

  lemma {:induction false} TotalStep(head: real, tail: seq<real>)
    ensures Total([head] + tail) == head + Total(tail)
  {
    assert ([head] + tail)[1..] == tail;
  }

  /** With components in [0, 1] the score lies in [0, 1.0002]. */
  lemma {:induction false} ScoreIsBounded(ws: Option<real>, wr: Option<real>, wf: Option<real>, wp: Option<real>, components: seq<real>)
    requires |components| == 4 && forall c :: c in components ==> Unit(c)
    ensures 0.0 <= Score(Normalize(ws, wr, wf, wp), components) <= 1.0002
  {
    var w := Normalize(ws, wr, wf, wp);
    WeightsSumToOne(ws, wr, wf, wp);
    TotalIsSum(w);
    DotIsBounded(Vector(w), components);
  }

  // ---------------------------------------------------------------- the cap rule

  datatype Scored<T> = Scored(item: T, score: real)
  datatype Options = Options(minFloor: real, defaultCap: nat, extendBar: real, extendCap: nat)

  function ScoreOf<T>(s: Scored<T>): real {
    s.score
  }

  /** (a, b) => b.score - a.score */
  predicate Descending(a: real, b: real) {
    a >= b
  }

  /** The floored descending order. */
  function Ranked<T(!new)>(scored: seq<Scored<T>>, floor: real): seq<Scored<T>> {
    AtLeast(Sorting.Sort(Sorting.By(Descending, ScoreOf<T>), scored), floor)
  }

  function AtLeast<T(!new)>(s: seq<Scored<T>>, bar: real): (r: seq<Scored<T>>)
    ensures |r| <= |s| && forall x :: x in r <==> x in s && x.score >= bar
  {
    if s == [] then [] else (if s[0].score >= bar then [s[0]] else []) + AtLeast(s[1..], bar)
  }

  predicate Falling<T>(s: seq<Scored<T>>) {
    forall i, j :: 0 <= i < j < |s| ==> s[i].score >= s[j].score
  }

  lemma {:induction false} NoneAtLeast<T(!new)>(s: seq<Scored<T>>, bar: real)
    requires forall i :: 0 <= i < |s| ==> s[i].score < bar
    ensures AtLeast(s, bar) == []
  {
    if s != [] {
      NoneAtLeast(s[1..], bar);
    }
  }

  /** In falling order, the items at or above the bar come first. */
  lemma {:induction false} AtLeastFalls<T(!new)>(s: seq<Scored<T>>, bar: real)
    requires Falling(s)
    ensures AtLeast(s, bar) == s[..|AtLeast(s, bar)|]
    ensures forall i :: 0 <= i < |s| ==> (s[i].score >= bar <==> i < |AtLeast(s, bar)|)
  {
    if s != [] {
      if s[0].score < bar {
        NoneAtLeast(s, bar);
      } else {
        AtLeastFalls(s[1..], bar);
        FallStep(s[0], s[1..], AtLeast(s[1..], bar), bar);
        assert s == [s[0]] + s[1..];
      }
    }
  }

  lemma {:induction false} FallStep<T>(head: Scored<T>, tail: seq<Scored<T>>, kept: seq<Scored<T>>, bar: real)
    requires |kept| <= |tail| && kept == tail[..|kept|] && head.score >= bar
    requires forall i :: 0 <= i < |tail| ==> (tail[i].score >= bar <==> i < |kept|)
    ensures [head] + kept == ([head] + tail)[..|kept| + 1]
    ensures forall i :: 0 <= i <= |tail| ==> (([head] + tail)[i].score >= bar <==> i <= |kept|)
  {
  }

  lemma {:induction false} RankedFalls<T(!new)>(scored: seq<Scored<T>>, floor: real)
    ensures Falling(Ranked(scored, floor))
  {
    var le := Sorting.By(Descending, ScoreOf<T>);
    Sorting.ByPreorder(Descending, ScoreOf<T>);
    Sorting.SortSorted(le, scored);
    var sorted := Sorting.Sort(le, scored);
    forall i, j | 0 <= i < j < |sorted| ensures sorted[i].score >= sorted[j].score {
      assert le(sorted[i], sorted[j]);
    }
    AtLeastFalls(sorted, floor);
  }

  /** How many are recalled, of n ranked items of which the first strong ones reach the bar. */
  function Count(o: Options, n: nat, strong: nat): nat {
    if strong < o.defaultCap then (if n < o.defaultCap then n else o.defaultCap)
    else
      var wanted := if strong < o.extendCap then strong else o.extendCap;
      if wanted < o.defaultCap then o.defaultCap else wanted
  }

  function Recalled<T(!new)>(scored: seq<Scored<T>>, o: Options): seq<Scored<T>> {
    var ranked := Ranked(scored, o.minFloor);
    ranked[..Count(o, |ranked|, |AtLeast(ranked, o.extendBar)|)]
  }

  /** The first strong items of a ranking are those at or above the bar. */
  ghost predicate StrongFirst<T>(ranked: seq<Scored<T>>, bar: real, strong: nat) {
    strong <= |ranked| && forall i :: 0 <= i < |ranked| ==> (ranked[i].score >= bar <==> i < strong)
  }

  /** From defaultCap strong items on, keep absorbing strong ones up to extendCap. */
  method Extend<T>(floored: seq<Scored<T>>, o: Options, ghost strong: nat) returns (n: nat)
    requires StrongFirst(floored, o.extendBar, strong) && o.defaultCap <= strong
    ensures n <= |floored| && n == Count(o, |floored|, strong)
  {
    n := o.defaultCap;
    while n < |floored| && n < o.extendCap
      invariant o.defaultCap <= n <= strong && (n == o.defaultCap || n <= o.extendCap)
    {
      if floored[n].score < o.extendBar {
        return;
      }
      n := n + 1;
    }
  }

  /** The cap rule as the source computes it has this closed form: a prefix of the ranking. */
  method ApplyRecallCap<T(!new)>(scored: seq<Scored<T>>, o: Options) returns (r: seq<Scored<T>>)
    ensures r == Recalled(scored, o)
    ensures CapMet(Ranked(scored, o.minFloor), o, r)
  {
    RecalledMeetsCap(scored, o);
    var floored := Ranked(scored, o.minFloor);
    ghost var strong := RankedStrong(scored, o);
    if |floored| < o.defaultCap {
      return floored;
    }
    if exists i :: 0 <= i < o.defaultCap && floored[i].score < o.extendBar {
      return floored[..o.defaultCap];
    }
    if o.defaultCap > 0 {
      assert floored[o.defaultCap - 1].score >= o.extendBar;
    }
    var n := Extend(floored, o, strong);
    r := floored[..n];
  }

  lemma {:induction false} RankedStrong<T(!new)>(scored: seq<Scored<T>>, o: Options) returns (strong: nat)
    ensures var ranked := Ranked(scored, o.minFloor);
            && StrongFirst(ranked, o.extendBar, strong) && Count(o, |ranked|, strong) <= |ranked|
            && Recalled(scored, o) == ranked[..Count(o, |ranked|, strong)]
  {
    RankedFalls(scored, o.minFloor);
    AtLeastFalls(Ranked(scored, o.minFloor), o.extendBar);
    strong := |AtLeast(Ranked(scored, o.minFloor), o.extendBar)|;
  }

  function Scores<T>(s: seq<Scored<T>>): (r: seq<real>)
    ensures |r| == |s|
  {
    if s == [] then [] else [s[0].score] + Scores(s[1..])
  }

  function RealsAtLeast(s: seq<real>, bar: real): (r: seq<real>)
    ensures |r| <= |s|
  {
    if s == [] then [] else (if s[0] >= bar then [s[0]] else []) + RealsAtLeast(s[1..], bar)
  }

  lemma {:induction false} FallsByScore<T(!new)>(x: Scored<T>, y: Scored<T>)
    ensures Sorting.By(Descending, ScoreOf<T>)(x, y) <==> Descending(x.score, y.score)
  {
    var key: Scored<T> -> real := ScoreOf<T>;
    assert key(x) == x.score && key(y) == y.score;
  }

  lemma {:induction false} ScoresOfInsert<T(!new)>(x: Scored<T>, s: seq<Scored<T>>)
    ensures Scores(Sorting.Insert(Sorting.By(Descending, ScoreOf<T>), x, s)) == Sorting.Insert(Descending, x.score, Scores(s))
  {
    var le := Sorting.By(Descending, ScoreOf<T>);
    if s != [] {
      FallsByScore(x, s[0]);
      ScoresOfInsert(x, s[1..]);
      assert Scores(s)[1..] == Scores(s[1..]);
      assert ([x] + s)[1..] == s;
      assert ([s[0]] + Sorting.Insert(le, x, s[1..]))[1..] == Sorting.Insert(le, x, s[1..]);
    } else {
      assert ([x] + s)[1..] == s;
    }
  }

  lemma {:induction false} ScoresOfSort<T(!new)>(s: seq<Scored<T>>)
    ensures Scores(Sorting.Sort(Sorting.By(Descending, ScoreOf<T>), s)) == Sorting.Sort(Descending, Scores(s))
  {
    if s != [] {
      ScoresOfSort(s[1..]);
      ScoresOfInsert(s[0], Sorting.Sort(Sorting.By(Descending, ScoreOf<T>), s[1..]));
      assert Scores(s)[1..] == Scores(s[1..]);
    }
  }

  lemma {:induction false} ScoresOfAtLeast<T(!new)>(s: seq<Scored<T>>, bar: real)
    ensures Scores(AtLeast(s, bar)) == RealsAtLeast(Scores(s), bar)
  {
    if s != [] {
      ScoresOfAtLeast(s[1..], bar);
      assert Scores(s)[1..] == Scores(s[1..]);
      var tail := AtLeast(s[1..], bar);
      assert ([s[0]] + tail)[1..] == tail && [] + tail == tail;
      assert [] + RealsAtLeast(Scores(s[1..]), bar) == RealsAtLeast(Scores(s[1..]), bar);
    }
  }

  lemma {:induction false} ScoresOfPrefix<T>(s: seq<Scored<T>>, k: nat)
    requires k <= |s|
    ensures Scores(s[..k]) == Scores(s)[..k]
  {
    if k > 0 {
      ScoresOfPrefix(s[1..], k - 1);
      assert s[..k][1..] == s[1..][..k - 1];
      assert Scores(s)[..k] == [s[0].score] + Scores(s[1..])[..k - 1];
    }
  }

  /** The recalled scores depend on the pool of scores only, not on the input order. */
  lemma {:induction false} RecalledScoresForgetOrder<T(!new)>(s: seq<Scored<T>>, t: seq<Scored<T>>, o: Options)
    requires multiset(Scores(s)) == multiset(Scores(t))
    ensures Scores(Recalled(s, o)) == Scores(Recalled(t, o))
  {
    Sorting.SortForgetsOrder(Descending, Scores(s), Scores(t));
    RecalledFromScores(s, o);
    RecalledFromScores(t, o);
  }

  lemma {:induction false} RecalledFromScores<T(!new)>(s: seq<Scored<T>>, o: Options)
    ensures var ranked := RealsAtLeast(Sorting.Sort(Descending, Scores(s)), o.minFloor);
            var k := Count(o, |ranked|, |RealsAtLeast(ranked, o.extendBar)|);
            k <= |ranked| && Scores(Recalled(s, o)) == ranked[..k]
  {
    ScoresOfSort(s);
    var sorted := Sorting.Sort(Sorting.By(Descending, ScoreOf<T>), s);
    assert Scores(sorted) == Sorting.Sort(Descending, Scores(s));
    ScoresOfAtLeast(sorted, o.minFloor);
    PrefixFromScores(Ranked(s, o.minFloor), o);
  }

  lemma {:induction false} PrefixFromScores<T(!new)>(ranked: seq<Scored<T>>, o: Options)
    ensures var k, reals := Count(o, |ranked|, |AtLeast(ranked, o.extendBar)|), Scores(ranked);
            && k <= |ranked| && k == Count(o, |reals|, |RealsAtLeast(reals, o.extendBar)|)
            && Scores(ranked[..k]) == reals[..k]
  {
    ScoresOfAtLeast(ranked, o.extendBar);
    ScoresOfPrefix(ranked, Count(o, |ranked|, |AtLeast(ranked, o.extendBar)|));
  }

  // ---------------------------------------------------------------- which are recalled

  /** A front part of the ranking, at least up to the default cap; beyond that it holds items at the bar only,
      up to the extended cap, and it goes on as long as there are such. */
  predicate CapMet<T(==)>(ranked: seq<Scored<T>>, o: Options, r: seq<Scored<T>>) {
    && r <= ranked
    && (|r| < |ranked| ==> |r| >= o.defaultCap && (|r| >= o.extendCap || ranked[|r|].score < o.extendBar))
    && (|r| > o.defaultCap ==> |r| <= o.extendCap)
    && forall i :: o.defaultCap <= i < |r| ==> ranked[i].score >= o.extendBar
  }

  lemma {:induction false} RecalledMeetsCap<T(!new)>(scored: seq<Scored<T>>, o: Options)
    ensures CapMet(Ranked(scored, o.minFloor), o, Recalled(scored, o))
  {
    var strong := RankedStrong(scored, o);
    CountMeetsCap(Ranked(scored, o.minFloor), o, strong);
  }

  lemma {:induction false} CountMeetsCap<T(!new)>(ranked: seq<Scored<T>>, o: Options, strong: nat)
    requires StrongFirst(ranked, o.extendBar, strong) && Count(o, |ranked|, strong) <= |ranked|
    ensures CapMet(ranked, o, ranked[..Count(o, |ranked|, strong)])
  {
  }

  lemma {:induction false} NotShorter<T(!new)>(ranked: seq<Scored<T>>, o: Options, r: seq<Scored<T>>, t: seq<Scored<T>>)
    requires CapMet(ranked, o, r) && CapMet(ranked, o, t)
    ensures |r| >= |t|
  {
  }

  /** Only one front part of the ranking meets the cap. */
  lemma {:induction false} CapMetIsUnique<T(!new)>(ranked: seq<Scored<T>>, o: Options, r: seq<Scored<T>>, t: seq<Scored<T>>)
    requires CapMet(ranked, o, r) && CapMet(ranked, o, t)
    ensures r == t
  {
    NotShorter(ranked, o, r, t);
    NotShorter(ranked, o, t, r);
  }

  /** The ranking holds what reaches the floor, each as often as given. */
  lemma {:induction false} RankedHolds<T(!new)>(scored: seq<Scored<T>>, floor: real, x: Scored<T>)
    ensures multiset(Ranked(scored, floor))[x] == if x.score >= floor then multiset(scored)[x] else 0
  {
    AtLeastHolds(Sorting.Sort(Sorting.By(Descending, ScoreOf<T>), scored), floor, x);
  }

  lemma {:induction false} AtLeastHolds<T(!new)>(s: seq<Scored<T>>, bar: real, x: Scored<T>)
    ensures multiset(AtLeast(s, bar))[x] == if x.score >= bar then multiset(s)[x] else 0
  {
    if s != [] {
      AtLeastHolds(s[1..], bar, x);
      HeadCount(s[0], s[1..], x);
      HeadCount(s[0], AtLeast(s[1..], bar), x);
      assert s == [s[0]] + s[1..] && [] + AtLeast(s[1..], bar) == AtLeast(s[1..], bar);
    }
  }

  lemma {:induction false} HeadCount<T>(head: T, tail: seq<T>, x: T)
    ensures multiset([head] + tail)[x] == (if head == x then 1 else 0) + multiset(tail)[x]
  {
  }
}
