/** The last two steps of `findTopSolutions` (js/main.js): the stable sort
    of the candidates by absolute deviation, and the loop that skips a
    candidate whose count list was already seen and stops once `topN`
    candidates are kept.

    The source compares candidates through a string key built from the
    sorted entries of `pipeCounts` (`"length:count|..."`). That rendering
    is one-to-one, so two candidates have the same key exactly when they
    have the same count list, and the model uses the count list itself as
    the key. */
module Ranking {
  import opened PipeCounts
  import opened Search
  import opened Deviation
  import StableSort

  function AbsDeviation(s: Solution): int
  {
    Abs(s.deviation)
  }

  /** Absolute deviations never decrease from left to right. */
  predicate ByDeviation(r: seq<Solution>)
  {
    forall i, j :: 0 <= i < j < |r| ==> Abs(r[i].deviation) <= Abs(r[j].deviation)
  }

  /** `solutions.sort((a, b) => Math.abs(a.deviationValue) - Math.abs(b.deviationValue))`:
      a permutation, ordered by absolute deviation, and candidates with the
      same absolute deviation keep their push order. */
  function RankByDeviation(s: seq<Solution>): (r: seq<Solution>)
    ensures multiset(r) == multiset(s)
    ensures ByDeviation(r)
    ensures forall v :: StableSort.WithKey(r, AbsDeviation, v) == StableSort.WithKey(s, AbsDeviation, v)
  {
    var r := StableSort.Sort(s, AbsDeviation);
    assert forall i, j :: 0 <= i < j < |r| ==> AbsDeviation(r[i]) <= AbsDeviation(r[j]);
    r
  }

  /** The keys present in `s`: its distinct count lists. */
  function Keys(s: seq<Solution>): set<seq<Pipe>>
  {
    set x | x in s :: x.counts
  }

  lemma KeysAppend(a: seq<Solution>, b: seq<Solution>)
    ensures Keys(a + b) == Keys(a) + Keys(b)
  {
    forall c | c in Keys(a + b)
      ensures c in Keys(a) + Keys(b)
    {
      var x :| x in a + b && x.counts == c;
    }
    forall c | c in Keys(a) + Keys(b)
      ensures c in Keys(a + b)
    {
      if c in Keys(a) {
        var x :| x in a && x.counts == c;
        assert x in a + b;
      } else {
        var x :| x in b && x.counts == c;
        assert x in a + b;
      }
    }
  }

  lemma KeysSingleton(x: Solution)
    ensures Keys([x]) == {x.counts}
  {
    assert x in [x];
  }

  /** Reordering candidates does not change which keys are present. */
  lemma KeysPermutation(a: seq<Solution>, b: seq<Solution>)
    requires multiset(a) == multiset(b)
    ensures Keys(a) == Keys(b)
  {
    forall c | c in Keys(a)
      ensures c in Keys(b)
    {
      var x :| x in a && x.counts == c;
      assert x in multiset(b);
    }
    forall c | c in Keys(b)
      ensures c in Keys(a)
    {
      var x :| x in b && x.counts == c;
      assert x in multiset(a);
    }
  }

  /** The position of the first candidate in `s` with count list `c`, or
      `|s|` when no candidate has it. */
  function FirstWith(s: seq<Solution>, c: seq<Pipe>): (n: nat)
    ensures n <= |s|
    ensures n < |s| ==> s[n].counts == c
  {
    if s == [] then 0
    else if s[0].counts == c then 0
    else 1 + FirstWith(s[1..], c)
  }

  /** No candidate before `FirstWith(s, c)` has count list `c`. */
  lemma {:induction false} FirstWithFirst(s: seq<Solution>, c: seq<Pipe>, i: nat)
    requires i < FirstWith(s, c)
    ensures s[i].counts != c
  {
    if i > 0 {
      FirstWithFirst(s[1..], c, i - 1);
    }
  }

  /** Being at or before every earlier candidate with key `c`, and holding
      it, determines `FirstWith`. */
  lemma FirstWithUnique(s: seq<Solution>, c: seq<Pipe>, n: nat)
    requires n <= |s|
    requires n < |s| ==> s[n].counts == c
    requires forall i :: 0 <= i < n ==> s[i].counts != c
    ensures FirstWith(s, c) == n
  {
    var m := FirstWith(s, c);
    if n < m {
      FirstWithFirst(s, c, n);
    }
  }

  lemma FirstWithKeys(s: seq<Solution>, c: seq<Pipe>)
    ensures FirstWith(s, c) < |s| <==> c in Keys(s)
  {
    var n := FirstWith(s, c);
    if n < |s| {
      assert s[n] in s;
    }
    if c in Keys(s) {
      var x :| x in s && x.counts == c;
    }
  }

  /** The deduplication loop run over all of `s` with no `topN` bound:
      each candidate is kept unless an earlier one had the same key. */
  function FirstOccurrences(s: seq<Solution>): seq<Solution>
  {
    if s == [] then []
    else
      var init := s[..|s| - 1];
      var last := s[|s| - 1];
      FirstOccurrences(init) + (if last.counts in Keys(init) then [] else [last])
  }

  /** One more candidate: it is kept exactly when its key is new. */
  lemma FirstOccurrencesStep(s: seq<Solution>, j: nat)
    requires j < |s|
    ensures FirstOccurrences(s[..j + 1]) == FirstOccurrences(s[..j]) + (if s[j].counts in Keys(s[..j]) then [] else [s[j]])
    ensures Keys(s[..j + 1]) == Keys(s[..j]) + {s[j].counts}
  {
    assert s[..j + 1] == s[..j] + [s[j]];
    assert s[..j + 1][..j] == s[..j];
    KeysAppend(s[..j], [s[j]]);
    KeysSingleton(s[j]);
  }

  /** Each entry of `r` is the first candidate of `s` with its key. */
  ghost predicate FirstsOf(s: seq<Solution>, r: seq<Solution>)
  {
    forall j :: 0 <= j < |r| ==> FirstWith(s, r[j].counts) < |s| && s[FirstWith(s, r[j].counts)] == r[j]
  }

  /** The entries of `r` are in the order of their first occurrences in
      `s`. */
  ghost predicate InFirstOrder(s: seq<Solution>, r: seq<Solution>)
  {
    forall i, j :: 0 <= i < j < |r| ==> FirstWith(s, r[i].counts) < FirstWith(s, r[j].counts)
  }

  /** Every key of `s` is kept exactly once. */
  lemma {:induction false} FirstOccurrencesKeys(s: seq<Solution>)
    ensures Keys(FirstOccurrences(s)) == Keys(s)
    ensures |FirstOccurrences(s)| == |Keys(s)|
  {
    if s != [] {
      var n := |s| - 1;
      var init := s[..n];
      assert s[..n + 1] == s;
      FirstOccurrencesKeys(init);
      FirstOccurrencesStep(s, n);
      var extra := if s[n].counts in Keys(init) then [] else [s[n]];
      KeysAppend(FirstOccurrences(init), extra);
      if extra != [] {
        KeysSingleton(s[n]);
      } else {
        assert Keys(extra) == {};
      }
    }
  }

  /** What the deduplication keeps, independently of how it is computed:
      the first candidate with each key, in the order of those first
      occurrences. */
  lemma {:induction false} FirstOccurrencesFirsts(s: seq<Solution>)
    ensures FirstsOf(s, FirstOccurrences(s))
    ensures InFirstOrder(s, FirstOccurrences(s))
  {
    if s != [] {
      var n := |s| - 1;
      var init := s[..n];
      assert s[..n + 1] == s;
      FirstOccurrencesFirsts(init);
      FirstOccurrencesStep(s, n);
      var prev := FirstOccurrences(init);
      forall j | 0 <= j < |prev|
        ensures FirstWith(s, prev[j].counts) == FirstWith(init, prev[j].counts)
      {
        var c := prev[j].counts;
        forall i | 0 <= i < FirstWith(init, c)
          ensures s[i].counts != c
        {
          FirstWithFirst(init, c, i);
        }
        FirstWithUnique(s, c, FirstWith(init, c));
      }
      FirstsExtend(s, init, prev);
      if s[n].counts !in Keys(init) {
        FirstWithKeys(init, s[n].counts);
        forall i | 0 <= i < n
          ensures s[i].counts != s[n].counts
        {
          FirstWithFirst(init, s[n].counts, i);
        }
        FirstWithUnique(s, s[n].counts, n);
        FirstsSnoc(s, prev, s[n]);
      } else {
        assert FirstOccurrences(s) == prev + [];
      }
    }
  }

  /** Appending a candidate to `init` moves no first occurrence. */
  lemma FirstsExtend(s: seq<Solution>, init: seq<Solution>, prev: seq<Solution>)
    requires |s| > 0 && init == s[..|s| - 1]
    requires FirstsOf(init, prev) && InFirstOrder(init, prev)
    requires forall j :: 0 <= j < |prev| ==> FirstWith(s, prev[j].counts) == FirstWith(init, prev[j].counts)
    ensures FirstsOf(s, prev) && InFirstOrder(s, prev)
    ensures forall j :: 0 <= j < |prev| ==> FirstWith(s, prev[j].counts) < |s| - 1
  {
  }

  lemma FirstsSnoc(s: seq<Solution>, prev: seq<Solution>, x: Solution)
    requires |s| > 0 && x == s[|s| - 1]
    requires FirstWith(s, x.counts) == |s| - 1
    requires forall j :: 0 <= j < |prev| ==> FirstWith(s, prev[j].counts) < |s| - 1
    requires FirstsOf(s, prev) && InFirstOrder(s, prev)
    ensures FirstsOf(s, prev + [x])
    ensures InFirstOrder(s, prev + [x])
  {
    FirstsSnocOf(s, prev, x);
    FirstsSnocOrder(s, prev, x);
  }

  lemma FirstsSnocOf(s: seq<Solution>, prev: seq<Solution>, x: Solution)
    requires |s| > 0 && x == s[|s| - 1]
    requires FirstWith(s, x.counts) == |s| - 1
    requires FirstsOf(s, prev)
    ensures FirstsOf(s, prev + [x])
  {
    var r := prev + [x];
    forall j | 0 <= j < |r|
      ensures FirstWith(s, r[j].counts) < |s| && s[FirstWith(s, r[j].counts)] == r[j]
    {
      if j < |prev| {
        assert r[j] == prev[j];
      } else {
        assert r[j] == x;
      }
    }
  }

  lemma FirstsSnocOrder(s: seq<Solution>, prev: seq<Solution>, x: Solution)
    requires FirstWith(s, x.counts) == |s| - 1
    requires forall j :: 0 <= j < |prev| ==> FirstWith(s, prev[j].counts) < |s| - 1
    requires InFirstOrder(s, prev)
    ensures InFirstOrder(s, prev + [x])
  {
    var r := prev + [x];
    forall a, b | 0 <= a < b < |r|
      ensures FirstWith(s, r[a].counts) < FirstWith(s, r[b].counts)
    {
      assert r[a] == prev[a];
      if b < |prev| {
        assert r[b] == prev[b];
      } else {
        assert r[b] == x;
      }
    }
  }

  /** Deduplicating a prefix gives a prefix of the deduplicated whole. */
  lemma {:induction false} FirstOccurrencesPrefix(s: seq<Solution>, j: nat)
    requires j <= |s|
    ensures |FirstOccurrences(s[..j])| <= |FirstOccurrences(s)|
    ensures FirstOccurrences(s[..j]) == FirstOccurrences(s)[..|FirstOccurrences(s[..j])|]
    decreases |s|
  {
    if j < |s| {
      var init := s[..|s| - 1];
      assert init[..j] == s[..j];
      FirstOccurrencesPrefix(init, j);
    } else {
      assert s[..j] == s;
    }
  }

  /** Deduplication keeps the order by deviation. */
  lemma FirstOccurrencesSorted(s: seq<Solution>)
    requires ByDeviation(s)
    ensures ByDeviation(FirstOccurrences(s))
  {
    FirstOccurrencesFirsts(s);
  }

  /** How many candidates the loop may keep: it pushes before it tests
      `uniqueSolutions.length >= topN`, so at least one is kept whenever
      there is one, even when `topN` is 0 or negative. */
  function Limit(topN: int): nat
  {
    if topN < 1 then 1 else topN
  }

  /** Every candidate the search pushes, for an inventory of scaled
      lengths. */
  function Candidates(target: int, inventory: seq<Pipe>): seq<Solution>
  {
    var pipes := SortDescending(inventory);
    Backtrack(target, pipes, InitialStock(pipes), [], 0, 0)
  }

  /** The result of `findTopSolutions`, described by what it keeps: the
      first `Limit(topN)` distinct candidates of the sorted list. */
  function TopSolutions(target: int, inventory: seq<Pipe>, topN: int): seq<Solution>
  {
    var unique := FirstOccurrences(RankByDeviation(Candidates(target, inventory)));
    unique[..Min(Limit(topN), |unique|)]
  }

  /** The state when the loop breaks after position `j - 1`: exactly the
      first `Limit(topN)` distinct candidates have been kept. */
  lemma BreakKeepsLimit(s: seq<Solution>, j: nat, topN: int)
    requires 0 < j <= |s|
    requires |FirstOccurrences(s[..j - 1])| < Limit(topN)
    requires |FirstOccurrences(s[..j])| >= topN
    ensures FirstOccurrences(s[..j]) == FirstOccurrences(s)[..Min(Limit(topN), |FirstOccurrences(s)|)]
  {
    var t := s[..j];
    FirstOccurrencesPrefix(s, j);
    FirstOccurrencesStep(s, j - 1);
    var kept := |FirstOccurrences(t)|;
    assert kept <= |FirstOccurrences(s[..j - 1])| + 1;
    assert kept >= 1 by {
      FirstOccurrencesKeys(t);
      assert t[0] in t;
      assert t[0].counts in Keys(t);
    }
    assert kept == Limit(topN);
  }

  /** The loop "Remove duplicates if any and pick topN": a candidate is
      kept when its key is not yet in `seen`, and the loop stops as soon as
      `topN` candidates are kept. */
  method TakeUnique(solutions: seq<Solution>, topN: int) returns (unique: seq<Solution>)
    ensures unique == FirstOccurrences(solutions)[..Min(Limit(topN), |FirstOccurrences(solutions)|)]
  {
    unique := [];
    var seen: set<seq<Pipe>> := {};
    var j := 0;
    ghost var stopped := false;
    while j < |solutions|
      invariant !stopped
      invariant 0 <= j <= |solutions|
      invariant unique == FirstOccurrences(solutions[..j])
      invariant seen == Keys(solutions[..j])
      invariant |unique| < Limit(topN)
      decreases |solutions| - j
    {
      var sol := solutions[j];
      FirstOccurrencesStep(solutions, j);
      if sol.counts !in seen {
        unique := unique + [sol];
        seen := seen + {sol.counts};
      }
      j := j + 1;
      if |unique| >= topN {
        BreakKeepsLimit(solutions, j, topN);
        stopped := true;
        break;
      }
    }
    if !stopped {
      assert solutions[..j] == solutions;
    }
  }

  /** `findTopSolutions` as the source writes it, after scaling: sort the
      pipes, fill the stock, run the backtracking search, sort the
      candidates, then deduplicate. */
  method FindTopSolutions(target: int, inventory: seq<Pipe>, topN: int) returns (unique: seq<Solution>)
    ensures unique == TopSolutions(target, inventory, topN)
  {
    var pipes := SortDescending(inventory);
    var stock := InitialStock(pipes);
    var stockAfter, currentAfter, solutions := RunBacktrack(target, pipes, stock, [], 0, 0, []);
    assert solutions == Candidates(target, inventory);
    solutions := RankByDeviation(solutions);
    unique := TakeUnique(solutions, topN);
  }

  /** Dropping the last candidate of a list with no repeated count list
      leaves such a list, which does not hold the dropped key. */
  lemma DistinctInit(s: seq<Solution>)
    requires s != [] && DistinctCounts(s)
    ensures DistinctCounts(s[..|s| - 1])
    ensures s[|s| - 1].counts !in Keys(s[..|s| - 1])
  {
    var n := |s| - 1;
    var init := s[..n];
    assert forall i :: 0 <= i < n ==> init[i] == s[i];
  }

  /** With no repeated count list, deduplication keeps everything. */
  lemma {:induction false} DistinctKept(s: seq<Solution>)
    requires DistinctCounts(s)
    ensures FirstOccurrences(s) == s
  {
    if s != [] {
      var n := |s| - 1;
      DistinctInit(s);
      DistinctKept(s[..n]);
      assert s[..n + 1] == s;
      FirstOccurrencesStep(s, n);
      assert s[..n] + [s[n]] == s;
    }
  }

  /** Combinations, not permutations: when no two inventory entries share
      a length, the search never pushes the same count list twice, so the
      deduplication without the `topN` bound drops nothing. */
  lemma CandidatesDistinct(target: int, inventory: seq<Pipe>)
    requires DistinctLengths(inventory)
    ensures DistinctCounts(Candidates(target, inventory))
    ensures FirstOccurrences(Candidates(target, inventory)) == Candidates(target, inventory)
  {
    var pipes := SortDescending(inventory);
    SortKeepsDistinct(inventory);
    NoRepeats(target, pipes, InitialStock(pipes), [], 0, 0);
    DistinctKept(Candidates(target, inventory));
  }

  /** An entry of the result is a candidate the search pushed. */
  lemma TopSolutionsFromCandidates(target: int, inventory: seq<Pipe>, topN: int, s: Solution)
    requires s in TopSolutions(target, inventory, topN)
    ensures s in Candidates(target, inventory)
  {
    var ranked := RankByDeviation(Candidates(target, inventory));
    var unique := FirstOccurrences(ranked);
    var j :| 0 <= j < Min(Limit(topN), |unique|) && unique[..Min(Limit(topN), |unique|)][j] == s;
    FirstOccurrencesFirsts(ranked);
    assert unique[j] == s;
    assert s in multiset(ranked);
  }

  /** Every solution returned lies within the desired length, so its
      deviation is never classified "Over"; its count list is well formed,
      adds up to its total length, and uses no length more often than the
      stock for that length, the count of the last inventory entry with
      that length. */
  lemma TopSolutionsSound(target: int, inventory: seq<Pipe>, topN: int, s: Solution)
    requires s in TopSolutions(target, inventory, topN)
    ensures WithinTarget(target, s)
    ensures Classify(s.deviation) != Over
    ensures Canonical(s.counts)
    ensures s.total == Weight(s.counts)
    ensures forall k :: Get(s.counts, k) <= LastCount(inventory, k)
  {
    var pipes := SortDescending(inventory);
    TopSolutionsFromCandidates(target, inventory, topN, s);
    BacktrackWithin(target, pipes, InitialStock(pipes), [], 0, 0);
    BacktrackExtends(target, pipes, InitialStock(pipes), [], 0, 0);
    forall k
      ensures Get(s.counts, k) <= LastCount(inventory, k)
    {
      InitialStockLast(inventory, k);
    }
  }

  /** The first `m` distinct candidates of a list sorted by deviation are
      sorted by deviation, have distinct count lists, and are the first
      occurrences of their count lists, in order. */
  lemma FirstOccurrencesTake(s: seq<Solution>, m: nat)
    requires ByDeviation(s)
    requires m <= |FirstOccurrences(s)|
    ensures ByDeviation(FirstOccurrences(s)[..m])
    ensures DistinctCounts(FirstOccurrences(s)[..m])
    ensures FirstsOf(s, FirstOccurrences(s)[..m])
    ensures InFirstOrder(s, FirstOccurrences(s)[..m])
  {
    var unique := FirstOccurrences(s);
    var r := unique[..m];
    FirstOccurrencesSorted(s);
    FirstOccurrencesFirsts(s);
    assert forall j :: 0 <= j < |r| ==> r[j] == unique[j];
    forall i, j | 0 <= i < j < |r|
      ensures r[i].counts != r[j].counts
    {
      assert FirstWith(s, r[i].counts) < FirstWith(s, r[j].counts);
    }
  }

  /** The shape of the result: `Limit(topN)` solutions, or every distinct
      candidate when there are fewer; ordered by absolute deviation; no two
      with the same count list; and each the first candidate with its count
      list in the sorted order, in the order of those first occurrences. */
  lemma TopSolutionsShape(target: int, inventory: seq<Pipe>, topN: int)
    ensures |TopSolutions(target, inventory, topN)| == Min(Limit(topN), |Keys(Candidates(target, inventory))|)
    ensures ByDeviation(TopSolutions(target, inventory, topN))
    ensures DistinctCounts(TopSolutions(target, inventory, topN))
    ensures FirstsOf(RankByDeviation(Candidates(target, inventory)), TopSolutions(target, inventory, topN))
    ensures InFirstOrder(RankByDeviation(Candidates(target, inventory)), TopSolutions(target, inventory, topN))
  {
    var candidates := Candidates(target, inventory);
    var ranked := RankByDeviation(candidates);
    FirstOccurrencesKeys(ranked);
    KeysPermutation(ranked, candidates);
    FirstOccurrencesTake(ranked, Min(Limit(topN), |FirstOccurrences(ranked)|));
  }

  /** Every cut that the inventory allows and that fits the desired length
      is a candidate: a positive total of at most `target`, and no length
      used more often than the stock the `forEach` gives it (the count of
      the last inventory entry with that length). */
  lemma CandidatesComplete(target: int, inventory: seq<Pipe>, m: Counts)
    requires forall j :: 0 <= j < |inventory| ==> inventory[j].length >= 0
    requires forall k :: Get(m, k) <= LastCount(inventory, k)
    requires 0 < Weight(m) <= target
    ensures Solution(m, Weight(m), Weight(m) - target) in Candidates(target, inventory)
  {
    InitialComplete(target, inventory, m);
  }

  /** A candidate is determined by its count list: its total is the weight
      of the list and its deviation is `total - target`. */
  lemma CandidateOfCounts(target: int, inventory: seq<Pipe>)
    ensures forall y <- Candidates(target, inventory) :: y == Solution(y.counts, Weight(y.counts), Weight(y.counts) - target)
  {
    var pipes := SortDescending(inventory);
    BacktrackKeyed(target, pipes, InitialStock(pipes));
  }

  /** A candidate that is the only one with its key survives the
      deduplication. */
  lemma FirstOccurrencesHas(s: seq<Solution>, x: Solution)
    requires x in s
    requires forall y :: y in s && y.counts == x.counts ==> y == x
    ensures x in FirstOccurrences(s)
  {
    FirstOccurrencesKeys(s);
    FirstOccurrencesFirsts(s);
    assert x.counts in Keys(s);
    var u :| u in FirstOccurrences(s) && u.counts == x.counts;
    var j :| 0 <= j < |FirstOccurrences(s)| && FirstOccurrences(s)[j] == u;
    assert s[FirstWith(s, u.counts)] == u;
  }

  /** In a list sorted by deviation, an entry that is not among the first
      `n` comes after `n` entries none of which is further away. */
  lemma TakeLeast(u: seq<Solution>, n: nat, x: Solution)
    requires ByDeviation(u) && n <= |u|
    requires x in u && x !in u[..n]
    ensures forall r <- u[..n] :: Abs(r.deviation) <= Abs(x.deviation)
  {
    var j :| 0 <= j < |u| && u[j] == x;
    forall r | r in u[..n]
      ensures Abs(r.deviation) <= Abs(x.deviation)
    {
      var a :| 0 <= a < n && u[..n][a] == r;
      assert u[a] == r;
    }
  }

  /** Deduplicating a list sorted by deviation and keeping the first
      `Limit(topN)` keeps an entry that is the only one with its key,
      unless all `Limit(topN)` places go to entries no further away. */
  lemma KeepsBest(s: seq<Solution>, topN: int, x: Solution, kept: seq<Solution>)
    requires ByDeviation(s) && x in s
    requires forall y :: y in s && y.counts == x.counts ==> y == x
    requires kept == FirstOccurrences(s)[..Min(Limit(topN), |FirstOccurrences(s)|)]
    ensures x in kept || (|kept| == Limit(topN) && forall r <- kept :: Abs(r.deviation) <= Abs(x.deviation))
  {
    FirstOccurrencesHas(s, x);
    FirstOccurrencesSorted(s);
    var unique := FirstOccurrences(s);
    var n := Min(Limit(topN), |unique|);
    if x !in unique[..n] {
      TakeLeast(unique, n, x);
    }
  }

  /** Sorting keeps a list whose entries are determined by their count
      lists that way, and keeps `x` in it. */
  lemma RankedKeyed(s: seq<Solution>, target: int, x: Solution)
    requires x in s
    requires forall y <- s :: y == Solution(y.counts, Weight(y.counts), Weight(y.counts) - target)
    ensures x in RankByDeviation(s)
    ensures forall y :: y in RankByDeviation(s) && y.counts == x.counts ==> y == x
  {
    var ranked := RankByDeviation(s);
    assert x in multiset(ranked);
    forall y | y in ranked && y.counts == x.counts
      ensures y == x
    {
      assert y in multiset(s);
    }
  }

  /** Ranking and deduplicating candidates that are each determined by
      their count list keeps the candidate `x`, unless all `Limit(topN)`
      places go to candidates no further away. */
  lemma PipelineBest(target: int, inventory: seq<Pipe>, topN: int, x: Solution)
    requires x in Candidates(target, inventory)
    requires forall y <- Candidates(target, inventory) :: y == Solution(y.counts, Weight(y.counts), Weight(y.counts) - target)
    ensures var top := TopSolutions(target, inventory, topN);
      x in top || (|top| == Limit(topN) && forall r <- top :: Abs(r.deviation) <= Abs(x.deviation))
  {
    var candidates := Candidates(target, inventory);
    RankedKeyed(candidates, target, x);
    KeepsBest(RankByDeviation(candidates), topN, x, TopSolutions(target, inventory, topN));
  }

  /** `findTopSolutions` returns the best cuts: a feasible cut it leaves
      out is no closer to the desired length than any of the solutions
      it returns, and those fill all `max(topN, 1)` places. */
  lemma TopSolutionsBest(target: int, inventory: seq<Pipe>, topN: int, m: Counts)
    requires forall j :: 0 <= j < |inventory| ==> inventory[j].length >= 0
    requires forall k :: Get(m, k) <= LastCount(inventory, k)
    requires 0 < Weight(m) <= target
    ensures var x := Solution(m, Weight(m), Weight(m) - target);
      var top := TopSolutions(target, inventory, topN);
      x in top || (|top| == Limit(topN) && forall r <- top :: Abs(r.deviation) <= Abs(x.deviation))
  {
    CandidatesComplete(target, inventory, m);
    CandidateOfCounts(target, inventory);
    PipelineBest(target, inventory, topN, Solution(m, Weight(m), Weight(m) - target));
  }

  /** Two entries of the same length: the entries already are in
      descending order, and the stock holds the count of the last entry
      (1), not the sum of both (3), so two pieces of length 5 are never
      combined. */
  lemma RepeatedLengthStock()
    ensures SortDescending([Pipe(5, 2), Pipe(5, 1)]) == [Pipe(5, 2), Pipe(5, 1)]
    ensures InitialStock([Pipe(5, 2), Pipe(5, 1)]) == map[5 := 1]
  {
    var inventory := [Pipe(5, 2), Pipe(5, 1)];
    assert StableSort.Sort([Pipe(5, 1)], DescendingLength) == [Pipe(5, 1)];
    assert inventory[1..] == [Pipe(5, 1)];
    assert Assign(map[], inventory, 0) == map[5 := 1];
  }

  /** Two inventory entries of length 5 with one piece each. They share one
      stock key, which the `forEach` sets to 1 twice. */
  const Twins: seq<Pipe> := [Pipe(5, 1), Pipe(5, 1)]

  /** The one combination within a target of 5: a single piece of 5. */
  const TwinPick: Solution := Solution([Pipe(5, 1)], 5, 0)

  /** After the piece is chosen the stock of 5 is empty, so no later pass
      of the loop chooses anything. */
  lemma TwinsExhausted(i: nat)
    requires i <= 2
    ensures Loop(5, Twins, map[5 := 0], [Pipe(5, 1)], 5, i) == []
  {
    var c: Counts := [Pipe(5, 1)];
    assert Loop(5, Twins, map[5 := 0], c, 5, 2) == [];
    assert Branch(5, Twins, map[5 := 0], c, 5, 1) == [];
    assert Branch(5, Twins, map[5 := 0], c, 5, 0) == [];
  }

  /** Choosing a piece of 5 empties its stock and starts the count list. */
  lemma TwinsChoose()
    ensures Choose(Frame(map[5 := 1], []), 5) == Frame(map[5 := 0], [Pipe(5, 1)])
  {
    assert AddOne([], 5) == [Pipe(5, 1)];
  }

  /** From the chosen piece the search records the exact match and stops. */
  lemma TwinsPicked(i: nat)
    requires i < 2
    ensures Backtrack(5, Twins, map[5 := 0], [Pipe(5, 1)], 5, i) == [TwinPick]
  {
    TwinsExhausted(i);
  }

  /** Choosing the piece from either entry reaches the exact match. */
  lemma TwinsBranch(i: nat)
    requires i < 2
    ensures Branch(5, Twins, map[5 := 1], [], 0, i) == [TwinPick]
  {
    TwinsChoose();
    TwinsPicked(i);
  }

  /** Both entries are visited from the empty state, and each pushes the
      same candidate. */
  lemma TwinsLoop()
    ensures Loop(5, Twins, map[5 := 1], [], 0, 0) == [TwinPick, TwinPick]
  {
    TwinsBranch(0);
    TwinsBranch(1);
    assert Loop(5, Twins, map[5 := 1], [], 0, 2) == [];
    assert Loop(5, Twins, map[5 := 1], [], 0, 1) == [TwinPick] + [];
    assert Loop(5, Twins, map[5 := 1], [], 0, 0) == [TwinPick] + [TwinPick];
  }

  /** Two entries of the same length make the search push the same count
      list twice: once from each entry. */
  lemma TwinsCandidates()
    ensures Candidates(5, Twins) == [TwinPick, TwinPick]
  {
    assert StableSort.Sort([Pipe(5, 1)], DescendingLength) == [Pipe(5, 1)];
    assert Twins[1..] == [Pipe(5, 1)];
    assert SortDescending(Twins) == Twins;
    assert Assign(map[], Twins, 0) == map[5 := 1];
    TwinsLoop();
    assert Backtrack(5, Twins, map[5 := 1], [], 0, 0) == [] + [TwinPick, TwinPick];
  }

  /** Sorting two equal candidates leaves them as they are. */
  lemma TwinsRanked()
    ensures RankByDeviation([TwinPick, TwinPick]) == [TwinPick, TwinPick]
  {
    var ranked := RankByDeviation([TwinPick, TwinPick]);
    assert multiset(ranked) == multiset{TwinPick, TwinPick};
    assert |ranked| == 2 && ranked[0] in multiset(ranked) && ranked[1] in multiset(ranked);
  }

  /** The second copy of a key is skipped. */
  lemma TwinsDeduplicated()
    ensures FirstOccurrences([TwinPick, TwinPick]) == [TwinPick]
  {
    assert [TwinPick, TwinPick][..1] == [TwinPick];
    assert [TwinPick][..0] == [];
    assert FirstOccurrences([TwinPick]) == [TwinPick];
    assert Keys([TwinPick]) == {TwinPick.counts};
  }

  /** With two entries of the same length the search pushes the same count
      list twice, and the deduplication keeps one of them. */
  lemma RepeatedLengthRepeats()
    ensures Candidates(5, Twins) == [TwinPick, TwinPick]
    ensures TopSolutions(5, Twins, 10) == [TwinPick]
  {
    TwinsCandidates();
    TwinsRanked();
    TwinsDeduplicated();
  }
}
