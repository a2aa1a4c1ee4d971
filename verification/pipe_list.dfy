/** The simpler calculator of public/js/index.js: a global list of pipe
    entries, a search that records every non-empty combination as the
    list of pipe lengths used, the five combinations closest to the
    desired length, and the removal of one entry from the list.

    Unlike `findTopSolutions`, this search never stops at the desired
    length, draws pieces by decrementing each entry's own count, and
    keeps no count table: a combination is its `path` of lengths, in the
    order the pieces were drawn. Lengths are modelled as exact integers. */
module PipeList {
  import opened PipeCounts
  import opened Deviation
  import StableSort

  /** `{ path, totalLength, deviation }`. */
  datatype Record = Record(path: seq<int>, total: int, deviation: int)

  /** Pieces left over all entries; every draw lowers it by one. */
  function Pieces(pipes: seq<Pipe>): nat
  {
    if pipes == [] then 0 else pipes[0].count + Pieces(pipes[1..])
  }

  /** `pipe.count--` on entry `i`. */
  function Draw(pipes: seq<Pipe>, i: nat): (r: seq<Pipe>)
    requires i < |pipes| && pipes[i].count > 0
    ensures |r| == |pipes|
    ensures Pieces(r) + 1 == Pieces(pipes)
    ensures r[i].length == pipes[i].length && r[i].count + 1 == pipes[i].count
    ensures forall j :: 0 <= j < |pipes| && j != i ==> r[j] == pipes[j]
  {
    var r := pipes[i := Pipe(pipes[i].length, pipes[i].count - 1)];
    DrawPieces(pipes, i);
    r
  }

  lemma {:induction false} DrawPieces(pipes: seq<Pipe>, i: nat)
    requires i < |pipes| && pipes[i].count > 0
    ensures Pieces(pipes[i := Pipe(pipes[i].length, pipes[i].count - 1)]) + 1 == Pieces(pipes)
  {
    var r := pipes[i := Pipe(pipes[i].length, pipes[i].count - 1)];
    if i > 0 {
      DrawPieces(pipes[1..], i - 1);
      assert r[1..] == pipes[1..][i - 1 := Pipe(pipes[i].length, pipes[i].count - 1)];
    } else {
      assert r[1..] == pipes[1..];
    }
  }

  /** `backtrack(path, currentLength, index)` of `getSolutions`: the
      records it pushes, in push order. */
  function Backtrack(desired: int, pipes: seq<Pipe>, path: seq<int>, length: int, index: nat): seq<Record>
    decreases Pieces(pipes), 1, 0, 0
  {
    (if length > 0 then [Record(path, length, length - desired)] else [])
      + Loop(desired, pipes, path, length, index)
  }

  /** The `for (let i = index; ...)` loop of `backtrack`, from `i` on. */
  function Loop(desired: int, pipes: seq<Pipe>, path: seq<int>, length: int, i: nat): seq<Record>
    decreases Pieces(pipes), 0, |pipes| - i, 1
  {
    if i >= |pipes| then []
    else Branch(desired, pipes, path, length, i) + Loop(desired, pipes, path, length, i + 1)
  }

  /** One pass of the loop body: an entry with pieces left gives one piece
      and the search goes on from the same entry. */
  function Branch(desired: int, pipes: seq<Pipe>, path: seq<int>, length: int, i: nat): seq<Record>
    requires i < |pipes|
    decreases Pieces(pipes), 0, |pipes| - i, 0
  {
    if pipes[i].count > 0 then
      Backtrack(desired, Draw(pipes, i), path + [pipes[i].length], length + pipes[i].length, i)
    else []
  }

  /** Σ of a path, from the back, so that pushing a length adds it. */
  function Sum(path: seq<int>): int
  {
    if path == [] then 0 else Sum(path[..|path| - 1]) + path[|path| - 1]
  }

  /** How often length `k` occurs in a path. */
  function Occurrences(path: seq<int>, k: int): nat
  {
    if path == [] then 0
    else Occurrences(path[..|path| - 1], k) + (if path[|path| - 1] == k then 1 else 0)
  }

  /** Pieces of length `k` left in the entries from `from` on. */
  function Available(pipes: seq<Pipe>, from: nat, k: int): nat
    decreases |pipes| - from
  {
    if from >= |pipes| then 0
    else (if pipes[from].length == k then pipes[from].count else 0) + Available(pipes, from + 1, k)
  }

  lemma {:induction false} AvailableDraw(pipes: seq<Pipe>, i: nat, from: nat, k: int)
    requires from <= i < |pipes| && pipes[i].count > 0
    ensures Available(Draw(pipes, i), from, k) + (if pipes[i].length == k then 1 else 0) == Available(pipes, from, k)
    decreases |pipes| - from
  {
    if from < i {
      AvailableDraw(pipes, i, from + 1, k);
    } else {
      AvailableSame(Draw(pipes, i), pipes, from + 1, k);
    }
  }

  /** Entries that agree from `from` on leave the same pieces there. */
  lemma {:induction false} AvailableSame(a: seq<Pipe>, b: seq<Pipe>, from: nat, k: int)
    requires |a| == |b|
    requires forall j :: from <= j < |a| ==> a[j] == b[j]
    ensures Available(a, from, k) == Available(b, from, k)
    decreases |a| - from
  {
    if from < |a| {
      AvailableSame(a, b, from + 1, k);
    }
  }

  lemma {:induction false} AvailableMono(pipes: seq<Pipe>, from: nat, i: nat, k: int)
    requires from <= i
    ensures Available(pipes, i, k) <= Available(pipes, from, k)
    decreases i - from
  {
    if from < i {
      AvailableMono(pipes, from + 1, i, k);
    }
  }

  /** Record `r` was reached from the call state (`pipes`, `path`,
      `length`) by drawing pieces only: its total is positive and its
      deviation is `total - desired`; the path it keeps starts with the
      call's path; its total grew by exactly the lengths appended; and no
      length was appended more often than the entries from `from` on had
      pieces of it. */
  ghost predicate Grows(desired: int, pipes: seq<Pipe>, path: seq<int>, length: int, from: nat, r: Record)
  {
    && r.total > 0
    && r.deviation == r.total - desired
    && path <= r.path
    && r.total - Sum(r.path) == length - Sum(path)
    && (forall k :: Occurrences(r.path, k) <= Occurrences(path, k) + Available(pipes, from, k))
  }

  /** What a record below one draw from entry `i` says about the state
      before the draw. */
  lemma GrowsStep(desired: int, pipes: seq<Pipe>, path: seq<int>, length: int, from: nat, i: nat, r: Record)
    requires from <= i < |pipes| && pipes[i].count > 0
    requires Grows(desired, Draw(pipes, i), path + [pipes[i].length], length + pipes[i].length, i, r)
    ensures Grows(desired, pipes, path, length, from, r)
  {
    var p := pipes[i].length;
    var longer := path + [p];
    assert longer[..|longer| - 1] == path;
    assert path <= r.path;
    forall k
      ensures Occurrences(r.path, k) <= Occurrences(path, k) + Available(pipes, from, k)
    {
      AvailableDraw(pipes, i, i, k);
      AvailableMono(pipes, from, i, k);
    }
  }

  lemma {:induction false} BacktrackGrows(desired: int, pipes: seq<Pipe>, path: seq<int>, length: int, index: nat)
    ensures forall r <- Backtrack(desired, pipes, path, length, index) :: Grows(desired, pipes, path, length, index, r)
    decreases Pieces(pipes), 1, 0, 0
  {
    LoopGrows(desired, pipes, path, length, index);
  }

  lemma {:induction false} LoopGrows(desired: int, pipes: seq<Pipe>, path: seq<int>, length: int, i: nat)
    ensures forall r <- Loop(desired, pipes, path, length, i) :: Grows(desired, pipes, path, length, i, r)
    decreases Pieces(pipes), 0, |pipes| - i, 1
  {
    if i < |pipes| {
      var rest := Loop(desired, pipes, path, length, i + 1);
      LoopGrows(desired, pipes, path, length, i + 1);
      forall r | r in rest
        ensures Grows(desired, pipes, path, length, i, r)
      {
        forall k
          ensures Available(pipes, i + 1, k) <= Available(pipes, i, k)
        {
          AvailableMono(pipes, i, i + 1, k);
        }
      }
      if pipes[i].count > 0 {
        var p := pipes[i].length;
        var drawn := Backtrack(desired, Draw(pipes, i), path + [p], length + p, i);
        BacktrackGrows(desired, Draw(pipes, i), path + [p], length + p, i);
        forall r | r in drawn
          ensures Grows(desired, pipes, path, length, i, r)
        {
          GrowsStep(desired, pipes, path, length, i, i, r);
        }
        assert Loop(desired, pipes, path, length, i) == drawn + rest;
      } else {
        assert Loop(desired, pipes, path, length, i) == [] + rest;
      }
    }
  }

  /** `idx` names, for each length appended to `path` in `r`, the entry
      it was drawn from: every entry is at `from` or later, has that
      length, the entries never go back to an earlier index, and no entry
      gives more pieces than its count. */
  ghost predicate Traces(pipes: seq<Pipe>, from: nat, path: seq<int>, r: Record, idx: seq<nat>)
  {
    && |path| + |idx| == |r.path|
    && (forall a :: 0 <= a < |idx| ==> from <= idx[a] < |pipes| && pipes[idx[a]].length == r.path[|path| + a])
    && (forall a, b :: 0 <= a < b < |idx| ==> idx[a] <= idx[b])
    && (forall e :: 0 <= e < |pipes| ==> multiset(idx)[e] <= pipes[e].count)
  }

  /** The lengths appended to `path` were drawn from entries at index
      `from` or later, in entry order. */
  ghost predicate InEntryOrder(pipes: seq<Pipe>, from: nat, path: seq<int>, r: Record)
  {
    exists idx :: Traces(pipes, from, path, r, idx)
  }

  /** A trace within the counts left after drawing from entry `i`,
      preceded by that draw, is within the counts before it. */
  lemma DrawnCounts(pipes: seq<Pipe>, i: nat, head: seq<nat>, tail: seq<nat>)
    requires i < |pipes| && pipes[i].count > 0 && head == [i]
    requires forall e :: 0 <= e < |pipes| ==> multiset(tail)[e] <= Draw(pipes, i)[e].count
    ensures forall e :: 0 <= e < |pipes| ==> multiset(head + tail)[e] <= pipes[e].count
  {
    assert multiset(head + tail) == multiset(head) + multiset(tail);
  }

  /** Entry `i` in front of entries from `i` on keeps them in order. */
  lemma DrawnOrdered(i: nat, head: seq<nat>, tail: seq<nat>)
    requires head == [i]
    requires forall a :: 0 <= a < |tail| ==> i <= tail[a]
    requires forall a, b :: 0 <= a < b < |tail| ==> tail[a] <= tail[b]
    ensures forall a, b :: 0 <= a < b < |head + tail| ==> (head + tail)[a] <= (head + tail)[b]
  {
    var idx := head + tail;
    forall a, b | 0 <= a < b < |idx|
      ensures idx[a] <= idx[b]
    {
      assert idx[b] == tail[b - 1];
      if a > 0 {
        assert idx[a] == tail[a - 1];
      }
    }
  }

  /** Entry `i`, whose length follows `path` in `r`, in front of entries
      whose lengths follow `path + [length]`, names the lengths that
      follow `path`. */
  lemma DrawnLengths(pipes: seq<Pipe>, d: seq<Pipe>, path: seq<int>, from: nat, i: nat, r: Record, head: seq<nat>, tail: seq<nat>)
    requires from <= i < |pipes| && head == [i] && |d| == |pipes|
    requires forall j :: 0 <= j < |pipes| ==> d[j].length == pipes[j].length
    requires |path| + 1 + |tail| == |r.path| && r.path[|path|] == pipes[i].length
    requires forall a :: 0 <= a < |tail| ==> i <= tail[a] < |d| && d[tail[a]].length == r.path[|path| + 1 + a]
    ensures forall a :: 0 <= a < |head + tail| ==> from <= (head + tail)[a] < |pipes| && pipes[(head + tail)[a]].length == r.path[|path| + a]
  {
    var idx := head + tail;
    forall a | 0 <= a < |idx|
      ensures from <= idx[a] < |pipes| && pipes[idx[a]].length == r.path[|path| + a]
    {
      if a > 0 {
        assert idx[a] == tail[a - 1];
      }
    }
  }

  /** A piece drawn from entry `i` in front of a traced suffix gives a
      trace from any `from <= i`. */
  lemma InEntryOrderStep(pipes: seq<Pipe>, path: seq<int>, from: nat, i: nat, r: Record)
    requires from <= i < |pipes| && pipes[i].count > 0
    requires path + [pipes[i].length] <= r.path
    requires InEntryOrder(Draw(pipes, i), i, path + [pipes[i].length], r)
    ensures InEntryOrder(pipes, from, path, r)
  {
    var d := Draw(pipes, i);
    var longer := path + [pipes[i].length];
    var tail :| Traces(d, i, longer, r, tail);
    var head: seq<nat> := [i];
    assert r.path[|path|] == pipes[i].length by {
      assert longer[|path|] == pipes[i].length;
    }
    DrawnLengths(pipes, d, path, from, i, r, head, tail);
    DrawnOrdered(i, head, tail);
    DrawnCounts(pipes, i, head, tail);
    assert Traces(pipes, from, path, r, head + tail);
  }

  /** Combinations, not permutations: the pieces of every recorded path
      were drawn in entry order from `index` on, never going back to an
      earlier entry, whether or not two entries share a length. */
  lemma {:induction false} BacktrackInOrder(desired: int, pipes: seq<Pipe>, path: seq<int>, length: int, index: nat)
    ensures forall r <- Backtrack(desired, pipes, path, length, index) :: InEntryOrder(pipes, index, path, r)
    decreases Pieces(pipes), 1, 0, 0
  {
    var own := Record(path, length, length - desired);
    assert Traces(pipes, index, path, own, []);
    LoopInOrder(desired, pipes, path, length, index);
  }

  lemma {:induction false} LoopInOrder(desired: int, pipes: seq<Pipe>, path: seq<int>, length: int, i: nat)
    ensures forall r <- Loop(desired, pipes, path, length, i) :: InEntryOrder(pipes, i, path, r)
    decreases Pieces(pipes), 0, |pipes| - i, 1
  {
    if i < |pipes| {
      var rest := Loop(desired, pipes, path, length, i + 1);
      LoopInOrder(desired, pipes, path, length, i + 1);
      forall r | r in rest
        ensures InEntryOrder(pipes, i, path, r)
      {
        var idx :| Traces(pipes, i + 1, path, r, idx);
        assert Traces(pipes, i, path, r, idx);
      }
      if pipes[i].count > 0 {
        var p := pipes[i].length;
        var d := Draw(pipes, i);
        var drawn := Backtrack(desired, d, path + [p], length + p, i);
        BacktrackInOrder(desired, d, path + [p], length + p, i);
        BacktrackGrows(desired, d, path + [p], length + p, i);
        forall r | r in drawn
          ensures InEntryOrder(pipes, i, path, r)
        {
          InEntryOrderStep(pipes, path, i, i, r);
        }
        assert Loop(desired, pipes, path, length, i) == drawn + rest;
      } else {
        assert Loop(desired, pipes, path, length, i) == [] + rest;
      }
    }
  }

  /** A record pushed by one pass of the loop is pushed by the loop from
      any earlier index. */
  lemma {:induction false} LoopHas(desired: int, pipes: seq<Pipe>, path: seq<int>, length: int, start: nat, i: nat, r: Record)
    requires start <= i < |pipes|
    requires r in Branch(desired, pipes, path, length, i)
    ensures r in Loop(desired, pipes, path, length, start)
    decreases i - start
  {
    var rest := Loop(desired, pipes, path, length, start + 1);
    if start < i {
      LoopHas(desired, pipes, path, length, start + 1, i, r);
    }
    assert Loop(desired, pipes, path, length, start) == Branch(desired, pipes, path, length, start) + rest;
  }

  /** Drawing the first entry of a trace within the counts leaves the rest
      of the trace within the counts. */
  lemma TailCounts(pipes: seq<Pipe>, idx: seq<nat>)
    requires idx != [] && idx[0] < |pipes|
    requires forall e :: 0 <= e < |pipes| ==> multiset(idx)[e] <= pipes[e].count
    ensures pipes[idx[0]].count > 0
    ensures forall e :: 0 <= e < |pipes| ==> multiset(idx[1..])[e] <= Draw(pipes, idx[0])[e].count
  {
    var head: seq<nat> := [idx[0]];
    assert idx == head + idx[1..];
    assert multiset(idx) == multiset(head) + multiset(idx[1..]);
  }

  /** The entries a trace names after its first, against the entries left
      once that first piece is drawn. */
  lemma TraceTail(pipes: seq<Pipe>, from: nat, path: seq<int>, r: Record, idx: seq<nat>)
    requires Traces(pipes, from, path, r, idx) && idx != []
    ensures pipes[idx[0]].count > 0
    ensures Traces(Draw(pipes, idx[0]), idx[0], path + [pipes[idx[0]].length], r, idx[1..])
  {
    var i := idx[0];
    var tail := idx[1..];
    TailCounts(pipes, idx);
    var d := Draw(pipes, i);
    var longer := path + [pipes[i].length];
    forall a | 0 <= a < |tail|
      ensures i <= tail[a] < |d| && d[tail[a]].length == r.path[|longer| + a]
    {
      assert tail[a] == idx[a + 1];
    }
  }

  /** The search is exhaustive: a record whose appended lengths are drawn
      from entries at `index` or later, in entry order and within each
      entry's count, and whose total is positive and grew by exactly those
      lengths, is pushed. */
  lemma {:induction false} BacktrackComplete(desired: int, pipes: seq<Pipe>, path: seq<int>, length: int, index: nat, r: Record, idx: seq<nat>)
    requires Traces(pipes, index, path, r, idx)
    requires path <= r.path
    requires r.total > 0 && r.deviation == r.total - desired
    requires r.total - Sum(r.path) == length - Sum(path)
    ensures r in Backtrack(desired, pipes, path, length, index)
    decreases |idx|
  {
    var head := if length > 0 then [Record(path, length, length - desired)] else [];
    assert Backtrack(desired, pipes, path, length, index) == head + Loop(desired, pipes, path, length, index);
    if idx == [] {
      assert r.path == path;
    } else {
      var i := idx[0];
      var p := pipes[i].length;
      TraceTail(pipes, index, path, r, idx);
      var longer := path + [p];
      assert longer <= r.path by {
        assert r.path[|path|] == p;
      }
      assert longer[..|longer| - 1] == path;
      BacktrackComplete(desired, Draw(pipes, i), longer, length + p, i, r, idx[1..]);
      LoopHas(desired, pipes, path, length, index, i, r);
    }
  }

  /** The records of `getSolutions` are exactly the non-empty combinations
      drawn in entry order within the entries' counts: every one of them
      is pushed, and nothing else is. */
  lemma RecordsExact(desired: int, pipes: seq<Pipe>, x: Record)
    ensures x in Records(desired, pipes) <==> Grows(desired, pipes, [], 0, 0, x) && InEntryOrder(pipes, 0, [], x)
  {
    BacktrackGrows(desired, pipes, [], 0, 0);
    BacktrackInOrder(desired, pipes, [], 0, 0);
    if Grows(desired, pipes, [], 0, 0, x) && InEntryOrder(pipes, 0, [], x) {
      var idx :| Traces(pipes, 0, [], x, idx);
      BacktrackComplete(desired, pipes, [], 0, 0, x, idx);
    }
  }

  /** `backtrack` as the source writes it, with the entries and the path,
      which the source updates in place, threaded through in- and
      out-parameters, and records appended to `solutions`. */
  method RunBacktrack(desired: int, pipes: seq<Pipe>, path: seq<int>, length: int, index: nat, solutions: seq<Record>)
    returns (pipesAfter: seq<Pipe>, pathAfter: seq<int>, solutionsAfter: seq<Record>)
    ensures pipesAfter == pipes && pathAfter == path
    ensures solutionsAfter == solutions + Backtrack(desired, pipes, path, length, index)
    decreases Pieces(pipes), 2
  {
    var pushed := solutions;
    if length > 0 {
      var deviation := length - desired;
      pushed := pushed + [Record(path, length, deviation)];
    }
    pipesAfter, pathAfter, solutionsAfter := RunLoop(desired, pipes, path, length, index, pushed);
  }

  /** The `for` loop of `backtrack` on the shared state. */
  method RunLoop(desired: int, pipes: seq<Pipe>, path: seq<int>, length: int, index: nat, solutions: seq<Record>)
    returns (pipesAfter: seq<Pipe>, pathAfter: seq<int>, solutionsAfter: seq<Record>)
    ensures pipesAfter == pipes && pathAfter == path
    ensures solutionsAfter == solutions + Loop(desired, pipes, path, length, index)
    decreases Pieces(pipes), 1
  {
    pipesAfter, pathAfter, solutionsAfter := pipes, path, solutions;
    var i := index;
    while i < |pipesAfter|
      invariant pipesAfter == pipes && pathAfter == path
      invariant solutionsAfter + Loop(desired, pipes, path, length, i) == solutions + Loop(desired, pipes, path, length, index)
      decreases |pipes| - i
    {
      ghost var before := solutionsAfter;
      ghost var step := Branch(desired, pipes, path, length, i);
      ghost var rest := Loop(desired, pipes, path, length, i + 1);
      assert Loop(desired, pipes, path, length, i) == step + rest;
      pipesAfter, pathAfter, solutionsAfter := RunBranch(desired, pipesAfter, pathAfter, length, i, solutionsAfter);
      assert solutionsAfter + rest == before + (step + rest);
      i := i + 1;
    }
    assert solutionsAfter + [] == solutionsAfter;
  }

  /** The loop body: `pipe.count--`, `path.push`, recurse, then
      `pipe.count++` and `path.pop()`, which restore both. */
  method RunBranch(desired: int, pipes: seq<Pipe>, path: seq<int>, length: int, i: nat, solutions: seq<Record>)
    returns (pipesAfter: seq<Pipe>, pathAfter: seq<int>, solutionsAfter: seq<Record>)
    requires i < |pipes|
    ensures pipesAfter == pipes && pathAfter == path
    ensures solutionsAfter == solutions + Branch(desired, pipes, path, length, i)
    decreases Pieces(pipes), 0
  {
    pipesAfter, pathAfter, solutionsAfter := pipes, path, solutions;
    var pipe := pipesAfter[i];
    if pipe.count > 0 {
      pipesAfter := pipesAfter[i := Pipe(pipe.length, pipe.count - 1)];
      pathAfter := pathAfter + [pipe.length];
      assert pipesAfter == Draw(pipes, i);
      pipesAfter, pathAfter, solutionsAfter := RunBacktrack(desired, pipesAfter, pathAfter, length + pipe.length, i, solutionsAfter);
      pipesAfter := pipesAfter[i := Pipe(pipe.length, pipesAfter[i].count + 1)];
      pathAfter := pathAfter[..|pathAfter| - 1];
      assert pipesAfter == pipes;
    } else {
      assert solutions + [] == solutions;
    }
  }

  function AbsDeviation(r: Record): int
  {
    Abs(r.deviation)
  }

  /** Every record the search pushes for the current entries. */
  function Records(desired: int, pipes: seq<Pipe>): seq<Record>
  {
    Backtrack(desired, pipes, [], 0, 0)
  }

  /** `getSolutions(desiredLength)`: the records sorted by absolute
      deviation, stably, and `slice(0, 5)`. */
  function GetSolutions(desired: int, pipes: seq<Pipe>): seq<Record>
  {
    var ranked := StableSort.Sort(Records(desired, pipes), AbsDeviation);
    ranked[..Min(5, |ranked|)]
  }

  /** `getSolutions` on the global entries: it runs the search, which
      leaves the entries as they were, then sorts and slices. */
  method RunGetSolutions(desired: int, pipes: seq<Pipe>) returns (best: seq<Record>, pipesAfter: seq<Pipe>)
    ensures pipesAfter == pipes
    ensures best == GetSolutions(desired, pipes)
  {
    var path;
    var solutions;
    pipesAfter, path, solutions := RunBacktrack(desired, pipes, [], 0, 0, []);
    assert solutions == Records(desired, pipes);
    solutions := StableSort.Sort(solutions, AbsDeviation);
    best := solutions[..Min(5, |solutions|)];
  }

  /** Every solution shown is a non-empty combination: its total is
      positive and is the sum of its path, its deviation is
      `total - desired` and may have either sign (the search does not stop
      at the desired length), it uses no length more often than the
      entries have pieces of it, and its pieces were drawn in entry order
      within each entry's count. */
  lemma GetSolutionsSound(desired: int, pipes: seq<Pipe>, x: Record)
    requires x in GetSolutions(desired, pipes)
    ensures x.total > 0 && x.total == Sum(x.path)
    ensures x.deviation == x.total - desired
    ensures forall k :: Occurrences(x.path, k) <= Available(pipes, 0, k)
    ensures InEntryOrder(pipes, 0, [], x)
  {
    var all := Records(desired, pipes);
    var ranked := StableSort.Sort(all, AbsDeviation);
    assert x in ranked;
    assert x in multiset(all);
    RecordsExact(desired, pipes, x);
  }

  /** The five best: as many as there are records up to five, ordered by
      absolute deviation, drawn from the records, and none of the records
      left out is closer to the desired length than any of those kept. */
  lemma GetSolutionsBest(desired: int, pipes: seq<Pipe>)
    ensures |GetSolutions(desired, pipes)| == Min(5, |Records(desired, pipes)|)
    ensures StableSort.SortedBy(GetSolutions(desired, pipes), AbsDeviation)
    ensures multiset(GetSolutions(desired, pipes)) <= multiset(Records(desired, pipes))
    ensures forall x, y :: x in GetSolutions(desired, pipes) && y in multiset(Records(desired, pipes)) - multiset(GetSolutions(desired, pipes)) ==> Abs(x.deviation) <= Abs(y.deviation)
  {
    var all := Records(desired, pipes);
    var ranked := StableSort.Sort(all, AbsDeviation);
    var n := Min(5, |ranked|);
    var best := ranked[..n];
    TakeBest(ranked, n);
  }

  /** For a sorted list, a prefix holds the least keys. */
  lemma TakeBest(ranked: seq<Record>, n: nat)
    requires n <= |ranked|
    requires StableSort.SortedBy(ranked, AbsDeviation)
    ensures StableSort.SortedBy(ranked[..n], AbsDeviation)
    ensures multiset(ranked[..n]) <= multiset(ranked)
    ensures forall x, y :: x in ranked[..n] && y in multiset(ranked) - multiset(ranked[..n]) ==> Abs(x.deviation) <= Abs(y.deviation)
  {
    var best := ranked[..n];
    var rest := ranked[n..];
    SplitMultiset(ranked, n);
    forall x, y | x in best && y in rest
      ensures Abs(x.deviation) <= Abs(y.deviation)
    {
      var a :| 0 <= a < n && best[a] == x;
      var b :| 0 <= b < |rest| && rest[b] == y;
      assert AbsDeviation(ranked[a]) <= AbsDeviation(ranked[n + b]);
    }
  }

  /** What a prefix leaves of a sequence's elements is its suffix. */
  lemma SplitMultiset(s: seq<Record>, n: nat)
    requires n <= |s|
    ensures multiset(s[..n]) <= multiset(s)
    ensures multiset(s) - multiset(s[..n]) == multiset(s[n..])
  {
    assert s == s[..n] + s[n..];
  }

  /** The position `splice(index, 1)` starts at: a negative index counts
      from the end and stops at 0; an index past the end is the end. */
  function SpliceStart(len: nat, index: int): nat
  {
    if index < 0 then (if len + index < 0 then 0 else len + index)
    else if index > len then len
    else index
  }

  /** `removePipe(index)`: `pipes.splice(index, 1)`. An index inside the
      list removes that entry; a negative index down to `-|pipes|` counts
      from the end; a lower one removes the first entry; an index at or
      past the end removes nothing. In each case putting the removed entry
      back where it was gives the list before the removal. */
  function RemovePipe(pipes: seq<Pipe>, index: int): (r: seq<Pipe>)
    ensures SpliceStart(|pipes|, index) < |pipes| ==> |r| + 1 == |pipes| && multiset(r) + multiset{pipes[SpliceStart(|pipes|, index)]} == multiset(pipes)
    ensures 0 <= index < |pipes| ==> |r| + 1 == |pipes| && r[..index] + [pipes[index]] + r[index..] == pipes
    ensures -|pipes| <= index < 0 ==> |r| + 1 == |pipes| && r[..|pipes| + index] + [pipes[|pipes| + index]] + r[|pipes| + index..] == pipes
    ensures index < -|pipes| && pipes != [] ==> [pipes[0]] + r == pipes
    ensures SpliceStart(|pipes|, index) == |pipes| ==> r == pipes
  {
    var start := SpliceStart(|pipes|, index);
    if start < |pipes| then
      var r := pipes[..start] + pipes[start + 1..];
      assert r[..start] == pipes[..start];
      assert r[start..] == pipes[start + 1..];
      assert pipes == pipes[..start] + [pipes[start]] + pipes[start + 1..];
      r
    else pipes
  }

  /** The deviation of a shown solution can be positive: with one entry of
      one piece of length 3 and a desired length of 2, the only solution
      overshoots by 1 and is shown as over. */
  lemma OverReachable()
    ensures GetSolutions(2, [Pipe(3, 1)]) == [Record([3], 3, 1)]
    ensures Classify(GetSolutions(2, [Pipe(3, 1)])[0].deviation) == Over
  {
    var pipes := [Pipe(3, 1)];
    var d := Draw(pipes, 0);
    assert d == [Pipe(3, 0)];
    assert Loop(2, d, [3], 3, 0) == [];
    assert Backtrack(2, d, [3], 3, 0) == [Record([3], 3, 1)];
    assert [] + [pipes[0].length] == [3];
    assert Branch(2, pipes, [], 0, 0) == [Record([3], 3, 1)];
    assert Loop(2, pipes, [], 0, 1) == [];
    assert Loop(2, pipes, [], 0, 0) == [Record([3], 3, 1)];
    assert Records(2, pipes) == [Record([3], 3, 1)];
  }
}
