/** The depth-first backtracking search of `findTopSolutions` (js/main.js),
    over lengths and a target that are already scaled to integers.

    `Backtrack` and `Loop` are the recursive function and its `for` loop,
    written as pure functions that return the candidates in the order the
    source pushes them. `RunBacktrack` is the imperative version, which
    threads the stock and the current solution through in- and
    out-parameters; it is proved to push exactly those candidates and to
    return the stock and the current solution as it found them. */
module Search {
  import opened PipeCounts
  import StableSort

  /** One recorded candidate, `{pipeCounts, totalLength, deviationValue}`,
      with the total and the deviation in scaled units. */
  datatype Solution = Solution(counts: seq<Pipe>, total: int, deviation: int)

  function DescendingLength(p: Pipe): int
  {
    -p.length
  }

  /** `pipes.sort((a, b) => b[0] - a[0])`: longest first, and pipes of
      equal length in inventory order. */
  function SortDescending(inventory: seq<Pipe>): (r: seq<Pipe>)
    ensures multiset(r) == multiset(inventory)
    ensures forall i, j :: 0 <= i < j < |r| ==> r[i].length >= r[j].length
    ensures forall v :: StableSort.WithKey(r, DescendingLength, v) == StableSort.WithKey(inventory, DescendingLength, v)
  {
    var r := StableSort.Sort(inventory, DescendingLength);
    assert forall i, j :: 0 <= i < j < |r| ==> DescendingLength(r[i]) <= DescendingLength(r[j]);
    r
  }

  /** Some pipe at index `from` or later has length `k`. */
  predicate Offers(pipes: seq<Pipe>, from: nat, k: int)
    decreases |pipes| - from
  {
    from < |pipes| && (pipes[from].length == k || Offers(pipes, from + 1, k))
  }

  /** A pipe's own length is offered from any index up to its own. */
  lemma {:induction false} OffersOwn(pipes: seq<Pipe>, from: nat, i: nat)
    requires from <= i < |pipes|
    ensures Offers(pipes, from, pipes[i].length)
    decreases i - from
  {
    if from < i {
      OffersOwn(pipes, from + 1, i);
    }
  }

  /** `pipes.forEach(([length, num]) => { remainingStock[length] = num; })`
      from index `i` on, starting from `stock`: a length that occurs twice
      keeps the count of its last occurrence. */
  function Assign(stock: Stock, pipes: seq<Pipe>, i: nat): (r: Stock)
    ensures forall k :: k in r <==> k in stock || Offers(pipes, i, k)
    ensures forall k :: !Offers(pipes, i, k) && k in stock ==> r[k] == stock[k]
    ensures forall n :: i <= n < |pipes| && !Offers(pipes, n + 1, pipes[n].length) ==> pipes[n].length in r && r[pipes[n].length] == pipes[n].count
    decreases |pipes| - i
  {
    if i >= |pipes| then stock
    else Assign(stock[pipes[i].length := pipes[i].count], pipes, i + 1)
  }

  /** The stock map the search starts from. */
  function InitialStock(pipes: seq<Pipe>): (r: Stock)
    ensures forall k :: k in r <==> Offers(pipes, 0, k)
    ensures forall n :: 0 <= n < |pipes| && !Offers(pipes, n + 1, pipes[n].length) ==> pipes[n].length in r && r[pipes[n].length] == pipes[n].count
  {
    Assign(map[], pipes, 0)
  }

  /** The count of the last entry of `s` with length `k`, or 0 when no
      entry has that length: the value `remainingStock[k]` ends up with. */
  function LastCount(s: seq<Pipe>, k: int): nat
  {
    if s == [] then 0
    else if Offers(s, 1, k) then LastCount(s[1..], k)
    else if s[0].length == k then s[0].count
    else 0
  }

  /** A length no entry has reads as 0. */
  lemma LastCountAbsent(s: seq<Pipe>, k: int)
    ensures !Offers(s, 0, k) ==> LastCount(s, k) == 0
  {
  }

  /** Looking from index `n` of a suffix is looking from `i + n` of the
      whole. */
  lemma {:induction false} OffersShift(pipes: seq<Pipe>, i: nat, n: nat, k: int)
    requires i <= |pipes|
    ensures Offers(pipes[i..], n, k) == Offers(pipes, i + n, k)
    decreases |pipes| - i - n
  {
    if i + n < |pipes| {
      OffersShift(pipes, i, n + 1, k);
    }
  }

  /** After the `forEach` from index `i` on, a length that occurs there
      holds the count of its last occurrence; any other length keeps its
      earlier stock. */
  lemma {:induction false} AssignLast(stock: Stock, pipes: seq<Pipe>, i: nat, k: int)
    requires i <= |pipes|
    ensures InStock(Assign(stock, pipes, i), k) == if Offers(pipes, i, k) then LastCount(pipes[i..], k) else InStock(stock, k)
    decreases |pipes| - i
  {
    if i < |pipes| {
      AssignLast(stock[pipes[i].length := pipes[i].count], pipes, i + 1, k);
      OffersShift(pipes, i, 1, k);
      assert pipes[i..][1..] == pipes[i + 1..];
    }
  }

  /** Keeping only the entries of length `k` does not change which of them
      is last. */
  lemma {:induction false} LastCountFilter(s: seq<Pipe>, k: int)
    ensures LastCount(StableSort.WithKey(s, DescendingLength, -k), k) == LastCount(s, k)
    ensures Offers(StableSort.WithKey(s, DescendingLength, -k), 0, k) == Offers(s, 0, k)
  {
    if s != [] {
      var w := StableSort.WithKey(s[1..], DescendingLength, -k);
      LastCountFilter(s[1..], k);
      OffersShift(s, 1, 0, k);
      if s[0].length == k {
        var v := [s[0]] + w;
        assert StableSort.WithKey(s, DescendingLength, -k) == v;
        assert v[1..] == w;
        OffersShift(v, 1, 0, k);
      } else {
        assert StableSort.WithKey(s, DescendingLength, -k) == [] + w;
        assert StableSort.WithKey(s, DescendingLength, -k) == w;
        assert Offers(s, 0, k) == Offers(s, 1, k);
        assert Offers(w, 0, k) == Offers(s, 0, k);
        LastCountAbsent(s[1..], k);
        assert LastCount(s, k) == LastCount(s[1..], k);
      }
    }
  }

  /** The stock the search starts from, in terms of the inventory as the
      user entered it: for each length, the count of the last entry with
      that length. Sorting is stable, so "last" is the same before and
      after the sort. */
  lemma InitialStockLast(inventory: seq<Pipe>, k: int)
    ensures InStock(InitialStock(SortDescending(inventory)), k) == LastCount(inventory, k)
  {
    var pipes := SortDescending(inventory);
    AssignLast(map[], pipes, 0, k);
    assert pipes[0..] == pipes;
    LastCountFilter(pipes, k);
    LastCountFilter(inventory, k);
  }

  /** The stock still available for each pipe entry's length, summed over
      the entries from `from` on. Every choice lowers it, which is why the
      search terminates. */
  function Budget(pipes: seq<Pipe>, stock: Stock, from: nat): nat
    decreases |pipes| - from
  {
    if from >= |pipes| then 0
    else InStock(stock, pipes[from].length) + Budget(pipes, stock, from + 1)
  }

  lemma {:induction false} BudgetShrinks(pipes: seq<Pipe>, stock: Stock, p: int, from: nat)
    requires InStock(stock, p) > 0
    ensures Budget(pipes, stock[p := stock[p] - 1], from) <= Budget(pipes, stock, from)
    ensures Offers(pipes, from, p) ==> Budget(pipes, stock[p := stock[p] - 1], from) < Budget(pipes, stock, from)
    decreases |pipes| - from
  {
    if from < |pipes| {
      BudgetShrinks(pipes, stock, p, from + 1);
    }
  }

  /** A candidate the search may record: positive, within the target, and
      with the deviation `total - target`. */
  predicate WithinTarget(target: int, s: Solution)
  {
    0 < s.total <= target && s.deviation == s.total - target
  }

  /** `backtrack(currentSolution, currentLength, startIndex)`: the
      candidates it pushes, in push order. */
  function Backtrack(target: int, pipes: seq<Pipe>, stock: Stock, current: Counts, length: int, start: nat): (r: seq<Solution>)
    decreases Budget(pipes, stock, 0), 1, 0, 0
  {
    if target - length < 0 then []
    else (if length > 0 then [Solution(current, length, length - target)] else []) + Loop(target, pipes, stock, current, length, start)
  }

  /** The `for (let i = startIndex; ...)` loop of `backtrack`, from `i` on. */
  function Loop(target: int, pipes: seq<Pipe>, stock: Stock, current: Counts, length: int, i: nat): (r: seq<Solution>)
    decreases Budget(pipes, stock, 0), 0, |pipes| - i, 1
  {
    if i >= |pipes| then []
    else Branch(target, pipes, stock, current, length, i) + Loop(target, pipes, stock, current, length, i + 1)
  }

  /** One pass of the loop body: if a piece of length `pipes[i]` is in
      stock and still fits, choose it and search on from the same index
      (so the same length may be chosen again); otherwise push nothing. */
  function Branch(target: int, pipes: seq<Pipe>, stock: Stock, current: Counts, length: int, i: nat): (r: seq<Solution>)
    requires i < |pipes|
    decreases Budget(pipes, stock, 0), 0, |pipes| - i, 0
  {
    var p := pipes[i].length;
    if InStock(stock, p) > 0 && length + p <= target then
      var chosen := Choose(Frame(stock, current), p);
      OffersOwn(pipes, 0, i);
      BudgetShrinks(pipes, stock, p, 0);
      Backtrack(target, pipes, chosen.stock, chosen.current, length + p, i)
    else []
  }

  /** Every candidate `backtrack` pushes has a positive total within the
      target, and its deviation is `total - target`, so it is never above
      the target. */
  lemma {:induction false} BacktrackWithin(target: int, pipes: seq<Pipe>, stock: Stock, current: Counts, length: int, start: nat)
    ensures forall s <- Backtrack(target, pipes, stock, current, length, start) :: WithinTarget(target, s)
    decreases Budget(pipes, stock, 0), 1, 0, 0
  {
    if target - length >= 0 {
      LoopWithin(target, pipes, stock, current, length, start);
    }
  }

  lemma {:induction false} LoopWithin(target: int, pipes: seq<Pipe>, stock: Stock, current: Counts, length: int, i: nat)
    ensures forall s <- Loop(target, pipes, stock, current, length, i) :: WithinTarget(target, s)
    decreases Budget(pipes, stock, 0), 0, |pipes| - i, 1
  {
    if i < |pipes| {
      var p := pipes[i].length;
      LoopWithin(target, pipes, stock, current, length, i + 1);
      if InStock(stock, p) > 0 && length + p <= target {
        OffersOwn(pipes, 0, i);
        BudgetShrinks(pipes, stock, p, 0);
        var g := Choose(Frame(stock, current), p);
        BacktrackWithin(target, pipes, g.stock, g.current, length + p, i);
      }
    }
  }

  /** Candidate `s` was reached from the state (`stock`, `current`,
      `length`) by adding pieces only: its count list is well formed, its
      total grew by exactly the weight
      of the added pieces, no length was added more often than the stock
      allowed, and every added length is offered at index `from` or
      later. */
  ghost predicate Extends(pipes: seq<Pipe>, stock: Stock, current: seq<Pipe>, length: int, from: nat, s: Solution)
  {
    && Canonical(s.counts)
    && s.total - Weight(s.counts) == length - Weight(current)
    && (forall k :: Get(current, k) <= Get(s.counts, k) <= Get(current, k) + InStock(stock, k))
    && (forall k :: Get(s.counts, k) > Get(current, k) ==> Offers(pipes, from, k))
  }

  /** What a candidate found below one choice of `pipes[i]`, of length
      `p`, says about the state (`stock`, `current`) before that choice. */
  lemma ExtendsStep(pipes: seq<Pipe>, i: nat, p: int, stock: Stock, current: seq<Pipe>, chosen: Frame, length: int, s: Solution)
    requires i < |pipes| && p == pipes[i].length
    requires InStock(chosen.stock, p) + 1 == InStock(stock, p)
    requires Get(chosen.current, p) == Get(current, p) + 1
    requires forall k :: k != p ==> InStock(chosen.stock, k) == InStock(stock, k) && Get(chosen.current, k) == Get(current, k)
    requires Weight(chosen.current) == Weight(current) + p
    requires Extends(pipes, chosen.stock, chosen.current, length + p, i, s)
    ensures Extends(pipes, stock, current, length, i, s)
    ensures Get(s.counts, p) > Get(current, p)
  {
    OffersOwn(pipes, i, i);
  }

  /** Every candidate `backtrack` pushes extends the state it was called
      in, using only lengths from `startIndex` on. */
  lemma {:induction false} BacktrackExtends(target: int, pipes: seq<Pipe>, stock: Stock, current: Counts, length: int, start: nat)
    ensures forall s <- Backtrack(target, pipes, stock, current, length, start) :: Extends(pipes, stock, current, length, start, s)
    decreases Budget(pipes, stock, 0), 1, 0, 0
  {
    if target - length >= 0 {
      LoopExtends(target, pipes, stock, current, length, start);
    }
  }

  /** Every candidate the loop pushes from index `i` on extends the state
      with at least one more piece, using only lengths from `i` on. */
  lemma {:induction false} LoopExtends(target: int, pipes: seq<Pipe>, stock: Stock, current: Counts, length: int, i: nat)
    ensures forall s <- Loop(target, pipes, stock, current, length, i) :: Extends(pipes, stock, current, length, i, s)
    ensures forall s <- Loop(target, pipes, stock, current, length, i) :: s.counts != current
    decreases Budget(pipes, stock, 0), 0, |pipes| - i, 1
  {
    if i < |pipes| {
      var p := pipes[i].length;
      var rest := Loop(target, pipes, stock, current, length, i + 1);
      LoopExtends(target, pipes, stock, current, length, i + 1);
      if InStock(stock, p) > 0 && length + p <= target {
        OffersOwn(pipes, 0, i);
        BudgetShrinks(pipes, stock, p, 0);
        var g := Choose(Frame(stock, current), p);
        var chosen := Backtrack(target, pipes, g.stock, g.current, length + p, i);
        BacktrackExtends(target, pipes, g.stock, g.current, length + p, i);
        forall s | s in chosen
          ensures Extends(pipes, stock, current, length, i, s) && s.counts != current
        {
          ExtendsStep(pipes, i, p, stock, current, g, length, s);
        }
        assert Loop(target, pipes, stock, current, length, i) == chosen + rest;
      } else {
        assert Loop(target, pipes, stock, current, length, i) == [] + rest;
      }
    }
  }

  /** With no negative pipe length, no offered length is negative. */
  lemma {:induction false} OffersNonNegative(pipes: seq<Pipe>, from: nat, k: int)
    requires forall j :: 0 <= j < |pipes| ==> pipes[j].length >= 0
    requires Offers(pipes, from, k)
    ensures k >= 0
    decreases |pipes| - from
  {
    if pipes[from].length != k {
      OffersNonNegative(pipes, from + 1, k);
    }
  }

  /** The first index at or after `from` whose length `m` uses more often
      than `current`, or `|pipes|` when there is none: the entry the
      search has to choose next on its way from `current` to `m`. */
  function FirstExcess(pipes: seq<Pipe>, current: seq<Pipe>, m: seq<Pipe>, from: nat): (n: nat)
    requires from <= |pipes|
    ensures from <= n <= |pipes|
    ensures n < |pipes| ==> Get(m, pipes[n].length) > Get(current, pipes[n].length)
    decreases |pipes| - from
  {
    if from == |pipes| then from
    else if Get(m, pipes[from].length) > Get(current, pipes[from].length) then from
    else FirstExcess(pipes, current, m, from + 1)
  }

  /** A length `m` still needs that is offered from `from` on is also
      offered from the first entry that `m` still needs. */
  lemma {:induction false} FirstExcessOffers(pipes: seq<Pipe>, current: seq<Pipe>, m: seq<Pipe>, from: nat, k: int)
    requires from <= |pipes|
    requires Get(m, k) > Get(current, k) && Offers(pipes, from, k)
    ensures FirstExcess(pipes, current, m, from) < |pipes|
    ensures Offers(pipes, FirstExcess(pipes, current, m, from), k)
    decreases |pipes| - from
  {
    if Get(m, pipes[from].length) <= Get(current, pipes[from].length) {
      FirstExcessOffers(pipes, current, m, from + 1, k);
    }
  }

  /** A count list that extends `current` by lengths offered from `from`
      on, and differs from it, still needs a piece of some entry `i` at or
      after `from`, and every length it still needs is offered from `i`
      on. */
  lemma NextNeeded(pipes: seq<Pipe>, current: Counts, m: Counts, from: nat) returns (i: nat)
    requires m != current
    requires forall k :: Get(current, k) <= Get(m, k)
    requires forall k :: Get(m, k) > Get(current, k) ==> Offers(pipes, from, k)
    ensures from <= i < |pipes| && Get(m, pipes[i].length) > Get(current, pipes[i].length)
    ensures forall k :: Get(m, k) > Get(current, k) ==> Offers(pipes, i, k)
  {
    if forall k :: Get(m, k) == Get(current, k) {
      CountsExt(m, current);
    }
    var k :| Get(m, k) > Get(current, k);
    FirstExcessOffers(pipes, current, m, from, k);
    i := FirstExcess(pipes, current, m, from);
    forall j | Get(m, j) > Get(current, j)
      ensures Offers(pipes, i, j)
    {
      FirstExcessOffers(pipes, current, m, from, j);
    }
  }

  /** A candidate of one pass of the loop is a candidate of the loop from
      any earlier index. */
  lemma {:induction false} LoopHas(target: int, pipes: seq<Pipe>, stock: Stock, current: Counts, length: int, start: nat, i: nat, s: Solution)
    requires start <= i < |pipes|
    requires s in Branch(target, pipes, stock, current, length, i)
    ensures s in Loop(target, pipes, stock, current, length, start)
    decreases i - start
  {
    var rest := Loop(target, pipes, stock, current, length, start + 1);
    if start < i {
      LoopHas(target, pipes, stock, current, length, start + 1, i, s);
    }
    assert Loop(target, pipes, stock, current, length, start) == Branch(target, pipes, stock, current, length, start) + rest;
  }

  /** The search is exhaustive: every count list `m` that adds pieces to
      `current`, no more of a length than the stock holds, only of lengths
      offered from `startIndex` on, and whose total is positive and within
      the target, is pushed as a candidate. */
  lemma {:induction false} BacktrackComplete(target: int, pipes: seq<Pipe>, stock: Stock, current: Counts, length: int, start: nat, m: Counts)
    requires forall j :: 0 <= j < |pipes| ==> pipes[j].length >= 0
    requires forall k :: Get(current, k) <= Get(m, k) <= Get(current, k) + InStock(stock, k)
    requires forall k :: Get(m, k) > Get(current, k) ==> Offers(pipes, start, k)
    requires 0 < length + Weight(m) - Weight(current) <= target
    ensures var total := length + Weight(m) - Weight(current);
      Solution(m, total, total - target) in Backtrack(target, pipes, stock, current, length, start)
    decreases Budget(pipes, stock, 0), 1
  {
    var total := length + Weight(m) - Weight(current);
    var x := Solution(m, total, total - target);
    forall k | Get(current, k) < Get(m, k)
      ensures k >= 0
    {
      OffersNonNegative(pipes, start, k);
    }
    WeightMono(current, m);
    var head := if length > 0 then [Solution(current, length, length - target)] else [];
    var loop := Loop(target, pipes, stock, current, length, start);
    assert Backtrack(target, pipes, stock, current, length, start) == head + loop;
    if m != current {
      var i := NextNeeded(pipes, current, m, start);
      BranchComplete(target, pipes, stock, current, length, i, m);
      LoopHas(target, pipes, stock, current, length, start, i, x);
    }
  }

  /** When `m` still needs a piece of length `pipes[i]`, and every length
      it still needs is offered from `i` on, choosing that piece leads to
      `m`. */
  lemma {:induction false} BranchComplete(target: int, pipes: seq<Pipe>, stock: Stock, current: Counts, length: int, i: nat, m: Counts)
    requires forall j :: 0 <= j < |pipes| ==> pipes[j].length >= 0
    requires i < |pipes| && Get(m, pipes[i].length) > Get(current, pipes[i].length)
    requires forall k :: Get(current, k) <= Get(m, k) <= Get(current, k) + InStock(stock, k)
    requires forall k :: Get(m, k) > Get(current, k) ==> Offers(pipes, i, k)
    requires 0 < length + Weight(m) - Weight(current) <= target
    ensures var total := length + Weight(m) - Weight(current);
      Solution(m, total, total - target) in Branch(target, pipes, stock, current, length, i)
    decreases Budget(pipes, stock, 0), 0
  {
    var p := pipes[i].length;
    var g := Choose(Frame(stock, current), p);
    forall j | Get(g.current, j) < Get(m, j)
      ensures j >= 0
    {
      OffersNonNegative(pipes, i, j);
    }
    WeightMono(g.current, m);
    OffersOwn(pipes, 0, i);
    BudgetShrinks(pipes, stock, p, 0);
    BacktrackComplete(target, pipes, g.stock, g.current, length + p, i, m);
  }

  /** From an empty solution, every candidate is determined by its count
      list: its total is the weight of the list and its deviation is
      `total - target`. */
  lemma BacktrackKeyed(target: int, pipes: seq<Pipe>, stock: Stock)
    ensures forall y <- Backtrack(target, pipes, stock, [], 0, 0) :: y == Solution(y.counts, Weight(y.counts), Weight(y.counts) - target)
  {
    var all := Backtrack(target, pipes, stock, [], 0, 0);
    BacktrackWithin(target, pipes, stock, [], 0, 0);
    BacktrackExtends(target, pipes, stock, [], 0, 0);
    forall y | y in all
      ensures y == Solution(y.counts, Weight(y.counts), Weight(y.counts) - target)
    {
      assert WithinTarget(target, y);
      assert Extends(pipes, stock, [], 0, 0, y);
    }
  }

  /** Sorting introduces no negative length. */
  lemma SortKeepsNonNegative(inventory: seq<Pipe>)
    requires forall j :: 0 <= j < |inventory| ==> inventory[j].length >= 0
    ensures forall j :: 0 <= j < |SortDescending(inventory)| ==> SortDescending(inventory)[j].length >= 0
  {
    var pipes := SortDescending(inventory);
    forall j | 0 <= j < |pipes|
      ensures pipes[j].length >= 0
    {
      assert pipes[j] in multiset(inventory);
    }
  }

  /** From the starting state, every cut that the inventory allows and
      that fits the desired length is pushed: a positive total of at most
      `target`, and no length used more often than the stock the `forEach`
      gives it (the count of the last inventory entry with that length). */
  lemma InitialComplete(target: int, inventory: seq<Pipe>, m: Counts)
    requires forall j :: 0 <= j < |inventory| ==> inventory[j].length >= 0
    requires forall k :: Get(m, k) <= LastCount(inventory, k)
    requires 0 < Weight(m) <= target
    ensures var pipes := SortDescending(inventory);
      Solution(m, Weight(m), Weight(m) - target) in Backtrack(target, pipes, InitialStock(pipes), [], 0, 0)
  {
    var pipes := SortDescending(inventory);
    var stock := InitialStock(pipes);
    SortKeepsNonNegative(inventory);
    forall k
      ensures Get([], k) <= Get(m, k) <= Get([], k) + InStock(stock, k)
      ensures Get(m, k) > Get([], k) ==> Offers(pipes, 0, k)
    {
      InitialStockLast(inventory, k);
    }
    BacktrackComplete(target, pipes, stock, [], 0, 0, m);
  }

  /** `backtrack` as the source writes it, with the stock and the current
      solution, which the source updates in place, threaded through in-
      and out-parameters, and candidates appended to `solutions`. */
  method RunBacktrack(target: int, pipes: seq<Pipe>, stock: Stock, current: Counts, length: int, start: nat, solutions: seq<Solution>)
    returns (stockAfter: Stock, currentAfter: Counts, solutionsAfter: seq<Solution>)
    ensures stockAfter == stock && currentAfter == current
    ensures solutionsAfter == solutions + Backtrack(target, pipes, stock, current, length, start)
    decreases Budget(pipes, stock, 0), 2
  {
    var deviation := target - length;
    if deviation < 0 {
      return stock, current, solutions;
    }
    var pushed := solutions;
    if length > 0 {
      pushed := pushed + [Solution(current, length, length - target)];
    }
    stockAfter, currentAfter, solutionsAfter := RunLoop(target, pipes, stock, current, length, start, pushed);
    ghost var head := if length > 0 then [Solution(current, length, length - target)] else [];
    ghost var loop := Loop(target, pipes, stock, current, length, start);
    assert Backtrack(target, pipes, stock, current, length, start) == head + loop;
    assert pushed + loop == solutions + (head + loop);
  }

  /** The `for` loop of `backtrack` from `startIndex` on, on the shared
      state: each pass leaves the stock and the current solution as it
      found them. */
  method RunLoop(target: int, pipes: seq<Pipe>, stock: Stock, current: Counts, length: int, start: nat, solutions: seq<Solution>)
    returns (stockAfter: Stock, currentAfter: Counts, solutionsAfter: seq<Solution>)
    ensures stockAfter == stock && currentAfter == current
    ensures solutionsAfter == solutions + Loop(target, pipes, stock, current, length, start)
    decreases Budget(pipes, stock, 0), 1
  {
    stockAfter, currentAfter, solutionsAfter := stock, current, solutions;
    var i := start;
    while i < |pipes|
      invariant stockAfter == stock && currentAfter == current
      invariant solutionsAfter + Loop(target, pipes, stock, current, length, i) == solutions + Loop(target, pipes, stock, current, length, start)
      decreases |pipes| - i
    {
      ghost var before := solutionsAfter;
      ghost var step := Branch(target, pipes, stock, current, length, i);
      ghost var rest := Loop(target, pipes, stock, current, length, i + 1);
      assert Loop(target, pipes, stock, current, length, i) == step + rest;
      stockAfter, currentAfter, solutionsAfter := RunBranch(target, pipes, stockAfter, currentAfter, length, i, solutionsAfter);
      assert solutionsAfter + rest == before + (step + rest);
      i := i + 1;
    }
    assert solutionsAfter + [] == solutionsAfter;
  }

  /** The loop body of `backtrack` on the shared state: choose the pipe,
      recurse, then undo the choice ("Backtrack"), so that the stock and
      the current solution are exactly restored. */
  method RunBranch(target: int, pipes: seq<Pipe>, stock: Stock, current: Counts, length: int, i: nat, solutions: seq<Solution>)
    returns (stockAfter: Stock, currentAfter: Counts, solutionsAfter: seq<Solution>)
    requires i < |pipes|
    ensures stockAfter == stock && currentAfter == current
    ensures solutionsAfter == solutions + Branch(target, pipes, stock, current, length, i)
    decreases Budget(pipes, stock, 0), 0
  {
    stockAfter, currentAfter, solutionsAfter := stock, current, solutions;
    var p := pipes[i].length;
    if InStock(stockAfter, p) > 0 && length + p <= target {
      // Choose the pipe
      stockAfter := stockAfter[p := stockAfter[p] - 1];
      currentAfter := AddOne(currentAfter, p);
      // Recurse
      OffersOwn(pipes, 0, i);
      BudgetShrinks(pipes, stock, p, 0);
      stockAfter, currentAfter, solutionsAfter := RunBacktrack(target, pipes, stockAfter, currentAfter, length + p, i, solutionsAfter);
      // Backtrack
      stockAfter := stockAfter[p := stockAfter[p] + 1];
      currentAfter := RemoveOne(currentAfter, p);
      ChooseUndoRestores(Frame(stock, current), p);
    } else {
      assert solutions + [] == solutions;
    }
  }

  /** Some entry has length `-v` exactly when filtering by key `v` keeps
      something. */
  lemma {:induction false} WithKeyHas(s: seq<Pipe>, i: nat)
    requires i < |s|
    ensures |StableSort.WithKey(s, DescendingLength, -s[i].length)| >= 1
  {
    if i > 0 {
      WithKeyHas(s[1..], i - 1);
    }
  }

  lemma {:induction false} WithKeyNone(s: seq<Pipe>, v: int)
    requires forall i :: 0 <= i < |s| ==> DescendingLength(s[i]) != v
    ensures StableSort.WithKey(s, DescendingLength, v) == []
  {
    if s != [] {
      WithKeyNone(s[1..], v);
    }
  }

  /** Two entries of the same length are both kept by the filter for that
      length. */
  lemma {:induction false} RepeatedLength(s: seq<Pipe>, i: nat, j: nat)
    requires i < j < |s| && s[i].length == s[j].length
    ensures |StableSort.WithKey(s, DescendingLength, -s[i].length)| >= 2
  {
    if i > 0 {
      RepeatedLength(s[1..], i - 1, j - 1);
    } else {
      WithKeyHas(s[1..], j - 1);
    }
  }

  /** With distinct lengths, the filter for any one length keeps at most
      one entry. */
  lemma {:induction false} SingleLength(s: seq<Pipe>, v: int)
    requires DistinctLengths(s)
    ensures |StableSort.WithKey(s, DescendingLength, v)| <= 1
  {
    if s != [] {
      var t := s[1..];
      assert DistinctLengths(t) by {
        assert forall i :: 0 <= i < |t| ==> t[i] == s[i + 1];
      }
      if DescendingLength(s[0]) == v {
        assert forall i :: 0 <= i < |t| ==> t[i] == s[i + 1];
        WithKeyNone(t, v);
      } else {
        SingleLength(t, v);
      }
    }
  }

  /** Sorting the inventory keeps its lengths distinct. */
  lemma SortKeepsDistinct(inventory: seq<Pipe>)
    requires DistinctLengths(inventory)
    ensures DistinctLengths(SortDescending(inventory))
  {
    var pipes := SortDescending(inventory);
    forall i, j | 0 <= i < j < |pipes|
      ensures pipes[i].length != pipes[j].length
    {
      if pipes[i].length == pipes[j].length {
        RepeatedLength(pipes, i, j);
        SingleLength(inventory, -pipes[i].length);
      }
    }
  }

  /** No two candidates have the same count list. */
  predicate DistinctCounts(r: seq<Solution>)
  {
    forall i, j :: 0 <= i < j < |r| ==> r[i].counts != r[j].counts
  }

  lemma {:induction false} NotOfferedLater(pipes: seq<Pipe>, i: nat, from: nat)
    requires DistinctLengths(pipes) && i < from
    requires i < |pipes|
    ensures !Offers(pipes, from, pipes[i].length)
    decreases |pipes| - from
  {
    if from < |pipes| {
      NotOfferedLater(pipes, i, from + 1);
    }
  }

  lemma DistinctAppend(a: seq<Solution>, b: seq<Solution>)
    requires DistinctCounts(a) && DistinctCounts(b)
    requires forall x, y :: x in a && y in b ==> x.counts != y.counts
    ensures DistinctCounts(a + b)
  {
    var r := a + b;
    forall i, j | 0 <= i < j < |r|
      ensures r[i].counts != r[j].counts
    {
      if j < |a| {
        assert r[i] == a[i] && r[j] == a[j];
      } else if i >= |a| {
        assert r[i] == b[i - |a|] && r[j] == b[j - |a|];
      } else {
        assert r[i] == a[i] && r[j] == b[j - |a|];
      }
    }
  }

  /** The start-index cursor yields combinations, not permutations: when no
      two pipes share a length, the search never records the same count
      list twice. */
  lemma {:induction false} NoRepeats(target: int, pipes: seq<Pipe>, stock: Stock, current: Counts, length: int, start: nat)
    requires DistinctLengths(pipes)
    ensures DistinctCounts(Backtrack(target, pipes, stock, current, length, start))
    decreases Budget(pipes, stock, 0), 1, 0, 0
  {
    if target - length >= 0 {
      var node: seq<Solution> := if length > 0 then [Solution(current, length, length - target)] else [];
      var rest := Loop(target, pipes, stock, current, length, start);
      NoRepeatsLoop(target, pipes, stock, current, length, start);
      LoopExtends(target, pipes, stock, current, length, start);
      DistinctAppend(node, rest);
    }
  }

  lemma {:induction false} NoRepeatsLoop(target: int, pipes: seq<Pipe>, stock: Stock, current: Counts, length: int, i: nat)
    requires DistinctLengths(pipes)
    ensures DistinctCounts(Loop(target, pipes, stock, current, length, i))
    decreases Budget(pipes, stock, 0), 0, |pipes| - i, 1
  {
    if i < |pipes| {
      var p := pipes[i].length;
      var rest := Loop(target, pipes, stock, current, length, i + 1);
      NoRepeatsLoop(target, pipes, stock, current, length, i + 1);
      if InStock(stock, p) > 0 && length + p <= target {
        BudgetShrinks(pipes, stock, p, 0);
        OffersOwn(pipes, 0, i);
        var g := Choose(Frame(stock, current), p);
        var chosen := Backtrack(target, pipes, g.stock, g.current, length + p, i);
        NoRepeats(target, pipes, g.stock, g.current, length + p, i);
        NotOfferedLater(pipes, i, i + 1);
        BacktrackExtends(target, pipes, g.stock, g.current, length + p, i);
        LoopExtends(target, pipes, stock, current, length, i + 1);
        forall x, y | x in chosen && y in rest
          ensures x.counts != y.counts
        {
          ExtendsStep(pipes, i, p, stock, current, g, length, x);
          assert Get(y.counts, p) == Get(current, p);
        }
        DistinctAppend(chosen, rest);
        assert Loop(target, pipes, stock, current, length, i) == chosen + rest;
      } else {
        assert Loop(target, pipes, stock, current, length, i) == [] + rest;
      }
    }
  }
}
