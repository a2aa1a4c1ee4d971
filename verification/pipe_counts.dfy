/** Pipes, stock maps, count lists, and the choose/undo step of the search.

    The engine keeps two keyed tables while it searches: the remaining
    stock per (scaled, integer) pipe length, and the pieces chosen so far
    (`currentSolution`, recorded as `pipeCounts`). The stock is a plain
    map. The chosen pieces are kept as their entry list in ascending order
    of length with no zero entries, so that equal contents are equal
    values. The deduplication key sorts the entries before it renders
    them, so the key, too, depends only on the contents. */
module PipeCounts {

  /** A pipe length, already scaled to an integer, with a number of pieces:
      one inventory entry, or one entry of a count list. */
  datatype Pipe = Pipe(length: int, count: nat)

  /** Remaining pieces per length. */
  type Stock = map<int, nat>

  /** The stock of length `k`; a length that was never stored reads as 0,
      which is why `remainingStock[k] > 0` is false for it. */
  function InStock(stock: Stock, k: int): nat
  {
    if k in stock then stock[k] else 0
  }

  /** Lengths strictly ascending and every count positive. */
  predicate Canonical(c: seq<Pipe>)
  {
    && (forall i :: 0 <= i < |c| ==> c[i].count > 0)
    && (forall i, j :: 0 <= i < j < |c| ==> c[i].length < c[j].length)
  }

  /** The pieces of one (partial) solution: length -> count, with no zero
      entries. */
  type Counts = c: seq<Pipe> | Canonical(c) witness []

  /** No two inventory entries share a length. */
  predicate DistinctLengths(pipes: seq<Pipe>)
  {
    forall i, j :: 0 <= i < j < |pipes| ==> pipes[i].length != pipes[j].length
  }

  /** How many pieces of length `k` the solution uses:
      `(currentSolution[k] || 0)`. */
  function Get(c: seq<Pipe>, k: int): nat
  {
    if c == [] then 0
    else if c[0].length == k then c[0].count
    else Get(c[1..], k)
  }

  /** A length below the first entry is not used at all. */
  lemma {:induction false} GetBelow(c: Counts, k: int)
    requires c == [] || k < c[0].length
    ensures Get(c, k) == 0
  {
    if c != [] {
      GetBelow(c[1..], k);
    }
  }

  /** `n` pieces of length `l` laid end to end: `l * n`, written as
      repeated addition so that sums of lengths stay linear. */
  function Times(l: int, n: nat): int
  {
    if n == 0 then 0 else l + Times(l, n - 1)
  }

  lemma {:induction false} TimesIsProduct(l: int, n: nat)
    ensures Times(l, n) == l * n
  {
    if n > 0 {
      TimesIsProduct(l, n - 1);
    }
  }

  /** Σ length × count: the total length the pieces add up to. */
  function Weight(c: seq<Pipe>): int
  {
    if c == [] then 0 else Times(c[0].length, c[0].count) + Weight(c[1..])
  }

  /** More pieces of a non-negative length never weigh less. */
  lemma TimesMono(l: int, n: nat, n2: nat)
    requires l >= 0 && n <= n2
    ensures Times(l, n) <= Times(l, n2)
  {
    TimesIsProduct(l, n);
    TimesIsProduct(l, n2);
    assert l * n2 == l * n + l * (n2 - n);
  }

  /** A positive entry in front of a count list whose lengths are all
      larger keeps it canonical. */
  lemma CanonicalCons(x: Pipe, t: Counts)
    requires x.count > 0 && (t == [] || x.length < t[0].length)
    ensures Canonical([x] + t)
  {
    var r := [x] + t;
    forall i, j | 0 <= i < j < |r|
      ensures r[i].length < r[j].length
    {
      if i > 0 {
        assert r[i] == t[i - 1] && r[j] == t[j - 1];
      } else if j > 1 {
        assert r[j] == t[j - 1];
        assert t[0].length < t[j - 1].length;
      }
    }
  }

  /** `currentSolution[k] = (currentSolution[k] || 0) + 1`. */
  function AddOne(c: Counts, k: int): (r: Counts)
    ensures Get(r, k) == Get(c, k) + 1
    ensures forall j :: j != k ==> Get(r, j) == Get(c, j)
    ensures Weight(r) == Weight(c) + k
    ensures r != [] && r[0].length == (if c == [] || k < c[0].length then k else c[0].length)
  {
    if c == [] then
      assert Times(k, 1) == k;
      [Pipe(k, 1)]
    else if k < c[0].length then
      GetBelow(c, k);
      assert Times(k, 1) == k;
      CanonicalCons(Pipe(k, 1), c);
      var r := [Pipe(k, 1)] + c;
      assert r[1..] == c;
      r
    else if k == c[0].length then
      var rest: Counts := c[1..];
      CanonicalCons(Pipe(k, c[0].count + 1), rest);
      var r := [Pipe(k, c[0].count + 1)] + rest;
      assert r[1..] == rest;
      r
    else
      var t := AddOne(c[1..], k);
      assert c[0].length < t[0].length;
      CanonicalCons(c[0], t);
      var r := [c[0]] + t;
      assert r[1..] == t;
      r
  }

  /** `currentSolution[k] -= 1`, followed by `delete currentSolution[k]`
      when the count reaches 0, so no zero entry is ever kept. */
  function RemoveOne(c: Counts, k: int): (r: Counts)
    requires Get(c, k) > 0
    ensures Get(r, k) == Get(c, k) - 1
    ensures forall j :: j != k ==> Get(r, j) == Get(c, j)
    ensures Weight(r) == Weight(c) - k
    ensures r == [] || (c != [] && c[0].length <= r[0].length)
  {
    if c[0].length == k then
      if c[0].count - 1 == 0 then
        GetBelow(c[1..], k);
        assert Times(k, 1) == k;
        c[1..]
      else
        var rest: Counts := c[1..];
        CanonicalCons(Pipe(k, c[0].count - 1), rest);
        var r := [Pipe(k, c[0].count - 1)] + rest;
        assert r[1..] == rest;
        r
    else
      var t := RemoveOne(c[1..], k);
      assert t == [] || c[0].length < t[0].length;
      CanonicalCons(c[0], t);
      var r := [c[0]] + t;
      assert r[1..] == t;
      r
  }

  /** A length with a positive count is at or after the first entry. */
  lemma {:induction false} GetPositive(c: Counts, k: int)
    ensures Get(c, k) > 0 ==> c != [] && c[0].length <= k
  {
    if c != [] && c[0].length != k {
      GetPositive(c[1..], k);
    }
  }

  /** Two count lists that agree on every length are the same list. */
  lemma {:induction false} CountsExt(a: Counts, b: Counts)
    requires forall k :: Get(a, k) == Get(b, k)
    ensures a == b
  {
    if a != [] {
      GetPositive(b, a[0].length);
    }
    if b != [] {
      GetPositive(a, b[0].length);
    }
    if a != [] && b != [] {
      forall k
        ensures Get(a[1..], k) == Get(b[1..], k)
      {
        if k == a[0].length {
          GetBelow(a[1..], k);
          GetBelow(b[1..], k);
        } else {
          assert Get(a, k) == Get(b, k);
        }
      }
      CountsExt(a[1..], b[1..]);
      assert a == [a[0]] + a[1..];
      assert b == [b[0]] + b[1..];
    }
  }

  /** A count list that uses every length at least as often as another
      weighs at least as much, as long as the extra pieces have
      non-negative lengths. */
  lemma {:induction false} WeightMono(a: Counts, b: Counts)
    requires forall k :: Get(a, k) <= Get(b, k)
    requires forall k :: Get(a, k) < Get(b, k) ==> k >= 0
    ensures Weight(a) <= Weight(b)
    decreases |a| + |b|
  {
    if a == [] {
      if b != [] {
        var l := b[0].length;
        var rest: Counts := b[1..];
        assert Get(b, l) > 0;
        forall k | Get(a, k) < Get(rest, k)
          ensures k >= 0
        {
          GetPositive(rest, k);
        }
        WeightMono(a, rest);
        TimesMono(l, 0, b[0].count);
      }
    } else {
      var l := a[0].length;
      assert Get(a, l) > 0;
      GetPositive(b, l);
      var rest: Counts := b[1..];
      GetBelow(rest, b[0].length);
      if b[0].length < l {
        GetBelow(a, b[0].length);
        forall k
          ensures Get(a, k) <= Get(rest, k)
          ensures Get(a, k) < Get(rest, k) ==> k >= 0
        {
          if k != b[0].length {
            assert Get(rest, k) == Get(b, k);
          }
        }
        WeightMono(a, rest);
        TimesMono(b[0].length, 0, b[0].count);
      } else {
        var init: Counts := a[1..];
        GetBelow(init, l);
        forall k
          ensures Get(init, k) <= Get(rest, k)
          ensures Get(init, k) < Get(rest, k) ==> k >= 0
        {
          if k != l {
            assert Get(init, k) == Get(a, k) && Get(rest, k) == Get(b, k);
          }
        }
        WeightMono(init, rest);
        if a[0].count < b[0].count {
          TimesMono(l, a[0].count, b[0].count);
        }
      }
    }
  }

  /** The state one search updates in place in the source: remaining
      stock per length and the pieces chosen so far. */
  datatype Frame = Frame(stock: Stock, current: Counts)

  /** "Choose the pipe": one piece of length `p` leaves the stock and joins
      the current solution. */
  function Choose(f: Frame, p: int): (g: Frame)
    requires InStock(f.stock, p) > 0
    ensures InStock(g.stock, p) + 1 == InStock(f.stock, p)
    ensures Get(g.current, p) == Get(f.current, p) + 1
    ensures forall k :: k != p ==> InStock(g.stock, k) == InStock(f.stock, k) && Get(g.current, k) == Get(f.current, k)
    ensures g.stock.Keys == f.stock.Keys
    ensures Weight(g.current) == Weight(f.current) + p
  {
    Frame(f.stock[p := f.stock[p] - 1], AddOne(f.current, p))
  }

  /** "Backtrack": the piece goes back to the stock and leaves the current
      solution. */
  function Undo(f: Frame, p: int): (g: Frame)
    requires p in f.stock && Get(f.current, p) > 0
    ensures InStock(g.stock, p) == InStock(f.stock, p) + 1
    ensures Get(g.current, p) + 1 == Get(f.current, p)
    ensures forall k :: k != p ==> InStock(g.stock, k) == InStock(f.stock, k) && Get(g.current, k) == Get(f.current, k)
    ensures g.stock.Keys == f.stock.Keys
  {
    Frame(f.stock[p := f.stock[p] + 1], RemoveOne(f.current, p))
  }

  /** The choose/undo pair around a recursive call leaves the stock and the
      current solution exactly as they were before the choice, including
      the absence of a key whose count went back to 0. */
  lemma {:induction false} ChooseUndoRestores(f: Frame, p: int)
    requires InStock(f.stock, p) > 0
    ensures Undo(Choose(f, p), p) == f
  {
    var g := Undo(Choose(f, p), p);
    assert g.stock == f.stock;
    CountsExt(g.current, f.current);
  }
}
