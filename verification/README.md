# Pipe cutting search, modelled in Dafny

This project models the search engine of a small pipe-cutting calculator.
The user gives a desired length and an inventory of pipe lengths, each with
a number of pieces in stock. The engine lists the combinations of pieces
whose total comes closest to the desired length. The source has two
versions of the engine:

- `findTopSolutions` in `js/main.js`. It scales every length to an
  integer and sorts the inventory longest first. It then fills a stock
  table keyed by length and runs a depth-first backtracking search that
  never goes past the desired length. Every non-empty combination it
  reaches is recorded. The candidates are sorted by absolute deviation.
  Candidates with the same piece counts are dropped, and the first `topN`
  are kept.
- `getSolutions` in `public/js/index.js`. This is a simpler search over
  the global entry list. It takes pieces by decrementing each entry's
  count and records the path of lengths used. It has no bound on the
  total. The records are sorted by absolute deviation and the first five
  are kept. The same file's `removePipe` removes one entry with
  `splice`.

Modules:

- `StableSort` (`stable_sort.dfy`): a stable insertion sort by an integer
  key. JavaScript's `Array.prototype.sort` is stable, and both engines
  rely on that to break ties.
- `PipeCounts` (`pipe_counts.dfy`):
  - pipe entries, the stock map and count lists;
  - "choose the pipe" and "backtrack" as one step and its undo.

  A count list is kept in ascending order of length with no zero entries.
  So two count lists are equal exactly when they hold the same pieces.
  This is how the model uses count lists as the deduplication key.
- `Search` (`search.dfy`):
  - the sort and the stock table;
  - `backtrack` as a pure function, and as a method that threads the
    stock and the current solution through in- and out-parameters, proved
    to push the same candidates;
  - what every candidate satisfies, and that every feasible cut is a
    candidate.
- `Ranking` (`ranking.dfy`): the sort by deviation, the deduplication
  loop, `findTopSolutions` itself, and the properties of its result.
- `Deviation` (`deviation.dfy`): the Over / Under / Exact Match label.
- `PipeList` (`pipe_list.dfy`): `getSolutions`, its search, and
  `removePipe` from `public/js/index.js`. The records of the search are
  characterised exactly: what every record satisfies, and that every
  combination of that kind is recorded.

Behaviours of the source that the model makes explicit:

- **main.js never reports "Over".** Every candidate has
  `0 < total <= target`, so the "Over" label is unreachable there.
- **index.js can report "Over".** Its search has no bound on the total.
  `PipeList.OverReachable` gives a one-entry inventory whose only
  solution overshoots.
- **The stock of a length is the count of its last inventory entry.**
  The `forEach` overwrites `remainingStock[length]` for each entry, and
  the sort is stable. So when two entries share a length, the stock is
  the count of the later one, not the sum of both. Both entries are
  visited by the search and share that one stock. This can push the same
  count list twice, which is why the deduplication is needed
  (`Ranking.RepeatedLengthRepeats`). When all lengths are distinct, no
  count list is pushed twice and the deduplication drops nothing
  (`Ranking.CandidatesDistinct`).
- **At least one solution is kept even when `topN <= 0`.** The
  deduplication loop pushes a candidate before it tests
  `uniqueSolutions.length >= topN`. The number kept is therefore
  `min(max(topN, 1), number of distinct candidates)`. The only caller
  passes 10.

## Model

| member | source | states |
|---|---|---|
| Deviation.Classify | js/main.js:188-197 | The label is "Over" exactly when the deviation is positive, "Under" exactly when it is negative, and "Exact Match" exactly when it is zero. |
| PipeCounts.AddOne | js/main.js:256 | One more piece of length `k` is counted and no other length changes. The total length of the pieces grows by `k`. The list stays canonical, with ascending lengths and no zero count. |
| PipeCounts.RemoveOne | js/main.js:263-266 | One fewer piece of length `k` is counted and no other length changes. The total length shrinks by `k`. A count that reaches 0 leaves no entry behind. |
| PipeCounts.CountsExt | js/main.js:282 | Two count lists that agree on every length are equal. Comparing the lists is therefore comparing the piece multisets that the string key encodes. |
| PipeCounts.Choose | js/main.js:255-256 | Choosing a piece of length `p` takes one piece from its stock and adds one to its count in the current solution. Every other length keeps its stock and its count, the stock table keeps the same keys, and the total length of the current solution grows by `p`. |
| PipeCounts.Undo | js/main.js:262-266 | Undoing a choice of length `p` puts one piece back in its stock and takes one from its count in the current solution. Every other length keeps its stock and its count, and the stock table keeps the same keys. |
| PipeCounts.ChooseUndoRestores | js/main.js:253-266 | Choosing a piece and then undoing the choice gives back exactly the stock and the current solution from before the choice. This includes deleting a key whose count returned to 0. |
| Search.SortDescending | js/main.js:219 | The sorted inventory is a permutation of the input and is ordered longest first. Entries of equal length keep their input order. |
| Search.Assign | js/main.js:222-225 | After the `forEach`, the table's keys are exactly the lengths that occur. Each length holds the count of its last occurrence. |
| Search.InitialStockLast | js/main.js:216-225 | For every length, the starting stock equals the count of the last entry of that length in the inventory as entered. It is 0 when no entry has that length. |
| Search.BacktrackWithin | js/main.js:230-247 | Every candidate `backtrack` pushes has a total greater than 0 and at most the target. Its deviation is `total - target`, which is never positive. |
| Search.BacktrackExtends | js/main.js:230-269 | Every candidate extends the state `backtrack` was called in. Its count list is canonical, and its total grew by exactly the length of the added pieces. No length is used more often than the remaining stock allows. Only lengths at or after `startIndex` are added. |
| Search.LoopExtends | js/main.js:250-268 | Every candidate pushed from the loop at index `i` on extends the state with at least one piece, using lengths offered at `i` or later. |
| Search.BacktrackComplete | js/main.js:230-269 | The search is exhaustive. Take any count list that adds pieces to the current solution, using no more of a length than its remaining stock and only lengths offered from `startIndex` on, with a positive total of at most the target. It is pushed as a candidate, with that total and deviation `total - target`. No scaled length may be negative; the form rejects lengths that are not positive, and a tiny one that rounds to 0 is covered. |
| Search.InitialComplete | js/main.js:216-269 | From the starting call, every count list with a positive total of at most the target is pushed, as long as it uses no length more often than the count of the last inventory entry with that length. |
| Search.RunBacktrack | js/main.js:230-269 | The imperative search appends exactly the candidates of `Search.Backtrack`, in push order. It leaves the stock and the current solution as it found them. |
| Search.RunLoop | js/main.js:250-268 | The `for` loop appends exactly the loop's candidates and leaves the shared state unchanged. |
| Search.RunBranch | js/main.js:253-266 | One loop pass (choose, recurse, undo) appends exactly that branch's candidates and restores the stock and the current solution. |
| Search.SortKeepsDistinct | js/main.js:219 | If no two inventory entries share a length, the same holds after the sort. |
| Search.NoRepeats | js/main.js:250-259 | The start-index cursor yields combinations, not permutations. When no two entries share a length, no count list is pushed twice. |
| Ranking.RankByDeviation | js/main.js:275 | The sorted candidates are a permutation of the pushed ones, ordered by absolute deviation. Ties keep push order. |
| Ranking.FirstOccurrencesKeys | js/main.js:278-286 | Without the `topN` bound, the loop keeps each distinct key exactly once. |
| Ranking.FirstOccurrencesFirsts | js/main.js:281-286 | Each kept solution is the first candidate with its key. The kept solutions appear in the order of those first occurrences. |
| Ranking.FirstOccurrencesPrefix | js/main.js:281-290 | Deduplicating a prefix of the candidates gives a prefix of the deduplicated whole, which is what stopping early returns. |
| Ranking.BreakKeepsLimit | js/main.js:287-289 | When the loop breaks, it has kept exactly the first `max(topN, 1)` distinct candidates. |
| Ranking.TakeUnique | js/main.js:278-292 | The loop with its `seen` set and `break` returns the first `min(max(topN, 1), #distinct)` first occurrences. |
| Ranking.FindTopSolutions | js/main.js:211-293 | The whole procedure returns the first `max(topN, 1)` distinct candidates, in the order of the stable sort by absolute deviation. This holds for the inventory sorted longest first with the stock table from the `forEach`. |
| Ranking.CandidatesComplete | js/main.js:211-269 | For an inventory with no negative scaled length, every feasible cut is among the candidates. A feasible cut has a positive total of at most the target and uses no length more often than the count of its last inventory entry. |
| Ranking.TopSolutionsBest | js/main.js:211-293 | `findTopSolutions` returns the best cuts. A feasible cut is either returned, or the result fills all `max(topN, 1)` places with solutions none of which is further from the desired length than it. |
| Ranking.TopSolutionsSound | js/main.js:230-269 | Each returned solution has `0 < total <= target` and is never labelled "Over". Its count list is canonical and adds up to its total. No length is used more often than the count of the last inventory entry with that length. |
| Ranking.TopSolutionsShape | js/main.js:275-292 | The result has `min(max(topN, 1), #distinct candidates)` solutions and is ordered by absolute deviation. No two solutions share a count list. Each is the first candidate with its key in the sorted list, in order. |
| Ranking.CandidatesDistinct | js/main.js:250-259 | With distinct inventory lengths, the pushed candidates have pairwise different count lists, so the deduplication, without the `topN` bound, keeps them all. |
| Ranking.DistinctKept | js/main.js:283-286 | A candidate list with no repeated key passes the deduplication unchanged. |
| Ranking.RepeatedLengthRepeats | js/main.js:222-259 | With two entries of length 5, one piece each, and a target of 5, both entries are visited and the search pushes the one-piece count list twice. `findTopSolutions(..., 10)` returns it once. |
| Ranking.RepeatedLengthStock | js/main.js:219-225 | With entries (5, 2 pieces) and (5, 1 piece), the sort keeps their order and the stock of length 5 is 1, not 3. |
| PipeList.Draw | public/js/index.js:66-68 | `pipe.count--` lowers exactly that entry's count by one and leaves the others alone. The pieces left in total drop by one. |
| PipeList.BacktrackGrows | public/js/index.js:59-75 | Every recorded path has a positive total equal to the call's length plus the lengths appended. Its deviation is `total - desired`. It starts with the call's path. No length is appended more often than the entries from `index` on have pieces of it. |
| PipeList.BacktrackInOrder | public/js/index.js:65-70 | Every appended length can be traced to an entry at `index` or later that has that length. The traced entry indices never decrease, so a path is a combination drawn in entry order. No entry is traced more often than its count. This holds even when two entries share a length. |
| PipeList.BacktrackComplete | public/js/index.js:59-75 | The search is exhaustive. Take a record whose appended lengths trace entries from `index` on, in entry order and within each entry's count, and whose total is positive and grew by exactly those lengths. That record is pushed. |
| PipeList.RecordsExact | public/js/index.js:56-75 | A record is pushed by `getSolutions`'s search exactly when it is a non-empty combination of this kind. Its total is positive and equals the sum of its path, its deviation is `total - desired`, and its path traces entries in entry order within their counts. |
| PipeList.RunBacktrack | public/js/index.js:59-75 | The imperative search appends exactly the records of `PipeList.Backtrack`. It leaves the entries and the path as it found them. |
| PipeList.RunLoop | public/js/index.js:65-74 | The loop appends exactly the loop's records and leaves the entries and the path unchanged. |
| PipeList.RunBranch | public/js/index.js:66-73 | Decrement, push, recurse, increment and pop restore the entry's count and the path. One pass appends exactly that branch's records. |
| PipeList.RunGetSolutions | public/js/index.js:56-81 | `getSolutions` leaves the entries unchanged and returns the first five records of the stable sort by absolute deviation. |
| PipeList.GetSolutionsSound | public/js/index.js:59-63 | Every solution shown has a positive total equal to the sum of its path. Its deviation is `total - desired`, of either sign. It uses no length more often than the entries have pieces of it. Its pieces trace entries in entry order, none more often than its count. |
| PipeList.GetSolutionsBest | public/js/index.js:78-80 | The result has `min(5, #records)` records, drawn from the recorded ones and ordered by absolute deviation. No record left out has a smaller absolute deviation than any record kept. |
| PipeList.RemovePipe | public/js/index.js:40-43 | An index inside the list removes exactly that entry. A negative index down to `-length` counts from the end, and a lower one removes the first entry of a non-empty list. An index at or past the end removes nothing, and neither does any index on an empty list. In each case the other entries keep their order: putting the removed entry back at its place restores the list. |
| PipeList.OverReachable | public/js/index.js:94-96 | For one entry of one piece of length 3 and a desired length of 2, `getSolutions` returns the single path `[3]` with deviation 1. That deviation is labelled as over. |

## Left out

- Scaling and rendering. `Math.round(x * SCALE)`, the division by
  `SCALE` when a candidate is recorded, and `toFixed` are not modelled.
  Lengths, the target and deviations are the already-scaled integers,
  and comparisons of `deviationValue / SCALE` are taken as comparisons of
  the integer deviations. The division by a positive constant keeps their
  order, apart from floating-point rounding, which is not modelled.
- `getSolutions` works on unscaled JavaScript numbers. The model takes
  exact integers, so floating-point sums and their rounding are not
  modelled.
- The DOM, the forms, `alert`, `setTimeout`, the history in
  `localStorage`, analytics and the input validation in `addPipe` and
  the form handlers are user-interface glue.
- Input validation. The form handlers parse a count with `parseInt`,
  which truncates: "2.5" becomes 2 and "3abc" becomes 3. They reject a
  result that is NaN or not positive before either engine runs
  (`numPipes <= 0` in `js/main.js`, `!count || count <= 0` in `addPipe`).
  So the counts that reach the engines are positive integers. The model
  takes any natural number, which is wider than needed. A count may reach
  0 during the search.
- The deduplication key is the string built from `Object.entries(...)`.
  It is modelled by the canonical count list it is built from. That the
  string rendering is one-to-one is not proved, because string formatting
  of numbers is outside the model.
- `Search.Backtrack`, `Search.Loop`, `Search.Branch` and the `PipeList`
  functions of the same names only compute. Their properties are the
  lemmas and methods listed above.
- `PipeList.RemovePipe` takes an integer index. The conversion of a
  non-integer argument by `splice` is not modelled.
- `getSolutions` and `removePipe` act on the global `pipes` array. The
  model passes the entries in and, for the search, returns them.
