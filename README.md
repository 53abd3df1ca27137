# Instrumented binary search

This project models the binary search of `src/lib/algorithms/binary-search.py`.
`BinarySearchAlgorithm.execute`:

1. resets the object's step log and comparison counter;
2. checks that the input is sorted and raises a `ValueError` naming the first
   out-of-order pair if it is not;
3. runs the classic `while left <= right` halving loop.

When tracing is on, every decision of the loop is recorded as a numbered step
for a visualisation front end:

- an `init` step;
- per iteration, a range highlight, a pointer highlight, a `compare` step,
  and then a `found` or `eliminate` step;
- a closing `eliminate` step, for an exhausted search or an empty array.

The two module-level functions `binary_search` and `binary_search_with_steps`
run a fresh search with tracing off and on. `generate_test_cases` lists ten
example inputs with their expected answers.

The model is in five modules:

- `StepRecorder` (`trace.dfy`) covers the step records:
  - one `Event` variant per kind of record, carrying that step's metadata;
    the two half-eliminations share `Eliminate`, told apart by its
    `eliminated` half;
  - the step's `indices`;
  - the 1-based `operationCount` stamped by `_add_step`;
  - the helpers `_generate_range_indices` and `_get_comparison_result`.
- `SearchSpec` (`search_spec.dfy`) holds the reference definitions:
  - `Sorted`, checked the way the validator checks it;
  - `Search`: the loop's decisions as a recursive function over `(left, right)`,
    moving through `Narrow`;
  - `Trace` together with `Resolve`: the log the loop leaves, one step for each
    `_add_step` call;
  - `Outcome`: what `execute` returns;
  - `WellFormedTrace`: the shape a complete log has.
- `SearchProperties` (`search_properties.dfy`) proves what the search
  promises about those definitions:
  - it is correct in both directions on sorted data;
  - it makes a logarithmic number of comparisons;
  - its log is well formed.
- `BinarySearch` (`binary_search.dfy`) has:
  - the class `BinarySearchAlgorithm`, with fields `steps` and `comparisons`
    and methods `AddStep`, `ValidateInput`, `BinarySearchCore` and `Execute`;
    `ValidateInput` and `BinarySearchCore` hold the source's loops;
  - the two convenience functions, which carry the correctness, bound and
    trace facts to their callers.
- `Fixtures` (`fixtures.dfy`) holds the test cases and what the search does
  on them.

`_binary_search_core` is proved against `Search` and `Trace`, starting from
whatever counter and log the object holds. Its loop appends to a local copy of
the log and bumps a local counter, and stores both back into the object when it
returns. Nothing can observe the object in between, so the behaviour is the
same. `Execute` is proved against `Outcome`.

`_validate_input` reports the index `i` of the first element smaller than its
predecessor, together with `i - 1`. So for `[3, 1, 2]` it cites indices 1 and 0
(values 1 and 3), as `Fixtures.UnsortedReport` shows.

## Model

| member | source | states |
|---|---|---|
| StepRecorder.RangeIndices | src/lib/algorithms/binary-search.py:237-239 | the list for `start..end` has `end - start + 1` entries (none when `start > end`), and entry `k` is `start + k` |
| StepRecorder.ComparisonResult | src/lib/algorithms/binary-search.py:241-248 | the result is `equal`, `less` or `greater` exactly when the target is equal to, below or above the middle value |
| StepRecorder.AppendKeepsNumbering | src/lib/algorithms/binary-search.py:259-262 | appending a step adds exactly one entry at the end, carrying the given indices and payload, keeps every earlier step, and keeps the log numbered 1, 2, 3, ... |
| SearchProperties.SearchFoundIsMatch | src/lib/algorithms/binary-search.py:106-176 | whatever the data, a found result points inside the range searched at an element equal to the target; otherwise the index is -1 |
| SearchProperties.SearchNotFoundIsAbsent | src/lib/algorithms/binary-search.py:178-235 | on sorted data where everything left of `left` is below the target and everything right of `right` is above it (the loop's invariant), a not-found result means the target occurs nowhere |
| SearchProperties.SearchComparisons | src/lib/algorithms/binary-search.py:106-218 | the counter is bumped once per iteration; a non-empty range of `n` elements costs at least one comparison and at most `k` with `2^(k-1) <= n`, because each elimination keeps at most half the range |
| SearchProperties.TraceShape | src/lib/algorithms/binary-search.py:109-233 | from a log of finished iterations, the loop's log is well formed: four steps per comparison, numbered consecutively, with mids and counts agreeing, each range highlight covering `RangeIndices` of its range and each elimination `RangeIndices` of the half it discards, a single `found` step exactly at the last comparison when found, and an exhausted step carrying the final count otherwise |
| SearchProperties.OutcomeFoundIsMatch | src/lib/algorithms/binary-search.py:78-96 | on any data, `found` implies an in-range index holding the target, and not found implies index -1 |
| SearchProperties.TracingInvisible | src/lib/algorithms/binary-search.py:109-176 | tracing only records steps: with `track_steps` on or off, `execute` returns the same found flag, index and comparison count |
| SearchProperties.OutcomeCorrect | src/lib/algorithms/binary-search.py:78-96 | on sorted data, `found` holds exactly when the target occurs, with an index holding it, and -1 otherwise |
| SearchProperties.OutcomeComparisons | src/lib/algorithms/binary-search.py:297-306 | the O(log n) claim: no comparison on an empty array; otherwise between 1 and ceil(log2(n + 1)); also `2^(c-1) <= n` |
| SearchProperties.OutcomeTrace | src/lib/algorithms/binary-search.py:64-86 | with tracing off the log is empty; with it on the log is a well-formed trace that ends with the empty-array step for empty input and with the exhausted step after a non-empty miss |
| BinarySearch.BinarySearchAlgorithm.constructor | src/lib/algorithms/binary-search.py:37-39 | a new object has an empty log and a zero counter |
| BinarySearch.BinarySearchAlgorithm.AddStep | src/lib/algorithms/binary-search.py:259-262 | the log becomes the old log plus one step stamped with its 1-based position; the counter is unchanged |
| BinarySearch.BinarySearchAlgorithm.ValidateInput | src/lib/algorithms/binary-search.py:277-280 | passes exactly when the data is sorted; otherwise reports the first descent `i` with `i - 1` and both values |
| BinarySearch.BinarySearchAlgorithm.BinarySearchCore | src/lib/algorithms/binary-search.py:98-235 | the answer and new counter are `Search` from the counter it starts with; the new log is `Trace` of the old log when tracing, and unchanged otherwise |
| BinarySearch.BinarySearchAlgorithm.Execute | src/lib/algorithms/binary-search.py:40-96 | succeeds exactly on sorted data, returning `Outcome`, with the object holding the returned log and counter; on unsorted data it reports the first descent and leaves an empty log and zero counter |
| BinarySearch.BinarySearchIndex | src/lib/algorithms/binary-search.py:332-345 | raises exactly on unsorted data; otherwise returns the same index as a traced search, which is -1 exactly when the target is absent and otherwise holds the target |
| BinarySearch.BinarySearchWithSteps | src/lib/algorithms/binary-search.py:348-360 | raises exactly on unsorted data; otherwise returns `Outcome`, correct in both directions, with at most ceil(log2(n + 1)) comparisons and a well-formed trace |
| Fixtures.GenerateTestCases | src/lib/algorithms/binary-search.py:308-329 | ten test cases, every input sorted |
| Fixtures.TestCasesConsistent | src/lib/algorithms/binary-search.py:313-328 | each expectation agrees with its input: found exactly when the target occurs, at an index holding it, -1 when absent |
| Fixtures.TestCasesPass | src/lib/algorithms/binary-search.py:313-328 | with or without tracing, the search agrees with every expectation on `found` and returns an index holding the target |
| Fixtures.ExpectedIndices | src/lib/algorithms/binary-search.py:313-328 | the listed index is returned exactly for the first nine cases; for `[1, 2, 2, 2, 5]` the search returns index 2, not the index 1 listed (the fixture admits any occurrence) |
| Fixtures.FirstProbeTrace | src/lib/algorithms/binary-search.py:313 | on `[1, 3, 5, 7, 9]` with target 5 the traced search finds index 2 after one comparison, with a five-step log ending in `found` |
| Fixtures.UnsortedReport | src/lib/algorithms/binary-search.py:278-280 | on `[3, 1, 2]` the only report is the descent at index 1 against index 0, values 1 and 3 |

## Left out

- Type and finiteness checks in `_validate_input` (lines 271-275 and 282-294), and `_is_finite`: the model's data and target are integers, so they are always numbers and always finite. The `target` argument of the validator is therefore not modelled.
- Floating-point data: only integer sequences are modelled. NaN and infinities cannot arise.
- The `description` strings, the `reason` strings and the emoji they contain, and `_get_comparison_symbol`: display text only.
- The `algorithm` and `language` metadata keys of the `init` step: constants with no bearing on the search.
- `BinarySearchResult.to_dict` and `json`: serialisation.
- `get_complexity_info`: string constants. Its O(log n) claim is what `SearchProperties.OutcomeComparisons` proves.
- The `__main__` example at lines 364-380: printing.
- The `indices` of range steps are stored as a `Span(first, last)`. `StepRecorder.IndexList` expands a span to the list `_generate_range_indices` builds.
- The raised `ValueError` is modelled as the `Failure` case of a `Result`. Its message text is reduced to the two indices and two values it names.
- `track_steps` defaults to True in the source; `Execute` always takes `track` explicitly.
- The result object sharing its `steps` list with the algorithm object (aliasing): the model copies the value.
