/** Reference definitions for the search: sortedness as the validator
    checks it, the halving loop as a recursive function over `(left, right)`
    that records exactly the steps the loop records, the value `execute`
    returns, and the shape a complete trace has. */
module SearchSpec {
  import opened StepRecorder

  /** Non-decreasing, checked the way the validator checks it: each element
      against its predecessor. */
  predicate Sorted(s: seq<int>)
  {
    forall i :: 1 <= i < |s| ==> s[i - 1] <= s[i]
  }

  /** `i` is the first index whose element is smaller than its predecessor. */
  predicate IsFirstDescent(s: seq<int>, i: int)
  {
    && 1 <= i < |s|
    && s[i] < s[i - 1]
    && forall j :: 1 <= j < i ==> s[j - 1] <= s[j]
  }

  /** The number of binary digits of `n`, that is, ceil(log2(n + 1)). */
  function Bits(n: nat): nat
  {
    if n == 0 then 0 else 1 + Bits(n / 2)
  }

  function Pow2(k: nat): nat
  {
    if k == 0 then 1 else 2 * Pow2(k - 1)
  }

  /** What `_binary_search_core` decides: found or not, the index, and the
      comparison counter it leaves. */
  datatype LoopOutcome = LoopOutcome(found: bool, index: int, comparisons: nat)

  /** `BinarySearchResult`. */
  datatype SearchResult = SearchResult(found: bool, index: int, steps: seq<Step>, comparisons: nat)

  /** The bounds the loop keeps: `left` may run one past `right`. */
  predicate InBounds(data: seq<int>, left: int, right: int)
  {
    0 <= left <= right + 1 <= |data|
  }

  /** The decisions of the `while left <= right` loop, run from the given
      pointers and counter; the counter is bumped once per iteration. */
  function Search(data: seq<int>, target: int, left: int, right: int, comparisons: nat): LoopOutcome
    requires InBounds(data, left, right)
    decreases right - left + 1
  {
    if left > right then
      LoopOutcome(false, -1, comparisons)
    else
      var mid := (left + right) / 2;
      if data[mid] == target then LoopOutcome(true, mid, comparisons + 1)
      else
        var (left', right') := Narrow(data, target, left, right);
        Search(data, target, left', right', comparisons + 1)
  }

  /** The pointers after an iteration that misses: `left := mid + 1` when
      the middle element is below the target, `right := mid - 1` otherwise. */
  function Narrow(data: seq<int>, target: int, left: int, right: int): (int, int)
    requires 0 <= left <= right < |data|
  {
    var mid := (left + right) / 2;
    if data[mid] < target then (mid + 1, right) else (left, mid - 1)
  }

  /** The two `highlight` steps and the `compare` step of one iteration;
      `count` is the comparison counter after its bump. */
  function ProbeSteps(data: seq<int>, target: int, left: int, right: int, count: nat,
                      steps: seq<Step>): seq<Step>
    requires 0 <= left <= right < |data|
  {
    var mid := (left + right) / 2;
    var s1 := Append(steps, Span(left, right), SearchRange(left, right, mid, right - left + 1));
    var s2 := Append(s1, Positions([left, mid, right]), Pointers(left, mid, right, data[left], data[mid], data[right]));
    Append(s2, Positions([mid]), Compare(left, right, mid, target, data[mid], ComparisonResult(target, data[mid]), count))
  }

  /** The indices an elimination discards: `[left, mid]` when the middle
      element is below the target, `[mid, right]` otherwise. */
  function EliminatedSpan(data: seq<int>, target: int, left: int, right: int): Indices
    requires 0 <= left <= right < |data|
  {
    var mid := (left + right) / 2;
    if data[mid] < target then Span(left, mid) else Span(mid, right)
  }

  /** The payload of the `eliminate` step of an iteration whose middle
      element differs from the target. */
  function EliminationEvent(data: seq<int>, target: int, left: int, right: int): Event
    requires 0 <= left <= right < |data|
  {
    var mid := (left + right) / 2;
    if data[mid] < target then Eliminate(left, right, mid, LeftHalf, (left, mid), (mid + 1, right), right - mid)
    else Eliminate(left, right, mid, RightHalf, (mid, right), (left, mid - 1), mid - left)
  }

  /** The log the loop leaves, from the given pointers, counter and log,
      when tracing is on: the iteration's probe steps, then `Resolve`. */
  function Trace(data: seq<int>, target: int, left: int, right: int, comparisons: nat,
                 steps: seq<Step>): seq<Step>
    requires InBounds(data, left, right)
    decreases right - left + 1, 1
  {
    if left > right then
      Append(steps, Positions([]), Exhausted(comparisons, left, right))
    else
      Resolve(data, target, left, right, comparisons + 1,
              ProbeSteps(data, target, left, right, comparisons + 1, steps))
  }

  /** The rest of an iteration whose probe steps are in `probed`: a `found`
      step, or an `eliminate` step and the loop on the half kept. */
  function Resolve(data: seq<int>, target: int, left: int, right: int, count: nat,
                   probed: seq<Step>): seq<Step>
    requires 0 <= left <= right < |data|
    decreases right - left + 1, 0
  {
    var mid := (left + right) / 2;
    if data[mid] == target then
      Append(probed, Positions([mid]), Found(left, right, mid, target, mid, count))
    else
      var next := Append(probed, EliminatedSpan(data, target, left, right),
                         EliminationEvent(data, target, left, right));
      var (left', right') := Narrow(data, target, left, right);
      Trace(data, target, left', right', count, next)
  }

  /** The `init` step `execute` records first. */
  function InitialLog(data: seq<int>, target: int): seq<Step>
  {
    Append([], Positions([]), Init(target, |data|))
  }

  /** What `execute` returns once validation has passed. */
  function Outcome(data: seq<int>, target: int, track: bool): SearchResult
  {
    if |data| == 0 then
      SearchResult(false, -1, if track then Append(InitialLog(data, target), Positions([]), EmptyArray) else [], 0)
    else
      var r := Search(data, target, 0, |data| - 1, 0);
      var steps := if track then Trace(data, target, 0, |data| - 1, 0, InitialLog(data, target)) else [];
      SearchResult(r.found, r.index, steps, r.comparisons)
  }

  /** Iteration `j` of a trace fills positions 4j+1 .. 4j+4: a range
      highlight, a pointer highlight, a compare carrying the j+1-th
      comparison, and a `found` (exactly when `j == foundAt`) or an
      `eliminate` step, each agreeing with the comparison recorded. The
      range highlight covers the indices of its range, and an elimination
      the indices it discards. */
  ghost predicate Iteration(steps: seq<Step>, j: nat, foundAt: int)
    requires 4 * j + 4 < |steps|
  {
    var range, pointers, compare, outcome :=
      steps[4 * j + 1].event, steps[4 * j + 2].event, steps[4 * j + 3].event, steps[4 * j + 4].event;
    && Kind(range) == HighlightKind && range.SearchRange?
    && Kind(pointers) == HighlightKind && pointers.Pointers?
    && Kind(compare) == CompareKind && compare.Compare?
    && range.mid == pointers.mid == compare.mid
    && compare.comparisonCount == j + 1
    && (outcome.Found? || outcome.Eliminate?)
    && outcome.mid == compare.mid
    && (outcome.Found? <==> j == foundAt)
    && (outcome.Found? <==> compare.comparison == Equal)
    && (outcome.Eliminate? ==> (outcome.eliminated == LeftHalf <==> compare.comparison == Greater))
    && IndexList(steps[4 * j + 1].indices) == RangeIndices(range.left, range.right)
    && (outcome.Eliminate? ==>
          IndexList(steps[4 * j + 4].indices) == RangeIndices(outcome.eliminatedRange.0, outcome.eliminatedRange.1))
  }

  /** A complete trace of a search that made `comparisons` comparisons: an
      `init` step, one four-step iteration per comparison, and a closing
      `found` or `eliminate` step, numbered 1, 2, 3, ... */
  ghost predicate WellFormedTrace(steps: seq<Step>, comparisons: nat, found: bool)
  {
    && Numbered(steps)
    && |steps| == 4 * comparisons + (if found then 1 else 2)
    && Kind(steps[0].event) == InitKind
    && (found ==> comparisons >= 1)
    && (var foundAt := if found then comparisons - 1 else -1;
        forall j :: 0 <= j < comparisons ==> Iteration(steps, j, foundAt))
    && (found ==> steps[|steps| - 1].event.Found? && steps[|steps| - 1].event.totalComparisons == comparisons)
    && (!found ==> Kind(steps[|steps| - 1].event) == EliminateKind)
  }
}
