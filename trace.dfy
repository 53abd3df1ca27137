/** The step recorder of the instrumented binary search: the typed trace
    events it emits, the 1-based numbering `_add_step` stamps on each of
    them, and the two small pure helpers the events are built with. */
module StepRecorder {

  /** The `type` tag a visualisation front end reads off a step. */
  datatype StepKind = InitKind | HighlightKind | CompareKind | FoundKind | EliminateKind

  /** Outcome of comparing the target with the middle element, seen from the target. */
  datatype Comparison = Equal | Less | Greater

  /** Which half an elimination discards. */
  datatype Half = LeftHalf | RightHalf

  /** The kind-specific payload of a step (its `metadata`), one variant per
      kind of record; the eliminations of the left and of the right half
      share `Eliminate`, told apart by `eliminated`. */
  datatype Event =
    | Init(target: int, arrayLength: nat)
    | SearchRange(left: int, right: int, mid: int, rangeSize: int)
    | Pointers(left: int, mid: int, right: int, leftValue: int, midValue: int, rightValue: int)
    | Compare(left: int, right: int, mid: int, targetValue: int, midValue: int,
              comparison: Comparison, comparisonCount: nat)
    | Found(left: int, right: int, mid: int, targetValue: int, foundIndex: int, totalComparisons: nat)
    | Eliminate(left: int, right: int, mid: int, eliminated: Half,
                eliminatedRange: (int, int), remainingRange: (int, int), remainingSize: int)
      /** the closing `eliminate` step, with `searchExhausted` set */
    | Exhausted(totalComparisons: nat, finalLeft: int, finalRight: int)
      /** the `eliminate` step with reason "empty-array" */
    | EmptyArray

  /** The `indices` of a step: a contiguous range, recorded as its two
      ends, or a list of positions. */
  datatype Indices = Span(first: int, last: int) | Positions(positions: seq<int>)

  /** The list of positions a step's `indices` stand for. */
  function IndexList(i: Indices): seq<int>
  {
    match i
    case Span(first, last) => RangeIndices(first, last)
    case Positions(positions) => positions
  }

  /** A recorded step: the indices it concerns, its payload and its
      1-based `operationCount`. */
  datatype Step = Step(indices: Indices, event: Event, operationCount: nat)

  function Kind(e: Event): StepKind
  {
    match e
    case Init(_, _) => InitKind
    case SearchRange(_, _, _, _) => HighlightKind
    case Pointers(_, _, _, _, _, _) => HighlightKind
    case Compare(_, _, _, _, _, _, _) => CompareKind
    case Found(_, _, _, _, _, _) => FoundKind
    case Eliminate(_, _, _, _, _, _, _) => EliminateKind
    case Exhausted(_, _, _) => EliminateKind
    case EmptyArray => EliminateKind
  }

  /** Every step carries its own 1-based position as `operationCount`. */
  predicate Numbered(steps: seq<Step>)
  {
    forall k :: 0 <= k < |steps| ==> steps[k].operationCount == k + 1
  }

  /** What `_add_step` does to the log: append the step, stamped with the
      length of the log after appending. */
  function Append(steps: seq<Step>, indices: Indices, e: Event): seq<Step>
  {
    steps + [Step(indices, e, |steps| + 1)]
  }

  /** Appending only adds at the end, and keeps the log numbered. */
  lemma AppendKeepsNumbering(steps: seq<Step>, indices: Indices, e: Event)
    ensures var r := Append(steps, indices, e);
            && |r| == |steps| + 1 && r[..|steps|] == steps
            && r[|steps|].event == e && r[|steps|].indices == indices
            && (Numbered(steps) ==> Numbered(r))
  {
  }

  /** `_generate_range_indices(start, end)`: the list `range(start, end + 1)`. */
  function RangeIndices(start: int, end: int): (r: seq<int>)
    ensures |r| == if start <= end then end - start + 1 else 0
    ensures forall k :: 0 <= k < |r| ==> r[k] == start + k
    decreases end - start
  {
    if start > end then [] else [start] + RangeIndices(start + 1, end)
  }

  /** `_get_comparison_result(target, mid)`: a trichotomy. */
  function ComparisonResult(target: int, midValue: int): (r: Comparison)
    ensures r == Equal <==> target == midValue
    ensures r == Less <==> target < midValue
    ensures r == Greater <==> target > midValue
  {
    if target == midValue then Equal
    else if target < midValue then Less
    else Greater
  }
}
