/** The instrumented binary search itself: `BinarySearchAlgorithm`, whose
    `execute` resets its log and counter, validates the input, and runs the
    halving loop, recording a step at each decision when tracing is on;
    and the two convenience entry points built on it. */
module BinarySearch {
  import opened StepRecorder
  import opened SearchSpec
  import opened SearchProperties

  datatype Option<T> = None | Some(get: T)

  /** The `ValueError` the validator raises for unsorted data: the index of
      the first element smaller than its predecessor, that predecessor's
      index, and the two values. */
  datatype ValidationError = NotSorted(index: nat, previousIndex: nat, element: int, previousElement: int)

  /** A call that returns normally, or raises the validation error. */
  datatype Result<T> = Success(value: T) | Failure(error: ValidationError)

  /** The error reported for data whose first descent is at `i`. */
  predicate ReportsFirstDescent(data: seq<int>, e: ValidationError)
  {
    && IsFirstDescent(data, e.index)
    && e.previousIndex == e.index - 1
    && e.element == data[e.index]
    && e.previousElement == data[e.index - 1]
  }

  class BinarySearchAlgorithm {
    /** The step log of the current run. */
    var steps: seq<Step>
    /** The comparison counter of the current run. */
    var comparisons: nat

    constructor ()
      ensures steps == [] && comparisons == 0
    {
      steps := [];
      comparisons := 0;
    }

    /** `_add_step`: stamp the step with its 1-based position and append it. */
    method AddStep(indices: Indices, event: Event)
      modifies this
      ensures steps == Append(old(steps), indices, event)
      ensures comparisons == old(comparisons)
    {
      steps := steps + [Step(indices, event, |steps| + 1)];
    }

    /** The sortedness check of `_validate_input`: scan left to right and
        report the first element smaller than its predecessor. */
    method ValidateInput(data: seq<int>) returns (error: Option<ValidationError>)
      ensures error.None? <==> Sorted(data)
      ensures error.Some? ==> ReportsFirstDescent(data, error.get)
    {
      var i := 1;
      while i < |data|
        invariant 1 <= i && (i <= |data| || |data| == 0)
        invariant forall j :: 1 <= j < i && j < |data| ==> data[j - 1] <= data[j]
      {
        if data[i] < data[i - 1] {
          return Some(NotSorted(i, i - 1, data[i], data[i - 1]));
        }
        i := i + 1;
      }
      return None;
    }

    /** `_binary_search_core`: the halving loop over `[left, right]`. Its
        decisions and counter follow `Search` and, when tracing, its log
        follows `Trace`, from whatever counter and log it starts with; with
        tracing off the log is untouched. The loop appends to a local copy
        of the log and bumps a local counter, and both are stored back
        into the object when the method returns. */
    method BinarySearchCore(data: seq<int>, target: int, track: bool) returns (found: bool, index: int)
      modifies this
      ensures var r := Search(data, target, 0, |data| - 1, old(comparisons));
              found == r.found && index == r.index && comparisons == r.comparisons
      ensures steps == if track then Trace(data, target, 0, |data| - 1, old(comparisons), old(steps))
                       else old(steps)
    {
      var log, count := steps, comparisons;
      ghost var searched := Search(data, target, 0, |data| - 1, count);
      ghost var traced := Trace(data, target, 0, |data| - 1, count, log);
      ghost var untraced := log;
      var left, right := 0, |data| - 1;
      found, index := false, -1;
      while left <= right
        invariant InBounds(data, left, right)
        invariant Search(data, target, left, right, count) == searched
        invariant track ==> Trace(data, target, left, right, count, log) == traced
        invariant !track ==> log == untraced
        decreases right - left
      {
        var mid := (left + right) / 2;
        ghost var before, counted := log, count;
        if track {
          log := Append(log, Span(left, right), SearchRange(left, right, mid, right - left + 1));
          log := Append(log, Positions([left, mid, right]), Pointers(left, mid, right, data[left], data[mid], data[right]));
        }
        count := count + 1;
        if track {
          log := Append(log, Positions([mid]),
                        Compare(left, right, mid, target, data[mid], ComparisonResult(target, data[mid]), count));
        }
        if data[mid] == target {
          if track {
            log := Append(log, Positions([mid]), Found(left, right, mid, target, mid, count));
          }
          found, index := true, mid;
          break;
        } else if data[mid] < target {
          if track {
            log := Append(log, Span(left, mid), Eliminate(left, right, mid, LeftHalf, (left, mid), (mid + 1, right), right - mid));
          }
          MissBelow(data, target, left, right, counted, before);
          left := mid + 1;
        } else {
          if track {
            log := Append(log, Span(mid, right), Eliminate(left, right, mid, RightHalf, (mid, right), (left, mid - 1), mid - left));
          }
          MissAbove(data, target, left, right, counted, before);
          right := mid - 1;
        }
      }
      if !found && track {
        log := Append(log, Positions([]), Exhausted(count, left, right));
      }
      steps, comparisons := log, count;
    }

    /** `execute`: reset the log and counter, validate, record `init`,
        answer an empty array at once, and otherwise run the loop. On
        success the result is `Outcome` and the object holds its log and
        counter; on unsorted data the first descent is reported and
        nothing is recorded. */
    method Execute(data: seq<int>, target: int, track: bool) returns (r: Result<SearchResult>)
      modifies this
      ensures r.Success? <==> Sorted(data)
      ensures r.Failure? ==> ReportsFirstDescent(data, r.error) && steps == [] && comparisons == 0
      ensures r.Success? ==> r.value == Outcome(data, target, track)
                             && steps == r.value.steps && comparisons == r.value.comparisons
    {
      steps := [];
      comparisons := 0;
      var error := ValidateInput(data);
      if error.Some? {
        return Failure(error.get);
      }
      if track {
        AddStep(Positions([]), Init(target, |data|));
      }
      if |data| == 0 {
        if track {
          AddStep(Positions([]), EmptyArray);
        }
        return Success(SearchResult(false, -1, steps, comparisons));
      }
      var found, index := BinarySearchCore(data, target, track);
      return Success(SearchResult(found, index, steps, comparisons));
    }
  }

  /** `binary_search`: a fresh search without tracing, returning the index
      only. It agrees with the traced search, and on sorted data it is -1
      exactly when the target is absent. */
  method BinarySearchIndex(data: seq<int>, target: int) returns (r: Result<int>)
    ensures r.Success? <==> Sorted(data)
    ensures r.Failure? ==> ReportsFirstDescent(data, r.error)
    ensures r.Success? ==> r.value == Outcome(data, target, true).index
    ensures r.Success? ==> (r.value == -1 <==> target !in data)
    ensures r.Success? && r.value != -1 ==> 0 <= r.value < |data| && data[r.value] == target
  {
    var algorithm := new BinarySearchAlgorithm();
    var result := algorithm.Execute(data, target, false);
    if result.Failure? {
      return Failure(result.error);
    }
    OutcomeCorrect(data, target, false);
    return Success(result.value.index);
  }

  /** `binary_search_with_steps`: a fresh search with tracing on. On sorted
      data the result is correct, its comparison count is logarithmic, and
      its log is a well-formed trace of the search. */
  method BinarySearchWithSteps(data: seq<int>, target: int) returns (r: Result<SearchResult>)
    ensures r.Success? <==> Sorted(data)
    ensures r.Failure? ==> ReportsFirstDescent(data, r.error)
    ensures r.Success? ==> r.value == Outcome(data, target, true)
    ensures r.Success? ==> && (r.value.found <==> target in data)
                           && (r.value.found ==> 0 <= r.value.index < |data| && data[r.value.index] == target)
                           && (!r.value.found ==> r.value.index == -1)
    ensures r.Success? && |data| > 0 ==> 1 <= r.value.comparisons <= Bits(|data|)
    ensures r.Success? ==> WellFormedTrace(r.value.steps, r.value.comparisons, r.value.found)
  {
    var algorithm := new BinarySearchAlgorithm();
    r := algorithm.Execute(data, target, true);
    if r.Success? {
      OutcomeCorrect(data, target, true);
      OutcomeComparisons(data, target, true);
      OutcomeTrace(data, target, true);
    }
  }
}
