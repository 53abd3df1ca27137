/** What the halving loop and `execute` promise, proved about the
    reference definitions in SearchSpec. */
module SearchProperties {
  import opened StepRecorder
  import opened SearchSpec

  /** Adjacent sortedness, as validated, gives sortedness of every pair. */
  lemma {:induction false} SortedMonotone(s: seq<int>, i: int, j: int)
    requires Sorted(s) && 0 <= i <= j < |s|
    ensures s[i] <= s[j]
    decreases j - i
  {
    if i < j {
      SortedMonotone(s, i, j - 1);
    }
  }

  /** `Bits(n)` is ceil(log2(n + 1)): the least `b` with `n < 2^b`. */
  lemma {:induction false} BitsIsCeilLog2(n: nat)
    ensures n < Pow2(Bits(n))
    ensures n > 0 ==> Pow2(Bits(n) - 1) <= n
  {
    if n > 0 {
      BitsIsCeilLog2(n / 2);
    }
  }

  lemma {:induction false} Pow2Monotone(a: nat, b: nat)
    requires a <= b
    ensures Pow2(a) <= Pow2(b)
    decreases b
  {
    if a < b {
      Pow2Monotone(a, b - 1);
    }
  }

  /** `2^(k-1) <= n` bounds `k` by ceil(log2(n + 1)). */
  lemma CountWithinBits(k: nat, n: nat)
    requires 1 <= k && Pow2(k - 1) <= n
    ensures k <= Bits(n)
  {
    BitsIsCeilLog2(n);
    if Bits(n) < k {
      Pow2Monotone(Bits(n), k - 1);
    }
  }

  // ---------------------------------------------------------------------
  // The loop's decisions, from any pointers within bounds

  /** A found result points at an element equal to the target inside the
      range searched; otherwise the index is -1. */
  lemma {:induction false} SearchFoundIsMatch(data: seq<int>, target: int, left: int, right: int,
                                              comparisons: nat)
    requires InBounds(data, left, right)
    ensures var r := Search(data, target, left, right, comparisons);
            && (r.found ==> left <= r.index <= right && data[r.index] == target)
            && (!r.found ==> r.index == -1)
    decreases right - left + 1
  {
    if left <= right {
      if data[(left + right) / 2] != target {
        var (left', right') := Narrow(data, target, left, right);
        SearchFoundIsMatch(data, target, left', right', comparisons + 1);
      }
    }
  }

  /** On sorted data, if everything left of `left` is below the target and
      everything right of `right` above it, a not-found result means the
      target occurs nowhere: each elimination discards only indices whose
      elements are all below, or all above, the target. */
  lemma {:induction false} SearchNotFoundIsAbsent(data: seq<int>, target: int, left: int, right: int,
                                                  comparisons: nat)
    requires InBounds(data, left, right) && Sorted(data)
    requires forall i :: 0 <= i < left ==> data[i] < target
    requires forall i :: right < i < |data| ==> target < data[i]
    ensures !Search(data, target, left, right, comparisons).found ==> target !in data
    decreases right - left + 1
  {
    if left <= right {
      var mid := (left + right) / 2;
      if data[mid] < target {
        forall i | 0 <= i <= mid ensures data[i] < target {
          SortedMonotone(data, i, mid);
        }
        SearchNotFoundIsAbsent(data, target, mid + 1, right, comparisons + 1);
      } else if data[mid] > target {
        forall i | mid <= i < |data| ensures target < data[i] {
          SortedMonotone(data, mid, i);
        }
        SearchNotFoundIsAbsent(data, target, left, mid - 1, comparisons + 1);
      }
    } else {
      forall i | 0 <= i < |data| ensures data[i] != target {
      }
    }
  }

  /** The counter is bumped once per iteration, whichever branch is taken,
      and each elimination leaves at most half the range (`right - mid` or
      `mid - left` elements), so a non-empty range of `size` elements costs
      at least one comparison and at most `k` with `2^(k-1) <= size`. */
  lemma {:induction false} SearchComparisons(data: seq<int>, target: int, left: int, right: int,
                                             comparisons: nat)
    requires InBounds(data, left, right)
    ensures var r := Search(data, target, left, right, comparisons);
            && (left > right ==> r.comparisons == comparisons)
            && (left <= right ==> comparisons + 1 <= r.comparisons
                                  && Pow2(r.comparisons - comparisons - 1) <= right - left + 1)
    decreases right - left + 1
  {
    if left <= right {
      var mid := (left + right) / 2;
      if data[mid] != target {
        var (left', right') := Narrow(data, target, left, right);
        assert 2 * (right' - left' + 1) <= right - left + 1;
        SearchComparisons(data, target, left', right', comparisons + 1);
      }
    }
  }

  /** An iteration whose middle element is below the target continues on
      `[mid + 1, right]`, with the counter bumped and the iteration's steps
      appended to the log. */
  lemma MissBelow(data: seq<int>, target: int, left: int, right: int, comparisons: nat, steps: seq<Step>)
    requires 0 <= left <= right < |data| && data[(left + right) / 2] < target
    ensures var mid := (left + right) / 2;
            && Search(data, target, left, right, comparisons) == Search(data, target, mid + 1, right, comparisons + 1)
            && Trace(data, target, left, right, comparisons, steps)
               == Trace(data, target, mid + 1, right, comparisons + 1,
                        Append(ProbeSteps(data, target, left, right, comparisons + 1, steps), Span(left, mid),
                               Eliminate(left, right, mid, LeftHalf, (left, mid), (mid + 1, right), right - mid)))
  {
  }

  /** The mirror image: a middle element above the target continues on
      `[left, mid - 1]`. */
  lemma MissAbove(data: seq<int>, target: int, left: int, right: int, comparisons: nat, steps: seq<Step>)
    requires 0 <= left <= right < |data| && data[(left + right) / 2] > target
    ensures var mid := (left + right) / 2;
            && Search(data, target, left, right, comparisons) == Search(data, target, left, mid - 1, comparisons + 1)
            && Trace(data, target, left, right, comparisons, steps)
               == Trace(data, target, left, mid - 1, comparisons + 1,
                        Append(ProbeSteps(data, target, left, right, comparisons + 1, steps), Span(mid, right),
                               Eliminate(left, right, mid, RightHalf, (mid, right), (left, mid - 1), mid - left)))
  {
  }

  // ---------------------------------------------------------------------
  // The log, from any pointers within bounds

  /** Appending to a log keeps the iterations already in it. */
  lemma IterationsKept(s: seq<Step>, t: seq<Step>, n: nat, foundAt: int, foundAt': int)
    requires 4 * n + 1 <= |s| <= |t| && t[..|s|] == s
    requires foundAt < 0 || n <= foundAt
    requires foundAt' < 0 || n <= foundAt'
    requires forall j :: 0 <= j < n ==> Iteration(s, j, foundAt)
    ensures forall j :: 0 <= j < n ==> Iteration(t, j, foundAt')
  {
    forall j | 0 <= j < n ensures Iteration(t, j, foundAt') {
      assert Iteration(s, j, foundAt);
      assert t[4 * j + 1] == s[4 * j + 1] && t[4 * j + 2] == s[4 * j + 2];
      assert t[4 * j + 3] == s[4 * j + 3] && t[4 * j + 4] == s[4 * j + 4];
    }
  }

  /** The log after `init` and `comparisons` eliminating iterations. */
  ghost predicate TracePrefix(steps: seq<Step>, comparisons: nat)
  {
    && Numbered(steps) && |steps| == 4 * comparisons + 1
    && Kind(steps[0].event) == InitKind
    && forall j :: 0 <= j < comparisons ==> Iteration(steps, j, -1)
  }

  /** The three steps an iteration records before it branches. */
  lemma ProbeRecorded(data: seq<int>, target: int, left: int, right: int, count: nat, steps: seq<Step>)
    requires 0 <= left <= right < |data|
    ensures var p := ProbeSteps(data, target, left, right, count, steps);
            var mid := (left + right) / 2;
            && |p| == |steps| + 3 && p[..|steps|] == steps
            && (Numbered(steps) ==> Numbered(p))
            && p[|steps|].event == SearchRange(left, right, mid, right - left + 1)
            && p[|steps|].indices == Span(left, right)
            && p[|steps| + 1].event == Pointers(left, mid, right, data[left], data[mid], data[right])
            && p[|steps| + 2].event
               == Compare(left, right, mid, target, data[mid], ComparisonResult(target, data[mid]), count)
  {
    var mid := (left + right) / 2;
    var s1 := Append(steps, Span(left, right), SearchRange(left, right, mid, right - left + 1));
    var s2 := Append(s1, Positions([left, mid, right]), Pointers(left, mid, right, data[left], data[mid], data[right]));
    AppendKeepsNumbering(steps, Span(left, right), SearchRange(left, right, mid, right - left + 1));
    AppendKeepsNumbering(s1, Positions([left, mid, right]), Pointers(left, mid, right, data[left], data[mid], data[right]));
    AppendKeepsNumbering(s2, Positions([mid]), Compare(left, right, mid, target, data[mid], ComparisonResult(target, data[mid]), count));
  }

  /** An iteration that eliminates a half extends the prefix by one iteration. */
  lemma EliminationRecorded(data: seq<int>, target: int, left: int, right: int,
                            comparisons: nat, steps: seq<Step>)
    requires 0 <= left <= right < |data| && data[(left + right) / 2] != target
    requires TracePrefix(steps, comparisons)
    ensures TracePrefix(Append(ProbeSteps(data, target, left, right, comparisons + 1, steps),
                               EliminatedSpan(data, target, left, right),
                               EliminationEvent(data, target, left, right)),
                        comparisons + 1)
  {
    var probed := ProbeSteps(data, target, left, right, comparisons + 1, steps);
    ProbeRecorded(data, target, left, right, comparisons + 1, steps);
    var indices, e := EliminatedSpan(data, target, left, right), EliminationEvent(data, target, left, right);
    var next := Append(probed, indices, e);
    AppendKeepsNumbering(probed, indices, e);
    assert next[..|steps|] == steps;
    IterationsKept(steps, next, comparisons, -1, -1);
    assert Iteration(next, comparisons, -1);
  }

  /** An iteration that finds the target completes the trace. */
  lemma FoundRecorded(data: seq<int>, target: int, left: int, right: int,
                      comparisons: nat, steps: seq<Step>)
    requires 0 <= left <= right < |data| && data[(left + right) / 2] == target
    requires TracePrefix(steps, comparisons)
    ensures Search(data, target, left, right, comparisons) == LoopOutcome(true, (left + right) / 2, comparisons + 1)
    ensures WellFormedTrace(Trace(data, target, left, right, comparisons, steps), comparisons + 1, true)
  {
    var mid := (left + right) / 2;
    var probed := ProbeSteps(data, target, left, right, comparisons + 1, steps);
    ProbeRecorded(data, target, left, right, comparisons + 1, steps);
    var e := Found(left, right, mid, target, mid, comparisons + 1);
    var t := Append(probed, Positions([mid]), e);
    assert t == Trace(data, target, left, right, comparisons, steps);
    AppendKeepsNumbering(probed, Positions([mid]), e);
    assert t[..|steps|] == steps;
    IterationsKept(steps, t, comparisons, -1, comparisons);
    assert Iteration(t, comparisons, comparisons);
  }

  /** Leaving the loop completes the trace with the exhausted step. */
  lemma ExhaustedRecorded(data: seq<int>, target: int, left: int, right: int,
                          comparisons: nat, steps: seq<Step>)
    requires InBounds(data, left, right) && left > right
    requires TracePrefix(steps, comparisons)
    ensures Search(data, target, left, right, comparisons) == LoopOutcome(false, -1, comparisons)
    ensures var t := Trace(data, target, left, right, comparisons, steps);
            WellFormedTrace(t, comparisons, false) && t[|t| - 1].event == Exhausted(comparisons, left, right)
  {
    var t := Append(steps, Positions([]), Exhausted(comparisons, left, right));
    AppendKeepsNumbering(steps, Positions([]), Exhausted(comparisons, left, right));
    IterationsKept(steps, t, comparisons, -1, -1);
  }

  /** From a prefix of eliminating iterations, the loop's log is a
      well-formed trace of its decisions; a search that does not find the
      target closes with the exhausted step, which carries the final count. */
  lemma {:induction false} TraceShape(data: seq<int>, target: int, left: int, right: int,
                                      comparisons: nat, steps: seq<Step>)
    requires InBounds(data, left, right) && TracePrefix(steps, comparisons)
    ensures var r := Search(data, target, left, right, comparisons);
            var t := Trace(data, target, left, right, comparisons, steps);
            && WellFormedTrace(t, r.comparisons, r.found)
            && (!r.found ==> t[|t| - 1].event.Exhausted? && t[|t| - 1].event.totalComparisons == r.comparisons)
    decreases right - left + 1
  {
    if left > right {
      ExhaustedRecorded(data, target, left, right, comparisons, steps);
    } else if data[(left + right) / 2] == target {
      FoundRecorded(data, target, left, right, comparisons, steps);
    } else {
      EliminationRecorded(data, target, left, right, comparisons, steps);
      var next := Append(ProbeSteps(data, target, left, right, comparisons + 1, steps),
                         EliminatedSpan(data, target, left, right),
                         EliminationEvent(data, target, left, right));
      var (left', right') := Narrow(data, target, left, right);
      TraceShape(data, target, left', right', comparisons + 1, next);
    }
  }

  // ---------------------------------------------------------------------
  // What `execute` returns once validation has passed

  /** A found result points at an element equal to the target; otherwise
      the index is -1. This holds whether or not the data is sorted. */
  lemma OutcomeFoundIsMatch(data: seq<int>, target: int, track: bool)
    ensures var o := Outcome(data, target, track);
            && (o.found ==> 0 <= o.index < |data| && data[o.index] == target)
            && (!o.found ==> o.index == -1)
  {
    if |data| > 0 {
      SearchFoundIsMatch(data, target, 0, |data| - 1, 0);
    }
  }

  /** Tracing only adds the log: with it on or off, `execute` reports the
      same found flag, index and comparison count. */
  lemma TracingInvisible(data: seq<int>, target: int)
    ensures var traced, untraced := Outcome(data, target, true), Outcome(data, target, false);
            && traced.found == untraced.found
            && traced.index == untraced.index
            && traced.comparisons == untraced.comparisons
  {
  }

  /** On sorted data the search is correct in both directions: it reports
      found exactly when the target occurs, at an index holding it, and -1
      otherwise. */
  lemma OutcomeCorrect(data: seq<int>, target: int, track: bool)
    requires Sorted(data)
    ensures var o := Outcome(data, target, track);
            && (o.found <==> target in data)
            && (o.found ==> 0 <= o.index < |data| && data[o.index] == target)
            && (!o.found ==> o.index == -1)
  {
    OutcomeFoundIsMatch(data, target, track);
    if |data| > 0 {
      SearchNotFoundIsAbsent(data, target, 0, |data| - 1, 0);
    }
  }

  /** No comparison on an empty array; otherwise at least one and at most
      ceil(log2(n + 1)) for `n` elements, whatever the data. */
  lemma OutcomeComparisons(data: seq<int>, target: int, track: bool)
    ensures var o := Outcome(data, target, track);
            && (|data| == 0 ==> o.comparisons == 0)
            && (|data| > 0 ==> 1 <= o.comparisons <= Bits(|data|) && Pow2(o.comparisons - 1) <= |data|)
  {
    if |data| > 0 {
      var o := Outcome(data, target, track);
      SearchComparisons(data, target, 0, |data| - 1, 0);
      CountWithinBits(o.comparisons, |data|);
    }
  }

  /** With tracing on, the log is a well-formed trace of the search: `init`,
      one four-step iteration per comparison, then the `found` step or a
      closing `eliminate` step, which is the exhausted step after a
      non-empty search and the empty-array step otherwise. With tracing
      off, the log is empty. */
  lemma OutcomeTrace(data: seq<int>, target: int, track: bool)
    ensures var o := Outcome(data, target, track);
            && (!track ==> o.steps == [])
            && (track ==> WellFormedTrace(o.steps, o.comparisons, o.found))
            && (track && |data| == 0 ==> o.steps[|o.steps| - 1].event == EmptyArray)
            && (track && |data| > 0 && !o.found ==>
                  o.steps[|o.steps| - 1].event.Exhausted?
                  && o.steps[|o.steps| - 1].event.totalComparisons == o.comparisons)
  {
    if track {
      var init := InitialLog(data, target);
      AppendKeepsNumbering([], Positions([]), Init(target, |data|));
      if |data| == 0 {
        AppendKeepsNumbering(init, Positions([]), EmptyArray);
      } else {
        TraceShape(data, target, 0, |data| - 1, 0, init);
      }
    }
  }
}
