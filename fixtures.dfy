/** The educational test cases the algorithm ships with, and what the
    search does on them. */
module Fixtures {
  import opened StepRecorder
  import opened SearchSpec
  import opened SearchProperties
  import opened BinarySearch

  /** The `expected` part of a test case. */
  datatype Expected = Expected(found: bool, index: int)

  datatype TestCase = TestCase(data: seq<int>, target: int, expected: Expected)

  /** An expectation any correct search on this input meets: found exactly
      when the target occurs, at an index holding the target, and -1 when
      absent. */
  predicate Consistent(c: TestCase)
  {
    && (c.expected.found <==> c.target in c.data)
    && (c.expected.found ==> 0 <= c.expected.index < |c.data| && c.data[c.expected.index] == c.target)
    && (!c.expected.found ==> c.expected.index == -1)
  }

  /** `generate_test_cases`: basic cases, edge cases, a larger array and a
      run of duplicates. Every input is sorted, so none of them makes the
      search raise. */
  function GenerateTestCases(): (cases: seq<TestCase>)
    ensures |cases| == 10
    ensures forall k :: 0 <= k < |cases| ==> Sorted(cases[k].data)
  {
    [ TestCase([1, 3, 5, 7, 9], 5, Expected(true, 2)),
      TestCase([1, 3, 5, 7, 9], 1, Expected(true, 0)),
      TestCase([1, 3, 5, 7, 9], 9, Expected(true, 4)),
      TestCase([1, 3, 5, 7, 9], 4, Expected(false, -1)),
      TestCase([], 5, Expected(false, -1)),
      TestCase([5], 5, Expected(true, 0)),
      TestCase([5], 3, Expected(false, -1)),
      TestCase([1, 2, 3, 4, 5, 6, 7, 8, 9, 10], 7, Expected(true, 6)),
      TestCase([1, 2, 3, 4, 5, 6, 7, 8, 9, 10], 11, Expected(false, -1)),
      TestCase([1, 2, 2, 2, 5], 2, Expected(true, 1)) ]
  }

  /** Every expectation is consistent with its input: the listed cases
      that expect a miss have a target that does not occur. */
  lemma TestCasesConsistent()
    ensures var cases := GenerateTestCases();
            forall k :: 0 <= k < |cases| ==> Consistent(cases[k])
  {
    var cases := GenerateTestCases();
    forall k | 0 <= k < |cases|
      ensures Consistent(cases[k])
    {
      var c := cases[k];
      if !c.expected.found {
        forall i | 0 <= i < |c.data|
          ensures c.data[i] != c.target
        {
        }
      }
    }
  }

  /** The search passes every test case: it agrees on `found`, and when it
      finds the target the index it returns holds it, as the expected index
      does. Tracing does not change the answer. */
  lemma TestCasesPass()
    ensures var cases := GenerateTestCases();
            forall k, track: bool :: 0 <= k < |cases| ==>
              var c, o := cases[k], Outcome(cases[k].data, cases[k].target, track);
              && o.found == c.expected.found
              && (o.found ==> 0 <= o.index < |c.data| && c.data[o.index] == c.target)
  {
    var cases := GenerateTestCases();
    TestCasesConsistent();
    forall k, track: bool | 0 <= k < |cases|
      ensures var c, o := cases[k], Outcome(cases[k].data, cases[k].target, track);
              && o.found == c.expected.found
              && (o.found ==> 0 <= o.index < |c.data| && c.data[o.index] == c.target)
    {
      assert Consistent(cases[k]);
      OutcomeCorrect(cases[k].data, cases[k].target, track);
    }
  }

  /** The expected index is the exact one except in the duplicate case: for
      `[1, 2, 2, 2, 5]` the first probe lands on index 2, not on the index 1
      the fixture lists. */
  lemma ExpectedIndices()
    ensures var cases := GenerateTestCases();
            forall k :: 0 <= k < 9 ==> Outcome(cases[k].data, cases[k].target, false).index == cases[k].expected.index
    ensures Outcome([1, 2, 2, 2, 5], 2, false).index == 2 != GenerateTestCases()[9].expected.index
  {
    var cases := GenerateTestCases();
    forall k | 0 <= k < 9
      ensures Outcome(cases[k].data, cases[k].target, false).index == cases[k].expected.index
    {
      if k < 4 {
        ShortArrayIndex(cases[k].target);
      } else if k >= 7 {
        LongArrayIndex(cases[k].target);
      }
    }
  }

  /** The index the search returns on `[1, 3, 5, 7, 9]`. */
  lemma ShortArrayIndex(target: int)
    requires target in {1, 4, 5, 9}
    ensures Outcome([1, 3, 5, 7, 9], target, false).index
            == if target == 1 then 0 else if target == 5 then 2 else if target == 9 then 4 else -1
  {
    assert Search([1, 3, 5, 7, 9], target, 0, 4, 0).index
           == if target == 1 then 0 else if target == 5 then 2 else if target == 9 then 4 else -1;
  }

  /** The index the search returns on `[1, 2, ..., 10]`. */
  lemma LongArrayIndex(target: int)
    requires target == 7 || target == 11
    ensures Outcome([1, 2, 3, 4, 5, 6, 7, 8, 9, 10], target, false).index == if target == 7 then 6 else -1
  {
  }

  /** Found on the first probe: one comparison and a five-step trace
      (init, range, pointers, compare, found). */
  lemma FirstProbeTrace()
    ensures var o := Outcome([1, 3, 5, 7, 9], 5, true);
            && o.found && o.index == 2 && o.comparisons == 1
            && |o.steps| == 5 && o.steps[4].event.Found? && o.steps[4].event.foundIndex == 2
  {
    var probed := ProbeSteps([1, 3, 5, 7, 9], 5, 0, 4, 1, InitialLog([1, 3, 5, 7, 9], 5));
    assert Trace([1, 3, 5, 7, 9], 5, 0, 4, 0, InitialLog([1, 3, 5, 7, 9], 5))
           == Append(probed, Positions([2]), Found(0, 4, 2, 5, 2, 1));
  }

  /** The validator's report on `[3, 1, 2]`: the descent at index 1, against
      index 0. */
  lemma UnsortedReport(e: ValidationError)
    requires ReportsFirstDescent([3, 1, 2], e)
    ensures e == NotSorted(1, 0, 1, 3)
  {
  }
}
