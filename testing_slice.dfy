/** The testing feature: running the fixture test cases against detected
    components and keeping a table of their results with the mean accuracy. */
module TestingSlice {
  import opened Wrappers
  import opened Values
  import opened Validation
  import JsMath

  /** `testCases.find(tc => tc.id === id)`. */
  function FindTestCase(cases: seq<TestCase>, id: string): Option<TestCase>
  {
    if cases == [] then None
    else if cases[0].id == id then Some(cases[0])
    else FindTestCase(cases[1..], id)
  }

  /** The lookup finds nothing exactly when no test case has the id, and otherwise
      the first one that has it. */
  lemma {:induction false} FindTestCaseFirst(cases: seq<TestCase>, id: string)
    ensures FindTestCase(cases, id).None? <==> forall i :: 0 <= i < |cases| ==> cases[i].id != id
    ensures FindTestCase(cases, id).Some? ==>
      exists i :: 0 <= i < |cases| && cases[i] == FindTestCase(cases, id).value && cases[i].id == id &&
        forall j :: 0 <= j < i ==> cases[j].id != id
  {
    if cases != [] && cases[0].id != id {
      FindTestCaseFirst(cases[1..], id);
      if FindTestCase(cases, id).Some? {
        var i :| 0 <= i < |cases[1..]| && cases[1..][i] == FindTestCase(cases, id).value && cases[1..][i].id == id &&
          forall j :: 0 <= j < i ==> cases[1..][j].id != id;
        assert cases[i + 1] == cases[1..][i];
        forall j | 0 <= j < i + 1 ensures cases[j].id != id {
          if j > 0 {
            assert cases[j] == cases[1..][j - 1];
          }
        }
      }
    }
  }

  /** Every fixture test case is found by its own id. */
  lemma FindsEveryFixture(i: nat)
    requires i < |TestCases|
    ensures FindTestCase(TestCases, TestCases[i].id) == Some(TestCases[i])
  {
    FindTestCaseFirst(TestCases, TestCases[i].id);
    TestCaseIdsDistinct();
    var j :| 0 <= j < |TestCases| && TestCases[j] == FindTestCase(TestCases, TestCases[i].id).value &&
      TestCases[j].id == TestCases[i].id && forall k :: 0 <= k < j ==> TestCases[k].id != TestCases[i].id;
  }

  function NotFoundMessage(id: string): string
  {
    "Test case " + id + " not found"
  }

  /** The `runTestCase` thunk body: validate the fixture test case with the given id,
      or fail with "Test case <id> not found". */
  method RunTestCase(testCaseId: string, extracted: seq<Extracted>) returns (r: Result<(string, TestResult), string>)
    ensures r.Err? <==> forall i :: 0 <= i < |TestCases| ==> TestCases[i].id != testCaseId
    ensures r.Err? ==> r.error == NotFoundMessage(testCaseId)
    ensures r.Ok? ==> r.value.0 == testCaseId
    ensures r.Ok? ==>
      exists i :: 0 <= i < |TestCases| && TestCases[i].id == testCaseId && ResultFor(r.value.1, TestCases[i], extracted)
  {
    FindTestCaseFirst(TestCases, testCaseId);
    var testCase := FindTestCase(TestCases, testCaseId);
    if testCase.None? {
      return Err(NotFoundMessage(testCaseId));
    }
    var results := ValidateTestCase(testCase.value, extracted);
    r := Ok((testCaseId, results));
  }

  /** `allExtractedComponents[id] || []`. */
  function ExtractedFor(all: Dict<seq<Extracted>>, id: string): seq<Extracted>
  {
    var e := Lookup(all, id);
    if e.Some? then e.value else []
  }

  /** The `runAllTestCases` thunk body: every fixture test case in declaration order,
      each validated against the components supplied under its id (none when the id
      is missing). */
  method RunAllTestCases(all: Dict<seq<Extracted>>) returns (results: Dict<TestResult>)
    ensures |results| == |TestCases|
    ensures forall i :: 0 <= i < |results| ==>
      results[i].0 == TestCases[i].id && ResultFor(results[i].1, TestCases[i], ExtractedFor(all, TestCases[i].id))
  {
    results := [];
    for n := 0 to |TestCases|
      invariant |results| == n
      invariant forall i :: 0 <= i < n ==>
        results[i].0 == TestCases[i].id && ResultFor(results[i].1, TestCases[i], ExtractedFor(all, TestCases[i].id))
    {
      var testCase := TestCases[n];
      var extracted := ExtractedFor(all, testCase.id);
      var testResults := ValidateTestCase(testCase, extracted);
      results := results + [(testCase.id, testResults)];
    }
  }

  function SumAccuracy(d: Dict<TestResult>): real
  {
    if d == [] then 0.0 else d[0].1.accuracy + SumAccuracy(d[1..])
  }

  /** The mean of the stored accuracies, 0 for an empty table. */
  function MeanAccuracy(d: Dict<TestResult>): real
  {
    if |d| > 0 then SumAccuracy(d) / |d| as real else 0.0
  }

  predicate Percentages(d: Dict<TestResult>)
  {
    forall i :: 0 <= i < |d| ==> 0.0 <= d[i].1.accuracy <= 100.0
  }

  lemma {:induction false} SumAccuracyBounds(d: Dict<TestResult>)
    requires Percentages(d)
    ensures 0.0 <= SumAccuracy(d) <= 100.0 * |d| as real
  {
    if d != [] {
      assert Percentages(d[1..]) by {
        forall i | 0 <= i < |d[1..]| ensures 0.0 <= d[1..][i].1.accuracy <= 100.0 {
          assert d[1..][i] == d[i + 1];
        }
      }
      SumAccuracyBounds(d[1..]);
    }
  }

  /** A mean of percentages is a percentage. */
  lemma MeanAccuracyBounds(d: Dict<TestResult>)
    requires Percentages(d)
    ensures 0.0 <= MeanAccuracy(d) <= 100.0
  {
    if |d| > 0 {
      SumAccuracyBounds(d);
      JsMath.MeanBetween(SumAccuracy(d), |d| as real, 0.0, 100.0);
    }
  }

  /** Writing a percentage into a table of percentages keeps it one. */
  lemma StoreKeepsPercentages(d: Dict<TestResult>, id: string, results: TestResult)
    requires Percentages(d) && 0.0 <= results.accuracy <= 100.0
    ensures Percentages(Store(d, id, results))
  {
    StoreEntries(d, id, results);
  }

  /** `payload.forEach(({ testCase, results }) => table[testCase] = results)`. */
  method StoreEach(d: Dict<TestResult>, payload: Dict<TestResult>) returns (table: Dict<TestResult>)
    ensures table == StoreAll(d, payload)
    ensures payload != [] ==> |table| > 0
  {
    table := d;
    for n := 0 to |payload|
      invariant table == StoreAll(d, payload[..n])
      invariant n > 0 ==> |table| > 0
    {
      assert payload[..n + 1][..n] == payload[..n];
      StoreShape(table, payload[n].0, payload[n].1);
      table := Store(table, payload[n].0, payload[n].1);
    }
    assert payload[..|payload|] == payload;
  }

  /** The testing slice's state. */
  class TestingState {
    var testCases: seq<TestCase>
    var testResults: Dict<TestResult>
    var overallAccuracy: real
    var isRunning: bool
    var completedTests: int
    var totalTests: int

    /** The overall accuracy is always the mean of the stored accuracies, and the
        number of tests is the number of test cases. */
    predicate Valid()
      reads this
    {
      overallAccuracy == MeanAccuracy(testResults) && totalTests == |testCases|
    }

    constructor ()
      ensures Valid()
      ensures testCases == TestCases && testResults == [] && overallAccuracy == 0.0
      ensures !isRunning && completedTests == 0 && totalTests == |TestCases|
    {
      testCases := TestCases;
      testResults := [];
      overallAccuracy := 0.0;
      isRunning := false;
      completedTests := 0;
      totalTests := |TestCases|;
    }

    /** `clearTestResults`: an empty table, with the test cases kept. */
    method ClearTestResults()
      modifies this
      requires Valid()
      ensures Valid()
      ensures testResults == [] && overallAccuracy == 0.0 && completedTests == 0
      ensures testCases == old(testCases) && totalTests == old(totalTests) && isRunning == old(isRunning)
    {
      testResults := [];
      overallAccuracy := 0.0;
      completedTests := 0;
    }

    /** `updateTestProgress`: only the completed count changes. */
    method UpdateTestProgress(completed: int)
      modifies this
      requires Valid()
      ensures Valid()
      ensures completedTests == completed
      ensures testCases == old(testCases) && testResults == old(testResults) && overallAccuracy == old(overallAccuracy)
      ensures isRunning == old(isRunning) && totalTests == old(totalTests)
    {
      completedTests := completed;
    }

    /** `runTestCase.pending`. */
    method RunTestCasePending()
      modifies this
      requires Valid()
      ensures Valid()
      ensures isRunning
      ensures testCases == old(testCases) && testResults == old(testResults) && overallAccuracy == old(overallAccuracy)
      ensures completedTests == old(completedTests) && totalTests == old(totalTests)
    {
      isRunning := true;
    }

    /** `runTestCase.fulfilled`: the results are stored under the id, replacing any
        earlier entry (`LookupStore` says what a later lookup sees); the completed
        count goes up by one even for an id run before; the overall accuracy is
        recomputed over the whole table. */
    method RunTestCaseFulfilled(testCaseId: string, results: TestResult)
      modifies this
      requires Valid()
      ensures Valid()
      ensures testResults == Store(old(testResults), testCaseId, results)
      ensures completedTests == old(completedTests) + 1 && !isRunning
      ensures testCases == old(testCases) && totalTests == old(totalTests)
      ensures Percentages(old(testResults)) && 0.0 <= results.accuracy <= 100.0 ==>
        Percentages(testResults) && 0.0 <= overallAccuracy <= 100.0
    {
      var table := Store(testResults, testCaseId, results);
      if Percentages(testResults) && 0.0 <= results.accuracy <= 100.0 {
        StoreKeepsPercentages(testResults, testCaseId, results);
        MeanAccuracyBounds(table);
      }
      StoreShape(testResults, testCaseId, results);
      testResults := table;
      completedTests := completedTests + 1;
      isRunning := false;
      if |table| > 0 {
        overallAccuracy := SumAccuracy(table) / |table| as real;
      }
    }

    /** `runTestCase.rejected`: only the running flag is cleared. */
    method RunTestCaseRejected()
      modifies this
      requires Valid()
      ensures Valid()
      ensures !isRunning
      ensures testCases == old(testCases) && testResults == old(testResults) && overallAccuracy == old(overallAccuracy)
      ensures completedTests == old(completedTests) && totalTests == old(totalTests)
    {
      isRunning := false;
    }

    /** `runAllTestCases.fulfilled`: every result is stored in turn, all tests count
        as completed and the overall accuracy is recomputed. */
    method RunAllTestCasesFulfilled(payload: Dict<TestResult>)
      modifies this
      requires Valid()
      ensures Valid()
      ensures testResults == StoreAll(old(testResults), payload)
      ensures completedTests == totalTests && !isRunning
      ensures testCases == old(testCases) && totalTests == old(totalTests)
    {
      var table := StoreEach(testResults, payload);
      testResults := table;
      completedTests := totalTests;
      isRunning := false;
      if |table| > 0 {
        overallAccuracy := SumAccuracy(table) / |table| as real;
      }
    }
  }

  /** Running all test cases and storing the outcome leaves every fixture test case's
      own results in the table. */
  lemma RunAllStoresEveryCase(d: Dict<TestResult>, payload: Dict<TestResult>, i: nat)
    requires |payload| == |TestCases| && i < |TestCases|
    requires forall j :: 0 <= j < |payload| ==> payload[j].0 == TestCases[j].id
    ensures Lookup(StoreAll(d, payload), TestCases[i].id) == Some(payload[i].1)
  {
    TestCaseIdsDistinct();
    LookupStoreAll(d, payload, TestCases[i].id);
    LastForDistinct(payload, i);
  }

  lemma {:induction false} LastForDistinct(payload: Dict<TestResult>, i: nat)
    requires i < |payload|
    requires forall j, k :: 0 <= j < k < |payload| ==> payload[j].0 != payload[k].0
    ensures LastFor(payload, payload[i].0) == Some(payload[i].1)
  {
    if i < |payload| - 1 {
      LastForDistinct(payload[..|payload| - 1], i);
    }
  }
}
