/**
 The parallel test runner (src/drivers/test/build_create_analyze_test.py).

 `RunnerSpec` says what a list of tests should leave behind, `RunnerClass` is the sequential
 runner with its globals, and `RunnerPool` interleaves the workers of the thread pool with
 their three locks.  The external tools succeed or fail as each test's `Outcome` says.
 */
module RunnerSpec {
  /** Whether each external step succeeds for a test, and what its result file then holds. */
  datatype Outcome = Outcome(
    setupOk: bool, createOk: bool, analyzeOk: bool, diffOk: bool, readable: bool,
    errors: int, warnings: int, notes: int, records: string)

  datatype Test = Test(name: string, outcome: Outcome)

  datatype Args = Args(existingDatabase: bool, buildDatabaseOnly: bool)

  datatype Verdict = Passed(total: int, records: string) | Failed | Skipped

  /** Database creation was tried and failed. */
  predicate CreationFails(args: Args, t: Test) {
    !args.existingDatabase && t.outcome.setupOk && !t.outcome.createOk
  }

  /** All external steps that the mode asks for went through. */
  predicate StepsSucceed(args: Args, t: Test) {
    (args.existingDatabase || (t.outcome.setupOk && t.outcome.createOk && t.outcome.diffOk)) && t.outcome.analyzeOk
  }

  predicate Completes(args: Args, t: Test) { StepsSucceed(args, t) && t.outcome.readable }

  function VerdictOf(args: Args, t: Test): Verdict {
    if args.buildDatabaseOnly then Skipped
    else if Completes(args, t) then Passed(t.outcome.errors + t.outcome.warnings + t.outcome.notes, t.outcome.records)
    else Failed
  }

  function FailedNames(args: Args, tests: seq<Test>): seq<string> {
    if tests == [] then [] else
      FailedNames(args, tests[..|tests| - 1])
      + if VerdictOf(args, tests[|tests| - 1]) == Failed then [tests[|tests| - 1].name] else []
  }

  function CreationFailures(args: Args, tests: seq<Test>): seq<string> {
    if tests == [] then [] else
      CreationFailures(args, tests[..|tests| - 1])
      + if CreationFails(args, tests[|tests| - 1]) then [tests[|tests| - 1].name] else []
  }

  function Totals(args: Args, tests: seq<Test>): map<string, int> {
    if tests == [] then map[] else
      var rest, v := Totals(args, tests[..|tests| - 1]), VerdictOf(args, tests[|tests| - 1]);
      if v.Passed? then rest[tests[|tests| - 1].name := v.total] else rest
  }

  function Details(args: Args, tests: seq<Test>): map<string, string> {
    if tests == [] then map[] else
      var rest, v := Details(args, tests[..|tests| - 1]), VerdictOf(args, tests[|tests| - 1]);
      if v.Passed? then rest[tests[|tests| - 1].name := v.records] else rest
  }

  function ExitCode(args: Args, failed: seq<string>, creationFailures: seq<string>): int {
    if (!args.buildDatabaseOnly && failed != []) || creationFailures != [] then 1 else 0
  }

  ghost predicate DistinctNames(tests: seq<Test>) {
    forall i, j :: 0 <= i < j < |tests| ==> tests[i].name != tests[j].name
  }

  // ----- what the lists and tables mean -----

  lemma {:induction false} FailedIff(args: Args, tests: seq<Test>, name: string)
    ensures name in FailedNames(args, tests) <==>
            exists i :: 0 <= i < |tests| && tests[i].name == name && VerdictOf(args, tests[i]) == Failed
    ensures name in CreationFailures(args, tests) <==>
            exists i :: 0 <= i < |tests| && tests[i].name == name && CreationFails(args, tests[i])
    decreases |tests|
  {
    if tests != [] {
      FailedIff(args, tests[..|tests| - 1], name);
      assert forall i :: 0 <= i < |tests| - 1 ==> tests[..|tests| - 1][i] == tests[i];
    }
  }

  /** With distinct names, each table row is that of the one test of that name. */
  lemma {:induction false} TotalsIff(args: Args, tests: seq<Test>, name: string)
    requires DistinctNames(tests)
    ensures name in Totals(args, tests) <==>
            exists i :: 0 <= i < |tests| && tests[i].name == name && VerdictOf(args, tests[i]).Passed?
    ensures Details(args, tests).Keys == Totals(args, tests).Keys
    ensures forall i :: 0 <= i < |tests| && tests[i].name == name && VerdictOf(args, tests[i]).Passed? ==>
              && name in Totals(args, tests) && Totals(args, tests)[name] == VerdictOf(args, tests[i]).total
              && Details(args, tests)[name] == VerdictOf(args, tests[i]).records
    decreases |tests|
  {
    if tests != [] {
      TotalsIff(args, tests[..|tests| - 1], name);
      assert forall i :: 0 <= i < |tests| - 1 ==> tests[..|tests| - 1][i] == tests[i];
    }
  }

  // ----- the steps of a test -----

  datatype Stage = SetUp | Create | Analyze | Diff | Read

  /** What is done for a test, in order; an existing database saves the first two steps and the comparison. */
  function Stages(args: Args): seq<Stage> {
    if args.buildDatabaseOnly then if args.existingDatabase then [] else [SetUp, Create]
    else if args.existingDatabase then [Analyze, Read]
    else [SetUp, Create, Analyze, Diff, Read]
  }

  predicate Succeeds(t: Test, stage: Stage) {
    match stage
    case SetUp => t.outcome.setupOk
    case Create => t.outcome.createOk
    case Analyze => t.outcome.analyzeOk
    case Diff => t.outcome.diffOk
    case Read => t.outcome.readable
  }

  predicate AllSucceed(args: Args, t: Test) {
    forall stage :: stage in Stages(args) ==> Succeeds(t, stage)
  }

  /** All steps up to the reading of the result file succeed. */
  predicate ResultFileWritten(args: Args, t: Test) {
    forall stage :: stage in Stages(args) && stage != Read ==> Succeeds(t, stage)
  }

  /** The first step that fails is the creation of the database. */
  predicate FailsAtCreation(args: Args, t: Test) {
    Create in Stages(args) && Succeeds(t, SetUp) && !Succeeds(t, Create)
  }

  lemma CompletesIff(args: Args, t: Test)
    ensures !args.buildDatabaseOnly ==> (Completes(args, t) <==> AllSucceed(args, t))
    ensures !args.buildDatabaseOnly ==> (StepsSucceed(args, t) <==> ResultFileWritten(args, t))
    ensures CreationFails(args, t) <==> FailsAtCreation(args, t)
  {
    if !args.buildDatabaseOnly {
      assert Analyze in Stages(args) && Read in Stages(args);
      assert !args.existingDatabase ==> SetUp in Stages(args) && Create in Stages(args) && Diff in Stages(args);
    }
  }

  /**
   Every test ends in exactly one of the table and the failed list: in the table, with the sum of its
   errors, warnings and notes, exactly when all its steps succeed.
   */
  lemma EachTestIsAccountedFor(args: Args, tests: seq<Test>, i: nat)
    requires DistinctNames(tests) && i < |tests| && !args.buildDatabaseOnly
    ensures var name, outcome := tests[i].name, tests[i].outcome;
            && (name in Totals(args, tests) <==> AllSucceed(args, tests[i]))
            && (name in FailedNames(args, tests) <==> !AllSucceed(args, tests[i]))
            && Details(args, tests).Keys == Totals(args, tests).Keys
            && (name in Totals(args, tests) ==>
                && Totals(args, tests)[name] == outcome.errors + outcome.warnings + outcome.notes
                && Details(args, tests)[name] == outcome.records)
  {
    CompletesIff(args, tests[i]);
    TotalsIff(args, tests, tests[i].name);
    FailedIff(args, tests, tests[i].name);
  }

  /** Nothing else is in the table or the lists, and nothing at all in the table when only building. */
  lemma OnlyTestsAreListed(args: Args, tests: seq<Test>, name: string)
    requires DistinctNames(tests)
    ensures name in Totals(args, tests) || name in FailedNames(args, tests) ==>
              !args.buildDatabaseOnly && exists i :: 0 <= i < |tests| && tests[i].name == name
    ensures name in CreationFailures(args, tests) <==>
            exists i :: 0 <= i < |tests| && tests[i].name == name && FailsAtCreation(args, tests[i])
  {
    TotalsIff(args, tests, name);
    FailedIff(args, tests, name);
    forall i | 0 <= i < |tests|
      ensures CreationFails(args, tests[i]) <==> FailsAtCreation(args, tests[i])
    {
      CompletesIff(args, tests[i]);
    }
  }

  /** One failing step of one test fails the job. */
  lemma AnyFailureFailsTheJob(args: Args, tests: seq<Test>, i: nat, stage: Stage)
    requires i < |tests| && !args.buildDatabaseOnly && stage in Stages(args) && !Succeeds(tests[i], stage)
    ensures tests[i].name in FailedNames(args, tests)
    ensures ExitCode(args, FailedNames(args, tests), CreationFailures(args, tests)) == 1
  {
    CompletesIff(args, tests[i]);
    FailedIff(args, tests, tests[i].name);
  }

  predicate FailsJob(args: Args, t: Test) {
    if args.buildDatabaseOnly then FailsAtCreation(args, t) else !AllSucceed(args, t)
  }

  /**
   The exit code is 1 exactly when some step of some test failed, and else 0; when it only builds databases,
   exactly when some creation failed, so that a test whose setup already failed goes unnoticed.
   */
  lemma ExitCodeIff(args: Args, tests: seq<Test>)
    ensures var exit := ExitCode(args, FailedNames(args, tests), CreationFailures(args, tests));
            && (exit == 1 <==> exists i :: 0 <= i < |tests| && FailsJob(args, tests[i]))
            && (exit == 0 || exit == 1)
  {
    forall i | 0 <= i < |tests|
      ensures FailsJob(args, tests[i]) <==>
              if args.buildDatabaseOnly then CreationFails(args, tests[i]) else !Completes(args, tests[i])
    {
      CompletesIff(args, tests[i]);
    }
    var failed, created := FailedNames(args, tests), CreationFailures(args, tests);
    if failed != [] {
      FailedIff(args, tests, failed[0]);
    }
    if created != [] {
      FailedIff(args, tests, created[0]);
    }
    if i :| 0 <= i < |tests| && FailsJob(args, tests[i]) {
      FailedIff(args, tests, tests[i].name);
    }
  }
}

module RunnerClass {
  import opened Wrappers
  import opened RunnerSpec

  datatype Label = Label(number: nat, total: nat)

  class Runner {
    const args: Args
    var progressStarted: nat
    var progressTotal: nat
    var printed: seq<(Label, string)>   // the announcements, in order
    var healthDf: map<string, int>
    var detailedHealthDf: map<string, string>
    var dbCreateFailures: seq<string>

    constructor (args: Args)
      ensures this.args == args && progressStarted == 0 && progressTotal == 0 && printed == []
      ensures healthDf == map[] && detailedHealthDf == map[] && dbCreateFailures == []
    {
      this.args := args;
      progressStarted, progressTotal, printed := 0, 0, [];
      healthDf, detailedHealthDf, dbCreateFailures := map[], map[], [];
    }

    method NextProgressLabel() returns (mark: Label)
      modifies this`progressStarted
      ensures progressStarted == old(progressStarted) + 1
      ensures mark == Label(progressStarted, progressTotal)
    {
      progressStarted := progressStarted + 1;
      mark := Label(progressStarted, progressTotal);
    }

    /** Returns whether there is a result file. */
    method RunTest(t: Test) returns (sarif: bool)
      modifies this`progressStarted, this`printed, this`dbCreateFailures
      ensures progressStarted == old(progressStarted) + 1
      ensures printed == old(printed) + [(Label(progressStarted, progressTotal), t.name)]
      ensures dbCreateFailures == old(dbCreateFailures) + if CreationFails(args, t) then [t.name] else []
      ensures sarif <==> !args.buildDatabaseOnly && ResultFileWritten(args, t)
    {
      CompletesIff(args, t);
      var mark := NextProgressLabel();
      printed := printed + [(mark, t.name)];
      if !args.existingDatabase {
        if !t.outcome.setupOk {
          return false;
        }
        if !t.outcome.createOk {
          dbCreateFailures := dbCreateFailures + [t.name];
          return false;
        }
      }
      if args.buildDatabaseOnly {
        return false;
      }
      if !t.outcome.analyzeOk {
        return false;
      }
      if !args.existingDatabase && !t.outcome.diffOk {
        return false;
      }
      return true;
    }

    /** Returns the name of a failed test. */
    method RunSingleTest(t: Test) returns (failed: Option<string>)
      modifies this`progressStarted, this`printed, this`dbCreateFailures, this`healthDf, this`detailedHealthDf
      ensures progressStarted == old(progressStarted) + 1
      ensures printed == old(printed) + [(Label(progressStarted, progressTotal), t.name)]
      ensures dbCreateFailures == old(dbCreateFailures) + if CreationFails(args, t) then [t.name] else []
      ensures failed == if VerdictOf(args, t) == Failed then Some(t.name) else None
      ensures match VerdictOf(args, t)
              case Passed(total, records) =>
                healthDf == old(healthDf)[t.name := total]
                    && detailedHealthDf == old(detailedHealthDf)[t.name := records]
              case _ => healthDf == old(healthDf) && detailedHealthDf == old(detailedHealthDf)
    {
      CompletesIff(args, t);
      var sarif := RunTest(t);
      if args.buildDatabaseOnly {
        return None;
      }
      if !sarif {
        return Some(t.name);
      }
      if !t.outcome.readable {
        return Some(t.name);
      }
      healthDf := healthDf[t.name := t.outcome.errors + t.outcome.warnings + t.outcome.notes];
      detailedHealthDf := detailedHealthDf[t.name := t.outcome.records];
      return None;
    }

    /** One job: the tests run in order, on fresh tables; returns the failed names and the exit code. */
    method RunTests(tests: seq<Test>) returns (failedTests: seq<string>, exit: int)
      requires healthDf == map[] && detailedHealthDf == map[] && dbCreateFailures == []
      modifies this
      ensures printed == old(printed)
                         + seq(|tests|, i requires 0 <= i < |tests| => (Label(i + 1, |tests|), tests[i].name))
      ensures healthDf == Totals(args, tests) && detailedHealthDf == Details(args, tests)
      ensures failedTests == FailedNames(args, tests) && dbCreateFailures == CreationFailures(args, tests)
      ensures exit == ExitCode(args, FailedNames(args, tests), CreationFailures(args, tests))
    {
      failedTests := [];
      progressStarted := 0;
      progressTotal := |tests|;
      for n := 0 to |tests|
        invariant progressStarted == n && progressTotal == |tests|
        invariant printed == old(printed) + seq(n, i requires 0 <= i < n => (Label(i + 1, |tests|), tests[i].name))
        invariant healthDf == Totals(args, tests[..n]) && detailedHealthDf == Details(args, tests[..n])
        invariant failedTests == FailedNames(args, tests[..n]) && dbCreateFailures == CreationFailures(args, tests[..n])
      {
        assert tests[..n + 1][..n] == tests[..n] && tests[..n + 1][n] == tests[n];
        var failed := RunSingleTest(tests[n]);
        if failed.Some? {
          failedTests := failedTests + [failed.value];
        }
      }
      assert tests[..|tests|] == tests;
      if !args.buildDatabaseOnly && failedTests != [] {
        return failedTests, 1;
      }
      if dbCreateFailures != [] {
        return failedTests, 1;
      }
      return failedTests, 0;
    }
  }
}
