/** Ids that one collector repeats, as the GitHub collector does for a workflow that
    fails on several branches: they are counted once each and listed once together
    (tools/internal/healthreport/collectors/github.go). */
module RepeatedIds {
  import opened Ordering
  import opened Severity
  import opened Diff
  import opened DiffLaws
  import opened Collectors
  import opened HealthRun
  import opened History
  import opened SharedIds

  const WORKFLOW := "workflow_failed.repo.build"
  const FAILED_BRANCH :=
    Observation(WORKFLOW, "repo", "workflow_failed", Info, Text("failure", None), Nil, Missing, false, None, None)
  const FAILURES: Rules := map["workflow_failed" := NO_RULE.(kind := Present, level := Some(Warn))]
  const TWO_BRANCHES: Results := map["github" := CollectorResult("ok", [FAILED_BRANCH, FAILED_BRANCH])]

  function FirstRun(): RunInput {
    RunInput([FAILED_BRANCH, FAILED_BRANCH], FAILURES, 0)
  }

  lemma TwoBranchesGathered()
    ensures Walks(["github"], TWO_BRANCHES) && Gathered(TWO_BRANCHES, ["github"]) == FirstRun().observations
  {
    NoDisk();
    OneCollector(TWO_BRANCHES, "github", [FAILED_BRANCH, FAILED_BRANCH]);
  }

  lemma NoDisk()
    ensures FirstWith([FAILED_BRANCH, FAILED_BRANCH], WD_DISK) == None
  {
    var own := [FAILED_BRANCH, FAILED_BRANCH];
    assert FAILED_BRANCH.id != WD_DISK by { assert WD_DISK[0] != WORKFLOW[0]; }
    assert own[1..] == [FAILED_BRANCH] && own[1..][1..] == [];
    assert FirstWith(own[1..], WD_DISK) == FirstWith(own[1..][1..], WD_DISK);
  }

  lemma TwoBranchesAssessed()
    ensures var assessed := Assessed(FRESH, FirstRun());
      && |assessed| == 2 && assessed[0].severity == Warn && assessed[1].severity == Warn
      && assessed[0].id == WORKFLOW && assessed[1].id == WORKFLOW
  {
  }

  /** The first run over such a repository reports two warnings and lists one. */
  lemma RepeatsCountTwice()
    ensures var runs, d := [FirstRun()], RunDiff([FirstRun()], Trace([FirstRun()]), 0);
      && IsHistory(runs, Trace(runs))
      && Walks(["github"], TWO_BRANCHES) && runs[0].observations == Gathered(TWO_BRANCHES, ["github"])
      && CountSeverity(Assessed(FRESH, runs[0]), Warn) == 2
      && d.newIds == [WORKFLOW] && d.reopened == [] && d.persisting == []
  {
    TraceIsHistory([FirstRun()]);
    TraceStarts([FirstRun()]);
    TwoBranchesGathered();
    TwoBranchesAssessed();
    var assessed := Assessed(FRESH, FirstRun());
    assert CountSeverity(assessed[..1][..0], Warn) == 0 && CountSeverity(assessed[..1], Warn) == 1;
    OneNewId(assessed);
  }

  lemma OneNewId(assessed: seq<Observation>)
    requires |assessed| == 2 && assessed[0].severity == Warn && assessed[0].id == assessed[1].id == WORKFLOW
    ensures var d := DiffOf(assessed, [], map[]); d.newIds == [WORKFLOW] && d.reopened == [] && d.persisting == []
  {
    var d := DiffOf(assessed, [], map[]);
    ListsPartitionAlerts(assessed, [], map[]);
    AlertsAreOne(assessed);
    NonEmptyHasElement(d.reopened);
    NonEmptyHasElement(d.persisting);
    OnlyElement(d.newIds, WORKFLOW);
  }

  lemma AlertsAreOne(assessed: seq<Observation>)
    requires |assessed| == 2 && assessed[0].severity == Warn && assessed[0].id == assessed[1].id == WORKFLOW
    ensures forall id :: Alerts(assessed, id) <==> id == WORKFLOW
  {
  }

  lemma OnlyElement(s: seq<string>, x: string)
    requires StrictlySorted(s) && forall y :: y in s <==> y == x
    ensures s == [x]
  {
    assert Elements(s) == Elements([x]);
    SortedUnique(s, [x]);
  }
}
