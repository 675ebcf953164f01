/** Runs whose save is cut off: the steps of the save joined with the run-to-run state.
    A run loads facts-latest and the seen file; facts-previous is never read back
    (tools/internal/healthreport/diff.go). */
module CrashRuns {
  import opened Ordering
  import opened Severity
  import opened Diff
  import opened DiffLaws
  import opened HealthRun
  import opened History
  import opened Rotation

  /** A run, and how many steps of its save happen. */
  datatype CutRun = CutRun(input: RunInput, steps: nat)

  ghost predicate AreCutRuns(runs: seq<CutRun>) {
    forall i :: 0 <= i < |runs| ==> runs[i].steps <= STEPS
  }

  function StepsOf(runs: seq<CutRun>): seq<nat> {
    seq(|runs|, i requires 0 <= i < |runs| => runs[i].steps)
  }

  /** What the next run loads: nothing has happened yet, or the facts are gone, or they
      are newer than the seen-state, or both are new. */
  function CutStep(st: State, run: CutRun): State {
    if run.steps == 0 then st
    else if run.steps < 4 then State([], st.seen)
    else if run.steps < STEPS then State(RunStep(st, run.input).latest, st.seen)
    else RunStep(st, run.input)
  }

  function LoadedAfter(runs: seq<CutRun>, n: nat): State
    requires n <= |runs|
  {
    if n == 0 then FRESH else CutStep(LoadedAfter(runs, n - 1), runs[n - 1])
  }

  /** What the v-th run wants to save. */
  function SavedBy(runs: seq<CutRun>, v: nat): State {
    if 1 <= v <= |runs| then RunStep(LoadedAfter(runs, v - 1), runs[v - 1].input) else FRESH
  }

  function FactsIn(runs: seq<CutRun>, file: File): seq<PrevObservation> {
    if file.Whole? then SavedBy(runs, file.version).latest else []
  }

  function SeenIn(runs: seq<CutRun>, file: File): Seen {
    if file.Whole? then SavedBy(runs, file.version).seen else map[]
  }

  /** The state a run starts from is what the files on the disk hold, after any sequence
      of saves cut off anywhere. */
  lemma {:induction false} LoadedFromDisk(runs: seq<CutRun>, n: nat)
    requires AreCutRuns(runs) && n <= |runs|
    ensures var d := DiskAfter(StepsOf(runs), n);
      && LoadedAfter(runs, n) == State(FactsIn(runs, d.latest), SeenIn(runs, d.seen))
  {
    if n > 0 {
      LoadedFromDisk(runs, n - 1);
      StepsUnfolded(DiskAfter(StepsOf(runs), n - 1), n, runs[n - 1].steps);
    }
  }

  function InputsOf(runs: seq<CutRun>): seq<RunInput> {
    seq(|runs|, i requires 0 <= i < |runs| => runs[i].input)
  }

  function StatesOf(runs: seq<CutRun>): seq<State> {
    seq(|runs| + 1, i requires 0 <= i <= |runs| => LoadedAfter(runs, i))
  }

  /** Saves that all complete make an ordinary history. */
  lemma {:induction false} CompletedRunsAreHistory(runs: seq<CutRun>)
    requires forall i :: 0 <= i < |runs| ==> runs[i].steps == STEPS
    requires forall i, j :: 0 <= i <= j < |runs| ==> runs[i].input.now <= runs[j].input.now
    ensures IsHistory(InputsOf(runs), StatesOf(runs))
  {
    var inputs, states := InputsOf(runs), StatesOf(runs);
    forall i | 0 <= i < |inputs| ensures Follows(inputs, states, i) {
      CompletedStep(runs, i);
    }
  }

  lemma CompletedStep(runs: seq<CutRun>, i: nat)
    requires i < |runs| && runs[i].steps == STEPS
    ensures Follows(InputsOf(runs), StatesOf(runs), i)
  {
    assert StatesOf(runs)[i + 1] == CutStep(LoadedAfter(runs, i), runs[i]);
  }

  /** The lists of the run after a save that was cut off between taking the old facts
      away and putting the new ones in place: nothing is persisting or resolved, and
      every alert is judged by the seen-state from before the cut. */
  lemma ListsAfterLostFacts(runs: seq<CutRun>, n: nat, input: RunInput, id: string)
    requires AreCutRuns(runs) && 0 < n <= |runs| && 1 <= runs[n - 1].steps < 4
    ensures var st, seen := LoadedAfter(runs, n), LoadedAfter(runs, n - 1).seen;
      var d, alerts := DiffOf(Assessed(st, input), st.latest, st.seen), Alerts(Assessed(st, input), id);
      && d.persisting == [] && d.resolved == []
      && (id in d.reopened <==> alerts && id in seen && seen[id].lastActionable.Some?)
      && (id in d.newIds <==> alerts && (id in seen ==> seen[id].lastActionable.None?))
  {
    var st := LoadedAfter(runs, n);
    ListsPartitionAlerts(Assessed(st, input), st.latest, st.seen);
    LostFactsReopenEverything(st.seen, Assessed(st, input), input.now, id);
  }

  /** The lists of the run after a save that was cut off between the facts and the seen
      file: last run's alerts count as usual, the records are those from before it. */
  lemma ListsAfterNewerFacts(runs: seq<CutRun>, n: nat, input: RunInput, id: string)
    requires AreCutRuns(runs) && 0 < n <= |runs| && 4 <= runs[n - 1].steps < STEPS
    ensures var st, before := LoadedAfter(runs, n), LoadedAfter(runs, n - 1);
      var d, alerts := DiffOf(Assessed(st, input), st.latest, st.seen), Alerts(Assessed(st, input), id);
      var was := Alerts(Assessed(before, runs[n - 1].input), id);
      && (id in d.persisting <==> alerts && was)
      && (id in d.resolved <==> was && !alerts)
      && (id in d.reopened <==> alerts && !was && id in before.seen && before.seen[id].lastActionable.Some?)
      && (id in d.newIds <==> alerts && !was && (id in before.seen ==> before.seen[id].lastActionable.None?))
  {
    var st, before := LoadedAfter(runs, n), LoadedAfter(runs, n - 1);
    ListsPartitionAlerts(Assessed(st, input), st.latest, st.seen);
    EntriesRemember(Assessed(before, runs[n - 1].input), id);
  }

  ghost predicate AlertsUnknown(st: State, input: RunInput, id: string) {
    id !in st.seen && Alerts(Assessed(st, input), id)
  }

  /** What the cut costs: an issue that the cut run saw for the first time is persisting
      in the next run, and yet its record is created there, with that run's date. */
  lemma CutForgetsFirstSighting(runs: seq<CutRun>, n: nat, input: RunInput, id: string)
    requires AreCutRuns(runs) && 0 < n <= |runs| && 4 <= runs[n - 1].steps < STEPS
    requires AlertsUnknown(LoadedAfter(runs, n - 1), runs[n - 1].input, id)
    requires Alerts(Assessed(LoadedAfter(runs, n), input), id)
    ensures var st := LoadedAfter(runs, n);
      && id in DiffOf(Assessed(st, input), st.latest, st.seen).persisting
      && id in RunStep(st, input).seen
      && RunStep(st, input).seen[id].firstSeen == At(input.now) && RunStep(st, input).seen[id].count == 1
  {
    ListsAfterNewerFacts(runs, n, input, id);
    FirstRecord(LoadedAfter(runs, n), input, id);
  }

  lemma FirstRecord(st: State, input: RunInput, id: string)
    requires AlertsUnknown(st, input, id)
    ensures id in RunStep(st, input).seen
    ensures RunStep(st, input).seen[id].firstSeen == At(input.now) && RunStep(st, input).seen[id].count == 1
  {
    var assessed, was := Assessed(st, input), WasActionable(st.latest, id);
    NextSeenAt(st.seen, assessed, st.latest, input.now, id);
    AlertsSurvivePruning(st.seen, assessed, st.latest, input.now, RETENTION_DAYS, id);
    RecordOfFirstAlert(assessed, id, was, input.now);
  }

  lemma RecordOfFirstAlert(observations: seq<Observation>, id: string, was: bool, now: int)
    requires Alerts(observations, id)
    ensures var r := NextRecord(None, observations, id, was, now);
      r.Some? && r.value.firstSeen == At(now) && r.value.count == 1
  {
    NextRecordByAlert(None, observations, id, was, now);
  }
}
