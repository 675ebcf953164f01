/** The first-seen dates that a report shows, told from the history of runs
    (tools/internal/healthreport/diff.go). */
module ReportDates {
  import opened Ordering
  import opened Severity
  import opened Diff
  import opened DiffLaws
  import opened HealthRun
  import opened Lifetime
  import opened History

  /** The observations as the report of run n shows them. */
  ghost function Shown(runs: seq<RunInput>, trace: seq<State>, n: nat): seq<Observation>
    requires n < |runs| && n < |trace|
  {
    StampedAll(trace[n].seen, Assessed(trace[n], runs[n]), trace[n].latest, runs[n].now)
  }

  /** The observation for which the alert of its id is listed: the last one. */
  ghost predicate StandsForAlert(observations: seq<Observation>, i: nat) {
    && i < |observations| && Actionable(observations[i].severity)
    && forall j :: i < j < |observations| && observations[j].id == observations[i].id ==>
         !Actionable(observations[j].severity)
  }

  lemma {:induction false} LastAlertStands(observations: seq<Observation>, i: nat)
    requires i < |observations|
    ensures LastAlert(observations, observations[i].id) == Some(i) <==> StandsForAlert(observations, i)
  {
    var n, id := |observations| - 1, observations[i].id;
    if i < n {
      assert observations[..n][i] == observations[i];
      LastAlertStands(observations[..n], i);
      assert forall j :: 0 <= j < n ==> observations[..n][j] == observations[j];
      var last := LastAlert(observations[..n], id);
    }
  }

  /** In one run, for any seen-state: the date shown is the date that the record then has,
      or the run's if the record has none. */
  lemma ShownIsRecorded(seen: Seen, observations: seq<Observation>, previous: seq<PrevObservation>, now: int, i: nat)
    requires i < |observations|
    requires !Alerts(observations, observations[i].id) || StandsForAlert(observations, i)
    ensures var id := observations[i].id;
      var after := NextRecord(Get(seen, id), observations, id, WasActionable(previous, id), now);
      && after.Some? && after.value.lastSeen == At(now)
      && StampedAll(seen, observations, previous, now)[i]
         == observations[i].(firstSeen := if after.value.firstSeen.Missing? then At(now) else after.value.firstSeen)
  {
    var id := observations[i].id;
    var start := MarkResolved(Get(seen, id), WasActionable(previous, id), now);
    LastAlertStands(observations, i);
    if !Alerts(observations, id) {
      assert LastAlert(observations, id).None?;
      assert Sees(observations, id);
      QuietFoldDates(observations, id, start, now);
    }
  }

  lemma StampOfAnother(seen: Seen, observations: seq<Observation>, previous: seq<PrevObservation>, now: int, i: nat)
    requires i < |observations|
    requires Alerts(observations, observations[i].id) && !StandsForAlert(observations, i)
    ensures StampedAll(seen, observations, previous, now)[i] == observations[i]
  {
    LastAlertStands(observations, i);
    assert LastAlert(observations, observations[i].id).Some?;
  }

  /** The record that run n leaves of an id it observes. */
  lemma RecordLeft(runs: seq<RunInput>, trace: seq<State>, n: nat, i: nat)
    requires IsHistory(runs, trace) && n < |runs| && i < |Assessed(trace[n], runs[n])|
    requires var assessed := Assessed(trace[n], runs[n]);
      !Alerts(assessed, assessed[i].id) || StandsForAlert(assessed, i)
    ensures var o := Assessed(trace[n], runs[n])[i];
      var after := Get(trace[n + 1].seen, o.id);
      && after.Some?
      && Shown(runs, trace, n)[i]
         == o.(firstSeen := if after.value.firstSeen.Missing? then At(runs[n].now) else after.value.firstSeen)
  {
    var st, now := trace[n], runs[n].now;
    var assessed := Assessed(st, runs[n]);
    var id := assessed[i].id;
    assert Follows(runs, trace, n);
    ShownIsRecorded(st.seen, assessed, st.latest, now, i);
    NextSeenAt(st.seen, assessed, st.latest, now, id);
    PrunedAt(NextSeen(st.seen, assessed, st.latest, now), now, id);
  }

  /** The run in which the occurrence began that the history up to run n - 1 knows of. */
  ghost function Began(h: seq<Beat>, n: nat): Option<nat>
    requires n <= |h|
  {
    var born := Born(h, n);
    if born.None? then None else Some(OccurrenceStart(h, born.value, n))
  }

  lemma RecordedDate(runs: seq<RunInput>, trace: seq<State>, n: nat, id: string)
    requires IsHistory(runs, trace) && n <= |runs|
    ensures var h := LifeOf(runs, trace, id);
      && (id in trace[n].seen <==> Began(h, n).Some?)
      && (id in trace[n].seen ==> trace[n].seen[id].firstSeen == At(h[Began(h, n).value].now))
  {
    LifeIsLife(runs, trace, id);
    StateFollowsLife(runs, trace, n, id);
    DatesSummarise(LifeOf(runs, trace, id), n);
  }

  /** Over every history of runs: an observation of an id that raises no alert in run n,
      or the observation for which its alert is listed, is shown with the date of the
      run that began the current occurrence, run n included. That is the date of the
      record which run n leaves, and nothing else of the observation changes. */
  lemma ShownSinceOccurrence(runs: seq<RunInput>, trace: seq<State>, n: nat, i: nat)
    requires IsHistory(runs, trace) && n < |runs| && i < |Assessed(trace[n], runs[n])|
    requires var assessed := Assessed(trace[n], runs[n]);
      !Alerts(assessed, assessed[i].id) || StandsForAlert(assessed, i)
    ensures var o := Assessed(trace[n], runs[n])[i];
      var began := Began(LifeOf(runs, trace, o.id), n + 1);
      && began.Some? && o.id in trace[n + 1].seen
      && Shown(runs, trace, n)[i] == o.(firstSeen := At(runs[began.value].now))
      && trace[n + 1].seen[o.id].firstSeen == At(runs[began.value].now)
  {
    RecordLeft(runs, trace, n, i);
    RecordedDate(runs, trace, n + 1, Assessed(trace[n], runs[n])[i].id);
  }

  /** Any other observation of an alerting id is shown with the date that was known
      before the run, or as it came if none was. */
  lemma OthersKeepTheirDate(runs: seq<RunInput>, trace: seq<State>, n: nat, i: nat)
    requires IsHistory(runs, trace) && n < |runs| && i < |Assessed(trace[n], runs[n])|
    requires var assessed := Assessed(trace[n], runs[n]);
      Alerts(assessed, assessed[i].id) && !StandsForAlert(assessed, i)
    ensures var o := Assessed(trace[n], runs[n])[i];
      var began := Began(LifeOf(runs, trace, o.id), n);
      && Shown(runs, trace, n)[i] == o
      && |runs[n].observations| == |Assessed(trace[n], runs[n])|
      && o.firstSeen == if began.Some? then At(runs[began.value].now) else runs[n].observations[i].firstSeen
  {
    StampOfAnother(trace[n].seen, Assessed(trace[n], runs[n]), trace[n].latest, runs[n].now, i);
    RecordedDate(runs, trace, n, Assessed(trace[n], runs[n])[i].id);
  }

  /** An issue that is listed as reopened is shown as first seen in the reopening run, and
      so is one that is new and was not observed before. */
  lemma ReopenedIsDatedNow(runs: seq<RunInput>, trace: seq<State>, n: nat, i: nat)
    requires IsHistory(runs, trace) && n < |runs|
    requires StandsForAlert(Assessed(trace[n], runs[n]), i)
    requires var id := Assessed(trace[n], runs[n])[i].id;
      id in RunDiff(runs, trace, n).reopened || id !in trace[n].seen
    ensures Shown(runs, trace, n)[i].firstSeen == At(runs[n].now)
  {
    var id := Assessed(trace[n], runs[n])[i].id;
    var h := LifeOf(runs, trace, id);
    ShownSinceOccurrence(runs, trace, n, i);
    RecordedDate(runs, trace, n, id);
    ListsTellHistory(runs, trace, n, id);
    StartsNow(h, n);
  }

  lemma StartsNow(h: seq<Beat>, n: nat)
    requires n < |h| && h[n].sightings > 0 && (Reopens(h, n) || Born(h, n).None?)
    ensures Began(h, n + 1) == Some(n)
  {
  }

}
