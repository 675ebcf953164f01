/** Whole sequences of health-report runs. The two state files are shown to be a
    faithful summary of everything that ever happened to an identity, where "what
    happened" is read off the runs and never off the seen-state. */
module History {
  import opened Ordering
  import opened Severity
  import opened Diff
  import opened DiffLaws
  import opened HealthRun
  import opened Lifetime

  /** Runs from a fresh install on, each reaching its final save, under a clock
      that does not go back; `trace[n]` is the state before run n. */
  ghost predicate IsHistory(runs: seq<RunInput>, trace: seq<State>) {
    && |trace| == |runs| + 1
    && trace[0] == FRESH
    && (forall i :: 0 <= i < |runs| ==> Follows(runs, trace, i))
    && (forall i, j :: 0 <= i <= j < |runs| ==> runs[i].now <= runs[j].now)
  }

  ghost predicate Follows(runs: seq<RunInput>, trace: seq<State>, i: nat)
    requires i < |runs| && |trace| == |runs| + 1
  {
    trace[i + 1] == RunStep(trace[i], runs[i])
  }

  /** The states that a sequence of runs goes through. */
  ghost function Trace(runs: seq<RunInput>): (t: seq<State>)
    ensures |t| == |runs| + 1
  {
    if runs == [] then [FRESH]
    else
      var n := |runs| - 1;
      var before := Trace(runs[..n]);
      before + [RunStep(before[n], runs[n])]
  }

  lemma TraceNext(runs: seq<RunInput>, k: nat)
    requires runs != [] && k < |runs|
    ensures Trace(runs)[k] == Trace(runs[..|runs| - 1])[k]
    ensures k == |runs| - 1 ==> Trace(runs)[k + 1] == RunStep(Trace(runs)[k], runs[k])
  {
  }

  lemma {:induction false} TraceSteps(runs: seq<RunInput>, k: nat)
    requires k < |runs|
    ensures Trace(runs)[k + 1] == RunStep(Trace(runs)[k], runs[k])
  {
    TraceNext(runs, k);
    if k < |runs| - 1 {
      TraceNext(runs, k + 1);
      TraceSteps(runs[..|runs| - 1], k);
    }
  }

  lemma {:induction false} TraceStarts(runs: seq<RunInput>)
    ensures Trace(runs)[0] == FRESH
  {
    if runs != [] {
      TraceNext(runs, 0);
      TraceStarts(runs[..|runs| - 1]);
    }
  }

  lemma {:induction false} TraceIsHistory(runs: seq<RunInput>)
    requires forall i, j :: 0 <= i <= j < |runs| ==> runs[i].now <= runs[j].now
    ensures IsHistory(runs, Trace(runs))
  {
    var trace := Trace(runs);
    TraceStarts(runs);
    forall i | 0 <= i < |runs| ensures Follows(runs, trace, i) {
      TraceSteps(runs, i);
    }
  }

  lemma TraceOf(runs: seq<RunInput>) returns (t: seq<State>)
    requires forall i, j :: 0 <= i <= j < |runs| ==> runs[i].now <= runs[j].now
    ensures IsHistory(runs, t)
  {
    t := Trace(runs);
    TraceIsHistory(runs);
  }

  function CountOf(observations: seq<Observation>, id: string): (r: nat)
    ensures r > 0 <==> Sees(observations, id)
  {
    if observations == [] then 0
    else
      var n := |observations| - 1;
      assert Sees(observations, id) <==> Sees(observations[..n], id) || observations[n].id == id by {
        assert forall i :: 0 <= i < n ==> observations[..n][i] == observations[i];
      }
      CountOf(observations[..n], id) + if observations[n].id == id then 1 else 0
  }

  ghost function BeatOf(observations: seq<Observation>, now: int, id: string): Beat {
    Beat(now, if Alerts(observations, id) then 1 else CountOf(observations, id), Alerts(observations, id))
  }

  /** The runs as one identity meets them. */
  ghost function LifeOf(runs: seq<RunInput>, trace: seq<State>, id: string): (h: seq<Beat>)
    requires |trace| == |runs| + 1
    ensures |h| == |runs|
  {
    seq(|runs|, k requires 0 <= k < |runs| => BeatOf(Assessed(trace[k], runs[k]), runs[k].now, id))
  }

  ghost function RunDiff(runs: seq<RunInput>, trace: seq<State>, k: nat): DiffResult
    requires k < |runs| && k < |trace|
  {
    DiffOf(Assessed(trace[k], runs[k]), trace[k].latest, trace[k].seen)
  }

  function DatesOf(record: Option<SeenRecord>): Option<Dates> {
    if record.None? then None
    else
      var r := record.value;
      Some(Dates(r.firstSeen, r.lastSeen, r.count, r.lastActionable, r.resolvedAt))
  }

  // ----- one run --------------------------------------------------------

  lemma {:induction false} QuietFoldDates(observations: seq<Observation>, id: string, start: Option<SeenRecord>,
                                          now: int)
    ensures var count := CountOf(observations, id);
      var r := QuietFold(observations, id, start, now);
      if count == 0 then r == start
      else
        DatesOf(r) == Some(
          if start.None? then Dates(At(now), At(now), count, None, Missing)
          else DatesOf(start).value.(lastSeen := At(now), count := start.value.count + count))
  {
    if observations != [] { QuietFoldDates(observations[..|observations| - 1], id, start, now); }
  }

  lemma PrunedAt(seen: Seen, now: int, id: string)
    ensures var record := Get(seen, id);
      Get(Pruned(seen, now, RETENTION_DAYS), id) ==
      if record.Some? && Stale(record.value, now, RETENTION_DAYS) then None else record
  {
  }

  /** The record of one identity goes through the life's state machine. */
  lemma RecordFollowsLife(seen: Seen, observations: seq<Observation>, previous: seq<PrevObservation>, now: int,
                          id: string)
    ensures DatesOf(Get(Pruned(NextSeen(seen, observations, previous, now), now, RETENTION_DAYS), id))
         == DateStep(DatesOf(Get(seen, id)), WasActionable(previous, id), BeatOf(observations, now, id))
  {
    var next := NextSeen(seen, observations, previous, now);
    var was := WasActionable(previous, id);
    NextSeenAt(seen, observations, previous, now, id);
    PrunedAt(next, now, id);
    NextRecordFollowsLife(Get(seen, id), observations, was, now, id);
  }

  lemma NextRecordFollowsLife(prior: Option<SeenRecord>, observations: seq<Observation>, was: bool, now: int,
                              id: string)
    ensures var record := NextRecord(prior, observations, id, was, now);
      DatesOf(if record.Some? && Stale(record.value, now, RETENTION_DAYS) then None else record)
      == DateStep(DatesOf(prior), was, BeatOf(observations, now, id))
  {
    assert LastAlert(observations, id).Some? <==> Alerts(observations, id);
    if !Alerts(observations, id) {
      QuietFoldDates(observations, id, MarkResolved(prior, was, now), now);
    }
  }

  lemma EntriesRemember(observations: seq<Observation>, id: string)
    ensures WasActionable(Entries(observations), id) <==> Alerts(observations, id)
  {
    var entries := Entries(observations);
    assert forall i :: 0 <= i < |observations| ==>
      entries[i].id == observations[i].id && entries[i].severity == observations[i].severity;
  }

  lemma AssessedSees(st: State, input: RunInput, id: string)
    ensures Sees(Assessed(st, input), id) <==> Sees(input.observations, id)
  {
    var assessed := Assessed(st, input);
    assert |assessed| == |input.observations|;
    assert forall i :: 0 <= i < |assessed| ==> assessed[i].id == input.observations[i].id;
  }

  // ----- all runs -------------------------------------------------------

  lemma LifeIsLife(runs: seq<RunInput>, trace: seq<State>, id: string)
    requires IsHistory(runs, trace)
    ensures IsLife(LifeOf(runs, trace, id))
  {
  }

  /** In every state reached by completed saves, the state files hold exactly what
      the life of an identity amounts to. */
  lemma {:induction false} StateFollowsLife(runs: seq<RunInput>, trace: seq<State>, n: nat, id: string)
    requires IsHistory(runs, trace) && n <= |runs|
    ensures var h := LifeOf(runs, trace, id);
      && DatesOf(Get(trace[n].seen, id)) == DatesAt(h, n)
      && (WasActionable(trace[n].latest, id) <==> n > 0 && h[n - 1].alerted)
  {
    if n > 0 {
      StateFollowsLife(runs, trace, n - 1, id);
      var st, input := trace[n - 1], runs[n - 1];
      assert Follows(runs, trace, n - 1);
      RecordFollowsLife(st.seen, Assessed(st, input), st.latest, input.now, id);
      EntriesRemember(Assessed(st, input), id);
    }
  }

  lemma BeatSees(runs: seq<RunInput>, trace: seq<State>, j: nat, id: string)
    requires IsHistory(runs, trace) && j < |runs|
    ensures LifeOf(runs, trace, id)[j].sightings > 0 <==> Sees(runs[j].observations, id)
  {
    AssessedSees(trace[j], runs[j], id);
    AlertsAreSeen(Assessed(trace[j], runs[j]), id);
  }

  lemma AlertsAreSeen(observations: seq<Observation>, id: string)
    ensures Alerts(observations, id) ==> Sees(observations, id)
  {
  }

  /** The saved record tells the whole history of its lifetime, and exists exactly
      as long as some run within the retention observed the id. */
  lemma SavedRecordTellsHistory(runs: seq<RunInput>, trace: seq<State>, n: nat, id: string)
    requires IsHistory(runs, trace) && n <= |runs|
    ensures id in trace[n].seen <==> SeenLately(runs, n, id)
    ensures var h := LifeOf(runs, trace, id);
      && (id in trace[n].seen <==> Born(h, n).Some?)
      && (id in trace[n].seen ==> DatesTell(h, Born(h, n).value, n, DatesOf(Some(trace[n].seen[id])).value))
  {
    var h := LifeOf(runs, trace, id);
    LifeIsLife(runs, trace, id);
    StateFollowsLife(runs, trace, n, id);
    DatesSummarise(h, n);
    if n > 0 {
      AliveIffSeenLately(h, n);
      SeenLatelyInLife(runs, trace, n, id);
    }
  }

  ghost predicate SeenLately(runs: seq<RunInput>, n: nat, id: string)
    requires n <= |runs|
  {
    exists j :: 0 <= j < n && Sees(runs[j].observations, id) && runs[j].now >= runs[n - 1].now - RETENTION
  }

  lemma SeenLatelyInLife(runs: seq<RunInput>, trace: seq<State>, n: nat, id: string)
    requires IsHistory(runs, trace) && 0 < n <= |runs|
    ensures var h := LifeOf(runs, trace, id);
      SeenLately(runs, n, id) <==> exists j :: 0 <= j < n && h[j].sightings > 0 && h[j].now >= h[n - 1].now - RETENTION
  {
    var h := LifeOf(runs, trace, id);
    forall j | 0 <= j < n ensures h[j].sightings > 0 <==> Sees(runs[j].observations, id) {
      BeatSees(runs, trace, j, id);
    }
    if SeenLately(runs, n, id) {
      var j :| 0 <= j < n && Sees(runs[j].observations, id) && runs[j].now >= runs[n - 1].now - RETENTION;
      assert h[j].sightings > 0 && h[j].now >= h[n - 1].now - RETENTION;
    }
  }

  /** With distinct ids the count is the number of runs that observed the id
      since its record was created. */
  lemma CountIsRunsObserved(runs: seq<RunInput>, trace: seq<State>, n: nat, id: string)
    requires IsHistory(runs, trace) && n <= |runs| && id in trace[n].seen
    requires forall k :: 0 <= k < |runs| ==> DistinctIds(runs[k].observations)
    ensures Born(LifeOf(runs, trace, id), n).Some?
    ensures var b := Born(LifeOf(runs, trace, id), n).value;
      trace[n].seen[id].count == |set k | b <= k < n && Sees(runs[k].observations, id)|
  {
    var h := LifeOf(runs, trace, id);
    LifeIsLife(runs, trace, id);
    LifeCountsOnce(runs, trace, id);
    StateFollowsLife(runs, trace, n, id);
    CountIsRuns(h, n);
    ObservedRunsAgree(runs, trace, Born(h, n).value, n, id);
  }

  lemma LifeCountsOnce(runs: seq<RunInput>, trace: seq<State>, id: string)
    requires IsHistory(runs, trace)
    requires forall k :: 0 <= k < |runs| ==> DistinctIds(runs[k].observations)
    ensures var h := LifeOf(runs, trace, id);
      forall i :: 0 <= i < |h| ==> h[i].sightings <= 1
  {
    var h := LifeOf(runs, trace, id);
    forall i | 0 <= i < |h| ensures h[i].sightings <= 1 {
      AssessedDistinct(trace[i], runs[i]);
      DistinctCount(Assessed(trace[i], runs[i]), id);
    }
  }

  lemma ObservedRunsAgree(runs: seq<RunInput>, trace: seq<State>, b: nat, n: nat, id: string)
    requires IsHistory(runs, trace) && b <= n <= |runs|
    ensures var h := LifeOf(runs, trace, id);
      (set k | b <= k < n && h[k].sightings > 0) == (set k | b <= k < n && Sees(runs[k].observations, id))
  {
    var h := LifeOf(runs, trace, id);
    forall k | b <= k < n ensures h[k].sightings > 0 <==> Sees(runs[k].observations, id) {
      BeatSees(runs, trace, k, id);
    }
  }

  lemma AssessedDistinct(st: State, input: RunInput)
    requires DistinctIds(input.observations)
    ensures DistinctIds(Assessed(st, input))
  {
    var assessed := Assessed(st, input);
    assert |assessed| == |input.observations|;
    assert forall i :: 0 <= i < |assessed| ==> assessed[i].id == input.observations[i].id;
  }

  lemma {:induction false} DistinctCount(observations: seq<Observation>, id: string)
    requires DistinctIds(observations)
    ensures CountOf(observations, id) <= 1
  {
    if observations != [] {
      var n := |observations| - 1;
      DistinctCount(observations[..n], id);
      if observations[n].id == id {
        assert !Sees(observations[..n], id);
      }
    }
  }

  // ----- the lists over the whole history -------------------------------

  /** An alerting id is persisting iff the last run had it, new iff no run of its
      lifetime had it, and reopened iff an earlier run of its lifetime had it but
      the last run did not. Pruning ends a lifetime and so restarts the history. */
  lemma ListsTellHistory(runs: seq<RunInput>, trace: seq<State>, n: nat, id: string)
    requires IsHistory(runs, trace) && n < |runs|
    ensures var h, d := LifeOf(runs, trace, id), RunDiff(runs, trace, n);
      && (id in d.persisting <==> h[n].alerted && n > 0 && h[n - 1].alerted)
      && (id in d.newIds <==> h[n].alerted && !AlertedInLifetime(h, n))
      && (id in d.reopened <==> h[n].alerted && !(n > 0 && h[n - 1].alerted) && AlertedInLifetime(h, n))
      && (id in d.reopened <==> Reopens(h, n))
      && (id in d.resolved <==> !h[n].alerted && n > 0 && h[n - 1].alerted)
  {
    var h, st := LifeOf(runs, trace, id), trace[n];
    LifeIsLife(runs, trace, id);
    StateFollowsLife(runs, trace, n, id);
    DatesSummarise(h, n);
    ListsPartitionAlerts(Assessed(st, runs[n]), st.latest, st.seen);
  }

  lemma {:induction false} EntryOf(observations: seq<Observation>, i: nat)
    requires DistinctIds(observations) && i < |observations|
    ensures LastEntry(Entries(observations), observations[i].id)
         == Some(PrevObservation(observations[i].id, observations[i].severity))
  {
    var n := |observations| - 1;
    assert Entries(observations)[..n] == Entries(observations[..n]);
    if i < n {
      assert observations[..n][i] == observations[i];
      EntryOf(observations[..n], i);
    }
  }

  lemma EntrySeverity(observations: seq<Observation>, id: string)
    requires DistinctIds(observations) && Alerts(observations, id)
    ensures SeverityBefore(Entries(observations), id) == SeverityNow(observations, id)
  {
    var i :| 0 <= i < |observations| && observations[i].id == id && Actionable(observations[i].severity);
    EntryOf(observations, i);
    OneSighting(observations, i, None, 0);
  }

  /** With distinct ids, worsened are exactly the ids that went from warn in the last
      run to crit in this one, and improved those that went the other way. */
  lemma MovesTellHistory(runs: seq<RunInput>, trace: seq<State>, n: nat, t: Transition)
    requires IsHistory(runs, trace) && 0 < n < |runs| && DistinctIds(runs[n - 1].observations)
    ensures var d := RunDiff(runs, trace, n);
      var before := SeverityNow(Assessed(trace[n - 1], runs[n - 1]), t.id);
      var after := SeverityNow(Assessed(trace[n], runs[n]), t.id);
      && (t in d.worsened <==> t == Transition(t.id, Warn, Crit) && before == Warn && after == Crit)
      && (t in d.improved <==> t == Transition(t.id, Crit, Warn) && before == Crit && after == Warn)
  {
    var last, current := Assessed(trace[n - 1], runs[n - 1]), Assessed(trace[n], runs[n]);
    MovesOfPersisting(current, trace[n].latest, trace[n].seen, t);
    assert Alerts(current, t.id) <==> Actionable(SeverityNow(current, t.id));
    assert Follows(runs, trace, n - 1);
    AssessedDistinct(trace[n - 1], runs[n - 1]);
    FactsRemember(last, t.id);
  }

  lemma FactsRemember(observations: seq<Observation>, id: string)
    requires DistinctIds(observations)
    ensures WasActionable(Entries(observations), id) <==> Actionable(SeverityNow(observations, id))
    ensures WasActionable(Entries(observations), id) ==>
      SeverityBefore(Entries(observations), id) == SeverityNow(observations, id)
  {
    EntriesRemember(observations, id);
    assert Alerts(observations, id) <==> Actionable(SeverityNow(observations, id));
    if Alerts(observations, id) { EntrySeverity(observations, id); }
  }

  /** Some run since the id's record was created had it at warn or crit. */
  ghost predicate AlertedInLifetime(h: seq<Beat>, n: nat)
    requires n <= |h|
  {
    Born(h, n).Some? && exists i :: Born(h, n).value <= i < n && h[i].alerted
  }

  /** What the last run had at warn or crit has a record of that very run, so that
      run's pruning kept it; a record that ever alerted is marked resolved iff the
      last run did not have it; first-seen, last-actionable and last-seen are in
      order. */
  lemma SavedStateIsConsistent(runs: seq<RunInput>, trace: seq<State>, n: nat, id: string)
    requires IsHistory(runs, trace) && 0 < n <= |runs|
    ensures var st := trace[n];
      && (WasActionable(st.latest, id) ==>
            id in st.seen && st.seen[id].lastActionable == Some(At(runs[n - 1].now)))
      && (id in st.seen ==>
            var r := st.seen[id];
            && r.firstSeen.At? && r.lastSeen.At? && r.firstSeen.time <= r.lastSeen.time <= runs[n - 1].now
            && (r.lastActionable.Some? ==>
                  && r.lastActionable.value.At?
                  && r.firstSeen.time <= r.lastActionable.value.time <= r.lastSeen.time
                  && (r.resolvedAt == Missing <==> WasActionable(st.latest, id))))
  {
    var h := LifeOf(runs, trace, id);
    LifeIsLife(runs, trace, id);
    StateFollowsLife(runs, trace, n, id);
    DatesSummarise(h, n);
    if Born(h, n).Some? {
      DatesInOrder(h, Born(h, n).value, n, DatesAt(h, n).value);
    }
  }

  lemma DatesInOrder(h: seq<Beat>, b: nat, n: nat, d: Dates)
    requires IsLife(h) && b < n <= |h| && Born(h, n) == Some(b) && DatesTell(h, b, n, d)
    ensures d.firstSeen.At? && d.lastSeen.At? && d.firstSeen.time <= d.lastSeen.time <= h[n - 1].now
    ensures d.lastActionable.Some? ==>
      && d.lastActionable.value.At?
      && d.firstSeen.time <= d.lastActionable.value.time <= d.lastSeen.time
  {
    var start, alerted := OccurrenceStart(h, b, n), LastAlerted(h, b, n);
    assert Reopens(h, start) ==> h[start].alerted;
    assert h[start].sightings > 0;
    assert start <= LastSighting(h, n).value;
    if alerted.Some? {
      assert start <= alerted.value <= LastSighting(h, n).value;
    }
  }
}
