/** What rules that look back in time (`new_only`, `min_age_days`) do over whole
    sequences of runs. */
module AlertPolicy {
  import opened Ordering
  import opened Severity
  import opened Diff
  import opened DiffLaws
  import opened HealthRun
  import opened Lifetime
  import opened History

  // ----- new_only -------------------------------------------------------

  /** Every observation of the id in this run falls under a new_only rule. */
  ghost predicate UnderNewOnly(input: RunInput, id: string) {
    forall i :: 0 <= i < |input.observations| && input.observations[i].id == id ==>
      RuleFor(input.rules, input.observations[i].kind).kind.NewOnly?
  }

  lemma NewOnlyNeedsUnknown(st: State, input: RunInput, id: string)
    requires UnderNewOnly(input, id) && Alerts(Assessed(st, input), id)
    ensures st.seen != map[] && id !in st.seen
  {
    var assessed := Assessed(st, input);
    var i :| 0 <= i < |assessed| && assessed[i].id == id && Actionable(assessed[i].severity);
    assert assessed[i] == Classified(Attached(input.observations[i], st.seen), input.rules,
                                     CandidateNew(input.observations, st.seen), input.now);
    assert input.observations[i].id == id;
  }

  /** When an id under a new_only rule alerts, something but not this id was known
      before: never in the first run, always listed as new, and always the run in
      which its record is created. */
  lemma NewOnlyAlertsAtBirth(runs: seq<RunInput>, trace: seq<State>, n: nat, id: string)
    requires IsHistory(runs, trace) && n < |runs|
    requires UnderNewOnly(runs[n], id)
    requires LifeOf(runs, trace, id)[n].alerted
    ensures var h, d := LifeOf(runs, trace, id), RunDiff(runs, trace, n);
      && n > 0 && trace[n].seen != map[]
      && Born(h, n).None? && Born(h, n + 1) == Some(n)
      && id in d.newIds && id !in d.persisting && id !in d.reopened
  {
    var h := LifeOf(runs, trace, id);
    NewOnlyNeedsUnknown(trace[n], runs[n], id);
    LifeIsLife(runs, trace, id);
    StateFollowsLife(runs, trace, n, id);
    DatesSummarise(h, n);
    ListsTellHistory(runs, trace, n, id);
  }

  /** A new_only observation is raised iff its id was not observed within the retention, and
      some other was: while nothing is known, nothing is new. */
  lemma NewOnlyAlertsIff(runs: seq<RunInput>, trace: seq<State>, n: nat, i: nat)
    requires IsHistory(runs, trace) && n < |runs| && i < |runs[n].observations|
    requires RaisesNew(RuleFor(runs[n].rules, runs[n].observations[i].kind))
    ensures |Assessed(trace[n], runs[n])| == |runs[n].observations|
    ensures Actionable(Assessed(trace[n], runs[n])[i].severity) <==>
      !SeenLately(runs, n, runs[n].observations[i].id) && exists other :: SeenLately(runs, n, other)
  {
    SavedRecordTellsHistory(runs, trace, n, runs[n].observations[i].id);
    SomethingKnown(runs, trace, n);
    NewOnlyRaised(trace[n], runs[n], i);
  }

  predicate RaisesNew(rule: Rule) {
    rule.kind.NewOnly? && rule.subjects == [] && Actionable(LevelOf(rule.level))
  }

  lemma NewOnlyRaised(st: State, input: RunInput, i: nat)
    requires i < |input.observations| && RaisesNew(RuleFor(input.rules, input.observations[i].kind))
    ensures |Assessed(st, input)| == |input.observations|
    ensures Actionable(Assessed(st, input)[i].severity) <==> st.seen != map[] && input.observations[i].id !in st.seen
  {
    var o, unknown := input.observations[i], CandidateNew(input.observations, st.seen);
    assert Assessed(st, input)[i] == Classified(Attached(o, st.seen), input.rules, unknown, input.now);
    assert o.id in unknown <==> st.seen != map[] && o.id !in st.seen;
  }

  lemma SomethingKnown(runs: seq<RunInput>, trace: seq<State>, n: nat)
    requires IsHistory(runs, trace) && n <= |runs|
    ensures trace[n].seen != map[] <==> exists id :: SeenLately(runs, n, id)
  {
    if trace[n].seen != map[] {
      assert trace[n].seen.Keys != {};
      var id :| id in trace[n].seen.Keys;
      SavedRecordTellsHistory(runs, trace, n, id);
    }
    if id :| SeenLately(runs, n, id) {
      SavedRecordTellsHistory(runs, trace, n, id);
    }
  }

  /** In one lifetime of its record, a new_only id alerts in the birth run or not
      at all. */
  lemma NewOnlyOncePerLifetime(runs: seq<RunInput>, trace: seq<State>, m: nat, n: nat, id: string)
    requires IsHistory(runs, trace) && m < n <= |runs|
    requires UnderNewOnly(runs[m], id)
    ensures var h := LifeOf(runs, trace, id);
      Born(h, n).Some? && Born(h, n).value <= m && h[m].alerted ==> Born(h, n) == Some(m)
  {
    var h := LifeOf(runs, trace, id);
    if Born(h, n).Some? && Born(h, n).value < m && h[m].alerted {
      SameLifetime(h, m, n);
      NewOnlyAlertsAtBirth(runs, trace, m, id);
      assert false;
    }
  }

  // ----- min_age_days ---------------------------------------------------

  /** Every observation of the id in this run comes without a date of its own and
      falls under a rule that waits at least `days`. */
  ghost predicate UnderAgeGate(input: RunInput, id: string, days: real) {
    forall i :: 0 <= i < |input.observations| && input.observations[i].id == id ==>
      && input.observations[i].firstSeen == Missing
      && AgeGated(RuleFor(input.rules, input.observations[i].kind), days)
  }

  function DaysBetween(from: int, to: int): real {
    (to - from) as real / SECONDS_PER_DAY as real
  }

  /** An age-gated id without a record, or with one that is too young, is info. */
  lemma GateHolds(st: State, input: RunInput, id: string, days: real)
    requires UnderAgeGate(input, id, days)
    requires id in st.seen ==> st.seen[id].firstSeen.At? && DaysBetween(st.seen[id].firstSeen.time, input.now) < days
    ensures !Alerts(Assessed(st, input), id)
  {
    var assessed := Assessed(st, input);
    forall i | 0 <= i < |assessed| && assessed[i].id == id ensures assessed[i].severity == Info {
      var o := Attached(input.observations[i], st.seen);
      var known := CandidateNew(input.observations, st.seen);
      assert assessed[i] == Classified(o, input.rules, known, input.now);
      assert input.observations[i].id == id;
      YoungStaysInfo(o, RuleFor(input.rules, o.kind), days, id in known, input.now);
    }
  }

  /** Once a run lists an id as reopened, no later run that comes less than the
      gate after it puts the id at warn or crit, whatever happened in between. */
  lemma ReopenedWaitsForGate(runs: seq<RunInput>, trace: seq<State>, k: nat, j: nat, id: string, days: real)
    requires IsHistory(runs, trace) && k < j < |runs|
    requires id in RunDiff(runs, trace, k).reopened
    requires UnderAgeGate(runs[j], id, days) && DaysBetween(runs[k].now, runs[j].now) < days
    ensures !LifeOf(runs, trace, id)[j].alerted
  {
    ListsTellHistory(runs, trace, k, id);
    ReopeningWaits(runs, trace, LifeOf(runs, trace, id), k, j, id, days);
  }

  lemma ReopeningWaits(runs: seq<RunInput>, trace: seq<State>, h: seq<Beat>, k: nat, j: nat, id: string, days: real)
    requires IsHistory(runs, trace) && h == LifeOf(runs, trace, id) && k < j < |runs| && Reopens(h, k)
    requires UnderAgeGate(runs[j], id, days) && DaysBetween(runs[k].now, runs[j].now) < days
    ensures !h[j].alerted
  {
    LifeIsLife(runs, trace, id);
    StateFollowsLife(runs, trace, j, id);
    DatesSummarise(h, j);
    if id in trace[j].seen {
      var start := OccurrenceStart(h, Born(h, j).value, j);
      assert k <= start;
      assert h[k].now <= h[start].now;
      assert trace[j].seen[id].firstSeen == At(h[start].now);
      LaterIsYounger(runs[k].now, h[start].now, runs[j].now);
    }
    GateHolds(trace[j], runs[j], id, days);
  }

  lemma LaterIsYounger(a: int, b: int, to: int)
    requires a <= b
    ensures DaysBetween(b, to) <= DaysBetween(a, to)
  {
  }

  /** From run k on the runs come closer together than the gate, and all of them
      classify the id by an age-gated rule. */
  ghost predicate GatedRuns(runs: seq<RunInput>, k: nat, j: nat, id: string, days: real)
    requires j < |runs|
  {
    forall i :: k < i <= j ==> GatedRun(runs, i, id, days)
  }

  ghost predicate GatedRun(runs: seq<RunInput>, i: nat, id: string, days: real)
    requires 0 < i < |runs|
  {
    UnderAgeGate(runs[i], id, days) && DaysBetween(runs[i - 1].now, runs[i].now) < days
  }

  /** The lifetime that run j finds had begun by run k. */
  ghost predicate OneLife(h: seq<Beat>, k: nat, j: nat)
    requires j <= |h|
  {
    Born(h, j).Some? && Born(h, j).value <= k
  }

  /** What follows for a condition that stays: after one reopening, while the runs
      come closer together than the gate, it is never persisting again in that
      lifetime. Each alert it still raises is another reopening. */
  lemma GatedAlertsReopen(runs: seq<RunInput>, trace: seq<State>, k: nat, j: nat, id: string, days: real)
    requires IsHistory(runs, trace) && k <= j < |runs|
    requires GatedRuns(runs, k, j, id, days) && OneLife(LifeOf(runs, trace, id), k, j)
    ensures id in RunDiff(runs, trace, k).reopened ==>
      && (LifeOf(runs, trace, id)[j].alerted ==> id in RunDiff(runs, trace, j).reopened)
      && id !in RunDiff(runs, trace, j).persisting
  {
    var h := LifeOf(runs, trace, id);
    ListsTellHistory(runs, trace, k, id);
    ListsTellHistory(runs, trace, j, id);
    forall i | k < i <= j ensures QuietAfter(h, i) {
      assert GatedRun(runs, i, id, days);
      QuietAfterReopening(runs, trace, h, i, id, days);
    }
    if Reopens(h, k) { AlertsKeepReopening(h, k, j); }
  }

  lemma QuietAfterReopening(runs: seq<RunInput>, trace: seq<State>, h: seq<Beat>, i: nat, id: string, days: real)
    requires IsHistory(runs, trace) && h == LifeOf(runs, trace, id)
    requires 0 < i < |runs| && GatedRun(runs, i, id, days)
    ensures QuietAfter(h, i)
  {
    if Reopens(h, i - 1) { ReopeningWaits(runs, trace, h, i - 1, i, id, days); }
  }

  /** The observation raises an alert as soon as it is `days` old: a `present` rule
      applies, or a `threshold` rule one of whose alert limits it breaches. */
  predicate Waits(o: Observation, rule: Rule, days: real) {
    && rule.minAgeDays == Some(days)
    && (rule.subjects == [] || o.subject in rule.subjects)
    && (|| (rule.kind.Present? && Actionable(LevelOf(rule.level)))
        || (rule.kind.Threshold? && Numeric(o.value).Some?
            && (Breached(rule.direction, Numeric(o.value).value, rule.crit)
                || Breached(rule.direction, Numeric(o.value).value, rule.warn))))
  }

  ghost predicate UnderWaiting(input: RunInput, id: string, days: real) {
    forall i :: 0 <= i < |input.observations| && input.observations[i].id == id ==>
      Waits(input.observations[i], RuleFor(input.rules, input.observations[i].kind), days)
  }

  lemma WaitingAlertsByAge(st: State, input: RunInput, i: nat, days: real)
    requires i < |input.observations|
    requires Waits(input.observations[i], RuleFor(input.rules, input.observations[i].kind), days)
    requires var id := input.observations[i].id; id in st.seen && st.seen[id].firstSeen.At?
    ensures |Assessed(st, input)| == |input.observations|
    ensures var id := input.observations[i].id;
      && Assessed(st, input)[i].id == id
      && (Actionable(Assessed(st, input)[i].severity) <==> DaysBetween(st.seen[id].firstSeen.time, input.now) >= days)
  {
    var o := Attached(input.observations[i], st.seen);
    assert Assessed(st, input)[i] == Classified(o, input.rules, CandidateNew(input.observations, st.seen), input.now);
    ClassifiedWaiting(o, RuleFor(input.rules, o.kind), days,
                      o.id in CandidateNew(input.observations, st.seen), input.now);
  }

  lemma ClassifiedWaiting(o: Observation, rule: Rule, days: real, isNew: bool, now: int)
    requires Waits(o, rule, days) && o.firstSeen.At?
    ensures Actionable(Classify(o, rule, isNew, now).severity) <==> DaysBetween(o.firstSeen.time, now) >= days
  {
  }

  /** The gate does not hold in the reopening run itself: classification still
      sees the age of the earlier occurrence. A waiting condition that comes back
      alerts at once if and only if that age has reached the gate. */
  lemma ReopeningRunSeesOldAge(st: State, input: RunInput, id: string, days: real)
    requires Sees(input.observations, id) && UnderWaiting(input, id, days)
    requires id in st.seen && st.seen[id].firstSeen.At? && st.seen[id].lastActionable.Some?
    requires !WasActionable(st.latest, id)
    ensures id in DiffOf(Assessed(st, input), st.latest, st.seen).reopened
       <==> DaysBetween(st.seen[id].firstSeen.time, input.now) >= days
  {
    var assessed := Assessed(st, input);
    ListsPartitionAlerts(assessed, st.latest, st.seen);
    var k :| 0 <= k < |input.observations| && input.observations[k].id == id;
    WaitingAlertsByAge(st, input, k, days);
    if i :| 0 <= i < |assessed| && assessed[i].id == id && Actionable(assessed[i].severity) {
      AssessedIds(st, input, i);
      WaitingAlertsByAge(st, input, i, days);
    }
  }

  /** A condition that comes without a date of its own, under a rule that waits. */
  ghost predicate UndatedWaiting(input: RunInput, id: string, days: real) {
    && UnderWaiting(input, id, days) && Sees(input.observations, id)
    && forall i :: 0 <= i < |input.observations| && input.observations[i].id == id ==>
         input.observations[i].firstSeen == Missing
  }

  lemma WaitingAlertsIff(st: State, input: RunInput, id: string, days: real)
    requires UndatedWaiting(input, id, days) && (id in st.seen ==> st.seen[id].firstSeen.At?)
    ensures Alerts(Assessed(st, input), id)
       <==> id in st.seen && DaysBetween(st.seen[id].firstSeen.time, input.now) >= days
  {
    var assessed := Assessed(st, input);
    if id in st.seen {
      var k :| 0 <= k < |input.observations| && input.observations[k].id == id;
      WaitingAlertsByAge(st, input, k, days);
      if i :| 0 <= i < |assessed| && assessed[i].id == id && Actionable(assessed[i].severity) {
        AssessedIds(st, input, i);
        WaitingAlertsByAge(st, input, i, days);
      }
    } else {
      GateHolds(st, input, id, days);
    }
  }

  /** What the gate measures, over every history: not how long the condition has held,
      but how long ago the identity was first observed in its lifetime, quiet or not, or
      last listed as reopened. */
  lemma GateMeasuresOccurrence(runs: seq<RunInput>, trace: seq<State>, n: nat, id: string, days: real)
    requires IsHistory(runs, trace) && n < |runs| && UndatedWaiting(runs[n], id, days)
    ensures var h := LifeOf(runs, trace, id);
      h[n].alerted <==>
        && Born(h, n).Some?
        && DaysBetween(h[OccurrenceStart(h, Born(h, n).value, n)].now, runs[n].now) >= days
  {
    var h := LifeOf(runs, trace, id);
    LifeIsLife(runs, trace, id);
    StateFollowsLife(runs, trace, n, id);
    DatesSummarise(h, n);
    WaitingAlertsIff(trace[n], runs[n], id, days);
  }

  lemma AssessedIds(st: State, input: RunInput, i: nat)
    requires i < |Assessed(st, input)|
    ensures |Assessed(st, input)| == |input.observations|
    ensures Assessed(st, input)[i].id == input.observations[i].id
  {
  }

  // A rule like that of pending security updates. The collector reports their number
  // every day, zero included.
  const WEEK_OLD := NO_RULE.(kind := Threshold, warn := Some(1.0), minAgeDays := Some(7.0))
  const UPDATES: Rules := map["security_updates" := WEEK_OLD]

  function Pending(count: real): Observation {
    Observation("x", "host", "security_updates", Info, Number(count, ""), Nil, Missing, false, None, None)
  }

  function OnDay(count: real, day: int): RunInput {
    RunInput([Pending(count)], UPDATES, day * SECONDS_PER_DAY)
  }

  lemma PendingWaits(count: real, day: int)
    ensures count > 1.0 ==> UndatedWaiting(OnDay(count, day), "x", 7.0)
    ensures UnderAgeGate(OnDay(count, day), "x", 7.0)
  {
    assert OnDay(count, day).observations[0].id == "x";
  }

  /** On a given day the updates alert iff there are some and the record is a week old. */
  lemma PendingBeat(st: State, count: real, day: int)
    requires "x" in st.seen ==> st.seen["x"].firstSeen.At?
    ensures var assessed := Assessed(st, OnDay(count, day));
      && (Alerts(assessed, "x") <==>
            && count > 1.0 && "x" in st.seen
            && DaysBetween(st.seen["x"].firstSeen.time, day * SECONDS_PER_DAY) >= 7.0)
      && BeatOf(assessed, day * SECONDS_PER_DAY, "x") == Beat(day * SECONDS_PER_DAY, 1, Alerts(assessed, "x"))
  {
    var assessed := Assessed(st, OnDay(count, day));
    assert |assessed| == 1 && assessed[0].id == "x";
    assert CountOf(assessed[..0], "x") == 0;
    PendingWaits(count, day);
    if count > 1.0 {
      WaitingAlertsIff(st, OnDay(count, day), "x", 7.0);
    } else {
      assert Quieted(assessed[0]);
    }
  }

  predicate Quieted(o: Observation) {
    !Actionable(o.severity)
  }

  // Updates are pending on day 0, alert on day 8, are gone on day 9 and back on day 10.
  function FourRuns(): seq<RunInput> {
    [OnDay(2.0, 0), OnDay(2.0, 8), OnDay(0.0, 9), OnDay(2.0, 10)]
  }

  // None are pending on day 0, and the first on day 8.
  function TwoRuns(): seq<RunInput> {
    [OnDay(0.0, 0), OnDay(2.0, 8)]
  }

  const EIGHT := At(8 * SECONDS_PER_DAY)
  const NINE := At(9 * SECONDS_PER_DAY)

  /** Run n meets the updates `count` strong on `day`, and their record from day 0 on. */
  lemma PendingRun(runs: seq<RunInput>, t: seq<State>, h: seq<Beat>, n: nat, count: real, day: int)
    requires IsHistory(runs, t) && h == LifeOf(runs, t, "x") && n < |runs| && runs[n] == OnDay(count, day)
    requires var dates := DatesAt(h, n); if n == 0 then dates.None? else dates.Some? && dates.value.firstSeen == At(0)
    ensures var alerts := n > 0 && count > 1.0 && DaysBetween(0, day * SECONDS_PER_DAY) >= 7.0;
      h[n] == Beat(day * SECONDS_PER_DAY, 1, alerts) && (Alerts(Assessed(t[n], runs[n]), "x") <==> alerts)
  {
    StateFollowsLife(runs, t, n, "x");
    PendingBeat(t[n], count, day);
  }

  lemma {:induction false} FirstDay(runs: seq<RunInput>, t: seq<State>, h: seq<Beat>, count: real)
    requires IsHistory(runs, t) && h == LifeOf(runs, t, "x") && |runs| > 0 && runs[0] == OnDay(count, 0)
    ensures h[0] == Beat(0, 1, false)
    ensures DatesAt(h, 1) == Some(Dates(At(0), At(0), 1, None, Missing))
  {
    assert DatesAt(h, 0) == None;
    PendingRun(runs, t, h, 0, count, 0);
  }

  lemma {:induction false} UpToDayNine(runs: seq<RunInput>, t: seq<State>, h: seq<Beat>)
    requires IsHistory(runs, t) && h == LifeOf(runs, t, "x") && |runs| > 2
    requires runs[0] == OnDay(2.0, 0) && runs[1] == OnDay(2.0, 8) && runs[2] == OnDay(0.0, 9)
    ensures !h[0].alerted && h[1].alerted && !h[2].alerted && !Alerts(Assessed(t[2], runs[2]), "x")
    ensures DatesAt(h, 3) == Some(Dates(At(0), NINE, 3, Some(EIGHT), NINE)) && Born(h, 3) == Some(0)
  {
    FirstDay(runs, t, h, 2.0);
    PendingRun(runs, t, h, 1, 2.0, 8);
    assert DatesAt(h, 2) == Some(Dates(At(0), EIGHT, 2, Some(EIGHT), Missing));
    PendingRun(runs, t, h, 2, 0.0, 9);
    assert Born(h, 1) == Some(0) && Born(h, 2) == Some(0);
  }

  lemma {:induction false} BackOnDayTen(runs: seq<RunInput>, t: seq<State>)
    requires IsHistory(runs, t) && |runs| > 3
    requires runs[0] == OnDay(2.0, 0) && runs[1] == OnDay(2.0, 8)
             && runs[2] == OnDay(0.0, 9) && runs[3] == OnDay(2.0, 10)
    ensures !Alerts(Assessed(t[2], runs[2]), "x") && "x" in RunDiff(runs, t, 3).reopened
    ensures UnderAgeGate(runs[3], "x", 7.0) && DaysBetween(runs[2].now, runs[3].now) < 7.0
  {
    PendingWaits(2.0, 10);
    var h := LifeOf(runs, t, "x");
    UpToDayNine(runs, t, h);
    PendingRun(runs, t, h, 3, 2.0, 10);
    ListsTellHistory(runs, t, 3, "x");
    assert Reopens(h, 3);
  }

  /** The comment's promise fails on a history: the updates that came back after
      day 9 are at once reported on day 10. */
  lemma ReturningIssueSkipsGate() returns (runs: seq<RunInput>, t: seq<State>)
    ensures runs == FourRuns() && IsHistory(runs, t) && UnderAgeGate(runs[3], "x", 7.0)
    ensures !Alerts(Assessed(t[2], runs[2]), "x") && DaysBetween(runs[2].now, runs[3].now) < 7.0
    ensures "x" in RunDiff(runs, t, 3).reopened
  {
    runs := FourRuns();
    t := TraceOf(runs);
    BackOnDayTen(runs, t);
  }

  lemma {:induction false} FirstOnDayEight(runs: seq<RunInput>, t: seq<State>)
    requires IsHistory(runs, t) && |runs| > 1 && runs[0] == OnDay(0.0, 0) && runs[1] == OnDay(2.0, 8)
    ensures "x" in RunDiff(runs, t, 1).newIds
  {
    var h := LifeOf(runs, t, "x");
    FirstDay(runs, t, h, 0.0);
    PendingRun(runs, t, h, 1, 2.0, 8);
    ListsTellHistory(runs, t, 1, "x");
  }

  /** No reopening is needed for it: a host that reports zero updates for a week and then
      its first ones is reported in that very run, as new. */
  lemma FirstBreachSkipsGate() returns (runs: seq<RunInput>, t: seq<State>)
    ensures runs == TwoRuns() && IsHistory(runs, t) && UnderAgeGate(runs[1], "x", 7.0)
    ensures runs[0].observations == [Pending(0.0)] && "x" in RunDiff(runs, t, 1).newIds
  {
    runs := TwoRuns();
    t := TraceOf(runs);
    FirstOnDayEight(runs, t);
    PendingWaits(2.0, 8);
  }
}
