/** What a seen-record says beside its dates: the kind, subject and severity it carries,
    told from the history of runs (tools/internal/healthreport/diff.go). */
module Records {
  import opened Ordering
  import opened Severity
  import opened Diff
  import opened DiffLaws
  import opened HealthRun
  import opened Lifetime
  import opened History
  import opened ReportDates

  ghost predicate IsFirst(observations: seq<Observation>, i: nat) {
    i < |observations| && forall j :: 0 <= j < i ==> observations[j].id != observations[i].id
  }

  /** The observation that an id's record is made from: the one its alert is listed for,
      or else the first. */
  ghost predicate Makes(observations: seq<Observation>, id: string, i: nat) {
    && i < |observations| && observations[i].id == id
    && if Alerts(observations, id) then StandsForAlert(observations, i) else IsFirst(observations, i)
  }

  ghost predicate Carries(r: SeenRecord, o: Observation) {
    r.kind == o.kind && r.subject == o.subject
  }

  lemma {:induction false} QuietFoldKeeps(observations: seq<Observation>, id: string, start: Option<SeenRecord>,
                                          now: int)
    requires start.Some?
    ensures var r := QuietFold(observations, id, start, now);
      && r.Some? && r.value.kind == start.value.kind && r.value.subject == start.value.subject
      && r.value.severity == start.value.severity
  {
    if observations != [] { QuietFoldKeeps(observations[..|observations| - 1], id, start, now); }
  }

  lemma {:induction false} QuietFoldMakes(observations: seq<Observation>, i: nat, now: int)
    requires IsFirst(observations, i)
    ensures var r := QuietFold(observations, observations[i].id, None, now);
      r.Some? && Carries(r.value, observations[i]) && r.value.severity == observations[i].severity
  {
    var n := |observations| - 1;
    if i < n {
      assert observations[..n][i] == observations[i];
      assert forall j :: 0 <= j < i ==> observations[..n][j] == observations[j];
      QuietFoldMakes(observations[..n], i, now);
    } else {
      assert forall j :: 0 <= j < n ==> observations[..n][j] == observations[j];
      assert observations[i].id !in Ids(observations[..n]);
      QuietFoldUnseen(observations[..n], observations[i].id, None, now);
    }
  }

  /** One run keeps kind and subject, and the severity unless the id alerts. */
  lemma RecordKept(prior: SeenRecord, observations: seq<Observation>, id: string, was: bool, now: int)
    ensures var r := NextRecord(Some(prior), observations, id, was, now);
      && r.Some? && r.value.kind == prior.kind && r.value.subject == prior.subject
      && r.value.severity == if Alerts(observations, id) then SeverityNow(observations, id) else prior.severity
  {
    NextRecordByAlert(Some(prior), observations, id, was, now);
    if !Alerts(observations, id) {
      QuietFoldKeeps(observations, id, MarkResolved(Some(prior), was, now), now);
    }
  }

  lemma RecordMade(observations: seq<Observation>, id: string, i: nat, was: bool, now: int)
    requires Makes(observations, id, i)
    ensures var r := NextRecord(None, observations, id, was, now);
      && r.Some? && Carries(r.value, observations[i]) && r.value.severity == observations[i].severity
      && (Alerts(observations, id) ==> observations[i].severity == SeverityNow(observations, id))
  {
    if Alerts(observations, id) {
      LastAlertStands(observations, i);
    } else {
      assert LastAlert(observations, id).None?;
      QuietFoldMakes(observations, i, now);
    }
  }

  // ----- over all runs --------------------------------------------------

  /** An id is remembered for sixty days after a run observed it. */
  lemma RememberedForSixtyDays(runs: seq<RunInput>, trace: seq<State>, n: nat, id: string)
    requires IsHistory(runs, trace) && 0 < n <= |runs|
    ensures id in trace[n].seen <==>
      exists j :: 0 <= j < n && Sees(runs[j].observations, id) && runs[n - 1].now - runs[j].now <= 60 * 24 * 60 * 60
  {
    SavedRecordTellsHistory(runs, trace, n, id);
  }

  /** What each run makes of what it gathered. */
  ghost function AllAssessed(runs: seq<RunInput>, trace: seq<State>): (r: seq<seq<Observation>>)
    requires |trace| == |runs| + 1
    ensures |r| == |runs|
  {
    seq(|runs|, k requires 0 <= k < |runs| => Assessed(trace[k], runs[k]))
  }

  /** The life of the id as those observations tell it. */
  ghost predicate Tells(all: seq<seq<Observation>>, h: seq<Beat>, id: string) {
    |h| == |all| && forall k :: 0 <= k < |h| ==> (h[k].alerted <==> Alerts(all[k], id))
  }

  ghost predicate MadeBy(observations: seq<Observation>, id: string, r: SeenRecord) {
    forall i: nat :: Makes(observations, id, i) ==> Carries(r, observations[i])
  }

  ghost predicate AsSevereAsMade(observations: seq<Observation>, id: string, r: SeenRecord) {
    forall i: nat :: Makes(observations, id, i) ==> r.severity == observations[i].severity
  }

  /** A record made in run b, as of before run n: kind and subject of what made it, and the
      severity of the last alert since, or else of what made it. */
  ghost predicate Describes(all: seq<seq<Observation>>, h: seq<Beat>, id: string, b: nat, n: nat, r: SeenRecord)
    requires |h| == |all| && b < n <= |all|
  {
    var alerted := LastSeverity(all, h, id, b, n);
    MadeBy(all[b], id, r) && if alerted.Some? then r.severity == alerted.value else AsSevereAsMade(all[b], id, r)
  }

  /** The severity of the last alert in the runs from b on, before run n. */
  function LastSeverity(all: seq<seq<Observation>>, h: seq<Beat>, id: string, b: nat, n: nat): Option<Severity>
    requires |h| == |all| && b <= n <= |all|
  {
    if n == b then None
    else if h[n - 1].alerted then Some(SeverityNow(all[n - 1], id))
    else LastSeverity(all, h, id, b, n - 1)
  }

  lemma RecordAfter(runs: seq<RunInput>, trace: seq<State>, n: nat, id: string)
    requires IsHistory(runs, trace) && 0 < n <= |runs| && id in trace[n].seen
    ensures var st, input := trace[n - 1], runs[n - 1];
      Some(trace[n].seen[id])
      == NextRecord(Get(st.seen, id), Assessed(st, input), id, WasActionable(st.latest, id), input.now)
  {
    var st, input := trace[n - 1], runs[n - 1];
    assert Follows(runs, trace, n - 1);
    NextSeenAt(st.seen, Assessed(st, input), st.latest, input.now, id);
    PrunedAt(NextSeen(st.seen, Assessed(st, input), st.latest, input.now), input.now, id);
  }

  lemma KnownBorn(runs: seq<RunInput>, trace: seq<State>, n: nat, id: string)
    requires IsHistory(runs, trace) && n <= |runs|
    ensures id in trace[n].seen <==> Born(LifeOf(runs, trace, id), n).Some?
  {
    SavedRecordTellsHistory(runs, trace, n, id);
  }

  /** The records that one id has before and after each run. */
  ghost predicate Chain(all: seq<seq<Observation>>, h: seq<Beat>, id: string, records: seq<Option<SeenRecord>>) {
    && Tells(all, h, id) && |records| == |all| + 1
    && (forall k :: 0 <= k <= |all| ==> Known(records[k], h, k))
    && (forall k :: 0 <= k < |all| ==> Linked(records[k], all[k], id, records[k + 1]))
  }

  ghost predicate Known(r: Option<SeenRecord>, h: seq<Beat>, k: nat)
    requires k <= |h|
  {
    r.Some? <==> Born(h, k).Some?
  }

  ghost predicate Linked(prior: Option<SeenRecord>, observations: seq<Observation>, id: string, r: Option<SeenRecord>) {
    r.Some? ==> exists was, now :: Becomes(prior, observations, id, was, now, r)
  }

  ghost predicate Becomes(prior: Option<SeenRecord>, observations: seq<Observation>, id: string, was: bool, now: int,
                          r: Option<SeenRecord>)
  {
    r == NextRecord(prior, observations, id, was, now)
  }

  ghost predicate DescribedAt(all: seq<seq<Observation>>, h: seq<Beat>, id: string, n: nat, r: Option<SeenRecord>)
    requires |h| == |all| && n <= |all|
  {
    r.Some? ==> Born(h, n).Some? && Describes(all, h, id, Born(h, n).value, n, r.value)
  }

  /** The first n records, and the one before any run. */
  ghost predicate DescribedUpTo(all: seq<seq<Observation>>, h: seq<Beat>, id: string,
                                records: seq<Option<SeenRecord>>, n: nat)
    requires |h| == |all| && n <= |all| && |records| == |all| + 1
  {
    forall k :: 0 <= k <= n ==> DescribedAt(all, h, id, k, records[k])
  }

  lemma {:induction false} ChainDescribes(all: seq<seq<Observation>>, h: seq<Beat>, id: string,
                                          records: seq<Option<SeenRecord>>, n: nat)
    requires Chain(all, h, id, records) && n <= |all|
    ensures DescribedUpTo(all, h, id, records, n)
  {
    if n == 0 {
      assert Known(records[0], h, 0);
    } else {
      ChainDescribes(all, h, id, records, n - 1);
      ChainStep(all, h, id, records, n - 1);
    }
  }

  lemma ChainStep(all: seq<seq<Observation>>, h: seq<Beat>, id: string, records: seq<Option<SeenRecord>>, k: nat)
    requires Chain(all, h, id, records) && k < |all| && DescribedUpTo(all, h, id, records, k)
    ensures DescribedUpTo(all, h, id, records, k + 1)
  {
    assert Linked(records[k], all[k], id, records[k + 1]);
    assert Known(records[k], h, k) && Known(records[k + 1], h, k + 1);
    forall i | i == k + 1 ensures DescribedAt(all, h, id, i, records[i]) {
      if records[i].Some? { LinkDescribes(all, h, id, k, records, records[i].value); }
    }
  }

  lemma LinkDescribes(all: seq<seq<Observation>>, h: seq<Beat>, id: string, k: nat, records: seq<Option<SeenRecord>>,
                      r: SeenRecord)
    requires Tells(all, h, id) && k < |all| && |records| == |all| + 1
    requires Known(records[k], h, k) && Born(h, k + 1).Some? && DescribedUpTo(all, h, id, records, k)
    requires Linked(records[k], all[k], id, Some(r))
    ensures Describes(all, h, id, Born(h, k + 1).value, k + 1, r)
  {
    var prior := records[k];
    var was, now :| Becomes(prior, all[k], id, was, now, Some(r));
    assert DescribedAt(all, h, id, k, prior);
    if prior.Some? {
      BornStill(h, k + 1);
      DescribedStill(all, h, k + 1, id, prior.value, r, was, now);
    } else {
      DescribedFirst(all, h, k + 1, id, r, was, now);
    }
  }

  ghost function RecordsOf(trace: seq<State>, id: string): (r: seq<Option<SeenRecord>>)
    ensures |r| == |trace|
  {
    seq(|trace|, k requires 0 <= k < |trace| => Get(trace[k].seen, id))
  }

  lemma LinkedInHistory(runs: seq<RunInput>, trace: seq<State>, id: string, k: nat)
    requires IsHistory(runs, trace) && k < |runs|
    ensures Linked(Get(trace[k].seen, id), Assessed(trace[k], runs[k]), id, Get(trace[k + 1].seen, id))
  {
    var before, after, assessed := Get(trace[k].seen, id), Get(trace[k + 1].seen, id), Assessed(trace[k], runs[k]);
    if after.Some? {
      RecordAfter(runs, trace, k + 1, id);
      assert Becomes(before, assessed, id, WasActionable(trace[k].latest, id), runs[k].now, after);
    }
  }

  lemma HistoryChains(runs: seq<RunInput>, trace: seq<State>, id: string)
    requires IsHistory(runs, trace)
    ensures Chain(AllAssessed(runs, trace), LifeOf(runs, trace, id), id, RecordsOf(trace, id))
  {
    var all, records := AllAssessed(runs, trace), RecordsOf(trace, id);
    LifeTells(runs, trace, id);
    forall k | 0 <= k <= |runs| ensures Known(records[k], LifeOf(runs, trace, id), k) {
      KnownBorn(runs, trace, k, id);
    }
    forall k | 0 <= k < |runs| ensures Linked(records[k], all[k], id, records[k + 1]) {
      LinkedInHistory(runs, trace, id, k);
    }
  }

  /** Over every history: a record has the kind and subject of the observation that made
      it, and the severity of the last alert of its lifetime, or else of that observation. */
  lemma RecordDescribes(runs: seq<RunInput>, trace: seq<State>, n: nat, id: string)
    requires IsHistory(runs, trace) && n <= |runs| && id in trace[n].seen
    ensures var h := LifeOf(runs, trace, id);
      Born(h, n).Some? && Describes(AllAssessed(runs, trace), h, id, Born(h, n).value, n, trace[n].seen[id])
  {
    HistoryChains(runs, trace, id);
    ChainDescribes(AllAssessed(runs, trace), LifeOf(runs, trace, id), id, RecordsOf(trace, id), n);
    assert DescribedAt(AllAssessed(runs, trace), LifeOf(runs, trace, id), id, n, RecordsOf(trace, id)[n]);
  }

  lemma LifeTells(runs: seq<RunInput>, trace: seq<State>, id: string)
    requires |trace| == |runs| + 1
    ensures Tells(AllAssessed(runs, trace), LifeOf(runs, trace, id), id)
  {
  }

  lemma BornStill(h: seq<Beat>, n: nat)
    requires 0 < n <= |h| && Born(h, n - 1).Some? && Born(h, n).Some?
    ensures Born(h, n) == Born(h, n - 1)
  {
  }

  lemma DescribedStill(all: seq<seq<Observation>>, h: seq<Beat>, n: nat, id: string, prior: SeenRecord, r: SeenRecord,
                       was: bool, now: int)
    requires Tells(all, h, id) && 0 < n <= |h| && Born(h, n - 1).Some?
    requires Describes(all, h, id, Born(h, n - 1).value, n - 1, prior)
    requires Some(r) == NextRecord(Some(prior), all[n - 1], id, was, now)
    ensures Describes(all, h, id, Born(h, n - 1).value, n, r)
  {
    RecordKept(prior, all[n - 1], id, was, now);
  }

  lemma DescribedFirst(all: seq<seq<Observation>>, h: seq<Beat>, n: nat, id: string, r: SeenRecord, was: bool, now: int)
    requires Tells(all, h, id) && 0 < n <= |h| && Born(h, n - 1).None? && Born(h, n).Some?
    requires Some(r) == NextRecord(None, all[n - 1], id, was, now)
    ensures Born(h, n) == Some(n - 1) && Describes(all, h, id, n - 1, n, r)
  {
    var made := all[n - 1];
    forall i: nat | Makes(made, id, i)
      ensures Carries(r, made[i]) && r.severity == made[i].severity
      ensures Alerts(made, id) ==> r.severity == SeverityNow(made, id)
    {
      RecordMade(made, id, i, was, now);
    }
    if Alerts(made, id) { SomeMakes(made, id); }
  }

  lemma SomeMakes(observations: seq<Observation>, id: string)
    requires Alerts(observations, id)
    ensures exists i: nat :: Makes(observations, id, i)
  {
    var i := LastAlert(observations, id).value;
    LastAlertStands(observations, i);
    assert Makes(observations, id, i);
  }
}
