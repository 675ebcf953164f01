/** When two states make no difference to any report: an equivalence of states that
    every run keeps, and inputs that tell apart what it does not equate. */
module Reports {
  import opened Ordering
  import opened Severity
  import opened Diff
  import opened DiffLaws
  import opened HealthRun
  import opened History

  // ----- what later runs can see of a state -----------------------------

  /** What a spike rule can use of a remembered value: its number, if positive. */
  function Usable(v: Value): real {
    var n := Numeric(v);
    if n.Some? && n.value > 0.0 then n.value else 0.0
  }

  predicate AlikeRecords(a: Option<SeenRecord>, b: Option<SeenRecord>) {
    && (a.Some? <==> b.Some?)
    && (a.Some? ==>
          && a.value.firstSeen == b.value.firstSeen && a.value.lastSeen == b.value.lastSeen
          && a.value.lastActionable == b.value.lastActionable
          && Usable(a.value.lastValue) == Usable(b.value.lastValue))
  }

  /** Count, kind, subject and severity of a record are written and never read back; of
      the last facts the severity counts for the ids that were actionable. */
  ghost predicate Indistinct(a: State, b: State) {
    && (forall id :: AlikeRecords(Get(a.seen, id), Get(b.seen, id)))
    && (forall id :: WasActionable(a.latest, id) <==> WasActionable(b.latest, id))
    && (forall id :: WasActionable(a.latest, id) ==> SeverityBefore(a.latest, id) == SeverityBefore(b.latest, id))
  }

  ghost predicate SameLists(a: State, b: State, input: RunInput) {
    DiffOf(Assessed(a, input), a.latest, a.seen) == DiffOf(Assessed(b, input), b.latest, b.seen)
  }

  /** Every run of the sequence lists the same, whichever of the states it starts from. */
  ghost predicate SameReports(a: State, b: State, runs: seq<RunInput>)
    decreases |runs|
  {
    runs != [] ==>
      SameLists(a, b, runs[0]) && SameReports(RunStep(a, runs[0]), RunStep(b, runs[0]), runs[1..])
  }

  // ----- every run keeps the equivalence --------------------------------

  predicate AlikeObservations(o: Observation, o': Observation) {
    o' == o.(previousValue := o'.previousValue)
  }

  ghost predicate AlikeLists(a: seq<Observation>, b: seq<Observation>) {
    |a| == |b| && forall i :: 0 <= i < |a| ==> AlikeObservations(a[i], b[i])
  }

  lemma ClassifyAlike(o: Observation, o': Observation, rules: Rules, unknown: set<string>, now: int)
    requires AlikeObservations(o, o') && Usable(o.previousValue) == Usable(o'.previousValue)
    ensures AlikeObservations(Classified(o, rules, unknown, now), Classified(o', rules, unknown, now))
  {
    assert Spiked(o, RuleFor(rules, o.kind)) == Spiked(o', RuleFor(rules, o.kind));
  }

  lemma AttachAlike(o: Observation, a: Seen, b: Seen)
    requires AlikeRecords(Get(a, o.id), Get(b, o.id))
    ensures AlikeObservations(Attached(o, a), Attached(o, b))
    ensures Usable(Attached(o, a).previousValue) == Usable(Attached(o, b).previousValue)
  {
  }

  lemma AssessAlike(a: State, b: State, input: RunInput)
    requires Indistinct(a, b)
    ensures AlikeLists(Assessed(a, input), Assessed(b, input))
  {
    forall id ensures id in a.seen <==> id in b.seen {
      assert AlikeRecords(Get(a.seen, id), Get(b.seen, id));
    }
    assert a.seen.Keys == b.seen.Keys;
    assert a.seen == map[] <==> a.seen.Keys == {};
    assert b.seen == map[] <==> b.seen.Keys == {};
    var unknown := CandidateNew(input.observations, a.seen);
    assert unknown == CandidateNew(input.observations, b.seen);
    forall i | 0 <= i < |input.observations|
      ensures AlikeObservations(Assessed(a, input)[i], Assessed(b, input)[i])
    {
      var o := input.observations[i];
      AttachAlike(o, a.seen, b.seen);
      ClassifyAlike(Attached(o, a.seen), Attached(o, b.seen), input.rules, unknown, input.now);
    }
  }

  lemma {:induction false} LastAlertAlike(a: seq<Observation>, b: seq<Observation>, id: string)
    requires AlikeLists(a, b)
    ensures LastAlert(a, id) == LastAlert(b, id)
  {
    if a != [] {
      var n := |a| - 1;
      assert AlikeObservations(a[n], b[n]);
      LastAlertAlike(a[..n], b[..n], id);
    }
  }

  lemma QuietAlike(p: Option<SeenRecord>, q: Option<SeenRecord>, o: Observation, o': Observation, now: int)
    requires AlikeRecords(p, q) && AlikeObservations(o, o')
    ensures AlikeRecords(Some(QuietUpdate(p, o, now)), Some(QuietUpdate(q, o', now)))
  {
  }

  lemma {:induction false} QuietFoldAlike(p: Option<SeenRecord>, q: Option<SeenRecord>, a: seq<Observation>,
                                          b: seq<Observation>, id: string, now: int)
    requires AlikeRecords(p, q) && AlikeLists(a, b)
    ensures AlikeRecords(QuietFold(a, id, p, now), QuietFold(b, id, q, now))
  {
    if a != [] {
      var n := |a| - 1;
      assert AlikeObservations(a[n], b[n]);
      QuietFoldAlike(p, q, a[..n], b[..n], id, now);
      QuietAlike(QuietFold(a[..n], id, p, now), QuietFold(b[..n], id, q, now), a[n], b[n], now);
    }
  }

  lemma NextRecordAlike(p: Option<SeenRecord>, q: Option<SeenRecord>, a: seq<Observation>, b: seq<Observation>,
                        id: string, was: bool, now: int)
    requires AlikeRecords(p, q) && AlikeLists(a, b)
    ensures AlikeRecords(NextRecord(p, a, id, was, now), NextRecord(q, b, id, was, now))
  {
    LastAlertAlike(a, b, id);
    match LastAlert(a, id)
    case Some(i) => assert AlikeObservations(a[i], b[i]);
    case None => QuietFoldAlike(MarkResolved(p, was, now), MarkResolved(q, was, now), a, b, id, now);
  }

  lemma AlikeEntries(a: seq<Observation>, b: seq<Observation>)
    requires AlikeLists(a, b)
    ensures Entries(a) == Entries(b) && AlertIds(a) == AlertIds(b)
    ensures forall id :: SeverityNow(a, id) == SeverityNow(b, id)
  {
    assert forall i :: 0 <= i < |a| ==> AlikeObservations(a[i], b[i]);
    EntriesSame(a, b);
    forall id ensures SeverityNow(a, id) == SeverityNow(b, id) {
      LastAlertAlike(a, b, id);
      if i :| LastAlert(a, id) == Some(i) { assert AlikeObservations(a[i], b[i]); }
    }
    forall id ensures id in AlertIds(a) <==> id in AlertIds(b) {
      LastAlertAlike(a, b, id);
      assert id in AlertIds(a) <==> LastAlert(a, id).Some?;
      assert id in AlertIds(b) <==> LastAlert(b, id).Some?;
    }
  }

  lemma {:induction false} PicksAlike(ids: seq<string>, wanted: Standing, a: State, b: State)
    requires Indistinct(a, b)
    ensures Pick(ids, wanted, a.latest, a.seen) == Pick(ids, wanted, b.latest, b.seen)
  {
    if ids != [] {
      assert AlikeRecords(Get(a.seen, ids[|ids| - 1]), Get(b.seen, ids[|ids| - 1]));
      PicksAlike(ids[..|ids| - 1], wanted, a, b);
    }
  }

  lemma {:induction false} MovesKeep(ids: seq<string>, worse: bool, a: State, b: State, p: seq<Observation>,
                                     q: seq<Observation>)
    requires Indistinct(a, b) && forall id :: SeverityNow(p, id) == SeverityNow(q, id)
    ensures Moves(ids, worse, a.latest, p) == Moves(ids, worse, b.latest, q)
  {
    if ids != [] { MovesKeep(ids[..|ids| - 1], worse, a, b, p, q); }
  }

  lemma ListsAlike(a: State, b: State, input: RunInput)
    requires Indistinct(a, b)
    ensures SameLists(a, b, input)
  {
    var p, q := Assessed(a, input), Assessed(b, input);
    AssessAlike(a, b, input);
    AlikeEntries(p, q);
    var ids := SortedOf(AlertIds(p));
    PicksAlike(ids, FreshIssue, a, b);
    PicksAlike(ids, ReopenedIssue, a, b);
    PicksAlike(ids, PersistingIssue, a, b);
    MovesKeep(ids, true, a, b, p, q);
    MovesKeep(ids, false, a, b, p, q);
    forall id ensures id in PreviousIds(a.latest) <==> id in PreviousIds(b.latest) {
      assert id in PreviousIds(a.latest) <==> WasActionable(a.latest, id);
      assert id in PreviousIds(b.latest) <==> WasActionable(b.latest, id);
    }
    assert PreviousIds(a.latest) == PreviousIds(b.latest);
  }

  lemma StepsAlike(a: State, b: State, input: RunInput)
    requires Indistinct(a, b)
    ensures Indistinct(RunStep(a, input), RunStep(b, input))
  {
    var p, q, now := Assessed(a, input), Assessed(b, input), input.now;
    AssessAlike(a, b, input);
    AlikeEntries(p, q);
    forall id ensures AlikeRecords(Get(RunStep(a, input).seen, id), Get(RunStep(b, input).seen, id)) {
      NextSeenAt(a.seen, p, a.latest, now, id);
      NextSeenAt(b.seen, q, b.latest, now, id);
      NextRecordAlike(Get(a.seen, id), Get(b.seen, id), p, q, id, WasActionable(a.latest, id), now);
      PrunedAt(NextSeen(a.seen, p, a.latest, now), now, id);
      PrunedAt(NextSeen(b.seen, q, b.latest, now), now, id);
    }
  }

  /** No sequence of runs can tell the two states apart. */
  lemma {:induction false} IndistinctForEver(a: State, b: State, runs: seq<RunInput>)
    requires Indistinct(a, b)
    ensures SameReports(a, b, runs)
    decreases |runs|
  {
    if runs != [] {
      ListsAlike(a, b, runs[0]);
      StepsAlike(a, b, runs[0]);
      IndistinctForEver(RunStep(a, runs[0]), RunStep(b, runs[0]), runs[1..]);
    }
  }

  // ----- telling states apart -------------------------------------------

  function Probe(id: string, value: Value, rule: Rule, now: int): RunInput {
    RunInput([Observation(id, "", "probe", Info, value, Nil, Missing, false, None, None)], map["probe" := rule], now)
  }

  const ALARM := NO_RULE.(kind := Present, level := Some(Crit))
  const SPIKES := NO_RULE.(kind := ThresholdOrSpike)

  lemma AlarmAlerts(st: State, id: string, now: int)
    ensures var assessed := Assessed(st, Probe(id, Nil, ALARM, now));
      Alerts(assessed, id) && SeverityNow(assessed, id) == Crit
  {
    var assessed := Assessed(st, Probe(id, Nil, ALARM, now));
    assert |assessed| == 1 && assessed[0].id == id && assessed[0].severity == Crit;
  }

  /** An id that both states had at warn or crit, but not at the same severity, is told
      apart by the next run that has it at crit. */
  lemma SeverityShows(a: State, b: State, id: string, now: int)
    requires WasActionable(a.latest, id) && WasActionable(b.latest, id)
    requires SeverityBefore(a.latest, id) != SeverityBefore(b.latest, id)
    ensures !SameLists(a, b, Probe(id, Nil, ALARM, now))
  {
    if SeverityBefore(a.latest, id).Crit? {
      WorsensOnlyFrom(b, a, id, now);
    } else {
      WorsensOnlyFrom(a, b, id, now);
    }
  }

  lemma WorsensOnlyFrom(a: State, b: State, id: string, now: int)
    requires WasActionable(a.latest, id) && !SeverityBefore(a.latest, id).Crit?
    requires SeverityBefore(a.latest, id) != SeverityBefore(b.latest, id)
    ensures !SameLists(a, b, Probe(id, Nil, ALARM, now))
  {
    var input, t := Probe(id, Nil, ALARM, now), Transition(id, SeverityBefore(a.latest, id), Crit);
    AlarmAlerts(a, id, now);
    MovesOfPersisting(Assessed(a, input), a.latest, a.seen, t);
    MovesOfPersisting(Assessed(b, input), b.latest, b.seen, t);
  }

  lemma AlertsAreListed(observations: seq<Observation>, previous: seq<PrevObservation>, seen: Seen, id: string)
    ensures var d := DiffOf(observations, previous, seen);
      Alerts(observations, id) <==> id in d.newIds || id in d.reopened || id in d.persisting
  {
    ListsPartitionAlerts(observations, previous, seen);
  }

  lemma SpikeAlerts(st: State, id: string, value: real, now: int)
    requires id in st.seen && value > 0.0
    ensures var u := Usable(st.seen[id].lastValue);
      Alerts(Assessed(st, Probe(id, Number(value, ""), SPIKES, now)), id) <==> u > 0.0 && value >= u * 3.0
  {
    var assessed := Assessed(st, Probe(id, Number(value, ""), SPIKES, now));
    assert |assessed| == 1 && assessed[0].id == id;
    assert Alerts(assessed, id) <==> Actionable(assessed[0].severity);
  }

  /** Remembered numbers that a spike rule can tell apart show in the next run that
      reads three times one of them. */
  lemma BaselineShows(a: State, b: State, id: string, now: int) returns (input: RunInput)
    requires id in a.seen && id in b.seen && Usable(a.seen[id].lastValue) != Usable(b.seen[id].lastValue)
    ensures input.now == now && !SameLists(a, b, input)
  {
    var u, v := Usable(a.seen[id].lastValue), Usable(b.seen[id].lastValue);
    var value := 3.0 * if u == 0.0 then v else if v == 0.0 || u < v then u else v;
    input := Probe(id, Number(value, ""), SPIKES, now);
    SpikeAlerts(a, id, value, now);
    SpikeAlerts(b, id, value, now);
    AlertsAreListed(Assessed(a, input), a.latest, a.seen, id);
    AlertsAreListed(Assessed(b, input), b.latest, b.seen, id);
  }
}
