/** What the diff of one run means, independently of how the loops compute it. */
module DiffLaws {
  import opened Ordering
  import opened Severity
  import opened Diff

  ghost predicate DistinctIds(observations: seq<Observation>) {
    forall i, j :: 0 <= i < j < |observations| ==> observations[i].id != observations[j].id
  }

  ghost predicate Sees(observations: seq<Observation>, id: string) {
    exists i :: 0 <= i < |observations| && observations[i].id == id
  }

  ghost predicate Alerts(observations: seq<Observation>, id: string) {
    exists i :: 0 <= i < |observations| && observations[i].id == id && Actionable(observations[i].severity)
  }

  // ----- the lists ------------------------------------------------------

  lemma {:induction false} PickLaw(ids: seq<string>, wanted: Standing, previous: seq<PrevObservation>, seen: Seen)
    requires StrictlySorted(ids)
    ensures var picked := Pick(ids, wanted, previous, seen);
      && StrictlySorted(picked)
      && forall id :: id in picked <==>
           id in ids && StandingOf(WasActionable(previous, id), Get(seen, id)) == wanted
  {
    if ids != [] {
      var n := |ids| - 1;
      PickLaw(ids[..n], wanted, previous, seen);
      var front := Pick(ids[..n], wanted, previous, seen);
      assert forall id :: id in ids <==> id in ids[..n] || id == ids[n];
      forall id | id in front ensures Less(id, ids[n]) {
        var i :| 0 <= i < n && ids[i] == id;
      }
    }
  }

  lemma {:induction false} PickLengths(ids: seq<string>, previous: seq<PrevObservation>, seen: Seen)
    ensures |Pick(ids, FreshIssue, previous, seen)| + |Pick(ids, ReopenedIssue, previous, seen)|
          + |Pick(ids, PersistingIssue, previous, seen)| == |ids|
  {
    if ids != [] { PickLengths(ids[..|ids| - 1], previous, seen); }
  }

  /** New, reopened and persisting are strictly sorted, pairwise disjoint and
      together exactly this run's alerts; resolved is last run's alerts without
      this run's. Each list says which memory put an id there. */
  lemma ListsPartitionAlerts(observations: seq<Observation>, previous: seq<PrevObservation>, seen: Seen)
    ensures var d := DiffOf(observations, previous, seen);
      && StrictlySorted(d.newIds) && StrictlySorted(d.reopened)
      && StrictlySorted(d.persisting) && StrictlySorted(d.resolved)
      && (forall id :: id in d.persisting <==> Alerts(observations, id) && WasActionable(previous, id))
      && (forall id :: id in d.reopened <==>
            && Alerts(observations, id) && !WasActionable(previous, id)
            && id in seen && seen[id].lastActionable.Some?)
      && (forall id :: id in d.newIds <==>
            && Alerts(observations, id) && !WasActionable(previous, id)
            && (id in seen ==> seen[id].lastActionable.None?))
      && (forall id :: id in d.resolved <==> WasActionable(previous, id) && !Alerts(observations, id))
  {
    var ids := SortedOf(AlertIds(observations));
    PickLaw(ids, FreshIssue, previous, seen);
    PickLaw(ids, ReopenedIssue, previous, seen);
    PickLaw(ids, PersistingIssue, previous, seen);
    var resolved := SortedOf(PreviousIds(previous) - AlertIds(observations));
    forall id
      ensures id in ids <==> Alerts(observations, id)
      ensures id in resolved <==> WasActionable(previous, id) && !Alerts(observations, id)
    {
      assert id in ids <==> id in Elements(ids);
      assert id in resolved <==> id in Elements(resolved);
      assert id in AlertIds(observations) <==> Alerts(observations, id);
      assert id in PreviousIds(previous) <==> WasActionable(previous, id);
    }
  }

  /** A persisting issue whose severity moved up, or down. */
  predicate IsMove(t: Transition, worse: bool, previous: seq<PrevObservation>, observations: seq<Observation>) {
    && WasActionable(previous, t.id)
    && t.before == SeverityBefore(previous, t.id) && t.after == SeverityNow(observations, t.id)
    && if worse then Rank(t.after) > Rank(t.before) else Rank(t.after) < Rank(t.before)
  }

  lemma {:induction false} MovesLaw(ids: seq<string>, worse: bool, previous: seq<PrevObservation>,
                                    observations: seq<Observation>)
    ensures forall t :: t in Moves(ids, worse, previous, observations) <==>
      t.id in ids && IsMove(t, worse, previous, observations)
  {
    if ids != [] {
      var n := |ids| - 1;
      MovesLaw(ids[..n], worse, previous, observations);
      assert forall id :: id in ids <==> id in ids[..n] || id == ids[n];
    }
  }

  /** Worsened and improved list the persisting issues whose severity moved. */
  lemma MovesOfPersisting(observations: seq<Observation>, previous: seq<PrevObservation>, seen: Seen, t: Transition)
    ensures var d := DiffOf(observations, previous, seen);
      && (t in d.worsened <==> Alerts(observations, t.id) && IsMove(t, true, previous, observations))
      && (t in d.improved <==> Alerts(observations, t.id) && IsMove(t, false, previous, observations))
  {
    var ids := SortedOf(AlertIds(observations));
    MovesLaw(ids, true, previous, observations);
    MovesLaw(ids, false, previous, observations);
    assert t.id in ids <==> t.id in Elements(ids);
    assert t.id in AlertIds(observations) <==> Alerts(observations, t.id);
  }

  /** Of what persists, worsened is what went to crit from anything else, or to warn from
      neither; improved is what went from crit to warn. */
  lemma MovesInWords(observations: seq<Observation>, previous: seq<PrevObservation>, seen: Seen, id: string)
    ensures var d, before, after := DiffOf(observations, previous, seen), SeverityBefore(previous, id),
                                    SeverityNow(observations, id);
      && (Transition(id, before, after) in d.worsened <==>
            id in d.persisting && ((after == Crit && before != Crit)
                                   || (after == Warn && before != Warn && before != Crit)))
      && (Transition(id, before, after) in d.improved <==> id in d.persisting && before == Crit && after == Warn)
  {
    var t := Transition(id, SeverityBefore(previous, id), SeverityNow(observations, id));
    MovesOfPersisting(observations, previous, seen, t);
    ListsPartitionAlerts(observations, previous, seen);
    AlertSeverity(observations, id);
  }

  lemma AlertSeverity(observations: seq<Observation>, id: string)
    ensures Alerts(observations, id) <==> SeverityNow(observations, id) == Warn || SeverityNow(observations, id) == Crit
  {
  }

  /** The last entry of an id in the last facts tells its severity; an empty one, as in old
      files, and no entry at all count as info. */
  lemma {:induction false} SeverityBeforeTold(previous: seq<PrevObservation>, id: string, i: nat)
    requires i < |previous| && previous[i].id == id && forall j :: i < j < |previous| ==> previous[j].id != id
    ensures SeverityBefore(previous, id)
         == if previous[i].severity == Other("") then Info else previous[i].severity
  {
    if i < |previous| - 1 { SeverityBeforeTold(previous[..|previous| - 1], id, i); }
  }

  lemma {:induction false} NoEntryIsInfo(previous: seq<PrevObservation>, id: string)
    requires forall j :: 0 <= j < |previous| ==> previous[j].id != id
    ensures SeverityBefore(previous, id) == Info
  {
    if previous != [] { NoEntryIsInfo(previous[..|previous| - 1], id); }
  }

  // ----- order of the observation list ----------------------------------

  /** Without repeated ids the run sees one identity through one observation. */
  lemma {:induction false} OneSighting(observations: seq<Observation>, i: nat, start: Option<SeenRecord>, now: int)
    requires DistinctIds(observations) && i < |observations|
    ensures var o := observations[i];
      && LastAlert(observations, o.id) == (if Actionable(o.severity) then Some(i) else None)
      && QuietFold(observations, o.id, start, now) == Some(QuietUpdate(start, o, now))
  {
    var n := |observations| - 1;
    var o := observations[i];
    if i == n {
      assert forall j :: 0 <= j < n ==> observations[..n][j].id != o.id;
      assert o.id !in Ids(observations[..n]);
      QuietFoldUnseen(observations[..n], o.id, start, now);
    } else {
      assert observations[..n][i] == o;
      OneSighting(observations[..n], i, start, now);
    }
  }

  /** The record after the run, in terms of the one sighting or of none. */
  lemma RecordAfterRun(seen: Seen, observations: seq<Observation>, previous: seq<PrevObservation>, now: int, id: string)
    requires DistinctIds(observations)
    ensures var prior, was := Get(seen, id), WasActionable(previous, id);
      var after := Get(NextSeen(seen, observations, previous, now), id);
      && (!Sees(observations, id) ==> after == MarkResolved(prior, was, now))
      && (forall i :: 0 <= i < |observations| && observations[i].id == id ==>
            after == Some(if Actionable(observations[i].severity)
                          then AlertUpdate(prior, observations[i], was, now)
                          else QuietUpdate(MarkResolved(prior, was, now), observations[i], now)))
  {
    NextSeenAt(seen, observations, previous, now, id);
    var start := MarkResolved(Get(seen, id), WasActionable(previous, id), now);
    if !Sees(observations, id) {
      assert id !in Ids(observations);
      QuietFoldUnseen(observations, id, start, now);
    } else {
      var i :| 0 <= i < |observations| && observations[i].id == id;
      OneSighting(observations, i, start, now);
    }
  }

  /** What the run observed of one identity, in list order. */
  function Only(observations: seq<Observation>, id: string): (r: seq<Observation>)
    ensures forall o :: o in r <==> o in observations && o.id == id
  {
    if observations == [] then []
    else
      var n := |observations| - 1;
      assert forall o :: o in observations <==> o in observations[..n] || o == observations[n];
      if observations[n].id == id then Only(observations[..n], id) + [observations[n]] else Only(observations[..n], id)
  }

  lemma OnlyNext(observations: seq<Observation>, o: Observation, id: string)
    ensures Only(observations + [o], id)
         == if o.id == id then Only(observations, id) + [o] else Only(observations, id)
  {
    assert (observations + [o])[..|observations|] == observations;
  }

  lemma {:induction false} OnlyAppend(a: seq<Observation>, b: seq<Observation>, id: string)
    ensures Only(a + b, id) == Only(a, id) + Only(b, id)
  {
    if b == [] {
      assert a + b == a;
    } else {
      var front, last := b[..|b| - 1], b[|b| - 1];
      assert a + b == (a + front) + [last] && b == front + [last];
      OnlyAppend(a, front, id);
      OnlyNext(a + front, last, id);
      OnlyNext(front, last, id);
    }
  }

  lemma LastAlertNext(observations: seq<Observation>, o: Observation, id: string)
    ensures LastAlert(observations + [o], id)
         == if o.id == id && Actionable(o.severity) then Some(|observations|) else LastAlert(observations, id)
  {
    assert (observations + [o])[..|observations|] == observations;
  }

  lemma QuietFoldNext(observations: seq<Observation>, o: Observation, id: string, start: Option<SeenRecord>, now: int)
    ensures var before := QuietFold(observations, id, start, now);
      QuietFold(observations + [o], id, start, now) == if o.id == id then Some(QuietUpdate(before, o, now)) else before
  {
    assert (observations + [o])[..|observations|] == observations;
  }

  /** The last alert of an identity, as an observation. */
  function AlertOf(observations: seq<Observation>, id: string): Option<Observation> {
    match LastAlert(observations, id)
    case Some(i) => Some(observations[i])
    case None => None
  }

  lemma AlertOfNext(observations: seq<Observation>, o: Observation, id: string)
    ensures AlertOf(observations + [o], id)
         == if o.id == id && Actionable(o.severity) then Some(o) else AlertOf(observations, id)
  {
    LastAlertNext(observations, o, id);
  }

  lemma {:induction false} OnlyAlert(observations: seq<Observation>, id: string)
    ensures AlertOf(Only(observations, id), id) == AlertOf(observations, id)
  {
    if observations != [] {
      var front, last := observations[..|observations| - 1], observations[|observations| - 1];
      assert observations == front + [last];
      OnlyAlert(front, id);
      OnlyNext(front, last, id);
      AlertOfNext(front, last, id);
      if last.id == id { AlertOfNext(Only(front, id), last, id); }
    }
  }

  lemma {:induction false} OnlyQuietFold(observations: seq<Observation>, id: string, start: Option<SeenRecord>,
                                         now: int)
    ensures QuietFold(Only(observations, id), id, start, now) == QuietFold(observations, id, start, now)
  {
    if observations != [] {
      var front, last := observations[..|observations| - 1], observations[|observations| - 1];
      assert observations == front + [last];
      OnlyQuietFold(front, id, start, now);
      OnlyNext(front, last, id);
      QuietFoldNext(front, last, id, start, now);
      if last.id == id { QuietFoldNext(Only(front, id), last, id, start, now); }
    }
  }

  lemma NextRecordByAlert(prior: Option<SeenRecord>, observations: seq<Observation>, id: string, was: bool, now: int)
    ensures NextRecord(prior, observations, id, was, now) ==
      match AlertOf(observations, id)
      case Some(o) => Some(AlertUpdate(prior, o, was, now))
      case None => QuietFold(observations, id, MarkResolved(prior, was, now), now)
    ensures SeverityNow(observations, id) ==
      match AlertOf(observations, id) case Some(o) => o.severity case None => Info
    ensures id in AlertIds(observations) <==> AlertOf(observations, id).Some?
  {
  }

  /** A run handles an identity by its own observations alone. */
  lemma OnlyNextRecord(prior: Option<SeenRecord>, observations: seq<Observation>, id: string, was: bool, now: int)
    ensures NextRecord(prior, observations, id, was, now) == NextRecord(prior, Only(observations, id), id, was, now)
    ensures SeverityNow(observations, id) == SeverityNow(Only(observations, id), id)
  {
    OnlyAlert(observations, id);
    OnlyQuietFold(observations, id, MarkResolved(prior, was, now), now);
    NextRecordByAlert(prior, observations, id, was, now);
    NextRecordByAlert(prior, Only(observations, id), id, was, now);
  }

  /** Both lists have the same observations of every identity, in the same order. */
  ghost predicate SameProjections(a: seq<Observation>, b: seq<Observation>) {
    forall id :: Only(a, id) == Only(b, id)
  }

  /** The order between different identities cannot be told from the diff or from the
      seen-state; repeats of one id may occur, as long as they keep their order. */
  lemma OrderDoesNotMatter(a: seq<Observation>, b: seq<Observation>, previous: seq<PrevObservation>, seen: Seen,
                           now: int)
    requires SameProjections(a, b)
    ensures DiffOf(a, previous, seen) == DiffOf(b, previous, seen)
    ensures NextSeen(seen, a, previous, now) == NextSeen(seen, b, previous, now)
  {
    forall id
      ensures id in AlertIds(a) <==> id in AlertIds(b)
      ensures SeverityNow(a, id) == SeverityNow(b, id)
      ensures Get(NextSeen(seen, a, previous, now), id) == Get(NextSeen(seen, b, previous, now), id)
    {
      SameSightings(a, b, previous, seen, now, id);
    }
    DiffByAlerts(a, b, previous, seen);
    SameLookups(NextSeen(seen, a, previous, now), NextSeen(seen, b, previous, now));
  }

  /** The lists depend on which ids alert, and how severely. */
  lemma DiffByAlerts(a: seq<Observation>, b: seq<Observation>, previous: seq<PrevObservation>, seen: Seen)
    requires forall id :: SeverityNow(a, id) == SeverityNow(b, id) && (id in AlertIds(a) <==> id in AlertIds(b))
    ensures DiffOf(a, previous, seen) == DiffOf(b, previous, seen)
  {
    assert AlertIds(a) == AlertIds(b);
    var ids := SortedOf(AlertIds(a));
    MovesAgree(ids, true, previous, a, b);
    MovesAgree(ids, false, previous, a, b);
  }

  lemma SameSightings(a: seq<Observation>, b: seq<Observation>, previous: seq<PrevObservation>, seen: Seen, now: int,
                      id: string)
    requires Only(a, id) == Only(b, id)
    ensures id in AlertIds(a) <==> id in AlertIds(b)
    ensures SeverityNow(a, id) == SeverityNow(b, id)
    ensures Get(NextSeen(seen, a, previous, now), id) == Get(NextSeen(seen, b, previous, now), id)
  {
    var prior, was := Get(seen, id), WasActionable(previous, id);
    OnlyNextRecord(prior, a, id, was, now);
    OnlyNextRecord(prior, b, id, was, now);
    OnlyAlert(a, id);
    OnlyAlert(b, id);
    NextRecordByAlert(prior, a, id, was, now);
    NextRecordByAlert(prior, b, id, was, now);
    NextSeenAt(seen, a, previous, now, id);
    NextSeenAt(seen, b, previous, now, id);
  }

  lemma {:induction false} MovesAgree(ids: seq<string>, worse: bool, previous: seq<PrevObservation>,
                                      a: seq<Observation>, b: seq<Observation>)
    requires forall id :: SeverityNow(a, id) == SeverityNow(b, id)
    ensures Moves(ids, worse, previous, a) == Moves(ids, worse, previous, b)
  {
    if ids != [] { MovesAgree(ids[..|ids| - 1], worse, previous, a, b); }
  }

  /** The value that a sighting makes the record remember. */
  function Marked(o: Observation, prior: Option<SeenRecord>): Value {
    if o.value.Number? then o.value else if prior.Some? then prior.value.lastValue else Nil
  }

  /** When two sightings of an identity leave the same record in either order: if only
      one of them alerts; or if they agree on what their kind of sighting leaves
      behind, where a new record also takes kind and subject, and a quiet sighting its
      severity. This is about the record alone: the facts file keeps more. */
  predicate LeaveSameRecord(prior: Option<SeenRecord>, p: Observation, q: Observation) {
    if Actionable(p.severity) != Actionable(q.severity) then true
    else
      && (prior.None? || Actionable(p.severity) ==> p.severity == q.severity)
      && (prior.None? ==> p.kind == q.kind && p.subject == q.subject)
      && if Actionable(p.severity) then Marked(p, prior) == Marked(q, prior)
         else p.value.Number? && q.value.Number? ==> p.value == q.value
  }

  lemma TwoSightings(prior: Option<SeenRecord>, p: Observation, q: Observation, was: bool, now: int)
    requires p.id == q.id
    ensures NextRecord(prior, [p, q], p.id, was, now) == Some(
      if Actionable(q.severity) then AlertUpdate(prior, q, was, now)
      else if Actionable(p.severity) then AlertUpdate(prior, p, was, now)
      else QuietUpdate(Some(QuietUpdate(MarkResolved(prior, was, now), p, now)), q, now))
  {
    var both := [p, q];
    assert both[..1] == [p] && [p][..0] == [];
    var start := MarkResolved(prior, was, now);
    assert QuietFold([p], p.id, start, now) == Some(QuietUpdate(start, p, now));
    assert LastAlert([p], p.id) == if Actionable(p.severity) then Some(0) else None;
  }

  /** Exactly when swapping two sightings leaves the same record. */
  lemma SwapIff(prior: Option<SeenRecord>, p: Observation, q: Observation, was: bool, now: int)
    requires p.id == q.id
    ensures NextRecord(prior, [p, q], p.id, was, now) == NextRecord(prior, [q, p], p.id, was, now)
       <==> LeaveSameRecord(prior, p, q)
  {
    TwoSightings(prior, p, q, was, now);
    TwoSightings(prior, q, p, was, now);
  }

  // ----- counts ---------------------------------------------------------

  function CountSeverity(observations: seq<Observation>, severity: Severity): nat {
    if observations == [] then 0
    else
      var n := |observations| - 1;
      CountSeverity(observations[..n], severity) + if observations[n].severity == severity then 1 else 0
  }

  function WithSeverity(observations: seq<Observation>, severity: Severity): set<int> {
    set i | 0 <= i < |observations| && observations[i].severity == severity
  }

  /** The summary counts observations. */
  lemma {:induction false} CountTold(observations: seq<Observation>, severity: Severity)
    ensures CountSeverity(observations, severity) == |WithSeverity(observations, severity)|
  {
    if observations != [] {
      var n := |observations| - 1;
      CountTold(observations[..n], severity);
      assert WithSeverity(observations, severity)
          == WithSeverity(observations[..n], severity) + if observations[n].severity == severity then {n} else {};
    }
  }

  /** No two alerts of the run have the same id. */
  ghost predicate DistinctAlerts(observations: seq<Observation>) {
    forall i, j :: 0 <= i < j < |observations|
                   && Actionable(observations[i].severity) && Actionable(observations[j].severity) ==>
      observations[i].id != observations[j].id
  }

  lemma DistinctAlertsNext(observations: seq<Observation>)
    requires observations != []
    ensures var n := |observations| - 1;
      DistinctAlerts(observations) <==>
        && DistinctAlerts(observations[..n])
        && (Actionable(observations[n].severity) ==> observations[n].id !in AlertIds(observations[..n]))
  {
    var n := |observations| - 1;
    var front, last := observations[..n], observations[n];
    if DistinctAlerts(observations) {
      assert forall i :: 0 <= i < n ==> front[i] == observations[i];
    }
    if DistinctAlerts(front) && (Actionable(last.severity) ==> last.id !in AlertIds(front)) {
      forall i, j | 0 <= i < j < |observations| && Actionable(observations[i].severity)
                    && Actionable(observations[j].severity)
        ensures observations[i].id != observations[j].id
      {
        assert front[i] == observations[i];
        if j < n { assert front[j] == observations[j]; }
      }
    }
  }

  lemma {:induction false} AlertCount(observations: seq<Observation>)
    ensures var alerts := CountSeverity(observations, Crit) + CountSeverity(observations, Warn);
      |AlertIds(observations)| <= alerts && (|AlertIds(observations)| == alerts <==> DistinctAlerts(observations))
  {
    if observations != [] {
      AlertCount(observations[..|observations| - 1]);
      AlertIdsNext(observations);
      DistinctAlertsNext(observations);
    }
  }

  lemma AlertIdsNext(observations: seq<Observation>)
    requires observations != []
    ensures var n := |observations| - 1;
      AlertIds(observations) ==
        AlertIds(observations[..n]) + if Actionable(observations[n].severity) then {observations[n].id} else {}
  {
    var n := |observations| - 1;
    var front := observations[..n];
    forall id | id in AlertIds(front) ensures id in AlertIds(observations) {
      var i :| 0 <= i < n && Actionable(front[i].severity) && front[i].id == id;
      assert observations[i] == front[i];
    }
    forall id | id in AlertIds(observations) && !(Actionable(observations[n].severity) && id == observations[n].id)
      ensures id in AlertIds(front)
    {
      var i :| 0 <= i <= n && Actionable(observations[i].severity) && observations[i].id == id;
      assert front[i] == observations[i];
    }
  }

  lemma {:induction false} SortedLength(s: seq<string>)
    requires StrictlySorted(s)
    ensures |Elements(s)| == |s|
  {
    if s != [] {
      var n := |s| - 1;
      SortedLength(s[..n]);
      StrictlySortedDistinct(s);
      assert Elements(s) == Elements(s[..n]) + {s[n]};
      assert s[n] !in Elements(s[..n]);
    }
  }

  /** The summary counts observations, the lists hold ids. The numbers agree iff no two
      alerts of the run have the same id; else the summary says more. */
  lemma CountsMatchListsIff(observations: seq<Observation>, previous: seq<PrevObservation>, seen: Seen)
    ensures var d := DiffOf(observations, previous, seen);
      var alerts := CountSeverity(observations, Crit) + CountSeverity(observations, Warn);
      var listed := |d.newIds| + |d.reopened| + |d.persisting|;
      listed <= alerts && (listed == alerts <==> DistinctAlerts(observations))
  {
    var ids := SortedOf(AlertIds(observations));
    AlertCount(observations);
    SortedLength(ids);
    PickLengths(ids, previous, seen);
  }

  // ----- pruning --------------------------------------------------------

  /** An identity that alerts in this run survives this run's pruning, whatever
      its age and whatever the retention. */
  lemma AlertsSurvivePruning(seen: Seen, observations: seq<Observation>, previous: seq<PrevObservation>, now: int,
                             retentionDays: int, id: string)
    requires Alerts(observations, id)
    ensures var kept := Pruned(NextSeen(seen, observations, previous, now), now, retentionDays);
      id in kept && kept[id].lastActionable == Some(At(now)) && kept[id].lastSeen == At(now)
  {
    NextSeenAt(seen, observations, previous, now, id);
  }

  lemma NonEmptyHasElement(s: seq<string>)
    ensures s != [] ==> exists id :: id in s
  {
    if s != [] { assert s[0] in s; }
  }

  /** If the last facts file is missing, everything that ever alerted and alerts
      now is reported as reopened and starts over with a new first-seen date;
      nothing is reported as persisting or resolved. */
  lemma LostFactsReopenEverything(seen: Seen, observations: seq<Observation>, now: int, id: string)
    ensures DiffOf(observations, [], seen).persisting == []
    ensures DiffOf(observations, [], seen).resolved == []
    ensures Alerts(observations, id) && id in seen && seen[id].lastActionable.Some? ==>
      && id in DiffOf(observations, [], seen).reopened
      && Get(NextSeen(seen, observations, [], now), id).Some?
      && NextSeen(seen, observations, [], now)[id].firstSeen == At(now)
  {
    ListsPartitionAlerts(observations, [], seen);
    var d := DiffOf(observations, [], seen);
    NonEmptyHasElement(d.persisting);
    NonEmptyHasElement(d.resolved);
    NextSeenAt(seen, observations, [], now, id);
  }
}
