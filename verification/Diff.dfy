/** One run's diff against the last run, and the long-lived seen-state it keeps
    up to date (tools/internal/healthreport/diff.go). Functions say what one
    run does to one identity; class SeenStore does it in place, for all of them,
    in the loops of the program. */
module Diff {
  import opened Ordering
  import opened Severity

  datatype SeenRecord = SeenRecord(
    firstSeen: Stamp,
    lastSeen: Stamp,
    count: int,
    lastActionable: Option<Stamp>,
    severity: Severity,
    kind: string,
    subject: string,
    lastValue: Value,
    resolvedAt: Stamp)

  type Seen = map<string, SeenRecord>

  datatype PrevObservation = PrevObservation(id: string, severity: Severity)

  datatype Transition = Transition(id: string, before: Severity, after: Severity)

  datatype DiffResult = DiffResult(
    newIds: seq<string>,
    reopened: seq<string>,
    worsened: seq<Transition>,
    improved: seq<Transition>,
    resolved: seq<string>,
    persisting: seq<string>)

  const RETENTION_DAYS := 60

  // ----- what one run does to one identity ------------------------------

  function Attached(obs: Observation, seen: Seen): Observation {
    if obs.id in seen then
      var record := seen[obs.id];
      obs.(previousValue := record.lastValue,
           firstSeen := if record.firstSeen.Missing? then obs.firstSeen else record.firstSeen)
    else obs
  }

  function AttachedAll(observations: seq<Observation>, seen: Seen): seq<Observation> {
    seq(|observations|, i requires 0 <= i < |observations| => Attached(observations[i], seen))
  }

  predicate WasActionable(previous: seq<PrevObservation>, id: string) {
    exists i :: 0 <= i < |previous| && previous[i].id == id && Actionable(previous[i].severity)
  }

  /** The facts file can list an id more than once; its last entry counts. */
  function LastEntry(previous: seq<PrevObservation>, id: string): Option<PrevObservation> {
    if previous == [] then None
    else
      var n := |previous| - 1;
      if previous[n].id == id then Some(previous[n]) else LastEntry(previous[..n], id)
  }

  function SeverityBefore(previous: seq<PrevObservation>, id: string): Severity {
    match LastEntry(previous, id)
    case Some(entry) => if entry.severity == Other("") then Info else entry.severity
    case None => Info
  }

  /** The position of the last alert with this id. */
  function LastAlert(observations: seq<Observation>, id: string): (r: Option<nat>)
    ensures r.Some? ==>
      && r.value < |observations|
      && observations[r.value].id == id && Actionable(observations[r.value].severity)
    ensures r.None? ==>
      forall i :: 0 <= i < |observations| && observations[i].id == id ==> !Actionable(observations[i].severity)
  {
    if observations == [] then None
    else
      var n := |observations| - 1;
      if observations[n].id == id && Actionable(observations[n].severity) then Some(n)
      else LastAlert(observations[..n], id)
  }

  datatype Standing = FreshIssue | ReopenedIssue | PersistingIssue

  function StandingOf(was: bool, record: Option<SeenRecord>): Standing {
    if was then PersistingIssue
    else if record.Some? && record.value.lastActionable.Some? then ReopenedIssue
    else FreshIssue
  }

  function Remembered(record: SeenRecord, value: Value): SeenRecord {
    if value.Number? then record.(lastValue := value) else record
  }

  function NewRecord(obs: Observation, lastActionable: Option<Stamp>, now: int): SeenRecord {
    Remembered(
      SeenRecord(At(now), At(now), 1, lastActionable, obs.severity, obs.kind, obs.subject, Nil, Missing),
      obs.value)
  }

  function AlertUpdate(prior: Option<SeenRecord>, obs: Observation, was: bool, now: int): SeenRecord {
    match prior
    case None => NewRecord(obs, Some(At(now)), now)
    case Some(record) =>
      var base :=
        if StandingOf(was, prior).ReopenedIssue? then record.(firstSeen := At(now), resolvedAt := Missing)
        else record;
      Remembered(
        base.(lastSeen := At(now), count := record.count + 1,
              lastActionable := Some(At(now)), severity := obs.severity),
        obs.value)
  }

  function QuietUpdate(prior: Option<SeenRecord>, obs: Observation, now: int): SeenRecord {
    match prior
    case None => NewRecord(obs, None, now)
    case Some(record) =>
      Remembered(record.(lastSeen := At(now), count := record.count + 1), obs.value)
  }

  function MarkResolved(prior: Option<SeenRecord>, was: bool, now: int): Option<SeenRecord> {
    if was && prior.Some? then Some(prior.value.(resolvedAt := At(now))) else prior
  }

  /** Every sighting of an identity that raises no alert, in list order. */
  function QuietFold(observations: seq<Observation>, id: string, start: Option<SeenRecord>,
                     now: int): Option<SeenRecord> {
    if observations == [] then start
    else
      var n := |observations| - 1;
      var before := QuietFold(observations[..n], id, start, now);
      if observations[n].id == id then Some(QuietUpdate(before, observations[n], now)) else before
  }

  /** The record after the run's alerts have been noted. */
  function AfterAlerts(prior: Option<SeenRecord>, observations: seq<Observation>, id: string, was: bool,
                       now: int): Option<SeenRecord> {
    match LastAlert(observations, id)
    case Some(i) => Some(AlertUpdate(prior, observations[i], was, now))
    case None => prior
  }

  /** The record an identity has after the run. */
  function NextRecord(prior: Option<SeenRecord>, observations: seq<Observation>, id: string, was: bool,
                      now: int): Option<SeenRecord> {
    if LastAlert(observations, id).Some? then AfterAlerts(prior, observations, id, was, now)
    else QuietFold(observations, id, MarkResolved(prior, was, now), now)
  }

  function NextSeen(seen: Seen, observations: seq<Observation>, previous: seq<PrevObservation>, now: int): Seen {
    map id | id in seen.Keys + Ids(observations)
             && NextRecord(Get(seen, id), observations, id, WasActionable(previous, id), now).Some?
      :: NextRecord(Get(seen, id), observations, id, WasActionable(previous, id), now).value
  }

  /** The first-seen date of a sighting without an alert. */
  function QuietStamp(prior: Option<SeenRecord>, now: int): Stamp {
    if prior.Some? && !prior.value.firstSeen.Missing? then prior.value.firstSeen else At(now)
  }

  /** The first-seen date of an alert: a reopened issue starts over. */
  function AlertStamp(prior: Option<SeenRecord>, was: bool, now: int): Stamp {
    if StandingOf(was, prior).ReopenedIssue? then At(now) else QuietStamp(prior, now)
  }

  /** The first-seen date the report shows for observation `i`. */
  function StampFor(seen: Seen, observations: seq<Observation>, previous: seq<PrevObservation>, now: int, i: nat): Stamp
    requires i < |observations|
  {
    var id := observations[i].id;
    match LastAlert(observations, id)
    case None => QuietStamp(Get(seen, id), now)
    case Some(j) =>
      if j != i then observations[i].firstSeen
      else AlertStamp(Get(seen, id), WasActionable(previous, id), now)
  }

  function StampedAll(seen: Seen, observations: seq<Observation>, previous: seq<PrevObservation>,
                      now: int): seq<Observation> {
    seq(|observations|, i requires 0 <= i < |observations| =>
      observations[i].(firstSeen := StampFor(seen, observations, previous, now, i)))
  }

  // ----- the run as a whole ---------------------------------------------

  function Ids(observations: seq<Observation>): set<string> {
    set i | 0 <= i < |observations| :: observations[i].id
  }

  function AlertIds(observations: seq<Observation>): set<string> {
    set i | 0 <= i < |observations| && Actionable(observations[i].severity) :: observations[i].id
  }

  function PreviousIds(previous: seq<PrevObservation>): set<string> {
    set i | 0 <= i < |previous| && Actionable(previous[i].severity) :: previous[i].id
  }

  function Pick(ids: seq<string>, wanted: Standing, previous: seq<PrevObservation>, seen: Seen): seq<string> {
    if ids == [] then []
    else
      var n := |ids| - 1;
      var front := Pick(ids[..n], wanted, previous, seen);
      if StandingOf(WasActionable(previous, ids[n]), Get(seen, ids[n])) == wanted then front + [ids[n]] else front
  }

  function SeverityNow(observations: seq<Observation>, id: string): Severity {
    match LastAlert(observations, id)
    case Some(i) => observations[i].severity
    case None => Info
  }

  function Moves(ids: seq<string>, worse: bool, previous: seq<PrevObservation>,
                 observations: seq<Observation>): seq<Transition> {
    if ids == [] then []
    else
      var n := |ids| - 1;
      var front := Moves(ids[..n], worse, previous, observations);
      var before, after := SeverityBefore(previous, ids[n]), SeverityNow(observations, ids[n]);
      if !WasActionable(previous, ids[n]) then front
      else if (worse && Rank(after) > Rank(before)) || (!worse && Rank(after) < Rank(before)) then
        front + [Transition(ids[n], before, after)]
      else front
  }

  ghost function DiffOf(observations: seq<Observation>, previous: seq<PrevObservation>, seen: Seen): DiffResult {
    DiffUpTo(SortedOf(AlertIds(observations)), observations, previous, seen).(
      resolved := SortedOf(PreviousIds(previous) - AlertIds(observations)))
  }

  function DiffUpTo(ids: seq<string>, observations: seq<Observation>, previous: seq<PrevObservation>,
                    seen: Seen): DiffResult {
    DiffResult(
      Pick(ids, FreshIssue, previous, seen),
      Pick(ids, ReopenedIssue, previous, seen),
      Moves(ids, true, previous, observations),
      Moves(ids, false, previous, observations),
      [],
      Pick(ids, PersistingIssue, previous, seen))
  }

  /** Lists one more identity of this run. */
  function Listed(d: DiffResult, id: string, standing: Standing, before: Severity, after: Severity): DiffResult {
    match standing
    case FreshIssue => d.(newIds := d.newIds + [id])
    case ReopenedIssue => d.(reopened := d.reopened + [id])
    case PersistingIssue =>
      var listed := d.(persisting := d.persisting + [id]);
      if Rank(after) > Rank(before) then
        listed.(worsened := d.worsened + [Transition(id, before, after)])
      else if Rank(after) < Rank(before) then
        listed.(improved := d.improved + [Transition(id, before, after)])
      else listed
  }

  predicate Stale(record: SeenRecord, now: int, retentionDays: int) {
    && record.lastActionable != Some(At(now))
    && record.lastSeen.At?
    && record.lastSeen.time < now - retentionDays * SECONDS_PER_DAY
  }

  function Pruned(seen: Seen, now: int, retentionDays: int): Seen {
    map id | id in seen && !Stale(seen[id], now, retentionDays) :: seen[id]
  }

  // ----- in place -------------------------------------------------------

  method AttachPreviousValues(observations: array<Observation>, seen: Seen)
    modifies observations
    ensures observations[..] == AttachedAll(old(observations[..]), seen)
  {
    for i := 0 to observations.Length
      invariant forall j :: 0 <= j < i ==> observations[j] == Attached(old(observations[j]), seen)
      invariant forall j :: i <= j < observations.Length ==> observations[j] == old(observations[j])
    {
      observations[i] := Attached(observations[i], seen);
    }
  }

  method PreviousIDs(previous: seq<PrevObservation>) returns (ids: set<string>)
    ensures ids == PreviousIds(previous)
    ensures forall id :: id in ids <==> WasActionable(previous, id)
  {
    ids := {};
    for i := 0 to |previous|
      invariant ids == PreviousIds(previous[..i])
    {
      assert previous[..i + 1] == previous[..i] + [previous[i]];
      if Actionable(previous[i].severity) {
        ids := ids + {previous[i].id};
      }
    }
    assert previous[..|previous|] == previous;
  }

  method PreviousById(previous: seq<PrevObservation>) returns (entries: map<string, PrevObservation>)
    ensures forall id :: Get(entries, id) == LastEntry(previous, id)
  {
    entries := map[];
    for i := 0 to |previous|
      invariant forall id :: Get(entries, id) == LastEntry(previous[..i], id)
    {
      assert previous[..i + 1][..i] == previous[..i];
      entries := entries[previous[i].id := previous[i]];
    }
    assert previous[..|previous|] == previous;
  }

  method CurrentActionable(observations: array<Observation>) returns (current: map<string, nat>)
    ensures forall id :: Get(current, id) == LastAlert(observations[..], id)
    ensures current.Keys == AlertIds(observations[..])
  {
    current := map[];
    for i := 0 to observations.Length
      invariant forall id :: Get(current, id) == LastAlert(observations[..i], id)
    {
      assert observations[..i + 1][..i] == observations[..i];
      if Actionable(observations[i].severity) {
        current := current[observations[i].id := i];
      }
    }
    assert observations[..observations.Length] == observations[..];
    forall id ensures id in current <==> id in AlertIds(observations[..]) {
      assert Get(current, id) == LastAlert(observations[..], id);
    }
  }

  lemma NextSeenAt(seen: Seen, observations: seq<Observation>, previous: seq<PrevObservation>, now: int, id: string)
    ensures Get(NextSeen(seen, observations, previous, now), id)
         == NextRecord(Get(seen, id), observations, id, WasActionable(previous, id), now)
  {
    if id !in Ids(observations) {
      QuietFoldUnseen(observations, id, MarkResolved(Get(seen, id), WasActionable(previous, id), now), now);
    }
  }

  lemma {:induction false} QuietFoldUnseen(observations: seq<Observation>, id: string, start: Option<SeenRecord>,
                                           now: int)
    requires id !in Ids(observations)
    ensures QuietFold(observations, id, start, now) == start
  {
    if observations != [] {
      var n := |observations| - 1;
      assert observations[n].id in Ids(observations);
      forall x | x in Ids(observations[..n]) ensures x in Ids(observations) {
        var i :| 0 <= i < n && observations[..n][i].id == x;
        assert observations[i].id == x;
      }
      QuietFoldUnseen(observations[..n], id, start, now);
    }
  }

  /** The index of actionable observations points at observations of that id. */
  ghost predicate Indexes(current: map<string, nat>, observations: seq<Observation>) {
    forall id :: id in current ==> current[id] < |observations| && observations[current[id]].id == id
  }

  ghost predicate IsLast(current: map<string, nat>, observations: seq<Observation>, j: nat)
    requires j < |observations|
  {
    observations[j].id in current && current[observations[j].id] == j
  }

  /** The observations while the alerts with an id in `done` have been stamped. */
  ghost predicate AlertsStamped(now: seq<Observation>, before: seq<Observation>, stamped: seq<Observation>,
                                current: map<string, nat>, done: set<string>) {
    && |now| == |before| == |stamped|
    && forall j :: 0 <= j < |before| ==>
         now[j] == if before[j].id in done && IsLast(current, before, j) then stamped[j] else before[j]
  }

  lemma AlertsStampedNext(now: seq<Observation>, before: seq<Observation>, stamped: seq<Observation>,
                          current: map<string, nat>, done: set<string>, id: string)
    requires Indexes(current, before) && id in current && id !in done
    requires AlertsStamped(now, before, stamped, current, done)
    ensures now[current[id]] == before[current[id]]
    ensures AlertsStamped(now[current[id] := stamped[current[id]]], before, stamped, current, done + {id})
  {
  }

  /** The records while the alerts with an id in `done` have been noted. */
  ghost predicate AlertsNoted(records: Seen, seen: Seen, observations: seq<Observation>, current: map<string, nat>,
                              done: set<string>, wasActionable: set<string>, now: int)
    requires Indexes(current, observations)
  {
    forall id :: Get(records, id) ==
                 if id in done then AlertNoted(Get(seen, id), observations, current, id, id in wasActionable, now)
                 else Get(seen, id)
  }

  lemma AlertsNotedNext(records: Seen, seen: Seen, observations: seq<Observation>, current: map<string, nat>,
                        done: set<string>, wasActionable: set<string>, now: int, id: string)
    requires Indexes(current, observations) && id in current && id !in done
    requires AlertsNoted(records, seen, observations, current, done, wasActionable, now)
    ensures Get(records, id) == Get(seen, id)
    ensures AlertsNoted(records[id := AlertUpdate(Get(seen, id), observations[current[id]], id in wasActionable, now)],
                        seen, observations, current, done + {id}, wasActionable, now)
  {
    var next := records[id := AlertUpdate(Get(seen, id), observations[current[id]], id in wasActionable, now)];
    forall x ensures Get(next, x) ==
      if x in done + {id} then AlertNoted(Get(seen, x), observations, current, x, x in wasActionable, now)
      else Get(seen, x)
    {
      assert x != id ==> Get(next, x) == Get(records, x);
    }
  }

  /** The records while the quiet sightings of `observations` have been noted. */
  ghost predicate QuietsNoted(records: Seen, start: Seen, seen: Seen, observations: seq<Observation>,
                              current: map<string, nat>, now: int) {
    forall id ::
      && Get(records, id) == QuietNoted(Get(start, id), observations, current, id, now)
      && (id !in current ==> SameFirstSeen(Get(records, id), Get(seen, id), now))
  }

  lemma QuietsNotedNext(records: Seen, start: Seen, seen: Seen, observations: seq<Observation>, i: nat,
                        current: map<string, nat>, now: int)
    requires i < |observations|
    requires QuietsNoted(records, start, seen, observations[..i], current, now)
    ensures var o := observations[i];
      if o.id in current then QuietsNoted(records, start, seen, observations[..i + 1], current, now)
      else
        && QuietStamp(Get(records, o.id), now) == QuietStamp(Get(seen, o.id), now)
        && QuietsNoted(records[o.id := QuietUpdate(Get(records, o.id), o, now)], start, seen,
                       observations[..i + 1], current, now)
  {
    var o := observations[i];
    var next := if o.id in current then records else records[o.id := QuietUpdate(Get(records, o.id), o, now)];
    assert observations[..i + 1][..i] == observations[..i];
    forall id
      ensures Get(next, id) == QuietNoted(Get(start, id), observations[..i + 1], current, id, now)
      ensures id !in current ==> SameFirstSeen(Get(next, id), Get(seen, id), now)
    {
      assert Get(records, id) == QuietNoted(Get(start, id), observations[..i], current, id, now);
    }
    if o.id !in current {
      assert SameFirstSeen(Get(records, o.id), Get(seen, o.id), now);
    }
  }

  lemma OneMoreElement(ids: seq<string>, i: nat)
    requires i < |ids|
    requires forall i, j :: 0 <= i < j < |ids| ==> ids[i] != ids[j]
    ensures ids[i] in Elements(ids) && ids[i] !in Elements(ids[..i])
    ensures Elements(ids[..i + 1]) == Elements(ids[..i]) + {ids[i]}
  {
    assert ids[..i + 1] == ids[..i] + [ids[i]];
  }

  lemma OneMoreDone<T>(after: seq<T>, before: seq<T>, i: nat)
    requires i < |after| == |before|
    ensures (after[..i] + before[i..])[i := after[i]] == after[..i + 1] + before[i + 1..]
    ensures after[i] == before[i] ==> after[..i] + before[i..] == after[..i + 1] + before[i + 1..]
  {
  }

  ghost function AlertNoted(prior: Option<SeenRecord>, observations: seq<Observation>, current: map<string, nat>,
                            id: string, was: bool, now: int): Option<SeenRecord>
    requires Indexes(current, observations)
  {
    if id in current then Some(AlertUpdate(prior, observations[current[id]], was, now)) else prior
  }

  ghost function QuietNoted(prior: Option<SeenRecord>, observations: seq<Observation>, current: map<string, nat>,
                            id: string, now: int): Option<SeenRecord> {
    if id in current then prior else QuietFold(observations, id, prior, now)
  }

  /** During the run an identity keeps the first-seen date it came with. */
  ghost predicate SameFirstSeen(record: Option<SeenRecord>, before: Option<SeenRecord>, now: int) {
    && (before.Some? ==> record.Some?)
    && (record.Some? ==> record.value.firstSeen == if before.Some? then before.value.firstSeen else At(now))
  }

  /** What the index says about the run's first-seen dates. */
  lemma IndexFacts(current: map<string, nat>, seen: Seen, observations: seq<Observation>,
                   previous: seq<PrevObservation>, now: int)
    requires forall id :: Get(current, id) == LastAlert(observations, id)
    ensures Indexes(current, observations)
    ensures forall j :: 0 <= j < |observations| ==> StampNoted(current, seen, observations, previous, now, j)
  {
    forall id | id in current ensures current[id] < |observations| && observations[current[id]].id == id {
      assert Get(current, id) == LastAlert(observations, id);
    }
    forall j | 0 <= j < |observations| ensures StampNoted(current, seen, observations, previous, now, j) {
      assert Get(current, observations[j].id) == LastAlert(observations, observations[j].id);
    }
  }

  ghost predicate StampNoted(current: map<string, nat>, seen: Seen, observations: seq<Observation>,
                             previous: seq<PrevObservation>, now: int, j: nat)
    requires j < |observations|
  {
    var o := observations[j];
    StampedAll(seen, observations, previous, now)[j] ==
    if IsLast(current, observations, j) then
      o.(firstSeen := AlertStamp(Get(seen, o.id), WasActionable(previous, o.id), now))
    else if o.id in current then o
    else o.(firstSeen := QuietStamp(Get(seen, o.id), now))
  }

  lemma NextSeenParts(seen: Seen, observations: seq<Observation>, previous: seq<PrevObservation>, now: int,
                      current: map<string, nat>, id: string)
    requires Indexes(current, observations) && Get(current, id) == LastAlert(observations, id)
    ensures var was := WasActionable(previous, id);
      Get(NextSeen(seen, observations, previous, now), id) ==
      QuietNoted(MarkResolved(AlertNoted(Get(seen, id), observations, current, id, was, now),
                              was && id !in current, now),
                 observations, current, id, now)
  {
    NextSeenAt(seen, observations, previous, now, id);
  }

  lemma DiffUpToNext(ids: seq<string>, i: nat, observations: seq<Observation>, previous: seq<PrevObservation>,
                     seen: Seen)
    requires i < |ids|
    ensures DiffUpTo(ids[..i + 1], observations, previous, seen)
         == Listed(DiffUpTo(ids[..i], observations, previous, seen), ids[i],
                   StandingOf(WasActionable(previous, ids[i]), Get(seen, ids[i])),
                   SeverityBefore(previous, ids[i]), SeverityNow(observations, ids[i]))
  {
    assert ids[..i + 1][..i] == ids[..i];
  }

  function StaleIds(seen: Seen, ids: set<string>, now: int, retentionDays: int): set<string> {
    set id | id in ids && id in seen && Stale(seen[id], now, retentionDays)
  }

  lemma PrunedCount(seen: Seen, now: int, retentionDays: int)
    ensures var stale := StaleIds(seen, seen.Keys, now, retentionDays);
      && seen - stale == Pruned(seen, now, retentionDays)
      && |Pruned(seen, now, retentionDays)| + |stale| == |seen|
  {
    var stale, kept := StaleIds(seen, seen.Keys, now, retentionDays), Pruned(seen, now, retentionDays);
    assert seen.Keys == kept.Keys + stale && kept.Keys !! stale;
    assert |seen.Keys| == |kept.Keys| + |stale|;
  }

  class SeenStore {
    var records: Seen

    constructor (records: Seen)
      ensures this.records == records
    {
      this.records := records;
    }

    /** The whole diff of a run: sorts this run's alerts into the lists, brings the
        records up to date and dates the observations. */
    method Compute(observations: array<Observation>, previous: seq<PrevObservation>,
                   now: int) returns (result: DiffResult)
      modifies this, observations
      ensures records == NextSeen(old(records), old(observations[..]), previous, now)
      ensures observations[..] == StampedAll(old(records), old(observations[..]), previous, now)
      ensures result == DiffOf(old(observations[..]), previous, old(records))
    {
      ghost var seen, obs := records, observations[..];
      ghost var stamped := StampedAll(seen, obs, previous, now);
      var current := CurrentActionable(observations);
      IndexFacts(current, seen, obs, previous, now);
      var previousActionable := PreviousIDs(previous);
      var ids := SortKeys(current.Keys);
      StrictlySortedDistinct(ids);
      result := NoteAlerts(observations, ids, current, previous, previousActionable, now, obs, stamped);
      var resolved := SortKeys(previousActionable - current.Keys);
      result := result.(resolved := resolved);
      ghost var alerted := records;
      NoteResolved(resolved, now);
      forall id ensures id in resolved <==> id in previousActionable && id !in current {
        assert id in resolved <==> id in Elements(resolved);
      }
      ghost var marked := records;
      forall id
        ensures Get(records, id) == QuietNoted(Get(records, id), [], current, id, now)
        ensures id !in current ==> SameFirstSeen(Get(records, id), Get(seen, id), now)
      {
        assert id !in current ==> Get(alerted, id) == Get(seen, id);
        assert Get(records, id) == MarkResolved(Get(alerted, id), id in resolved, now);
      }
      NoteQuiet(observations, current, now, obs, seen, stamped);
      forall id ensures Get(records, id) == Get(NextSeen(seen, obs, previous, now), id) {
        assert Get(alerted, id) == AlertNoted(Get(seen, id), obs, current, id, id in previousActionable, now);
        assert Get(marked, id) == MarkResolved(Get(alerted, id), id in resolved, now);
        assert Get(records, id) == QuietNoted(Get(marked, id), obs, current, id, now);
        NextSeenParts(seen, obs, previous, now, current, id);
      }
      SameLookups(records, NextSeen(seen, obs, previous, now));
    }

    method NoteAlerts(observations: array<Observation>, ids: seq<string>, current: map<string, nat>,
                      previous: seq<PrevObservation>, previousActionable: set<string>, now: int,
                      ghost obs: seq<Observation>, ghost stamped: seq<Observation>)
      returns (result: DiffResult)
      requires obs == observations[..] && |stamped| == |obs|
      requires Indexes(current, obs) && forall id :: id in current ==> Get(current, id) == LastAlert(obs, id)
      requires forall id :: id in previousActionable <==> WasActionable(previous, id)
      requires Elements(ids) == current.Keys
      requires forall i, j :: 0 <= i < j < |ids| ==> ids[i] != ids[j]
      requires stamped == StampedAll(records, obs, previous, now)
      requires forall j :: 0 <= j < |obs| ==> StampNoted(current, records, obs, previous, now, j)
      modifies this, observations
      ensures AlertsNoted(records, old(records), obs, current, current.Keys, previousActionable, now)
      ensures AlertsStamped(observations[..], obs, stamped, current, current.Keys)
      ensures result == DiffUpTo(ids, obs, previous, old(records))
    {
      ghost var seen := records;
      var entries := PreviousById(previous);
      result := DiffResult([], [], [], [], [], []);
      ghost var done: set<string> := {};
      for i := 0 to |ids|
        invariant AlertsNoted(records, seen, obs, current, done, previousActionable, now)
        invariant AlertsStamped(observations[..], obs, stamped, current, done)
        invariant result == DiffUpTo(ids[..i], obs, previous, seen)
        invariant done == Elements(ids[..i])
      {
        OneMoreElement(ids, i);
        DiffUpToNext(ids, i, obs, previous, seen);
        assert StampNoted(current, seen, obs, previous, now, current[ids[i]]);
        result := ListAndNote(observations, ids[i], current, entries, previous, previousActionable, now, result,
                              obs, seen, stamped, done);
        done := done + {ids[i]};
      }
      assert ids[..|ids|] == ids;
    }

    /** Lists one alert and notes it. */
    method ListAndNote(observations: array<Observation>, id: string, current: map<string, nat>,
                       entries: map<string, PrevObservation>, ghost previous: seq<PrevObservation>,
                       previousActionable: set<string>, now: int, listed: DiffResult,
                       ghost obs: seq<Observation>, ghost seen: Seen, ghost stamped: seq<Observation>,
                       ghost done: set<string>)
      returns (result: DiffResult)
      requires Indexes(current, obs) && id in current && id !in done
      requires Get(current, id) == LastAlert(obs, id) && Get(entries, id) == LastEntry(previous, id)
      requires id in previousActionable <==> WasActionable(previous, id)
      requires AlertsNoted(records, seen, obs, current, done, previousActionable, now)
      requires AlertsStamped(observations[..], obs, stamped, current, done)
      requires stamped[current[id]] == obs[current[id]].(firstSeen :=
                 AlertStamp(Get(seen, id), id in previousActionable, now))
      modifies this, observations
      ensures AlertsNoted(records, seen, obs, current, done + {id}, previousActionable, now)
      ensures AlertsStamped(observations[..], obs, stamped, current, done + {id})
      ensures result == Listed(listed, id, StandingOf(WasActionable(previous, id), Get(seen, id)),
                               SeverityBefore(previous, id), SeverityNow(obs, id))
    {
      var at := current[id];
      var was := id in previousActionable;
      AlertsNotedNext(records, seen, obs, current, done, previousActionable, now, id);
      AlertsStampedNext(observations[..], obs, stamped, current, done, id);
      var standing := StandingOf(was, if id in records then Some(records[id]) else None);
      var before := if id in entries && entries[id].severity != Other("") then entries[id].severity else Info;
      result := Listed(listed, id, standing, before, observations[at].severity);
      NoteAlert(observations, at, standing, was, now);
    }

    method NoteAlert(observations: array<Observation>, at: nat, standing: Standing, ghost was: bool, now: int)
      requires at < observations.Length
      requires standing == StandingOf(was, Get(records, observations[at].id))
      modifies this, observations
      ensures var o := old(observations[at]);
        && records == old(records)[o.id := AlertUpdate(Get(old(records), o.id), o, was, now)]
        && observations[..] ==
             old(observations[..])[at := o.(firstSeen := AlertStamp(Get(old(records), o.id), was, now))]
    {
      var o := observations[at];
      if o.id in records {
        var record := records[o.id];
        if standing.ReopenedIssue? {
          observations[at] := o.(firstSeen := At(now));
          record := record.(firstSeen := At(now), resolvedAt := Missing);
        } else if !record.firstSeen.Missing? {
          observations[at] := o.(firstSeen := record.firstSeen);
        } else {
          observations[at] := o.(firstSeen := At(now));
        }
        record := record.(lastSeen := At(now), count := record.count + 1,
                          lastActionable := Some(At(now)), severity := o.severity);
        records := records[o.id := Remembered(record, o.value)];
      } else {
        observations[at] := o.(firstSeen := At(now));
        records := records[o.id := NewRecord(o, Some(At(now)), now)];
      }
    }

    method NoteResolved(resolved: seq<string>, now: int)
      modifies this
      ensures forall id :: Get(records, id) == MarkResolved(Get(old(records), id), id in resolved, now)
    {
      for i := 0 to |resolved|
        invariant forall id :: Get(records, id) == MarkResolved(Get(old(records), id), id in resolved[..i], now)
      {
        assert resolved[..i + 1] == resolved[..i] + [resolved[i]];
        assert Get(records, resolved[i])
            == MarkResolved(Get(old(records), resolved[i]), resolved[i] in resolved[..i], now);
        if resolved[i] in records {
          records := records[resolved[i] := records[resolved[i]].(resolvedAt := At(now))];
        }
      }
      assert resolved[..|resolved|] == resolved;
    }

    /** What was observed without raising an alert is recorded and dated as well;
        otherwise it would count as unknown in the next run. */
    method NoteQuiet(observations: array<Observation>, current: map<string, nat>, now: int,
                     ghost obs: seq<Observation>, ghost seen: Seen, ghost stamped: seq<Observation>)
      requires |obs| == observations.Length == |stamped|
      requires forall j :: 0 <= j < |obs| ==> stamped[j].id == obs[j].id
      requires Indexes(current, obs)
      requires AlertsStamped(observations[..], obs, stamped, current, current.Keys)
      requires forall j :: 0 <= j < |obs| && obs[j].id !in current ==>
        stamped[j] == obs[j].(firstSeen := QuietStamp(Get(seen, obs[j].id), now))
      requires forall j :: 0 <= j < |obs| && obs[j].id in current && !IsLast(current, obs, j) ==> stamped[j] == obs[j]
      requires QuietsNoted(records, records, seen, [], current, now)
      modifies this, observations
      ensures QuietsNoted(records, old(records), seen, obs, current, now)
      ensures observations[..] == stamped
    {
      ghost var start, alerted := records, observations[..];
      for i := 0 to observations.Length
        invariant QuietsNoted(records, start, seen, obs[..i], current, now)
        invariant observations[..] == stamped[..i] + alerted[i..]
      {
        var id := observations[i].id;
        assert observations[i] == alerted[i] && id == obs[i].id;
        OneMoreDone(stamped, alerted, i);
        QuietsNotedNext(records, start, seen, obs, i, current, now);
        if id !in current {
          NoteQuietOne(observations, i, now);
        }
      }
      assert obs[..|obs|] == obs;
    }

    method NoteQuietOne(observations: array<Observation>, i: nat, now: int)
      requires i < observations.Length
      modifies this, observations
      ensures var o := old(observations[i]);
        && records == old(records)[o.id := QuietUpdate(Get(old(records), o.id), o, now)]
        && observations[..] == old(observations[..])[i := o.(firstSeen := QuietStamp(Get(old(records), o.id), now))]
    {
      var o := observations[i];
      if o.id in records {
        var record := records[o.id];
        observations[i] := o.(firstSeen := if record.firstSeen.Missing? then At(now) else record.firstSeen);
        records := records[o.id := Remembered(record.(lastSeen := At(now), count := record.count + 1), o.value)];
      } else {
        observations[i] := o.(firstSeen := At(now));
        records := records[o.id := NewRecord(o, None, now)];
      }
    }

    /** Removes the stale records and counts them. */
    method PruneSeen(now: int, retentionDays: int) returns (removed: nat)
      modifies this
      ensures records == Pruned(old(records), now, retentionDays)
      ensures removed == |old(records)| - |records|
    {
      var stale: set<string> := {};
      var rest := records.Keys;
      while rest != {}
        invariant rest <= records.Keys
        invariant stale == StaleIds(records, records.Keys - rest, now, retentionDays)
        decreases rest
      {
        var id :| id in rest;
        if Stale(records[id], now, retentionDays) {
          stale := stale + {id};
        }
        rest := rest - {id};
      }
      assert records.Keys - rest == records.Keys;
      PrunedCount(records, now, retentionDays);
      records := records - stale;
      removed := |stale|;
    }
  }
}
