/** What would happen if two collectors shared an id: exactly when the order in which
    they are walked reaches this report or a later one. The collectors that are
    shipped do not: each begins its ids with kinds of its own. */
module SharedIds {
  import opened Ordering
  import opened Severity
  import opened Diff
  import opened DiffLaws
  import opened Collectors
  import opened HealthRun
  import opened History
  import opened CollectorOrder
  import opened Reports

  lemma AssessedOfTwo(st: State, x: RunInput, id: string, p: Observation, q: Observation)
    requires Only(x.observations, id) == [p, q]
    ensures var unknown := CandidateNew(x.observations, st.seen);
      Only(Assessed(st, x), id) == [Classified(Attached(p, st.seen), x.rules, unknown, x.now),
                                    Classified(Attached(q, st.seen), x.rules, unknown, x.now)]
  {
    OnlyAssessed(x.observations, st.seen, x.rules, CandidateNew(x.observations, st.seen), x.now, id);
  }

  lemma RecordOfSeen(st: State, x: RunInput, id: string)
    requires Sees(x.observations, id)
    ensures Get(RunStep(st, x).seen, id)
         == NextRecord(Get(st.seen, id), Only(Assessed(st, x), id), id, WasActionable(st.latest, id), x.now)
  {
    var assessed, was := Assessed(st, x), WasActionable(st.latest, id);
    AssessedSees(st, x, id);
    NextSeenAt(st.seen, assessed, st.latest, x.now, id);
    PrunedAt(NextSeen(st.seen, assessed, st.latest, x.now), x.now, id);
    OnlyNextRecord(Get(st.seen, id), assessed, id, was, x.now);
    SeenRecordIsRecent(Get(st.seen, id), assessed, id, was, x.now);
  }

  lemma SeenRecordIsRecent(prior: Option<SeenRecord>, observations: seq<Observation>, id: string, was: bool, now: int)
    requires Sees(observations, id)
    ensures var r := NextRecord(prior, observations, id, was, now); r.Some? && r.value.lastSeen == At(now)
  {
    NextRecordByAlert(prior, observations, id, was, now);
    QuietFoldDates(observations, id, MarkResolved(prior, was, now), now);
  }

  /** Two inputs that differ in the order of two sightings of one id. */
  ghost predicate SwapsTwo(x: RunInput, y: RunInput, id: string, p: Observation, q: Observation) {
    && x.rules == y.rules && x.now == y.now
    && (forall other :: other != id ==> Only(x.observations, other) == Only(y.observations, other))
    && Only(x.observations, id) == [p, q] && Only(y.observations, id) == [q, p]
  }

  lemma SwapSeesSame(x: RunInput, y: RunInput, id: string, p: Observation, q: Observation)
    requires SwapsTwo(x, y, id, p, q)
    ensures forall other :: Sees(x.observations, other) <==> Sees(y.observations, other)
  {
    forall other ensures Sees(x.observations, other) <==> Sees(y.observations, other) {
      OnlyOfUnseen(x.observations, other);
      OnlyOfUnseen(y.observations, other);
      assert other == id || Only(x.observations, other) == Only(y.observations, other);
    }
  }

  /** A sighting of the run, with the severity that the run gives it. */
  function Judged(st: State, x: RunInput, o: Observation): Observation {
    Classified(Attached(o, st.seen), x.rules, CandidateNew(x.observations, st.seen), x.now)
  }

  /** When no report gives away in which order the two sightings came: if one of them
      alerts they are equally severe, and a spike rule can use the same of the values
      that they leave remembered. */
  predicate OrderHidden(prior: Option<SeenRecord>, p: Observation, q: Observation) {
    if Actionable(p.severity) || Actionable(q.severity) then
      p.severity == q.severity && Usable(Marked(p, prior)) == Usable(Marked(q, prior))
    else p.value.Number? && q.value.Number? ==> Usable(p.value) == Usable(q.value)
  }

  ghost predicate Continues(now: int, runs: seq<RunInput>) {
    forall i, j :: 0 <= i <= j < |runs| ==> now <= runs[i].now <= runs[j].now
  }

  /** This run lists the same on both inputs, and so does every run after it. */
  ghost predicate ReportsAgree(st: State, x: RunInput, y: RunInput) {
    && DiffOf(Assessed(st, x), st.latest, st.seen) == DiffOf(Assessed(st, y), st.latest, st.seen)
    && forall runs :: Continues(x.now, runs) ==> SameReports(RunStep(st, x), RunStep(st, y), runs)
  }

  /** What a run on [p, q] leaves behind about the id: its record and its last entry. */
  ghost predicate Leaves(st: State, after: State, id: string, p: Observation, q: Observation, now: int) {
    && p.id == q.id == id
    && Get(after.seen, id) == NextRecord(Get(st.seen, id), [p, q], id, WasActionable(st.latest, id), now)
    && (WasActionable(after.latest, id) <==> Actionable(p.severity) || Actionable(q.severity))
    && LastEntry(after.latest, id) == Some(PrevObservation(id, q.severity))
  }

  lemma LeftBehind(st: State, x: RunInput, id: string, p: Observation, q: Observation)
    requires Only(x.observations, id) == [p, q]
    ensures Leaves(st, RunStep(st, x), id, Judged(st, x, p), Judged(st, x, q), x.now)
  {
    AssessedOfTwo(st, x, id, p, q);
    OnlyOfUnseen(x.observations, id);
    RecordOfSeen(st, x, id);
    EntriesOfTwo(Assessed(st, x), id, Judged(st, x, p), Judged(st, x, q));
  }

  lemma EntriesOfTwo(observations: seq<Observation>, id: string, p: Observation, q: Observation)
    requires Only(observations, id) == [p, q]
    ensures p.id == q.id == id
    ensures WasActionable(Entries(observations), id) <==> Actionable(p.severity) || Actionable(q.severity)
    ensures LastEntry(Entries(observations), id) == Some(PrevObservation(id, q.severity))
  {
    var own := Only(observations, id);
    assert own[0] in own && own[1] in own;
    EntriesRemember(observations, id);
    AlertsOnly(observations, id);
    OnlyEntry(observations, id);
    assert [p, q] == [p] + [q];
    EntriesNext([p], q, id);
  }

  lemma AlertsOfTwo(st: State, x: RunInput, id: string, p: Observation, q: Observation)
    requires Only(x.observations, id) == [p, q]
    ensures var p', q', assessed := Judged(st, x, p), Judged(st, x, q), Assessed(st, x);
      && (id in AlertIds(assessed) <==> Actionable(p'.severity) || Actionable(q'.severity))
      && SeverityNow(assessed, id) == if Actionable(q'.severity) then q'.severity
                                      else if Actionable(p'.severity) then p'.severity else Info
  {
    var p', q', assessed := Judged(st, x, p), Judged(st, x, q), Assessed(st, x);
    AssessedOfTwo(st, x, id, p, q);
    var own := Only(assessed, id);
    assert own[0] in own && own[1] in own;
    OnlyAlert(assessed, id);
    assert own == [] + [p'] + [q'];
    AlertOfNext([p'], q', id);
    AlertOfNext([], p', id);
    NextRecordByAlert(None, assessed, id, false, x.now);
  }

  lemma SwapJudgesSame(st: State, x: RunInput, y: RunInput, id: string, p: Observation, q: Observation)
    requires SwapsTwo(x, y, id, p, q)
    ensures CandidateNew(x.observations, st.seen) == CandidateNew(y.observations, st.seen)
    ensures forall o :: Judged(st, x, o) == Judged(st, y, o)
  {
    SwapSeesSame(x, y, id, p, q);
    SameCandidates(x.observations, y.observations, st.seen);
  }

  lemma HiddenNow(st: State, x: RunInput, y: RunInput, id: string, p: Observation, q: Observation)
    requires SwapsTwo(x, y, id, p, q) && OrderHidden(Get(st.seen, id), Judged(st, x, p), Judged(st, x, q))
    ensures DiffOf(Assessed(st, x), st.latest, st.seen) == DiffOf(Assessed(st, y), st.latest, st.seen)
  {
    SwapJudgesSame(st, x, y, id, p, q);
    AlertsOfTwo(st, x, id, p, q);
    AlertsOfTwo(st, y, id, q, p);
    var a, b := Assessed(st, x), Assessed(st, y);
    forall other
      ensures SeverityNow(a, other) == SeverityNow(b, other)
      ensures other in AlertIds(a) <==> other in AlertIds(b)
    {
      if other != id { OtherAssessed(st, x, y, other); }
    }
    DiffByAlerts(a, b, st.latest, st.seen);
  }

  lemma OtherAssessed(st: State, x: RunInput, y: RunInput, id: string)
    requires x.rules == y.rules && x.now == y.now && Only(x.observations, id) == Only(y.observations, id)
    requires CandidateNew(x.observations, st.seen) == CandidateNew(y.observations, st.seen)
    ensures Only(Assessed(st, x), id) == Only(Assessed(st, y), id)
    ensures SeverityNow(Assessed(st, x), id) == SeverityNow(Assessed(st, y), id)
    ensures id in AlertIds(Assessed(st, x)) <==> id in AlertIds(Assessed(st, y))
  {
    var unknown := CandidateNew(x.observations, st.seen);
    OnlyAssessed(x.observations, st.seen, x.rules, unknown, x.now, id);
    OnlyAssessed(y.observations, st.seen, x.rules, unknown, x.now, id);
    SameSightings(Assessed(st, x), Assessed(st, y), st.latest, st.seen, x.now, id);
  }

  lemma BothLeave(st: State, x: RunInput, y: RunInput, id: string, p: Observation, q: Observation)
    requires SwapsTwo(x, y, id, p, q)
    ensures Leaves(st, RunStep(st, x), id, Judged(st, x, p), Judged(st, x, q), x.now)
    ensures Leaves(st, RunStep(st, y), id, Judged(st, x, q), Judged(st, x, p), x.now)
  {
    SwapJudgesSame(st, x, y, id, p, q);
    LeftBehind(st, x, id, p, q);
    LeftBehind(st, y, id, q, p);
  }

  ghost predicate AlikeAt(a: State, b: State, id: string) {
    && AlikeRecords(Get(a.seen, id), Get(b.seen, id))
    && (WasActionable(a.latest, id) <==> WasActionable(b.latest, id))
    && (WasActionable(a.latest, id) ==> SeverityBefore(a.latest, id) == SeverityBefore(b.latest, id))
  }

  lemma HiddenAfter(st: State, x: RunInput, y: RunInput, id: string, p: Observation, q: Observation)
    requires SwapsTwo(x, y, id, p, q) && OrderHidden(Get(st.seen, id), Judged(st, x, p), Judged(st, x, q))
    ensures Indistinct(RunStep(st, x), RunStep(st, y))
  {
    var a, b := RunStep(st, x), RunStep(st, y);
    BothLeave(st, x, y, id, p, q);
    HiddenAt(st, a, b, id, Judged(st, x, p), Judged(st, x, q), x.now);
    OthersAlike(st, x, y, id, p, q);
    AlikeEverywhere(a, b);
  }

  lemma OthersAlike(st: State, x: RunInput, y: RunInput, id: string, p: Observation, q: Observation)
    requires SwapsTwo(x, y, id, p, q)
    ensures forall other :: other != id ==> AlikeAt(RunStep(st, x), RunStep(st, y), other)
  {
    SwapJudgesSame(st, x, y, id, p, q);
    forall other | other != id ensures AlikeAt(RunStep(st, x), RunStep(st, y), other) {
      OtherAlike(st, x, y, other);
    }
  }

  lemma AlikeEverywhere(a: State, b: State)
    requires forall id :: AlikeAt(a, b, id)
    ensures Indistinct(a, b)
  {
    forall id
      ensures AlikeRecords(Get(a.seen, id), Get(b.seen, id))
      ensures WasActionable(a.latest, id) <==> WasActionable(b.latest, id)
      ensures WasActionable(a.latest, id) ==> SeverityBefore(a.latest, id) == SeverityBefore(b.latest, id)
    {
      assert AlikeAt(a, b, id);
    }
  }

  lemma HiddenAt(st: State, a: State, b: State, id: string, p: Observation, q: Observation, now: int)
    requires Leaves(st, a, id, p, q, now) && Leaves(st, b, id, q, p, now) && OrderHidden(Get(st.seen, id), p, q)
    ensures AlikeAt(a, b, id)
  {
    TwoRecords(Get(st.seen, id), p, q, WasActionable(st.latest, id), now);
  }

  lemma OtherAlike(st: State, x: RunInput, y: RunInput, id: string)
    requires x.rules == y.rules && x.now == y.now && Only(x.observations, id) == Only(y.observations, id)
    requires CandidateNew(x.observations, st.seen) == CandidateNew(y.observations, st.seen)
    ensures AlikeAt(RunStep(st, x), RunStep(st, y), id)
  {
    OtherRecord(st, x, y, id);
    OtherEntry(st, x, y, id);
  }

  lemma OtherEntry(st: State, x: RunInput, y: RunInput, id: string)
    requires x.rules == y.rules && x.now == y.now && Only(x.observations, id) == Only(y.observations, id)
    requires CandidateNew(x.observations, st.seen) == CandidateNew(y.observations, st.seen)
    ensures LastEntry(RunStep(st, x).latest, id) == LastEntry(RunStep(st, y).latest, id)
    ensures WasActionable(RunStep(st, x).latest, id) <==> WasActionable(RunStep(st, y).latest, id)
  {
    OtherAssessed(st, x, y, id);
    EntriesAlike(Assessed(st, x), Assessed(st, y), id);
  }

  /** The records that the two orders leave, and whether a later run can tell them apart. */
  lemma TwoRecords(prior: Option<SeenRecord>, p: Observation, q: Observation, was: bool, now: int)
    requires p.id == q.id
    ensures var r, t := NextRecord(prior, [p, q], p.id, was, now), NextRecord(prior, [q, p], p.id, was, now);
      && r.Some? && t.Some?
      && (Actionable(p.severity) == Actionable(q.severity) ==>
            (AlikeRecords(r, t) <==> Usable(r.value.lastValue) == Usable(t.value.lastValue)))
      && (p.severity == q.severity || !(Actionable(p.severity) || Actionable(q.severity)) ==>
            (OrderHidden(prior, p, q) <==> Usable(r.value.lastValue) == Usable(t.value.lastValue)))
  {
    TwoSightings(prior, p, q, was, now);
    TwoSightings(prior, q, p, was, now);
  }

  lemma OrderShows(st: State, a: State, b: State, id: string, p: Observation, q: Observation, now: int)
    returns (next: RunInput)
    requires Leaves(st, a, id, p, q, now) && Leaves(st, b, id, q, p, now) && !OrderHidden(Get(st.seen, id), p, q)
    ensures next.now == now && !SameLists(a, b, next)
  {
    TwoRecords(Get(st.seen, id), p, q, WasActionable(st.latest, id), now);
    if (Actionable(p.severity) || Actionable(q.severity)) && p.severity != q.severity {
      next := Probe(id, Nil, ALARM, now);
      SeverityShows(a, b, id, now);
    } else {
      next := BaselineShows(a, b, id, now);
    }
  }

  lemma OneMoreRun(a: State, b: State, next: RunInput)
    ensures SameReports(a, b, [next]) ==> SameLists(a, b, next)
  {
  }

  lemma ShownLater(st: State, a: State, b: State, id: string, p: Observation, q: Observation, now: int)
    returns (runs: seq<RunInput>)
    requires Leaves(st, a, id, p, q, now) && Leaves(st, b, id, q, p, now) && !OrderHidden(Get(st.seen, id), p, q)
    ensures Continues(now, runs) && !SameReports(a, b, runs)
  {
    var next := OrderShows(st, a, b, id, p, q, now);
    OneMoreRun(a, b, next);
    runs := [next];
  }

  lemma HiddenAgrees(st: State, x: RunInput, y: RunInput, id: string, p: Observation, q: Observation)
    requires SwapsTwo(x, y, id, p, q) && OrderHidden(Get(st.seen, id), Judged(st, x, p), Judged(st, x, q))
    ensures ReportsAgree(st, x, y)
  {
    HiddenNow(st, x, y, id, p, q);
    HiddenAfter(st, x, y, id, p, q);
    forall runs | Continues(x.now, runs) ensures SameReports(RunStep(st, x), RunStep(st, y), runs) {
      IndistinctForEver(RunStep(st, x), RunStep(st, y), runs);
    }
  }

  lemma ShownDiffers(st: State, x: RunInput, y: RunInput, id: string, p: Observation, q: Observation)
    requires SwapsTwo(x, y, id, p, q) && !OrderHidden(Get(st.seen, id), Judged(st, x, p), Judged(st, x, q))
    ensures !ReportsAgree(st, x, y)
  {
    BothLeave(st, x, y, id, p, q);
    var runs := ShownLater(st, RunStep(st, x), RunStep(st, y), id, Judged(st, x, p), Judged(st, x, q), x.now);
  }

  /** Two collectors share an id, and are walked in two orders. This run's lists and
      those of every later run agree if and only if the two observations, as the run
      classifies them, hide their order. */
  lemma SharedIdIff(st: State, x: RunInput, y: RunInput, id: string, p: Observation, q: Observation)
    requires SwapsTwo(x, y, id, p, q)
    ensures ReportsAgree(st, x, y) <==> OrderHidden(Get(st.seen, id), Judged(st, x, p), Judged(st, x, q))
  {
    if OrderHidden(Get(st.seen, id), Judged(st, x, p), Judged(st, x, q)) {
      HiddenAgrees(st, x, y, id, p, q);
    } else {
      ShownDiffers(st, x, y, id, p, q);
    }
  }

  /** The record of the id does not depend on the order if and only if the two
      observations, as classified, leave the same one. */
  lemma SharedIdRecordIff(st: State, x: RunInput, y: RunInput, id: string, p: Observation, q: Observation)
    requires SwapsTwo(x, y, id, p, q)
    ensures RunStep(st, x).seen == RunStep(st, y).seen
       <==> LeaveSameRecord(Get(st.seen, id), Judged(st, x, p), Judged(st, x, q))
  {
    SwapJudgesSame(st, x, y, id, p, q);
    LeftBehind(st, x, id, p, q);
    LeftBehind(st, y, id, q, p);
    SwapIff(Get(st.seen, id), Judged(st, x, p), Judged(st, x, q), WasActionable(st.latest, id), x.now);
    forall other | other != id ensures Get(RunStep(st, x).seen, other) == Get(RunStep(st, y).seen, other) {
      OtherRecord(st, x, y, other);
    }
    if Get(RunStep(st, x).seen, id) == Get(RunStep(st, y).seen, id) {
      SameLookups(RunStep(st, x).seen, RunStep(st, y).seen);
    }
  }

  lemma OtherRecord(st: State, x: RunInput, y: RunInput, id: string)
    requires x.rules == y.rules && x.now == y.now && Only(x.observations, id) == Only(y.observations, id)
    requires CandidateNew(x.observations, st.seen) == CandidateNew(y.observations, st.seen)
    ensures Get(RunStep(st, x).seen, id) == Get(RunStep(st, y).seen, id)
  {
    var unknown := CandidateNew(x.observations, st.seen);
    OnlyAssessed(x.observations, st.seen, x.rules, unknown, x.now, id);
    OnlyAssessed(y.observations, st.seen, x.rules, unknown, x.now, id);
    var a, b := Assessed(st, x), Assessed(st, y);
    SameSightings(a, b, st.latest, st.seen, x.now, id);
    PrunedAt(NextSeen(st.seen, a, st.latest, x.now), x.now, id);
    PrunedAt(NextSeen(st.seen, b, st.latest, x.now), x.now, id);
  }

  /** The two collectors in question, in the order in which they are walked. */
  function Pair(order: seq<string>, a: string, b: string): seq<string> {
    if order == [] then []
    else
      var n := |order| - 1;
      if order[n] == a || order[n] == b then Pair(order[..n], a, b) + [order[n]] else Pair(order[..n], a, b)
  }

  lemma {:induction false} PairKnown(results: Results, order: seq<string>, a: string, b: string)
    requires forall i :: 0 <= i < |order| ==> order[i] in results
    ensures forall i :: 0 <= i < |Pair(order, a, b)| ==> Pair(order, a, b)[i] in results
  {
    if order != [] { PairKnown(results, order[..|order| - 1], a, b); }
  }

  lemma {:induction false} TwoOwners(results: Results, order: seq<string>, id: string, a: string, b: string)
    requires forall i :: 0 <= i < |order| ==> order[i] in results
    requires forall name :: name in results && name != a && name != b ==> !Sees(results[name].observations, id)
    requires forall i :: 0 <= i < |Pair(order, a, b)| ==> Pair(order, a, b)[i] in results
    ensures Only(Blocks(results, order), id) == Only(Blocks(results, Pair(order, a, b)), id)
  {
    if order != [] {
      var front, last := order[..|order| - 1], order[|order| - 1];
      PairKnown(results, front, a, b);
      TwoOwners(results, front, id, a, b);
      OnlyAppend(Blocks(results, front), results[last].observations, id);
      if last == a || last == b {
        BlocksNext(results, Pair(front, a, b), last);
        OnlyAppend(Blocks(results, Pair(front, a, b)), results[last].observations, id);
      } else {
        OnlyOfUnseen(results[last].observations, id);
      }
    }
  }

  lemma BlocksNext(results: Results, order: seq<string>, name: string)
    requires name in results && forall i :: 0 <= i < |order| ==> order[i] in results
    ensures forall i :: 0 <= i < |order| + 1 ==> (order + [name])[i] in results
    ensures Blocks(results, order + [name]) == Blocks(results, order) + results[name].observations
  {
    assert (order + [name])[..|order|] == order;
  }

  /** The only id that two collectors share is one that each of them reports once. */
  ghost predicate SharesOne(results: Results, id: string, a: string, b: string, p: Observation, q: Observation) {
    && a in results && b in results && a != b
    && Only(results[a].observations, id) == [p] && Only(results[b].observations, id) == [q]
    && (forall name :: name in results && name != a && name != b ==> !Sees(results[name].observations, id))
    && (forall x, y, other ::
          x in results && y in results && x != y && other != id && Sees(results[x].observations, other) ==>
            !Sees(results[y].observations, other))
  }

  lemma PairBlocks(results: Results, order: seq<string>, id: string, first: string, second: string,
                   p: Observation, q: Observation)
    requires Walks(order, results) && first in results && second in results
             && Pair(order, first, second) == [first, second]
    requires Only(results[first].observations, id) == [p] && Only(results[second].observations, id) == [q]
    requires forall name :: name in results && name != first && name != second ==> !Sees(results[name].observations, id)
    ensures Only(Blocks(results, order), id) == [p, q]
  {
    TwoOwners(results, order, id, first, second);
    TwoBlocks(results, first, second);
    OnlyAppend(results[first].observations, results[second].observations, id);
    assert [p] + [q] == [p, q];
  }

  lemma TwoBlocks(results: Results, first: string, second: string)
    requires first in results && second in results
    ensures Blocks(results, [first, second]) == results[first].observations + results[second].observations
  {
    assert [] + [first] == [first] && [first] + [second] == [first, second];
    BlocksNext(results, [], first);
    BlocksNext(results, [first], second);
    assert [] + results[first].observations == results[first].observations;
  }

  lemma {:induction false} PairSwapped(order: seq<string>, a: string, b: string)
    ensures Pair(order, a, b) == Pair(order, b, a)
  {
    if order != [] { PairSwapped(order[..|order| - 1], a, b); }
  }

  lemma BlocksSwapped(results: Results, o1: seq<string>, o2: seq<string>, id: string, a: string, b: string,
                      p: Observation, q: Observation)
    requires SharesOne(results, id, a, b, p, q) && Walks(o1, results) && Walks(o2, results)
    requires Pair(o1, a, b) == [a, b] && Pair(o2, a, b) == [b, a]
    ensures Swapped(Blocks(results, o1), Blocks(results, o2), id, p, q)
  {
    PairBlocks(results, o1, id, a, b, p, q);
    PairSwapped(o2, a, b);
    PairBlocks(results, o2, id, b, a, q, p);
    forall other | other != id ensures Only(Blocks(results, o1), other) == Only(Blocks(results, o2), other) {
      var owner := if name :| name in results && Sees(results[name].observations, other) then name else "";
      OwnBlock(results, o1, other, owner);
      OwnBlock(results, o2, other, owner);
    }
  }

  /** Gathering in two orders that differ in which of the two comes first swaps their
      two sightings and nothing else, unless the id is one the run itself derives. */
  lemma SharedIdSwaps(results: Results, o1: seq<string>, o2: seq<string>, id: string, a: string, b: string,
                      p: Observation, q: Observation, rules: Rules, now: int)
    requires SharesOne(results, id, a, b, p, q) && Walks(o1, results) && Walks(o2, results)
    requires Pair(o1, a, b) == [a, b] && Pair(o2, a, b) == [b, a]
    requires id != WD_DISK && id != WD_TARGET && !Sees(Health(results), id)
    ensures SwapsTwo(RunInput(Gathered(results, o1), rules, now), RunInput(Gathered(results, o2), rules, now), id, p, q)
  {
    BlocksSwapped(results, o1, o2, id, a, b, p, q);
    var x, y := Blocks(results, o1), Blocks(results, o2);
    OnlyOfUnseen(Health(results), id);
    AlmostSame(x, y, Health(results), id, p, q);
    var u, v := x + Health(results), y + Health(results);
    SwappedMembers(u, v, id, p, q);
    SameDerived(u, v);
    OnlyOfUnseen(Derived(u), id);
    AlmostSame(u, v, Derived(u), id, p, q);
  }

  /** The same, from the collectors' results on. */
  lemma SharedIdWalksIff(st: State, results: Results, o1: seq<string>, o2: seq<string>, id: string,
                         a: string, b: string,
                         p: Observation, q: Observation, rules: Rules, now: int)
    requires SharesOne(results, id, a, b, p, q) && Walks(o1, results) && Walks(o2, results)
    requires Pair(o1, a, b) == [a, b] && Pair(o2, a, b) == [b, a]
    requires id != WD_DISK && id != WD_TARGET && !Sees(Health(results), id)
    ensures var x, y := RunInput(Gathered(results, o1), rules, now), RunInput(Gathered(results, o2), rules, now);
      ReportsAgree(st, x, y) <==> OrderHidden(Get(st.seen, id), Judged(st, x, p), Judged(st, x, q))
  {
    SharedIdSwaps(results, o1, o2, id, a, b, p, q, rules, now);
    SharedIdIff(st, RunInput(Gathered(results, o1), rules, now), RunInput(Gathered(results, o2), rules, now), id, p, q);
  }

  ghost predicate Swapped(x: seq<Observation>, y: seq<Observation>, id: string, p: Observation, q: Observation) {
    && (forall other :: other != id ==> Only(x, other) == Only(y, other))
    && Only(x, id) == [p, q] && Only(y, id) == [q, p]
  }

  lemma AlmostSame(x: seq<Observation>, y: seq<Observation>, tail: seq<Observation>, id: string,
                   p: Observation, q: Observation)
    requires Swapped(x, y, id, p, q) && Only(tail, id) == []
    ensures Swapped(x + tail, y + tail, id, p, q)
  {
    forall other ensures Only(x + tail, other) == Only(x, other) + Only(tail, other)
                 ensures Only(y + tail, other) == Only(y, other) + Only(tail, other) {
      OnlyAppend(x, tail, other);
      OnlyAppend(y, tail, other);
    }
    assert [p, q] + [] == [p, q] && [q, p] + [] == [q, p];
  }

  lemma SwappedMembers(x: seq<Observation>, y: seq<Observation>, id: string, p: Observation, q: Observation)
    requires Swapped(x, y, id, p, q)
    ensures forall o :: o in x <==> o in y
  {
    forall o ensures o in x <==> o in y {
      assert o in Only(x, o.id) <==> o in x;
      assert o in Only(y, o.id) <==> o in y;
      assert o in [p, q] <==> o in [q, p];
    }
  }

  // An id that two collectors report under kinds of different severity.
  function Sighting(kind: string): Observation {
    Observation("x", "s", kind, Info, Nil, Nil, Missing, false, None, None)
  }

  const WARNS := NO_RULE.(kind := Present, level := Some(Warn))
  const CRITS := NO_RULE.(kind := Present, level := Some(Crit))
  const TWO_KINDS: Rules := map["w" := WARNS, "c" := CRITS]
  const ALONE: Results := map["a" := CollectorResult("ok", [Sighting("w")])]
  const SHARED: Results :=
    map["a" := CollectorResult("ok", [Sighting("w")]), "b" := CollectorResult("ok", [Sighting("c")])]

  lemma NothingFailed(results: Results)
    requires Failed(results) == {}
    ensures Health(results) == []
  {
    assert Elements<string>([]) == {};
    SortedUnique(SortedOf(Failed(results)), []);
  }

  lemma SharedGathered(order: seq<string>, first: string, second: string)
    requires order == [first, second] && {first, second} == {"a", "b"} && first != second
    ensures Walks(order, SHARED)
    ensures Gathered(SHARED, order) == SHARED[first].observations + SHARED[second].observations
  {
    assert first in {first, second} && second in {first, second};
    assert order[..1] == [first] && [first][..0] == [];
    assert order[0] == first && order[1] == second;
    forall name | name in SHARED ensures name in order { assert name in {first, second}; }
    assert Blocks(SHARED, [first]) == Blocks(SHARED, []) + SHARED[first].observations;
    NothingFailed(SHARED);
    var own := SHARED[first].observations + SHARED[second].observations;
    assert Blocks(SHARED, order) == own;
    assert own + [] == own;
    assert FirstWith(own, WD_DISK) == None by {
      assert own[1..][1..] == [] && own[0].id == "x" && own[1..][0].id == "x";
      assert |WD_DISK| != |"x"|;
    }
  }

  lemma OneCollector(results: Results, name: string, own: seq<Observation>)
    requires results == map[name := CollectorResult("ok", own)] && FirstWith(own, WD_DISK) == None
    ensures Walks([name], results) && Gathered(results, [name]) == own
  {
    assert [name][..0] == [] && [name][0] == name;
    NothingFailed(results);
    assert Blocks(results, [name]) == own && own + [] == own;
  }

  lemma AloneGathered()
    ensures Walks(["a"], ALONE) && Gathered(ALONE, ["a"]) == [Sighting("w")]
  {
    var own := [Sighting("w")];
    assert own[1..] == [] && |WD_DISK| != |"x"|;
    OneCollector(ALONE, "a", own);
  }

  lemma PresentAlways(st: State, observations: seq<Observation>, i: nat)
    requires i < |observations| && observations[i].kind in TWO_KINDS
    ensures var assessed := Assessed(st, RunInput(observations, TWO_KINDS, 0));
      && |assessed| == |observations| && assessed[i].id == observations[i].id
      && assessed[i].severity == TWO_KINDS[observations[i].kind].level.value
  {
  }

  function TwoDays(): seq<Day> {
    [Day(ALONE, TWO_KINDS, 0), Day(SHARED, TWO_KINDS, 0)]
  }

  function RunsIn(first: string, second: string): seq<RunInput> {
    [RunInput([Sighting("w")], TWO_KINDS, 0), RunInput([Sighting(first), Sighting(second)], TWO_KINDS, 0)]
  }

  lemma TwoDaysGathered()
    ensures Gathers(TwoDays(), [["a"], ["a", "b"]], RunsIn("w", "c"))
    ensures Gathers(TwoDays(), [["a"], ["b", "a"]], RunsIn("c", "w"))
  {
    AloneGathered();
    SharedGathered(["a", "b"], "a", "b");
    SharedGathered(["b", "a"], "b", "a");
    assert GathersDay(TwoDays()[1], ["a", "b"], RunsIn("w", "c")[1]);
    assert GathersDay(TwoDays()[1], ["b", "a"], RunsIn("c", "w")[1]);
  }

  lemma WorsenedOnDayTwo(first: string, second: string, t: Transition)
    requires first in TWO_KINDS && second in TWO_KINDS
    ensures var runs := RunsIn(first, second);
      t in RunDiff(runs, Trace(runs), 1).worsened <==> second == "c" && t == Transition("x", Warn, Crit)
  {
    var runs := RunsIn(first, second);
    TraceStarts(runs);
    TraceSteps(runs, 0);
    FirstDay(Trace(runs)[1]);
    WorsenedAfterFirst(Trace(runs)[1], runs[1], first, second, t);
  }

  lemma WorsenedAfterFirst(st: State, x: RunInput, first: string, second: string, t: Transition)
    requires first in TWO_KINDS && second in TWO_KINDS
    requires SeverityBefore(st.latest, "x") == Warn && forall id :: WasActionable(st.latest, id) <==> id == "x"
    requires x == RunInput([Sighting(first), Sighting(second)], TWO_KINDS, 0)
    ensures t in DiffOf(Assessed(st, x), st.latest, st.seen).worsened
       <==> second == "c" && t == Transition("x", Warn, Crit)
  {
    SecondDay(st, x, first, second);
    MovesOfPersisting(Assessed(st, x), st.latest, st.seen, t);
  }

  /** It then shows in the report too: the same two days, the collectors of the second
      walked in two orders, and only one of the reports says the issue became worse. */
  lemma SharedIdReachesReport()
    ensures var runs1, runs2 := RunsIn("w", "c"), RunsIn("c", "w");
      && Gathers(TwoDays(), [["a"], ["a", "b"]], runs1) && Gathers(TwoDays(), [["a"], ["b", "a"]], runs2)
      && IsHistory(runs1, Trace(runs1)) && IsHistory(runs2, Trace(runs2))
      && RunDiff(runs1, Trace(runs1), 1).worsened != [] && RunDiff(runs2, Trace(runs2), 1).worsened == []
  {
    TwoDaysGathered();
    BothAreHistories();
    WorsenedOnDayTwo("w", "c", Transition("x", Warn, Crit));
    NotWorsened();
  }

  lemma BothAreHistories()
    ensures IsHistory(RunsIn("w", "c"), Trace(RunsIn("w", "c")))
    ensures IsHistory(RunsIn("c", "w"), Trace(RunsIn("c", "w")))
  {
    TraceIsHistory(RunsIn("w", "c"));
    TraceIsHistory(RunsIn("c", "w"));
  }

  lemma NotWorsened()
    ensures RunDiff(RunsIn("c", "w"), Trace(RunsIn("c", "w")), 1).worsened == []
  {
    var worsened := RunDiff(RunsIn("c", "w"), Trace(RunsIn("c", "w")), 1).worsened;
    if worsened != [] {
      WorsenedOnDayTwo("c", "w", worsened[0]);
      assert false;
    }
  }

  lemma FirstDay(st: State)
    requires st == RunStep(FRESH, RunInput([Sighting("w")], TWO_KINDS, 0))
    ensures st.latest == [PrevObservation("x", Warn)] && SeverityBefore(st.latest, "x") == Warn
    ensures forall id :: WasActionable(st.latest, id) <==> id == "x"
  {
    PresentAlways(FRESH, [Sighting("w")], 0);
    assert st.latest[0] == PrevObservation("x", Warn);
  }

  lemma SecondDay(st: State, x: RunInput, first: string, second: string)
    requires first in TWO_KINDS && second in TWO_KINDS
    requires x == RunInput([Sighting(first), Sighting(second)], TWO_KINDS, 0)
    ensures var assessed := Assessed(st, x);
      && |assessed| == 2 && assessed[0].id == assessed[1].id == "x"
      && SeverityNow(assessed, "x") == TWO_KINDS[second].level.value && Alerts(assessed, "x")
  {
    PresentAlways(st, x.observations, 0);
    PresentAlways(st, x.observations, 1);
    var assessed := Assessed(st, x);
    assert assessed[1].id == "x" && Actionable(assessed[1].severity);
  }
}
