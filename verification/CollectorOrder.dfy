/** The order in which collectors are walked comes out of a map. When it can be told
    from the diff and the state, and when it cannot, over whole histories. */
module CollectorOrder {
  import opened Ordering
  import opened Severity
  import opened Diff
  import opened DiffLaws
  import opened Collectors
  import opened HealthRun
  import opened History

  // ----- gathering in two orders ----------------------------------------

  ghost predicate NoSharedIds(results: Results) {
    forall a, b, id :: a in results && b in results && a != b && Sees(results[a].observations, id) ==>
      !Sees(results[b].observations, id)
  }

  lemma OnlyOfUnseen(observations: seq<Observation>, id: string)
    ensures Only(observations, id) == [] <==> !Sees(observations, id)
  {
    var own := Only(observations, id);
    if own != [] {
      assert own[0] in own;
    }
    if i :| 0 <= i < |observations| && observations[i].id == id {
      assert observations[i] in own;
    }
  }

  lemma InFront(order: seq<string>, name: string)
    requires order != []
    ensures var front, last := order[..|order| - 1], order[|order| - 1];
      && (name in order <==> name in front || name == last)
      && ((forall i :: 0 <= i < |front| ==> order[i] != last) && name == last ==> name !in front)
  {
    assert order == order[..|order| - 1] + [order[|order| - 1]];
  }

  /** If no other collector sees the id, its observations are those of one block. */
  lemma {:induction false} OwnBlock(results: Results, order: seq<string>, id: string, owner: string)
    requires forall i :: 0 <= i < |order| ==> order[i] in results
    requires forall i, j :: 0 <= i < j < |order| ==> order[i] != order[j]
    requires forall i :: 0 <= i < |order| && order[i] != owner ==> !Sees(results[order[i]].observations, id)
    ensures Only(Blocks(results, order), id)
         == if owner in order then Only(results[owner].observations, id) else []
  {
    if order != [] {
      var front, last := order[..|order| - 1], order[|order| - 1];
      OwnBlock(results, front, id, owner);
      OnlyAppend(Blocks(results, front), results[last].observations, id);
      InFront(order, owner);
      if last != owner { OnlyOfUnseen(results[last].observations, id); }
    }
  }

  lemma SameBlocks(results: Results, a: seq<string>, b: seq<string>)
    requires NoSharedIds(results) && Walks(a, results) && Walks(b, results)
    ensures SameProjections(Blocks(results, a), Blocks(results, b))
  {
    forall id ensures Only(Blocks(results, a), id) == Only(Blocks(results, b), id) {
      var owner := if name :| name in results && Sees(results[name].observations, id) then name else "";
      OwnBlock(results, a, id, owner);
      OwnBlock(results, b, id, owner);
    }
  }

  lemma {:induction false} FirstOnly(observations: seq<Observation>, id: string)
    ensures FirstWith(observations, id) == FirstWith(Only(observations, id), id)
  {
    if observations != [] {
      var first, rest := observations[0], observations[1..];
      assert observations == [first] + rest;
      OnlyAppend([first], rest, id);
      FirstOnly(rest, id);
      assert [first][..0] == [];
      assert Only([first], id) == if first.id == id then [first] else [];
      if first.id != id { assert [] + Only(rest, id) == Only(rest, id); }
    }
  }

  lemma SameDerived(a: seq<Observation>, b: seq<Observation>)
    requires Only(a, WD_DISK) == Only(b, WD_DISK) && forall o :: o in a <==> o in b
    ensures Derived(a) == Derived(b)
  {
    FirstOnly(a, WD_DISK);
    FirstOnly(b, WD_DISK);
    forall i | 0 <= i < |a| ensures a[i] in b { assert a[i] in a; }
    forall i | 0 <= i < |b| ensures b[i] in a { assert b[i] in b; }
  }

  lemma SameMembers(a: seq<Observation>, b: seq<Observation>)
    requires SameProjections(a, b)
    ensures forall o :: o in a <==> o in b
  {
    forall o ensures o in a <==> o in b {
      assert o in Only(a, o.id) <==> o in a;
      assert o in Only(b, o.id) <==> o in b;
    }
  }

  lemma ProjectionsAppend(a: seq<Observation>, b: seq<Observation>, tail: seq<Observation>)
    requires SameProjections(a, b)
    ensures SameProjections(a + tail, b + tail)
  {
    forall id ensures Only(a + tail, id) == Only(b + tail, id) {
      OnlyAppend(a, tail, id);
      OnlyAppend(b, tail, id);
    }
  }

  /** Collectors may repeat an id among their own observations. As long as no two of
      them share one, every order gathers the same of every identity. */
  lemma GatheredAlike(results: Results, a: seq<string>, b: seq<string>)
    requires NoSharedIds(results) && Walks(a, results) && Walks(b, results)
    ensures SameProjections(Gathered(results, a), Gathered(results, b))
  {
    SameBlocks(results, a, b);
    ProjectionsAppend(Blocks(results, a), Blocks(results, b), Health(results));
    var x, y := Blocks(results, a) + Health(results), Blocks(results, b) + Health(results);
    SameMembers(x, y);
    SameDerived(x, y);
    ProjectionsAppend(x, y, Derived(x));
  }

  // ----- classification -------------------------------------------------

  function AssessedWith(observations: seq<Observation>, seen: Seen, rules: Rules, unknown: set<string>, now: int):
    seq<Observation>
  {
    ClassifiedAll(AttachedAll(observations, seen), rules, unknown, now)
  }

  /** Classification looks at one observation at a time and keeps its id. */
  lemma {:induction false} OnlyAssessed(observations: seq<Observation>, seen: Seen, rules: Rules, unknown: set<string>,
                                        now: int, id: string)
    ensures Only(AssessedWith(observations, seen, rules, unknown, now), id)
         == AssessedWith(Only(observations, id), seen, rules, unknown, now)
  {
    if observations != [] {
      var front, last := observations[..|observations| - 1], observations[|observations| - 1];
      assert observations == front + [last];
      OnlyAssessed(front, seen, rules, unknown, now, id);
      OnlyNext(front, last, id);
      var done := Classified(Attached(last, seen), rules, unknown, now);
      AssessedNext(front, last, seen, rules, unknown, now);
      AssessedNext(Only(front, id), last, seen, rules, unknown, now);
      OnlyNext(AssessedWith(front, seen, rules, unknown, now), done, id);
    }
  }

  lemma AssessedNext(front: seq<Observation>, o: Observation, seen: Seen, rules: Rules, unknown: set<string>, now: int)
    ensures AssessedWith(front + [o], seen, rules, unknown, now)
         == AssessedWith(front, seen, rules, unknown, now) + [Classified(Attached(o, seen), rules, unknown, now)]
    ensures Classified(Attached(o, seen), rules, unknown, now).id == o.id
  {
  }

  lemma SameCandidates(a: seq<Observation>, b: seq<Observation>, seen: Seen)
    requires forall id :: Sees(a, id) <==> Sees(b, id)
    ensures CandidateNew(a, seen) == CandidateNew(b, seen)
  {
    forall id ensures id in CandidateNew(a, seen) <==> id in CandidateNew(b, seen) {
      assert id in CandidateNew(a, seen) <==> seen != map[] && id !in seen && Sees(a, id);
      assert id in CandidateNew(b, seen) <==> seen != map[] && id !in seen && Sees(b, id);
    }
  }

  // ----- runs -----------------------------------------------------------

  /** Inputs that differ in the order of different identities only. */
  ghost predicate AlikeInputs(x: RunInput, y: RunInput) {
    x.rules == y.rules && x.now == y.now && SameProjections(x.observations, y.observations)
  }

  /** States that no later run can tell apart. */
  ghost predicate AlikeStates(a: State, b: State) {
    && a.seen == b.seen
    && forall id :: LastEntry(a.latest, id) == LastEntry(b.latest, id)
                    && (WasActionable(a.latest, id) <==> WasActionable(b.latest, id))
  }

  lemma AssessedAlike(st: State, x: RunInput, y: RunInput)
    requires AlikeInputs(x, y)
    ensures SameProjections(Assessed(st, x), Assessed(st, y))
  {
    forall id ensures Sees(x.observations, id) <==> Sees(y.observations, id) {
      OnlyOfUnseen(x.observations, id);
      OnlyOfUnseen(y.observations, id);
    }
    SameCandidates(x.observations, y.observations, st.seen);
    var unknown := CandidateNew(x.observations, st.seen);
    forall id ensures Only(Assessed(st, x), id) == Only(Assessed(st, y), id) {
      OnlyAssessed(x.observations, st.seen, x.rules, unknown, x.now, id);
      OnlyAssessed(y.observations, st.seen, x.rules, unknown, x.now, id);
    }
  }

  lemma {:induction false} OnlyEntry(observations: seq<Observation>, id: string)
    ensures LastEntry(Entries(observations), id) == LastEntry(Entries(Only(observations, id)), id)
  {
    if observations != [] {
      var front, last := observations[..|observations| - 1], observations[|observations| - 1];
      assert observations == front + [last];
      OnlyEntry(front, id);
      OnlyNext(front, last, id);
      EntriesNext(front, last, id);
      if last.id == id { EntriesNext(Only(front, id), last, id); }
    }
  }

  lemma EntriesNext(front: seq<Observation>, o: Observation, id: string)
    ensures LastEntry(Entries(front + [o]), id)
         == if o.id == id then Some(PrevObservation(o.id, o.severity)) else LastEntry(Entries(front), id)
  {
    assert Entries(front + [o])[..|front|] == Entries(front);
  }

  lemma AlertsOnly(observations: seq<Observation>, id: string)
    ensures Alerts(observations, id) <==> Alerts(Only(observations, id), id)
  {
    var own := Only(observations, id);
    if i :| 0 <= i < |observations| && observations[i].id == id && Actionable(observations[i].severity) {
      assert observations[i] in own;
    }
    if i :| 0 <= i < |own| && own[i].id == id && Actionable(own[i].severity) {
      assert own[i] in observations;
    }
  }

  lemma EntriesAlike(a: seq<Observation>, b: seq<Observation>, id: string)
    requires Only(a, id) == Only(b, id)
    ensures LastEntry(Entries(a), id) == LastEntry(Entries(b), id)
    ensures WasActionable(Entries(a), id) <==> WasActionable(Entries(b), id)
  {
    OnlyEntry(a, id);
    OnlyEntry(b, id);
    EntriesRemember(a, id);
    EntriesRemember(b, id);
    AlertsOnly(a, id);
    AlertsOnly(b, id);
  }

  lemma {:induction false} MovesAlike(ids: seq<string>, worse: bool, p: seq<PrevObservation>, q: seq<PrevObservation>,
                                      observations: seq<Observation>)
    requires forall id :: LastEntry(p, id) == LastEntry(q, id) && (WasActionable(p, id) <==> WasActionable(q, id))
    ensures Moves(ids, worse, p, observations) == Moves(ids, worse, q, observations)
  {
    if ids != [] { MovesAlike(ids[..|ids| - 1], worse, p, q, observations); }
  }

  lemma {:induction false} PickAlike(ids: seq<string>, wanted: Standing, p: seq<PrevObservation>,
                                     q: seq<PrevObservation>,
                                     seen: Seen)
    requires forall id :: WasActionable(p, id) <==> WasActionable(q, id)
    ensures Pick(ids, wanted, p, seen) == Pick(ids, wanted, q, seen)
  {
    if ids != [] { PickAlike(ids[..|ids| - 1], wanted, p, q, seen); }
  }

  lemma PreviousAlike(observations: seq<Observation>, p: seq<PrevObservation>, q: seq<PrevObservation>, seen: Seen,
                      now: int)
    requires forall id :: LastEntry(p, id) == LastEntry(q, id) && (WasActionable(p, id) <==> WasActionable(q, id))
    ensures DiffOf(observations, p, seen) == DiffOf(observations, q, seen)
    ensures NextSeen(seen, observations, p, now) == NextSeen(seen, observations, q, now)
  {
    var ids := SortedOf(AlertIds(observations));
    PickAlike(ids, FreshIssue, p, q, seen);
    PickAlike(ids, ReopenedIssue, p, q, seen);
    PickAlike(ids, PersistingIssue, p, q, seen);
    MovesAlike(ids, true, p, q, observations);
    MovesAlike(ids, false, p, q, observations);
    forall id ensures id in PreviousIds(p) <==> id in PreviousIds(q) {
      assert id in PreviousIds(p) <==> WasActionable(p, id);
      assert id in PreviousIds(q) <==> WasActionable(q, id);
    }
    assert PreviousIds(p) == PreviousIds(q);
    forall id ensures Get(NextSeen(seen, observations, p, now), id) == Get(NextSeen(seen, observations, q, now), id) {
      NextSeenAt(seen, observations, p, now, id);
      NextSeenAt(seen, observations, q, now, id);
    }
    SameLookups(NextSeen(seen, observations, p, now), NextSeen(seen, observations, q, now));
  }

  /** One run from states that cannot be told apart, on inputs that differ in order. */
  lemma RunsAlike(a: State, b: State, x: RunInput, y: RunInput)
    requires AlikeStates(a, b) && AlikeInputs(x, y)
    ensures DiffOf(Assessed(a, x), a.latest, a.seen) == DiffOf(Assessed(b, y), b.latest, b.seen)
    ensures AlikeStates(RunStep(a, x), RunStep(b, y))
  {
    var p, q := Assessed(a, x), Assessed(b, y);
    AssessedAlike(a, x, y);
    assert Assessed(a, y) == q;
    OrderDoesNotMatter(p, q, a.latest, a.seen, x.now);
    PreviousAlike(q, a.latest, b.latest, a.seen, x.now);
    forall id
      ensures LastEntry(Entries(p), id) == LastEntry(Entries(q), id)
      ensures WasActionable(Entries(p), id) <==> WasActionable(Entries(q), id)
    {
      EntriesAlike(p, q, id);
    }
  }

  // ----- whole histories ------------------------------------------------

  /** One day's collector results, and the order in which the run walked them. */
  datatype Day = Day(results: Results, rules: Rules, now: int)

  ghost predicate Gathers(days: seq<Day>, orders: seq<seq<string>>, runs: seq<RunInput>) {
    && |days| == |orders| == |runs|
    && forall k :: 0 <= k < |days| ==> GathersDay(days[k], orders[k], runs[k])
  }

  ghost predicate GathersDay(day: Day, order: seq<string>, run: RunInput) {
    Walks(order, day.results) && run == RunInput(Gathered(day.results, order), day.rules, day.now)
  }

  lemma DayAlike(day: Day, a: seq<string>, b: seq<string>, x: RunInput, y: RunInput)
    requires NoSharedIds(day.results) && GathersDay(day, a, x) && GathersDay(day, b, y)
    ensures AlikeInputs(x, y)
  {
    GatheredAlike(day.results, a, b);
  }

  lemma {:induction false} HistoriesAlike(runs1: seq<RunInput>, runs2: seq<RunInput>, t1: seq<State>, t2: seq<State>,
                                          n: nat)
    requires IsHistory(runs1, t1) && IsHistory(runs2, t2) && |runs1| == |runs2| && n <= |runs1|
    requires forall k :: 0 <= k < |runs1| ==> AlikeInputs(runs1[k], runs2[k])
    ensures AlikeStates(t1[n], t2[n])
  {
    if n > 0 {
      HistoriesAlike(runs1, runs2, t1, t2, n - 1);
      assert Follows(runs1, t1, n - 1) && Follows(runs2, t2, n - 1);
      RunsAlike(t1[n - 1], t2[n - 1], runs1[n - 1], runs2[n - 1]);
    }
  }

  /** However the maps of collector results are walked, day after day: as long as no
      two collectors of a day share an id, every report lists the same, and the saved
      states stay indistinguishable for ever. */
  lemma WalkOrderDoesNotMatter(days: seq<Day>, o1: seq<seq<string>>, o2: seq<seq<string>>,
                               runs1: seq<RunInput>, runs2: seq<RunInput>, t1: seq<State>, t2: seq<State>, n: nat)
    requires Gathers(days, o1, runs1) && Gathers(days, o2, runs2)
    requires IsHistory(runs1, t1) && IsHistory(runs2, t2) && n <= |days|
    requires forall k :: 0 <= k < |days| ==> NoSharedIds(days[k].results)
    ensures AlikeStates(t1[n], t2[n])
    ensures n < |days| ==> RunDiff(runs1, t1, n) == RunDiff(runs2, t2, n)
  {
    forall k | 0 <= k < |days| ensures AlikeInputs(runs1[k], runs2[k]) {
      DayAlike(days[k], o1[k], o2[k], runs1[k], runs2[k]);
    }
    HistoriesAlike(runs1, runs2, t1, t2, n);
    if n < |days| {
      RunsAlike(t1[n], t2[n], runs1[n], runs2[n]);
    }
  }
}
