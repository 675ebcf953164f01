/** One complete run of the health report: assemble, classify, diff, prune, save
    (tools/internal/healthreport/run.go and the saving half of diff.go). */
module HealthRun {
  import opened Ordering
  import opened Severity
  import opened Diff
  import opened DiffLaws
  import opened Collectors

  /** What a run works on: everything it observed, the rules and the clock. */
  datatype RunInput = RunInput(observations: seq<Observation>, rules: Rules, now: int)

  /** What one run leaves to the next: the two state files. */
  datatype State = State(latest: seq<PrevObservation>, seen: Seen)

  const FRESH := State([], map[])

  datatype Facts = Facts(
    startedAt: int,
    observations: seq<Observation>,
    diff: DiffResult,
    crit: nat, warn: nat, info: nat,
    collectorsFailed: seq<string>,
    seenPruned: nat)

  /** Ids that count as new for new_only rules. While nothing at all is known,
      nothing is new. */
  function CandidateNew(observations: seq<Observation>, seen: Seen): set<string> {
    if seen == map[] then {}
    else set i | 0 <= i < |observations| && observations[i].id !in seen :: observations[i].id
  }

  /** The run's observations with the severities it gives them. */
  function Assessed(st: State, input: RunInput): seq<Observation> {
    ClassifiedAll(AttachedAll(input.observations, st.seen), input.rules,
                  CandidateNew(input.observations, st.seen), input.now)
  }

  function Entries(observations: seq<Observation>): seq<PrevObservation> {
    seq(|observations|, i requires 0 <= i < |observations| =>
      PrevObservation(observations[i].id, observations[i].severity))
  }

  function RunStep(st: State, input: RunInput): State {
    var assessed := Assessed(st, input);
    State(Entries(assessed), Pruned(NextSeen(st.seen, assessed, st.latest, input.now), input.now, RETENTION_DAYS))
  }

  lemma EntriesSame(a: seq<Observation>, b: seq<Observation>)
    requires |a| == |b|
    requires forall i :: 0 <= i < |a| ==> a[i].id == b[i].id && a[i].severity == b[i].severity
    ensures Entries(a) == Entries(b)
  {
  }

  lemma {:induction false} CountsSame(a: seq<Observation>, b: seq<Observation>, severity: Severity)
    requires |a| == |b|
    requires forall i :: 0 <= i < |a| ==> a[i].severity == b[i].severity
    ensures CountSeverity(a, severity) == CountSeverity(b, severity)
  {
    if a != [] { CountsSame(a[..|a| - 1], b[..|b| - 1], severity); }
  }

  lemma StampingKeepsCounts(seen: Seen, observations: seq<Observation>, previous: seq<PrevObservation>, now: int)
    ensures var stamped := StampedAll(seen, observations, previous, now);
      && CountSeverity(stamped, Crit) == CountSeverity(observations, Crit)
      && CountSeverity(stamped, Warn) == CountSeverity(observations, Warn)
      && CountSeverity(stamped, Info) == CountSeverity(observations, Info)
      && Entries(stamped) == Entries(observations)
  {
    var stamped := StampedAll(seen, observations, previous, now);
    CountsSame(stamped, observations, Crit);
    CountsSame(stamped, observations, Warn);
    CountsSame(stamped, observations, Info);
    EntriesSame(stamped, observations);
  }

  /** The state directory between runs. */
  class StateDir {
    var latest: seq<PrevObservation>
    var seen: Seen

    constructor ()
      ensures Contents() == FRESH
    {
      latest, seen := [], map[];
    }

    function Contents(): State
      reads this
    {
      State(latest, seen)
    }

    method CollectCandidates(observations: array<Observation>) returns (candidates: set<string>)
      ensures candidates == CandidateNew(observations[..], seen)
    {
      candidates := {};
      if |seen| > 0 {
        for i := 0 to observations.Length
          invariant candidates == set j | 0 <= j < i && observations[j].id !in seen :: observations[j].id
        {
          if observations[i].id !in seen {
            candidates := candidates + {observations[i].id};
          }
        }
      }
    }

    method CountAll(observations: array<Observation>) returns (crit: nat, warn: nat, info: nat)
      ensures crit == CountSeverity(observations[..], Crit)
      ensures warn == CountSeverity(observations[..], Warn)
      ensures info == CountSeverity(observations[..], Info)
    {
      crit, warn, info := 0, 0, 0;
      for i := 0 to observations.Length
        invariant crit == CountSeverity(observations[..i], Crit)
        invariant warn == CountSeverity(observations[..i], Warn)
        invariant info == CountSeverity(observations[..i], Info)
      {
        assert observations[..i + 1][..i] == observations[..i];
        match observations[i].severity {
          case Crit => crit := crit + 1;
          case Warn => warn := warn + 1;
          case Info => info := info + 1;
          case Other(_) =>
        }
      }
      assert observations[..observations.Length] == observations[..];
    }

    /** Gathers, classifies and diffs. The state files are read and left alone. */
    method Assemble(results: Results, rules: Rules, now: int)
      returns (facts: Facts, store: SeenStore, ghost order: seq<string>)
      ensures fresh(store) && Walks(order, results)
      ensures var input := RunInput(Gathered(results, order), rules, now);
        var assessed := Assessed(Contents(), input);
        && store.records == NextSeen(seen, assessed, latest, now)
        && facts.observations == StampedAll(seen, assessed, latest, now)
        && facts.diff == DiffOf(assessed, latest, seen)
        && facts.crit == CountSeverity(assessed, Crit)
        && facts.warn == CountSeverity(assessed, Warn)
        && facts.info == CountSeverity(assessed, Info)
      ensures facts.startedAt == now && facts.seenPruned == 0
      ensures facts.collectorsFailed == SortedOf(Failed(results))
      ensures Entries(facts.observations)
           == Entries(Assessed(Contents(), RunInput(Gathered(results, order), rules, now)))
    {
      var gathered := Gather(results);
      order :| Walks(order, results) && gathered == Gathered(results, order);
      var observations := new Observation[|gathered|](i requires 0 <= i < |gathered| => gathered[i]);
      assert observations[..] == gathered;
      store := new SeenStore(seen);
      var candidates := CollectCandidates(observations);
      AttachPreviousValues(observations, seen);
      Apply(observations, rules, candidates, now);
      ghost var assessed := observations[..];
      assert assessed == Assessed(Contents(), RunInput(gathered, rules, now));
      var diff := store.Compute(observations, latest, now);
      StampingKeepsCounts(seen, assessed, latest, now);
      var crit, warn, info := CountAll(observations);
      var failed := FailedNames(results);
      facts := Facts(now, observations[..], diff, crit, warn, info, failed, 0);
    }

    /** A run that reaches the end of `Save`. */
    method Run(results: Results, rules: Rules, now: int) returns (facts: Facts, ghost order: seq<string>)
      modifies this
      ensures Walks(order, results)
      ensures var input := RunInput(Gathered(results, order), rules, now);
        && Contents() == RunStep(old(Contents()), input)
        && facts.observations == StampedAll(old(seen), Assessed(old(Contents()), input), old(latest), now)
        && facts.diff == DiffOf(Assessed(old(Contents()), input), old(latest), old(seen))
        && facts.crit == CountSeverity(Assessed(old(Contents()), input), Crit)
        && facts.warn == CountSeverity(Assessed(old(Contents()), input), Warn)
        && facts.info == CountSeverity(Assessed(old(Contents()), input), Info)
        && facts.seenPruned
           == |NextSeen(old(seen), Assessed(old(Contents()), input), old(latest), now)| - |Contents().seen|
      ensures facts.startedAt == now && facts.collectorsFailed == SortedOf(Failed(results))
    {
      var store;
      facts, store, order := Assemble(results, rules, now);
      var pruned := store.PruneSeen(now, RETENTION_DAYS);
      facts := facts.(seenPruned := pruned);
      latest, seen := Entries(facts.observations), store.records;
    }
  }
}
