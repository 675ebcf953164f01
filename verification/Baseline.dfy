/** What a spike is measured against: the value that AttachPreviousValues finds in the
    seen-state, told from the runs (tools/internal/healthreport/diff.go). */
module Baseline {
  import opened Ordering
  import opened Severity
  import opened Diff
  import opened DiffLaws
  import opened HealthRun
  import opened Lifetime
  import opened History

  /** The number the run read for the id, if it read one. */
  function NumberRead(observations: seq<Observation>, id: string): (r: Option<Value>)
    ensures r.Some? ==> r.value.Number?
    ensures DistinctIds(observations) ==> forall i :: 0 <= i < |observations| && observations[i].id == id ==>
      r == if observations[i].value.Number? then Some(observations[i].value) else None
    ensures !Sees(observations, id) ==> r == None
  {
    if observations == [] then None
    else
      var n := |observations| - 1;
      assert forall i :: 0 <= i < n ==> observations[..n][i] == observations[i];
      if observations[n].id == id && observations[n].value.Number? then Some(observations[n].value)
      else NumberRead(observations[..n], id)
  }

  /** The last of the runs from b on, before run n, that read a number. */
  function LastRead(runs: seq<RunInput>, id: string, b: nat, n: nat): (r: Option<nat>)
    requires b <= n <= |runs|
    ensures r.Some? ==> b <= r.value < n && NumberRead(runs[r.value].observations, id).Some?
    ensures forall k :: b <= k < n && NumberRead(runs[k].observations, id).Some? ==> r.Some? && k <= r.value
  {
    if n == b then None
    else if NumberRead(runs[n - 1].observations, id).Some? then Some(n - 1)
    else LastRead(runs, id, b, n - 1)
  }

  function ReadSince(runs: seq<RunInput>, id: string, b: nat, n: nat): Value
    requires b <= n <= |runs|
  {
    var last := LastRead(runs, id, b, n);
    if last.Some? then NumberRead(runs[last.value].observations, id).value else Nil
  }

  lemma AssessedAt(st: State, input: RunInput, i: nat)
    requires i < |input.observations|
    ensures |Assessed(st, input)| == |input.observations|
    ensures Assessed(st, input)[i].id == input.observations[i].id
    ensures Assessed(st, input)[i].value == input.observations[i].value
  {
  }

  function ValueOf(record: Option<SeenRecord>): Value {
    if record.Some? then record.value.lastValue else Nil
  }

  lemma UpdateRemembers(prior: Option<SeenRecord>, o: Observation, was: bool, now: int)
    ensures var wanted := if o.value.Number? then o.value else ValueOf(prior);
      && AlertUpdate(prior, o, was, now).lastValue == wanted
      && QuietUpdate(MarkResolved(prior, was, now), o, now).lastValue == wanted
  {
  }

  lemma NextRemembers(seen: Seen, observations: seq<Observation>, previous: seq<PrevObservation>, now: int, id: string)
    requires DistinctIds(observations)
    ensures ValueOf(Get(NextSeen(seen, observations, previous, now), id)) ==
      var read := NumberRead(observations, id);
      if read.Some? then read.value else ValueOf(Get(seen, id))
  {
    RecordAfterRun(seen, observations, previous, now, id);
    if i :| 0 <= i < |observations| && observations[i].id == id {
      UpdateRemembers(Get(seen, id), observations[i], WasActionable(previous, id), now);
    }
  }

  /** Classification changes no reading. */
  lemma AssessedReads(st: State, input: RunInput, id: string)
    requires DistinctIds(input.observations)
    ensures NumberRead(Assessed(st, input), id) == NumberRead(input.observations, id)
  {
    AssessedDistinct(st, input);
    AssessedSees(st, input, id);
    if i :| 0 <= i < |input.observations| && input.observations[i].id == id {
      AssessedAt(st, input, i);
    }
  }

  /** One run: a number read replaces the remembered value, anything else keeps it. */
  lemma RunRemembers(st: State, input: RunInput, id: string)
    requires DistinctIds(input.observations) && id in RunStep(st, input).seen
    ensures ValueOf(Get(RunStep(st, input).seen, id)) ==
      var read := NumberRead(input.observations, id);
      if read.Some? then read.value else ValueOf(Get(st.seen, id))
  {
    var assessed := Assessed(st, input);
    AssessedDistinct(st, input);
    AssessedReads(st, input, id);
    NextRemembers(st.seen, assessed, st.latest, input.now, id);
    PrunedAt(NextSeen(st.seen, assessed, st.latest, input.now), input.now, id);
  }

  lemma BornNext(h: seq<Beat>, n: nat)
    requires 0 < n <= |h| && Born(h, n).Some?
    ensures Born(h, n) == if Born(h, n - 1).Some? then Born(h, n - 1) else Some(n - 1)
  {
  }

  lemma KnownIffBorn(runs: seq<RunInput>, trace: seq<State>, h: seq<Beat>, n: nat, id: string)
    requires IsHistory(runs, trace) && n <= |runs| && h == LifeOf(runs, trace, id)
    ensures id in trace[n].seen <==> Born(h, n).Some?
  {
    SavedRecordTellsHistory(runs, trace, n, id);
  }

  ghost predicate KnownAt(trace: seq<State>, h: seq<Beat>, id: string, n: nat)
    requires n < |trace| && n <= |h|
  {
    id in trace[n].seen <==> Born(h, n).Some?
  }

  /** The value that run k - 1 leaves in the record, if there is one. */
  ghost predicate ReadAt(runs: seq<RunInput>, trace: seq<State>, id: string, k: nat)
    requires 0 < k <= |runs| && k < |trace|
  {
    id in trace[k].seen ==>
      var read := NumberRead(runs[k - 1].observations, id);
      trace[k].seen[id].lastValue == if read.Some? then read.value else ValueOf(Get(trace[k - 1].seen, id))
  }

  lemma KnownThroughout(runs: seq<RunInput>, trace: seq<State>, h: seq<Beat>, id: string)
    requires IsHistory(runs, trace) && h == LifeOf(runs, trace, id)
    ensures forall n :: 0 <= n <= |runs| ==> KnownAt(trace, h, id, n)
  {
    forall n | 0 <= n <= |runs| ensures KnownAt(trace, h, id, n) {
      KnownIffBorn(runs, trace, h, n, id);
    }
  }

  lemma ReadThroughout(runs: seq<RunInput>, trace: seq<State>, id: string)
    requires IsHistory(runs, trace) && forall k :: 0 <= k < |runs| ==> DistinctIds(runs[k].observations)
    ensures forall k :: 0 < k <= |runs| ==> ReadAt(runs, trace, id, k)
  {
    forall k | 0 < k <= |runs| ensures ReadAt(runs, trace, id, k) {
      assert Follows(runs, trace, k - 1);
      if id in trace[k].seen { RunRemembers(trace[k - 1], runs[k - 1], id); }
    }
  }

  /** The value remembered after run k - 1, from the one before it. */
  ghost predicate ValueFollows(runs: seq<RunInput>, h: seq<Beat>, values: seq<Value>, id: string, k: nat)
    requires 0 < k <= |runs| == |h| && |values| == |runs| + 1
  {
    var read := NumberRead(runs[k - 1].observations, id);
    Born(h, k).Some? ==>
      values[k] == if read.Some? then read.value else if Born(h, k - 1).Some? then values[k - 1] else Nil
  }

  lemma {:induction false} ReadsAccumulate(runs: seq<RunInput>, h: seq<Beat>, values: seq<Value>, id: string, n: nat)
    requires n <= |runs| == |h| && |values| == |runs| + 1 && Born(h, n).Some?
    requires forall k :: 0 < k <= |runs| ==> ValueFollows(runs, h, values, id, k)
    ensures values[n] == ReadSince(runs, id, Born(h, n).value, n)
  {
    assert n > 0 && ValueFollows(runs, h, values, id, n);
    BornNext(h, n);
    if Born(h, n - 1).Some? { ReadsAccumulate(runs, h, values, id, n - 1); }
  }

  ghost function RememberedValues(trace: seq<State>, id: string): (r: seq<Value>)
    ensures |r| == |trace|
  {
    seq(|trace|, k requires 0 <= k < |trace| => ValueOf(Get(trace[k].seen, id)))
  }

  /** With distinct ids: the remembered value is the number read by the last run of the
      id's lifetime that read one, and nothing if there was none. That run need not be
      the last one: a gap in the readings does not reset the baseline. */
  lemma BaselineIsLastNumber(runs: seq<RunInput>, trace: seq<State>, n: nat, id: string)
    requires IsHistory(runs, trace) && n <= |runs| && id in trace[n].seen
    requires forall k :: 0 <= k < |runs| ==> DistinctIds(runs[k].observations)
    ensures Born(LifeOf(runs, trace, id), n).Some?
    ensures trace[n].seen[id].lastValue == ReadSince(runs, id, Born(LifeOf(runs, trace, id), n).value, n)
  {
    var h, values := LifeOf(runs, trace, id), RememberedValues(trace, id);
    KnownThroughout(runs, trace, h, id);
    ReadThroughout(runs, trace, id);
    ValuesFollow(runs, trace, h, id);
    assert KnownAt(trace, h, id, n);
    ReadsAccumulate(runs, h, values, id, n);
  }

  lemma ValuesFollow(runs: seq<RunInput>, trace: seq<State>, h: seq<Beat>, id: string)
    requires |trace| == |runs| + 1 && |h| == |runs|
    requires forall n :: 0 <= n <= |runs| ==> KnownAt(trace, h, id, n)
    requires forall k :: 0 < k <= |runs| ==> ReadAt(runs, trace, id, k)
    ensures forall k :: 0 < k <= |runs| ==> ValueFollows(runs, h, RememberedValues(trace, id), id, k)
  {
    forall k | 0 < k <= |runs| ensures ValueFollows(runs, h, RememberedValues(trace, id), id, k) {
      assert KnownAt(trace, h, id, k - 1) && KnownAt(trace, h, id, k) && ReadAt(runs, trace, id, k);
    }
  }

  /** What classification sees as the previous value in run n. */
  lemma SpikeBaseline(runs: seq<RunInput>, trace: seq<State>, n: nat, i: nat)
    requires IsHistory(runs, trace) && n < |runs| && i < |runs[n].observations|
    requires forall k :: 0 <= k < |runs| ==> DistinctIds(runs[k].observations)
    ensures var o := runs[n].observations[i];
      var born := Born(LifeOf(runs, trace, o.id), n);
      AttachedAll(runs[n].observations, trace[n].seen)[i].previousValue
      == if born.Some? then ReadSince(runs, o.id, born.value, n) else o.previousValue
  {
    var id := runs[n].observations[i].id;
    KnownIffBorn(runs, trace, LifeOf(runs, trace, id), n, id);
    if id in trace[n].seen { BaselineIsLastNumber(runs, trace, n, id); }
  }

  function Reading(v: Value): Option<Value> {
    if v.Number? then Some(v) else None
  }

  /** Exactly when the baseline is what the last run read: iff that run read a number,
      or no run of the lifetime did. Otherwise it is an older reading. */
  lemma BaselineFromLastRunIff(runs: seq<RunInput>, trace: seq<State>, n: nat, id: string)
    requires IsHistory(runs, trace) && 0 < n <= |runs| && id in trace[n].seen
    requires forall k :: 0 <= k < |runs| ==> DistinctIds(runs[k].observations)
    ensures Born(LifeOf(runs, trace, id), n).Some?
    ensures Reading(trace[n].seen[id].lastValue) == NumberRead(runs[n - 1].observations, id)
       <==> NumberRead(runs[n - 1].observations, id).Some?
            || LastRead(runs, id, Born(LifeOf(runs, trace, id), n).value, n).None?
  {
    BaselineIsLastNumber(runs, trace, n, id);
    ReadingIff(runs, id, Born(LifeOf(runs, trace, id), n).value, n);
  }

  lemma ReadingIff(runs: seq<RunInput>, id: string, b: nat, n: nat)
    requires b < n <= |runs|
    ensures Reading(ReadSince(runs, id, b, n)) == NumberRead(runs[n - 1].observations, id)
       <==> NumberRead(runs[n - 1].observations, id).Some? || LastRead(runs, id, b, n).None?
  {
  }

  // A rate that jumps from 10 to 40 over a day on which it was not read.
  const JUMPS := NO_RULE.(kind := ThresholdOrSpike, spikeFactor := Some(3.0))
  const RATES: Rules := map["rate" := JUMPS]

  function Rate(value: Value): Observation {
    Observation("x", "host", "rate", Info, value, Nil, Missing, false, None, None)
  }

  function ThreeRuns(): seq<RunInput> {
    [RunInput([Rate(Number(10.0, "10"))], RATES, 0), RunInput([], RATES, SECONDS_PER_DAY),
     RunInput([Rate(Number(40.0, "40"))], RATES, 2 * SECONDS_PER_DAY)]
  }

  lemma {:induction false} BornInFirstRun(t: seq<State>, h: seq<Beat>)
    requires IsHistory(ThreeRuns(), t) && h == LifeOf(ThreeRuns(), t, "x")
    ensures Born(h, 2) == Some(0)
  {
    BeatSees(ThreeRuns(), t, 0, "x");
    BeatSees(ThreeRuns(), t, 1, "x");
    assert ThreeRuns()[0].observations[0].id == "x";
    assert h[0].now == 0 && h[1].now == SECONDS_PER_DAY;
    assert Born(h, 0).None? && Born(h, 1) == Some(0);
  }

  lemma ReadInFirstRun()
    ensures NumberRead(ThreeRuns()[1].observations, "x") == None
    ensures ReadSince(ThreeRuns(), "x", 0, 2) == Number(10.0, "10")
  {
    var runs := ThreeRuns();
    assert NumberRead(runs[0].observations, "x") == Some(Number(10.0, "10"));
    assert LastRead(runs, "x", 0, 2) == LastRead(runs, "x", 0, 1) == Some(0);
  }

  /** The last run before read nothing, and still the third run measures a spike: against
      the reading of the first. */
  lemma SpikeOverGap() returns (runs: seq<RunInput>, t: seq<State>)
    ensures runs == ThreeRuns() && IsHistory(runs, t) && NumberRead(runs[1].observations, "x") == None
    ensures AttachedAll(runs[2].observations, t[2].seen)[0].previousValue == Number(10.0, "10")
    ensures Assessed(t[2], runs[2])[0].severity == Warn
  {
    runs := ThreeRuns();
    t := TraceOf(runs);
    BornInFirstRun(t, LifeOf(runs, t, "x"));
    ReadInFirstRun();
    SpikeBaseline(runs, t, 2, 0);
    JumpIsSpike(t[2]);
  }

  lemma JumpIsSpike(st: State)
    requires Attached(Rate(Number(40.0, "40")), st.seen).previousValue == Number(10.0, "10")
    ensures Assessed(st, ThreeRuns()[2])[0].severity == Warn
  {
    var o, input := Rate(Number(40.0, "40")), ThreeRuns()[2];
    assert Assessed(st, input)[0]
        == Classified(Attached(o, st.seen), RATES, CandidateNew(input.observations, st.seen), input.now);
    assert Spiked(Attached(o, st.seen), JUMPS);
  }
}
