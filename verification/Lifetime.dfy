/** The life of one identity over a sequence of runs: what the runs observed of
    it, told without any seen-state, and the state machine its record goes
    through (tools/internal/healthreport/diff.go). */
module Lifetime {
  import opened Ordering
  import opened Severity
  import opened Diff

  /** One run as one identity meets it. `sightings` counts what the record counts:
      an alert once, else every observation with the id. */
  datatype Beat = Beat(now: int, sightings: nat, alerted: bool)

  ghost predicate IsLife(h: seq<Beat>) {
    && (forall i, j :: 0 <= i <= j < |h| ==> h[i].now <= h[j].now)
    && (forall i :: 0 <= i < |h| && h[i].alerted ==> h[i].sightings > 0)
  }

  const RETENTION := RETENTION_DAYS * SECONDS_PER_DAY

  // ----- what happened --------------------------------------------------

  /** The last of the first n runs that observed the identity. */
  function LastSighting(h: seq<Beat>, n: nat): (r: Option<nat>)
    requires n <= |h|
    ensures r.Some? ==> r.value < n && h[r.value].sightings > 0
    ensures forall k :: 0 <= k < n && h[k].sightings > 0 ==> r.Some? && k <= r.value
  {
    if n == 0 then None
    else if h[n - 1].sightings > 0 then Some(n - 1)
    else LastSighting(h, n - 1)
  }

  /** Run n - 1 finds the identity unseen for longer than the retention. */
  predicate Expired(h: seq<Beat>, n: nat)
    requires 0 < n <= |h|
  {
    var last := LastSighting(h, n);
    last.Some? && h[last.value].now < h[n - 1].now - RETENTION
  }

  /** The run in which the current lifetime began, as of before run n. */
  function Born(h: seq<Beat>, n: nat): (r: Option<nat>)
    requires n <= |h|
    ensures r.Some? ==> r.value < n && h[r.value].sightings > 0
  {
    if n == 0 then None
    else
      var before := Born(h, n - 1);
      if h[n - 1].sightings > 0 then (if before.Some? then before else Some(n - 1))
      else if Expired(h, n) then None
      else before
  }

  /** The last run from b on, before run n, with an alert. */
  function LastAlerted(h: seq<Beat>, b: nat, n: nat): (r: Option<nat>)
    requires b <= n <= |h|
    ensures r.Some? ==> b <= r.value < n && h[r.value].alerted && forall k :: r.value < k < n ==> !h[k].alerted
    ensures r.None? ==> forall k :: b <= k < n ==> !h[k].alerted
  {
    if n == b then None
    else if h[n - 1].alerted then Some(n - 1)
    else LastAlerted(h, b, n - 1)
  }

  /** Alerting again after having alerted earlier in the same lifetime and then
      having been quiet. */
  predicate Reopens(h: seq<Beat>, k: nat)
    requires k < |h|
  {
    && h[k].alerted && !(k > 0 && h[k - 1].alerted)
    && var born := Born(h, k);
       born.Some? && exists i :: born.value <= i < k && h[i].alerted
  }

  /** Where the current occurrence began: at the last reopening of the lifetime
      born in run b, or else at its birth. */
  function OccurrenceStart(h: seq<Beat>, b: nat, n: nat): (r: nat)
    requires b < n <= |h|
    ensures b <= r < n
    ensures r == b || Reopens(h, r)
    ensures forall k :: r < k < n ==> !Reopens(h, k)
  {
    if n - 1 == b then b
    else if Reopens(h, n - 1) then n - 1
    else OccurrenceStart(h, b, n - 1)
  }

  function CountedSightings(h: seq<Beat>, b: nat, n: nat): nat
    requires b <= n <= |h|
  {
    if n == b then 0 else CountedSightings(h, b, n - 1) + h[n - 1].sightings
  }

  /** An identity is remembered exactly as long as some run within the retention
      observed it. */
  lemma {:induction false} AliveIffSeenLately(h: seq<Beat>, n: nat)
    requires IsLife(h) && 0 < n <= |h|
    ensures Born(h, n).Some? <==> exists j :: 0 <= j < n && h[j].sightings > 0 && h[j].now >= h[n - 1].now - RETENTION
  {
    if n > 1 { AliveIffSeenLately(h, n - 1); }
    var last := LastSighting(h, n);
    if last.Some? && h[last.value].now >= h[n - 1].now - RETENTION && h[n - 1].sightings == 0 {
      assert last.value < n - 1;
      assert h[last.value].now >= h[n - 2].now - RETENTION;
    }
  }

  /** Within one lifetime the birth run does not change. */
  lemma {:induction false} SameLifetime(h: seq<Beat>, m: nat, n: nat)
    requires m <= n <= |h| && Born(h, n).Some? && Born(h, n).value < m
    ensures Born(h, m) == Born(h, n)
  {
    if m < n { SameLifetime(h, m, n - 1); }
  }

  // ----- the record -----------------------------------------------------

  /** The time-dependent part of a seen-record. */
  datatype Dates = Dates(
    firstSeen: Stamp,
    lastSeen: Stamp,
    count: int,
    lastActionable: Option<Stamp>,
    resolvedAt: Stamp)

  /** What a run makes of the dates; `was` says whether the last run alerted. */
  function DateStep(dates: Option<Dates>, was: bool, beat: Beat): Option<Dates> {
    var now := At(beat.now);
    if beat.alerted then
      match dates
      case None => Some(Dates(now, now, 1, Some(now), Missing))
      case Some(d) =>
        var reopens := !was && d.lastActionable.Some?;
        Some(Dates(if reopens then now else d.firstSeen, now, d.count + 1, Some(now),
                   if reopens then Missing else d.resolvedAt))
    else
      var start := if was && dates.Some? then Some(dates.value.(resolvedAt := now)) else dates;
      match start
      case None => if beat.sightings > 0 then Some(Dates(now, now, beat.sightings, None, Missing)) else None
      case Some(d) =>
        if beat.sightings > 0 then Some(d.(lastSeen := now, count := d.count + beat.sightings))
        else if d.lastActionable != Some(now) && d.lastSeen.At? && d.lastSeen.time < beat.now - RETENTION then None
        else start
  }

  /** The dates before run n, and whether run n - 1 alerted. */
  function DatesAt(h: seq<Beat>, n: nat): Option<Dates>
    requires n <= |h|
  {
    if n == 0 then None else DateStep(DatesAt(h, n - 1), n > 1 && h[n - 2].alerted, h[n - 1])
  }

  /** Every field, derived from what happened since the birth in run b. */
  predicate DatesTell(h: seq<Beat>, b: nat, n: nat, d: Dates)
    requires b < n <= |h|
  {
    var last, alerted := LastSighting(h, n), LastAlerted(h, b, n);
    && last.Some? && b <= last.value && d.lastSeen == At(h[last.value].now)
    && d.lastActionable == (if alerted.Some? then Some(At(h[alerted.value].now)) else None)
    && d.firstSeen == At(h[OccurrenceStart(h, b, n)].now)
    && (d.resolvedAt == Missing <==> alerted.None? || alerted.value == n - 1)
  }

  lemma ReopensAfterAlert(h: seq<Beat>, k: nat)
    requires k < |h| && Born(h, k).Some?
    ensures Reopens(h, k) <==> h[k].alerted && !h[k - 1].alerted && LastAlerted(h, Born(h, k).value, k).Some?
  {
  }

  lemma LifeContinues(h: seq<Beat>, n: nat, d: Dates)
    requires IsLife(h) && n < |h| && Born(h, n).Some?
    requires DatesTell(h, Born(h, n).value, n, d)
    ensures var next := DateStep(Some(d), h[n - 1].alerted, h[n]);
      && (next.Some? <==> Born(h, n + 1).Some?)
      && (next.Some? ==> Born(h, n + 1) == Born(h, n) && DatesTell(h, Born(h, n).value, n + 1, next.value))
  {
    var b := Born(h, n).value;
    var alerted := LastAlerted(h, b, n);
    ReopensAfterAlert(h, n);
    if alerted.Some? {
      assert alerted.value <= LastSighting(h, n).value;
    }
  }

  /** The dates exist exactly during a lifetime, and tell it. */
  lemma {:induction false} DatesSummarise(h: seq<Beat>, n: nat)
    requires IsLife(h) && n <= |h|
    ensures DatesAt(h, n).Some? <==> Born(h, n).Some?
    ensures Born(h, n).Some? ==> DatesTell(h, Born(h, n).value, n, DatesAt(h, n).value)
    ensures n > 0 && h[n - 1].alerted ==> Born(h, n).Some?
  {
    if n > 0 {
      DatesSummarise(h, n - 1);
      if Born(h, n - 1).Some? {
        LifeContinues(h, n - 1, DatesAt(h, n - 1).value);
      }
    }
  }

  lemma {:induction false} CountSummarises(h: seq<Beat>, n: nat)
    requires IsLife(h) && n <= |h| && Born(h, n).Some?
    requires forall i :: 0 <= i < n && h[i].alerted ==> h[i].sightings == 1
    ensures DatesAt(h, n).Some? && DatesAt(h, n).value.count == CountedSightings(h, Born(h, n).value, n)
  {
    DatesExist(h, n);
    DatesExist(h, n - 1);
    if Born(h, n - 1).Some? {
      CountSummarises(h, n - 1);
      CountContinues(h, n);
    } else {
      CountStarts(h, n);
    }
  }

  lemma DatesExist(h: seq<Beat>, n: nat)
    requires IsLife(h) && n <= |h|
    ensures DatesAt(h, n).Some? <==> Born(h, n).Some?
  {
    DatesSummarise(h, n);
  }

  lemma CountStarts(h: seq<Beat>, n: nat)
    requires 0 < n <= |h| && Born(h, n).Some? && Born(h, n - 1).None? && DatesAt(h, n - 1).None?
    requires h[n - 1].alerted ==> h[n - 1].sightings == 1
    ensures Born(h, n) == Some(n - 1)
    ensures DatesAt(h, n).Some? && DatesAt(h, n).value.count == CountedSightings(h, n - 1, n)
  {
    assert CountedSightings(h, n - 1, n) == CountedSightings(h, n - 1, n - 1) + h[n - 1].sightings;
  }

  lemma CountContinues(h: seq<Beat>, n: nat)
    requires IsLife(h) && 0 < n <= |h| && Born(h, n).Some? && Born(h, n - 1).Some?
    requires h[n - 1].alerted ==> h[n - 1].sightings == 1
    requires DatesAt(h, n).Some? && DatesAt(h, n - 1).Some?
    ensures Born(h, n) == Born(h, n - 1)
    ensures DatesAt(h, n).value.count == DatesAt(h, n - 1).value.count + h[n - 1].sightings
  {
  }

  lemma {:induction false} CountedOnce(h: seq<Beat>, b: nat, n: nat)
    requires b <= n <= |h|
    requires forall i :: 0 <= i < n ==> h[i].sightings <= 1
    ensures CountedSightings(h, b, n) == |set k | b <= k < n && h[k].sightings > 0|
  {
    if b < n {
      CountedOnce(h, b, n - 1);
      var before := set k | b <= k < n - 1 && h[k].sightings > 0;
      assert (set k | b <= k < n && h[k].sightings > 0)
          == if h[n - 1].sightings > 0 then before + {n - 1} else before;
    }
  }

  lemma CountIsRuns(h: seq<Beat>, n: nat)
    requires IsLife(h) && n <= |h|
    requires forall i :: 0 <= i < |h| ==> h[i].sightings <= 1
    ensures DatesAt(h, n).Some? <==> Born(h, n).Some?
    ensures Born(h, n).Some? ==>
      DatesAt(h, n).value.count == |set k | Born(h, n).value <= k < n && h[k].sightings > 0|
  {
    DatesSummarise(h, n);
    if Born(h, n).Some? {
      CountSummarises(h, n);
      CountedOnce(h, Born(h, n).value, n);
    }
  }

  /** A reopening just before run i is not directly followed by an alert. */
  predicate QuietAfter(h: seq<Beat>, i: nat)
    requires 0 < i < |h|
  {
    Reopens(h, i - 1) ==> !h[i].alerted
  }

  /** If a reopening is never directly followed by an alert, then within one
      lifetime every alert after a reopening is again a reopening. */
  lemma {:induction false} AlertsKeepReopening(h: seq<Beat>, k: nat, j: nat)
    requires k <= j < |h| && Reopens(h, k)
    requires Born(h, j).Some? && Born(h, j).value <= k
    requires forall i :: k < i <= j ==> QuietAfter(h, i)
    ensures h[j].alerted ==> Reopens(h, j)
  {
    if k < j {
      if Born(h, j).value < j - 1 { SameLifetime(h, j - 1, j); }
      assert Born(h, j - 1).Some?;
      AlertsKeepReopening(h, k, j - 1);
      assert QuietAfter(h, j);
      assert h[k].alerted;
    }
  }
}
