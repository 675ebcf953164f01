/** Weekly maintenance windows and the split of a log series by them
    (tools/internal/healthreport/collectors/loki.go). */
module Maintenance {

  const DAY := 1440
  const WEEK := 10080

  /** `day` is 0 for Monday to 6 for Sunday, or -1 for every day; `start` and `end`
      are minutes of the day. */
  datatype Window = Window(day: int, start: int, end: int)

  predicate OnDay(w: Window, weekday: int) {
    w.day == -1 || w.day == weekday
  }

  /** The test of the program for one window. */
  predicate Hits(w: Window, weekday: int, minute: int) {
    if w.start <= w.end then OnDay(w, weekday) && w.start <= minute < w.end
    else (OnDay(w, weekday) && minute >= w.start) || (OnDay(w, (weekday - 1 + 7) % 7) && minute < w.end)
  }

  // ----- what a window means --------------------------------------------

  /** How long a window lasts; one that ends before it starts runs past midnight. */
  function Length(w: Window): int {
    if w.start <= w.end then w.end - w.start else w.end - w.start + DAY
  }

  /** The minute of the week lies in the occurrence that starts on day d, on a week
      that is a circle. */
  predicate InOccurrence(w: Window, d: int, m: int) {
    OnDay(w, d) && (m - (d * DAY + w.start)) % WEEK < Length(w)
  }

  predicate Covers(w: Window, m: int) {
    exists d :: 0 <= d < 7 && InOccurrence(w, d, m)
  }

  predicate OnTheClock(w: Window) {
    -1 <= w.day < 7 && 0 <= w.start < DAY && 0 <= w.end <= DAY
  }

  /** Where minute m of the week lies in the occurrence of day d: either this week,
      or it wraps around from Sunday to Monday. */
  lemma Offset(x: int)
    requires -WEEK <= x < WEEK
    ensures x % WEEK == if x < 0 then x + WEEK else x
  {
  }

  lemma OccurrenceAt(w: Window, d: int, weekday: int, minute: int)
    requires 0 <= d < 7 && 0 <= weekday < 7 && 0 <= minute < DAY && 0 <= w.start < DAY && 0 <= w.end <= DAY
    ensures InOccurrence(w, d, weekday * DAY + minute) <==>
      && OnDay(w, d)
      && ((d == weekday && w.start <= minute && minute < w.start + Length(w))
          || ((d + 1) % 7 == weekday && minute + DAY < w.start + Length(w)))
  {
    Offset(weekday * DAY + minute - (d * DAY + w.start));
  }

  /** The test says exactly whether the minute of the week lies in the union of the
      cyclic intervals, across midnight and from Sunday to Monday. */
  lemma HitsIffCovers(w: Window, weekday: int, minute: int)
    requires OnTheClock(w) && 0 <= weekday < 7 && 0 <= minute < DAY
    ensures Hits(w, weekday, minute) <==> Covers(w, weekday * DAY + minute)
  {
    var yesterday := (weekday - 1 + 7) % 7;
    assert (yesterday + 1) % 7 == weekday;
    OccurrenceAt(w, weekday, weekday, minute);
    OccurrenceAt(w, yesterday, weekday, minute);
    if Hits(w, weekday, minute) {
      assert InOccurrence(w, weekday, weekday * DAY + minute) || InOccurrence(w, yesterday, weekday * DAY + minute);
    }
    var m := weekday * DAY + minute;
    if Covers(w, m) {
      var d :| 0 <= d < 7 && InOccurrence(w, d, m);
      OccurrenceAt(w, d, weekday, minute);
    }
  }

  lemma EmptyWindow(w: Window, m: int)
    requires w.start == w.end
    ensures !Covers(w, m)
  {
    forall d ensures !InOccurrence(w, d, m) {
      assert 0 <= (m - (d * DAY + w.start)) % WEEK;
    }
  }

  /** The parser lets through clock times up to 99:99. The test means the cyclic
      interval exactly if the window is empty, or ends within its day, or wraps from a
      start that is on the clock, or wraps to midnight, or covers every day in full. */
  predicate Tidy(w: Window) {
    || w.start == w.end
    || (w.start < w.end && w.end <= DAY)
    || (w.start > w.end && (w.start <= DAY || w.end == 0))
    || (w.day == -1 && w.start == 0)
  }

  ghost predicate MeansItself(w: Window) {
    forall weekday, minute :: 0 <= weekday < 7 && 0 <= minute < DAY ==>
      (Hits(w, weekday, minute) <==> Covers(w, Minute(weekday, minute)))
  }

  function Minute(weekday: int, minute: int): int {
    weekday * DAY + minute
  }

  const LATEST := 6039

  predicate Parseable(w: Window) {
    -1 <= w.day < 7 && 0 <= w.start <= LATEST && 0 <= w.end <= LATEST
  }

  /** For a window on one day there is only one occurrence to look at. */
  lemma OneOccurrence(w: Window, m: int)
    requires 0 <= w.day < 7
    ensures Covers(w, m) <==> (m - (w.day * DAY + w.start)) % WEEK < Length(w)
  {
    assert Covers(w, m) ==> InOccurrence(w, w.day, m);
    if (m - (w.day * DAY + w.start)) % WEEK < Length(w) {
      assert InOccurrence(w, w.day, m);
    }
  }

  lemma FarOffset(x: int)
    requires -2 * WEEK <= x < WEEK
    ensures x % WEEK == if x < -WEEK then x + 2 * WEEK else if x < 0 then x + WEEK else x
  {
  }

  lemma DaysOfWeek(k: int, r: int)
    requires 0 <= r < DAY
    ensures (k * DAY + r) % WEEK == (k % 7) * DAY + r
  {
    var week, day := k / 7, k % 7;
    assert k * DAY + r == WEEK * week + (day * DAY + r);
    Remainder(k * DAY + r, week, day * DAY + r);
  }

  lemma Remainder(x: int, week: int, rest: int)
    requires x == WEEK * week + rest && 0 <= rest < WEEK
    ensures x % WEEK == rest
  {
  }

  /** How long ago the occurrence of day d began: a whole number of days before the
      one that began last. */
  lemma DailyOffset(w: Window, weekday: int, minute: int, d: int)
    ensures var last := weekday + (minute - w.start) / DAY;
      (Minute(weekday, minute) - (d * DAY + w.start)) % WEEK == ((last - d) % 7) * DAY + (minute - w.start) % DAY
  {
    var q, r := (minute - w.start) / DAY, (minute - w.start) % DAY;
    assert minute - w.start == q * DAY + r;
    assert Minute(weekday, minute) - (d * DAY + w.start) == (weekday + q - d) * DAY + r;
    DaysOfWeek(weekday + q - d, r);
  }

  /** For a daily window the occurrence that began last decides. */
  lemma DailyOccurrence(w: Window, weekday: int, minute: int)
    requires w.day == -1 && 0 <= weekday < 7
    ensures Covers(w, Minute(weekday, minute)) <==> (minute - w.start) % DAY < Length(w)
  {
    var m := Minute(weekday, minute);
    if Covers(w, m) {
      var d :| 0 <= d < 7 && InOccurrence(w, d, m);
      DailyOffset(w, weekday, minute, d);
    }
    var last := weekday + (minute - w.start) / DAY;
    DailyOffset(w, weekday, minute, last % 7);
    SameDay(last);
    if (minute - w.start) % DAY < Length(w) {
      assert InOccurrence(w, last % 7, m);
    }
  }

  lemma SameDay(k: int)
    ensures (k - k % 7) % 7 == 0
  {
    assert k - k % 7 == 7 * (k / 7);
  }

  lemma TidyMeansItself(w: Window)
    requires Parseable(w) && Tidy(w)
    ensures MeansItself(w)
  {
    forall weekday, minute | 0 <= weekday < 7 && 0 <= minute < DAY
      ensures Hits(w, weekday, minute) <==> Covers(w, Minute(weekday, minute))
    {
      if w.day == -1 {
        DailyOccurrence(w, weekday, minute);
        TidyDaily(w, weekday, minute);
      } else {
        OneOccurrence(w, Minute(weekday, minute));
        FarOffset(Minute(weekday, minute) - (w.day * DAY + w.start));
      }
    }
  }

  lemma TidyDaily(w: Window, weekday: int, minute: int)
    requires Parseable(w) && Tidy(w) && w.day == -1 && 0 <= minute < DAY
    ensures Hits(w, weekday, minute) <==> (minute - w.start) % DAY < Length(w)
  {
  }

  /** A minute at which an untidy window's test and its meaning differ. */
  function Witness(w: Window): (int, int) {
    var next := (w.day + 1) % 7;
    if w.day == -1 then
      (0, if w.start < w.end then (if w.start < DAY then 0 else w.start % DAY)
          else if Length(w) <= 0 then 0 else (w.start - 1) % DAY)
    else if w.start < w.end && w.start >= DAY then ((w.day + w.start / DAY) % 7, w.start % DAY)
    else (next, 0)
  }

  lemma UntidyDiffers(w: Window)
    requires Parseable(w) && !Tidy(w)
    ensures var p := Witness(w);
      0 <= p.0 < 7 && 0 <= p.1 < DAY && Hits(w, p.0, p.1) != Covers(w, Minute(p.0, p.1))
  {
    var p := Witness(w);
    if w.day == -1 {
      DailyOccurrence(w, p.0, p.1);
      UntidyDaily(w);
    } else {
      UntidyOneDay(w);
    }
  }

  lemma UntidyOneDay(w: Window)
    requires Parseable(w) && !Tidy(w) && w.day != -1
    ensures var p := Witness(w);
      0 <= p.0 < 7 && 0 <= p.1 < DAY && Hits(w, p.0, p.1) != Covers(w, Minute(p.0, p.1))
  {
    var p := Witness(w);
    OneOccurrence(w, Minute(p.0, p.1));
    FarOffset(Minute(p.0, p.1) - (w.day * DAY + w.start));
  }

  lemma UntidyDaily(w: Window)
    requires Parseable(w) && !Tidy(w) && w.day == -1
    ensures Hits(w, 0, Witness(w).1) != ((Witness(w).1 - w.start) % DAY < Length(w))
  {
  }

  /** Exactly which windows the program treats as the cyclic interval they spell. */
  lemma MeansItselfIffTidy(w: Window)
    requires Parseable(w)
    ensures MeansItself(w) <==> Tidy(w)
  {
    if Tidy(w) { TidyMeansItself(w); } else { UntidyDiffers(w); }
  }

  // ----- many windows ---------------------------------------------------

  predicate HitsAny(windows: seq<Window>, weekday: int, minute: int) {
    exists i :: 0 <= i < |windows| && Hits(windows[i], weekday, minute)
  }

  method InWindow(weekday: int, minute: int, windows: seq<Window>) returns (hit: bool)
    requires 0 <= weekday < 7 && 0 <= minute < DAY
    ensures hit == HitsAny(windows, weekday, minute)
    ensures (forall i :: 0 <= i < |windows| ==> OnTheClock(windows[i])) ==>
      (hit <==> exists i :: 0 <= i < |windows| && Covers(windows[i], weekday * DAY + minute))
  {
    forall i | 0 <= i < |windows| && OnTheClock(windows[i])
      ensures Hits(windows[i], weekday, minute) <==> Covers(windows[i], weekday * DAY + minute)
    {
      HitsIffCovers(windows[i], weekday, minute);
    }
    for i := 0 to |windows|
      invariant !HitsAny(windows[..i], weekday, minute)
    {
      var w := windows[i];
      assert windows[..i + 1] == windows[..i] + [w];
      if w.start <= w.end {
        if OnDay(w, weekday) && w.start <= minute < w.end {
          return true;
        }
        continue;
      }
      if OnDay(w, weekday) && minute >= w.start {
        return true;
      }
      var previousDay := (weekday - 1 + 7) % 7;
      if OnDay(w, previousDay) && minute < w.end {
        return true;
      }
    }
    assert windows[..|windows|] == windows;
    hit := false;
  }

  // ----- splitting a series ---------------------------------------------

  datatype Sample = Sample(ts: int, value: real)

  /** The local weekday and minute of an instant. */
  type Clock = int -> (int, int)

  ghost predicate IsClock(clock: Clock) {
    forall t :: 0 <= clock(t).0 < 7 && 0 <= clock(t).1 < DAY
  }

  /** A bucket covers the hour that ends at its stamp, so it is judged by the hour
      it starts. */
  predicate Suppressed(s: Sample, windows: seq<Window>, clock: Clock) {
    var at := clock(s.ts - 3600);
    HitsAny(windows, at.0, at.1)
  }

  /** A bucket is suppressed iff the minute of the week an hour before its stamp lies in a
      window, for windows that are on the clock. */
  lemma JudgedByItsStart(s: Sample, windows: seq<Window>, clock: Clock)
    requires IsClock(clock) && forall i :: 0 <= i < |windows| ==> OnTheClock(windows[i])
    ensures Suppressed(s, windows, clock) <==>
      exists i :: 0 <= i < |windows| && Covers(windows[i], clock(s.ts - 60 * 60).0 * 24 * 60 + clock(s.ts - 60 * 60).1)
  {
    var at := clock(s.ts - 3600);
    forall i | 0 <= i < |windows|
      ensures Hits(windows[i], at.0, at.1) <==> Covers(windows[i], at.0 * DAY + at.1)
    {
      HitsIffCovers(windows[i], at.0, at.1);
    }
  }

  /** A clock on which weeks begin at a multiple of a week. */
  function PlainClock(t: int): (int, int) {
    (t / 86400 % 7, t / 60 % 1440)
  }

  /** A daily window from 05:00 to 08:00 swallows the buckets stamped 06:00 to 08:59 and no
      others of the day. */
  lemma MorningWindow(minute: int, v: real)
    requires 0 <= minute < 1440
    ensures Suppressed(Sample(minute * 60, v), [Window(-1, 300, 480)], PlainClock) <==> 360 <= minute < 540
  {
    var started := minute * 60 - 3600;
    assert started / 60 == minute - 60;
    assert (minute - 60) % 1440 == if minute < 60 then minute - 60 + 1440 else minute - 60;
    assert [Window(-1, 300, 480)][0] == Window(-1, 300, 480);
  }

  function Sum(series: seq<Sample>): real {
    if series == [] then 0.0 else Sum(series[..|series| - 1]) + series[|series| - 1].value
  }

  /** The series is the two others, each in its own order, woven together. */
  ghost predicate Interleaves(series: seq<Sample>, a: seq<Sample>, b: seq<Sample>) {
    if series == [] then a == [] && b == []
    else
      var n := |series| - 1;
      || (a != [] && a[|a| - 1] == series[n] && Interleaves(series[..n], a[..|a| - 1], b))
      || (b != [] && b[|b| - 1] == series[n] && Interleaves(series[..n], a, b[..|b| - 1]))
  }

  method SplitMaintenance(series: seq<Sample>, windows: seq<Window>, clock: Clock)
    returns (kept: seq<Sample>, suppressed: seq<Sample>)
    requires IsClock(clock)
    ensures Interleaves(series, kept, suppressed)
    ensures forall s :: s in kept ==> !Suppressed(s, windows, clock)
    ensures forall s :: s in suppressed ==> Suppressed(s, windows, clock)
  {
    if windows == [] {
      KeepAll(series);
      return series, [];
    }
    kept, suppressed := [], [];
    for i := 0 to |series|
      invariant Interleaves(series[..i], kept, suppressed)
      invariant forall s :: s in kept ==> !Suppressed(s, windows, clock)
      invariant forall s :: s in suppressed ==> Suppressed(s, windows, clock)
    {
      var s := series[i];
      InterleavesNext(series, i, kept, suppressed);
      var started := clock(s.ts - 3600);
      var hit := InWindow(started.0, started.1, windows);
      if hit {
        suppressed := suppressed + [s];
      } else {
        kept := kept + [s];
      }
    }
    assert series[..|series|] == series;
  }

  lemma InterleavesNext(series: seq<Sample>, i: nat, a: seq<Sample>, b: seq<Sample>)
    requires i < |series| && Interleaves(series[..i], a, b)
    ensures Interleaves(series[..i + 1], a + [series[i]], b) && Interleaves(series[..i + 1], a, b + [series[i]])
  {
    assert series[..i + 1][..i] == series[..i];
    assert (a + [series[i]])[..|a|] == a && (b + [series[i]])[..|b|] == b;
  }

  lemma {:induction false} KeepAll(series: seq<Sample>)
    ensures Interleaves(series, series, [])
  {
    if series != [] { KeepAll(series[..|series| - 1]); }
  }

  /** Nothing is lost or counted twice. */
  lemma {:induction false} SplitConserves(series: seq<Sample>, a: seq<Sample>, b: seq<Sample>)
    requires Interleaves(series, a, b)
    ensures Sum(a) + Sum(b) == Sum(series) && |a| + |b| == |series|
  {
    if series != [] {
      var n := |series| - 1;
      if a != [] && a[|a| - 1] == series[n] && Interleaves(series[..n], a[..|a| - 1], b) {
        SplitConserves(series[..n], a[..|a| - 1], b);
      } else {
        SplitConserves(series[..n], a, b[..|b| - 1]);
      }
    }
  }

  /** There is only one such split. */
  lemma {:induction false} SplitUnique(series: seq<Sample>, windows: seq<Window>, clock: Clock,
                                       a: seq<Sample>, b: seq<Sample>, c: seq<Sample>, d: seq<Sample>)
    requires Interleaves(series, a, b) && Interleaves(series, c, d)
    requires forall s :: s in a || s in c ==> !Suppressed(s, windows, clock)
    requires forall s :: s in b || s in d ==> Suppressed(s, windows, clock)
    ensures a == c && b == d
  {
    if series != [] {
      var n := |series| - 1;
      if Suppressed(series[n], windows, clock) {
        assert a != [] ==> a[|a| - 1] in a;
        assert c != [] ==> c[|c| - 1] in c;
        SplitUnique(series[..n], windows, clock, a, b[..|b| - 1], c, d[..|d| - 1]);
        assert b == b[..|b| - 1] + [series[n]] && d == d[..|d| - 1] + [series[n]];
      } else {
        assert b != [] ==> b[|b| - 1] in b;
        assert d != [] ==> d[|d| - 1] in d;
        SplitUnique(series[..n], windows, clock, a[..|a| - 1], b, c[..|c| - 1], d);
        assert a == a[..|a| - 1] + [series[n]] && c == c[..|c| - 1] + [series[n]];
      }
    }
  }
}
