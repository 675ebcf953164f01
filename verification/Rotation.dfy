/** The state files on disk and the steps in which a save replaces them
    (`Save` and `writeJSONAtomic` in tools/internal/healthreport/diff.go). A crash
    can come between any two steps, and while a temporary file is being written. */
module Rotation {
  import opened Ordering

  /** `Whole(v)` is the complete content that the v-th save wanted to write. */
  datatype File = Absent | Torn | Whole(version: nat)

  datatype Disk = Disk(latest: File, previous: File, seen: File, latestTmp: File, seenTmp: File)

  const EMPTY := Disk(Absent, Absent, Absent, Absent, Absent)

  /** The steps of a save: rotate, write and rename the facts, write and rename
      the seen-state. Each write has a moment in which the file is half there. */
  const STEPS: nat := 7

  function Primitive(d: Disk, v: nat, step: nat): Disk
    requires 1 <= step <= STEPS
  {
    match step
    case 1 => if d.latest.Absent? then d else d.(previous := d.latest, latest := Absent)
    case 2 => d.(latestTmp := Torn)
    case 3 => d.(latestTmp := Whole(v))
    case 4 => d.(latest := d.latestTmp, latestTmp := Absent)
    case 5 => d.(seenTmp := Torn)
    case 6 => d.(seenTmp := Whole(v))
    case _ => d.(seen := d.seenTmp, seenTmp := Absent)
  }

  /** The disk when the v-th save has done its first k steps. */
  function AfterSteps(d: Disk, v: nat, k: nat): Disk
    requires k <= STEPS
  {
    if k == 0 then d else Primitive(AfterSteps(d, v, k - 1), v, k)
  }

  /** How far each save got, from a fresh install on. */
  ghost predicate AreSaves(saves: seq<nat>) {
    forall i :: 0 <= i < |saves| ==> saves[i] <= STEPS
  }

  /** The disk after the first n saves, each cut off where it was cut off. */
  ghost function DiskAfter(saves: seq<nat>, n: nat): Disk
    requires AreSaves(saves) && n <= |saves|
  {
    if n == 0 then EMPTY else AfterSteps(DiskAfter(saves, n - 1), n, saves[n - 1])
  }

  /** The last save that put its facts file in place. */
  ghost function LastFacts(saves: seq<nat>, n: nat): Option<nat>
    requires n <= |saves|
  {
    if n == 0 then None else if saves[n - 1] >= 4 then Some(n) else LastFacts(saves, n - 1)
  }

  /** The last save that put its seen file in place. */
  ghost function LastSeenFile(saves: seq<nat>, n: nat): Option<nat>
    requires n <= |saves|
  {
    if n == 0 then None else if saves[n - 1] == STEPS then Some(n) else LastSeenFile(saves, n - 1)
  }

  /** No facts were ever put in place, or a later save took them away and was cut
      off before it put new ones in place. */
  ghost predicate FactsMissing(saves: seq<nat>, n: nat)
    requires n <= |saves|
  {
    LastFacts(saves, n).None? || exists i :: LastFacts(saves, n).value <= i < n && 1 <= saves[i]
  }

  function FileOf(version: Option<nat>): File {
    if version.None? then Absent else Whole(version.value)
  }

  /** At every crash point of every sequence of saves: the seen file is the last
      one written; the last facts put in place are in facts-latest, or else in
      facts-previous, and then exactly because a later save was cut off after the
      rotation. No state file is ever half written. */
  lemma {:induction false} CrashSafe(saves: seq<nat>, n: nat)
    requires AreSaves(saves) && n <= |saves|
    ensures var d, last := DiskAfter(saves, n), LastFacts(saves, n);
      && d.seen == FileOf(LastSeenFile(saves, n))
      && d.latest == (if FactsMissing(saves, n) then Absent else FileOf(last))
      && (FactsMissing(saves, n) ==> d.previous == FileOf(last))
      && !d.previous.Torn?
  {
    if n > 0 {
      CrashSafe(saves, n - 1);
      var before, k := DiskAfter(saves, n - 1), saves[n - 1];
      StepsUnfolded(before, n, k);
      LastFactsBound(saves, n - 1);
      if LastFacts(saves, n) == LastFacts(saves, n - 1) && LastFacts(saves, n).Some? {
        if FactsMissing(saves, n - 1) {
          var i :| LastFacts(saves, n - 1).value <= i < n - 1 && 1 <= saves[i];
        }
        if 1 <= k {
          assert LastFacts(saves, n).value <= n - 1 < n && 1 <= saves[n - 1];
        }
      }
    }
  }

  lemma {:induction false} LastFactsBound(saves: seq<nat>, n: nat)
    requires n <= |saves|
    ensures LastFacts(saves, n).Some? ==> 1 <= LastFacts(saves, n).value <= n
    ensures LastSeenFile(saves, n).Some? ==> 1 <= LastSeenFile(saves, n).value <= n
    ensures LastSeenFile(saves, n).Some? ==>
      LastFacts(saves, n).Some? && LastSeenFile(saves, n).value <= LastFacts(saves, n).value
  {
    if n > 0 { LastFactsBound(saves, n - 1); }
  }

  /** The three state files after k steps. */
  lemma StepsUnfolded(d: Disk, v: nat, k: nat)
    requires k <= STEPS
    ensures var r := AfterSteps(d, v, k);
      && r.latest == (if k == 0 then d.latest else if k < 4 then Absent else Whole(v))
      && r.previous == (if k == 0 || d.latest.Absent? then d.previous else d.latest)
      && r.seen == (if k < STEPS then d.seen else Whole(v))
      && (k >= 3 && k < 4 ==> r.latestTmp == Whole(v))
      && (k == 6 ==> r.seenTmp == Whole(v))
  {
    if k > 0 { StepsUnfolded(d, v, k - 1); }
  }

  /** The seen file is never newer than the newest facts file that can be loaded. */
  lemma SeenNeverNewer(saves: seq<nat>, n: nat)
    requires AreSaves(saves) && n <= |saves|
    ensures var d := DiskAfter(saves, n);
      d.seen.Whole? ==>
        var facts := if d.latest.Absent? then d.previous else d.latest;
        facts.Whole? && d.seen.version <= facts.version
  {
    CrashSafe(saves, n);
    LastFactsBound(saves, n);
  }

  /** Saves that all reach the end leave all files of the same run. */
  lemma CompletedSaveIsWhole(saves: seq<nat>, n: nat)
    requires AreSaves(saves) && 0 < n <= |saves| && saves[n - 1] == STEPS
    ensures var d := DiskAfter(saves, n);
      d.latest == Whole(n) && d.seen == Whole(n)
  {
    CrashSafe(saves, n);
    StepsUnfolded(DiskAfter(saves, n - 1), n, STEPS);
  }

  class StateFiles {
    var latest: File
    var previous: File
    var seen: File
    var latestTmp: File
    var seenTmp: File

    constructor ()
      ensures Contents() == EMPTY
    {
      latest, previous, seen, latestTmp, seenTmp := Absent, Absent, Absent, Absent, Absent;
    }

    function Contents(): Disk
      reads this
    {
      Disk(latest, previous, seen, latestTmp, seenTmp)
    }

    /** Rotates and rewrites the state files. The journal holds the disk after
        every step, which is everything a crash can leave behind. */
    method Save(v: nat) returns (ghost journal: seq<Disk>)
      modifies this
      ensures |journal| == STEPS + 1
      ensures forall k :: 0 <= k <= STEPS ==> journal[k] == AfterSteps(old(Contents()), v, k)
      ensures Contents() == journal[STEPS]
    {
      ghost var start := Contents();
      journal := [start];
      if !latest.Absent? {
        previous, latest := latest, Absent;
      }
      journal := journal + [Contents()];
      assert journal[1] == AfterSteps(start, v, 1);
      latestTmp := Torn;
      journal := journal + [Contents()];
      assert journal[2] == AfterSteps(start, v, 2);
      latestTmp := Whole(v);
      journal := journal + [Contents()];
      assert journal[3] == AfterSteps(start, v, 3);
      latest, latestTmp := latestTmp, Absent;
      journal := journal + [Contents()];
      assert journal[4] == AfterSteps(start, v, 4);
      seenTmp := Torn;
      journal := journal + [Contents()];
      assert journal[5] == AfterSteps(start, v, 5);
      seenTmp := Whole(v);
      journal := journal + [Contents()];
      assert journal[6] == AfterSteps(start, v, 6);
      seen, seenTmp := seenTmp, Absent;
      journal := journal + [Contents()];
      assert journal[7] == AfterSteps(start, v, 7);
    }
  }
}
