/** Merging User Scripts entries into Unraid's shared schedule.json
    (tools/internal/schedulemerge/schedulemerge.go), with its check mode, its apply
    mode, and the three configurations that are shipped. */
module ScheduleMerge {
  import opened Ordering
  import opened Json
  import opened JsonText
  import opened JsonDocument

  datatype Entry = Entry(scriptName: string, frequency: string)

  datatype Config = Config(scriptName: string, frequency: string, extra: seq<Entry>, retired: seq<string>)

  const US_PATH := "/boot/config/plugins/user.scripts"

  function ScriptPath(name: string): string {
    US_PATH + "/scripts/" + name + "/script"
  }

  predicate IsAlnum(c: char) {
    'a' <= c <= 'z' || 'A' <= c <= 'Z' || '0' <= c <= '9'
  }

  function Alnum(s: string): string {
    if s == [] then ""
    else Alnum(s[..|s| - 1]) + if IsAlnum(s[|s| - 1]) then [s[|s| - 1]] else ""
  }

  method ScheduleID(scriptName: string) returns (id: string)
    ensures id == "schedule" + Alnum(scriptName)
  {
    id := "schedule";
    for i := 0 to |scriptName|
      invariant id == "schedule" + Alnum(scriptName[..i])
    {
      assert scriptName[..i + 1][..i] == scriptName[..i];
      if IsAlnum(scriptName[i]) {
        id := id + [scriptName[i]];
      }
    }
    assert scriptName[..|scriptName|] == scriptName;
  }

  /** The four fields of an entry, under their sorted keys. */
  function EntryValue(e: Entry): Value {
    VObject([
      Field("custom", VString("")),
      Field("frequency", VString(e.frequency)),
      Field("id", VString("schedule" + Alnum(e.scriptName))),
      Field("script", VString(ScriptPath(e.scriptName)))])
  }

  lemma EntryCanonical(e: Entry)
    ensures Canonical(EntryValue(e))
  {
    var keys := Keys(EntryValue(e).fields);
    assert keys == ["custom", "frequency", "id", "script"];
    assert Less(keys[0], keys[1]) && Less(keys[1], keys[2]) && Less(keys[2], keys[3]);
    LessTransitive(keys[0], keys[1], keys[2]);
    LessTransitive(keys[1], keys[2], keys[3]);
    LessTransitive(keys[0], keys[1], keys[3]);
  }

  function Entries(cfg: Config): seq<Entry> {
    [Entry(cfg.scriptName, cfg.frequency)] + cfg.extra
  }

  /** The entry a configuration writes under a path; the last one counts. */
  function Managed(entries: seq<Entry>, path: string): Option<Value> {
    if entries == [] then None
    else
      var n := |entries| - 1;
      if ScriptPath(entries[n].scriptName) == path then Some(EntryValue(entries[n])) else Managed(entries[..n], path)
  }

  predicate Retires(cfg: Config, path: string) {
    exists i :: 0 <= i < |cfg.retired| && ScriptPath(cfg.retired[i]) == path
  }

  /** What a configuration makes of one path of the schedule. */
  function MergedAt(cfg: Config, path: string, before: Option<Value>): Option<Value> {
    var mine := Managed(Entries(cfg), path);
    if mine.Some? then mine else if Retires(cfg, path) then None else before
  }

  function EntryPaths(entries: seq<Entry>): set<string> {
    set i | 0 <= i < |entries| :: ScriptPath(entries[i].scriptName)
  }

  function Merged(cfg: Config, existing: Document): Document {
    map path | path in existing.Keys + EntryPaths(Entries(cfg)) && MergedAt(cfg, path, Get(existing, path)).Some?
      :: MergedAt(cfg, path, Get(existing, path)).value
  }

  lemma MergedLookup(cfg: Config, existing: Document, path: string)
    ensures Get(Merged(cfg, existing), path) == MergedAt(cfg, path, Get(existing, path))
  {
    ManagedPaths(Entries(cfg), path);
  }

  lemma {:induction false} ManagedPaths(entries: seq<Entry>, path: string)
    ensures Managed(entries, path).Some? <==> path in EntryPaths(entries)
    ensures Managed(entries, path).Some? ==> Canonical(Managed(entries, path).value)
  {
    if entries != [] {
      var n := |entries| - 1;
      ManagedPaths(entries[..n], path);
      EntryCanonical(entries[n]);
      if path in EntryPaths(entries) && ScriptPath(entries[n].scriptName) != path {
        var i :| 0 <= i < |entries| && ScriptPath(entries[i].scriptName) == path;
        assert entries[..n][i] == entries[i];
      }
      if path in EntryPaths(entries[..n]) {
        var i :| 0 <= i < n && ScriptPath(entries[..n][i].scriptName) == path;
        assert entries[i] == entries[..n][i];
      }
    }
  }

  lemma MergedCanonical(cfg: Config, existing: Document)
    requires CanonicalDocument(existing)
    ensures CanonicalDocument(Merged(cfg, existing))
  {
    forall path | path in Merged(cfg, existing) ensures Canonical(Merged(cfg, existing)[path]) {
      MergedLookup(cfg, existing, path);
      ManagedPaths(Entries(cfg), path);
    }
  }

  // ----- the files ------------------------------------------------------

  /** The schedule on the flash, its runtime copy, the backup, and the script
      directories that exist. */
  datatype Disk = Disk(
    schedule: Option<string>,
    runtime: Option<string>,
    backup: Option<string>,
    dirs: set<string>)

  /** The existing schedule: missing and blank files are empty; None if it does
      not parse. */
  function Loaded(schedule: Option<string>): Option<Document> {
    if schedule.None? || AllBlank(schedule.value) then Some(map[]) else Unmarshal(schedule.value)
  }

  lemma LoadedCanonical(schedule: Option<string>)
    ensures Loaded(schedule).Some? ==> CanonicalDocument(Loaded(schedule).value)
  {
    if schedule.Some? { UnmarshalCanonical(schedule.value); }
  }

  /** The schedule text a configuration wants. */
  ghost function Wanted(cfg: Config, d: Disk): string
    requires Loaded(d.schedule).Some?
  {
    Marshal(Merged(cfg, Loaded(d.schedule).value))
  }

  ghost predicate Clean(cfg: Config, d: Disk)
    requires Loaded(d.schedule).Some?
  {
    && d.schedule == Some(Wanted(cfg, d)) && d.runtime == Some(Wanted(cfg, d))
    && forall name :: name in cfg.retired ==> name !in d.dirs
  }

  ghost function Applied(cfg: Config, d: Disk): Disk
    requires Loaded(d.schedule).Some?
  {
    var text := Some(Wanted(cfg, d));
    Disk(text, text,
         if d.schedule.Some? && d.schedule != text then d.schedule else d.backup,
         d.dirs - Elements(cfg.retired))
  }

  // ----- what can go wrong ----------------------------------------------

  /** A write succeeds, fails before it touches the file, or leaves part of the text. */
  datatype Fate = Written | Refused | Torn(left: string)

  /** What goes wrong in a run: reading the two files, making the backup, making the
      directory, writing the schedule and setting its mode, making the runtime
      directory, copying to it, and the script directories that cannot be removed. */
  datatype Faults = Faults(
    readSchedule: bool, readRuntime: bool,
    backup: Fate, makeDir: bool, schedule: Fate, mode: bool,
    makeRuntimeDir: bool, runtime: Fate,
    stuck: set<string>)

  const NO_FAULTS := Faults(false, false, Written, false, Written, false, false, Written, {})

  /** A file after a write, and whether the write succeeded. */
  function WriteFile(before: Option<string>, text: string, fate: Fate): (Option<string>, bool) {
    match fate
    case Written => (Some(text), true)
    case Refused => (before, false)
    case Torn(left) => (Some(left), false)
  }

  /** Backs up and overwrites the schedule, if it changes. */
  function SaveSchedule(d: Disk, text: string, f: Faults): (Disk, bool) {
    if d.schedule == Some(text) then (d, true)
    else
      var backup := if d.schedule.Some? then WriteFile(d.backup, d.schedule.value, f.backup) else (d.backup, true);
      var saved := d.(backup := backup.0);
      if !backup.1 || f.makeDir then (saved, false)
      else
        var schedule := WriteFile(d.schedule, text, f.schedule);
        (saved.(schedule := schedule.0), schedule.1 && !f.mode)
  }

  /** Copies the schedule to where the scheduler reads it. */
  function Mirror(d: Disk, text: string, f: Faults): (Disk, bool) {
    if f.makeRuntimeDir then (d, false)
    else
      var runtime := WriteFile(d.runtime, text, f.runtime);
      (d.(runtime := runtime.0), runtime.1)
  }

  /** Removes the first n retired directories, up to one that cannot be removed. */
  function Retire(dirs: set<string>, retired: seq<string>, n: nat, stuck: set<string>): (set<string>, bool)
    requires n <= |retired|
  {
    if n == 0 then (dirs, true)
    else
      var before := Retire(dirs, retired, n - 1, stuck);
      var name := retired[n - 1];
      if !before.1 || name !in before.0 then before
      else if name in stuck then (before.0, false)
      else (before.0 - {name}, true)
  }

  ghost function ApplyWith(cfg: Config, d: Disk, f: Faults): (Disk, bool)
    requires Loaded(d.schedule).Some?
  {
    var text := Wanted(cfg, d);
    var saved := SaveSchedule(d, text, f);
    if !saved.1 then saved
    else
      var mirrored := Mirror(saved.0, text, f);
      if !mirrored.1 then mirrored
      else
        var retired := Retire(mirrored.0.dirs, cfg.retired, |cfg.retired|, f.stuck);
        (mirrored.0.(dirs := retired.0), retired.1)
  }

  datatype Outcome = ReadError | ParseError | CheckClean | CheckDirty | Done | Failed

  class UserScripts {
    var schedule: Option<string>
    var runtime: Option<string>
    var backup: Option<string>
    var dirs: set<string>

    constructor (d: Disk)
      ensures Contents() == d
    {
      schedule, runtime, backup, dirs := d.schedule, d.runtime, d.backup, d.dirs;
    }

    function Contents(): Disk
      reads this
    {
      Disk(schedule, runtime, backup, dirs)
    }

    static method Merge(cfg: Config, existing: Document) returns (merged: Document)
      ensures merged == Merged(cfg, existing)
    {
      var retiredPaths: set<string> := {};
      for i := 0 to |cfg.retired|
        invariant retiredPaths == set j | 0 <= j < i :: ScriptPath(cfg.retired[j])
      {
        retiredPaths := retiredPaths + {ScriptPath(cfg.retired[i])};
      }
      merged := existing - retiredPaths;
      ghost var kept := merged;
      var entries := Entries(cfg);
      for i := 0 to |entries|
        invariant forall path :: Get(merged, path) == OrElse(Managed(entries[..i], path), Get(kept, path))
      {
        assert entries[..i + 1][..i] == entries[..i];
        var e := entries[i];
        var p := ScriptPath(e.scriptName);
        var id := ScheduleID(e.scriptName);
        merged := merged[p := VObject([
          Field("custom", VString("")), Field("frequency", VString(e.frequency)),
          Field("id", VString(id)), Field("script", VString(p))])];
      }
      assert entries[..|entries|] == entries;
      forall path ensures Get(merged, path) == Get(Merged(cfg, existing), path) {
        MergedLookup(cfg, existing, path);
        assert path in retiredPaths <==> Retires(cfg, path);
      }
      SameLookups(merged, Merged(cfg, existing));
    }

    static function OrElse(a: Option<Value>, b: Option<Value>): Option<Value> {
      if a.Some? then a else b
    }

    method Run(cfg: Config, checkOnly: bool, faults: Faults) returns (outcome: Outcome)
      modifies this
      ensures outcome == OutcomeOf(cfg, old(Contents()), checkOnly, faults)
      ensures Contents() == if outcome.Done? || outcome.Failed? then ApplyWith(cfg, old(Contents()), faults).0
                            else old(Contents())
    {
      if faults.readSchedule {
        return ReadError;
      }
      var existing: Document := map[];
      if schedule.Some? && !AllBlank(schedule.value) {
        var parsed := Unmarshal(schedule.value);
        if parsed.None? {
          return ParseError;
        }
        existing := parsed.value;
      }
      var merged := Merge(cfg, existing);
      var text := MarshalSorted(merged);
      var scheduleChanged := schedule != Some(text);
      var present := RetiredPresent(cfg.retired);
      if faults.readRuntime {
        return ReadError;
      }
      var runtimeStale := runtime != Some(text);
      if checkOnly {
        return if scheduleChanged || |present| > 0 || runtimeStale then CheckDirty else CheckClean;
      }
      var ok := SaveFiles(text, faults);
      if !ok {
        return Failed;
      }
      ok := RemoveRetired(cfg.retired, faults.stuck);
      outcome := if ok then Done else Failed;
    }

    /** Overwrites the schedule if it changes, and always its runtime copy. */
    method SaveFiles(text: string, faults: Faults) returns (ok: bool)
      modifies this`schedule, this`runtime, this`backup
      ensures var saved := SaveSchedule(old(Contents()), text, faults);
        (Contents(), ok) == if saved.1 then Mirror(saved.0, text, faults) else saved
    {
      if schedule != Some(text) {
        if schedule.Some? {
          backup, ok := Write(backup, schedule.value, faults.backup);
          if !ok {
            return;
          }
        }
        if faults.makeDir {
          return false;
        }
        schedule, ok := Write(schedule, text, faults.schedule);
        if !ok || faults.mode {
          return false;
        }
      }
      if faults.makeRuntimeDir {
        return false;
      }
      runtime, ok := Write(runtime, schedule.value, faults.runtime);
    }

    static method Write(before: Option<string>, text: string, fate: Fate) returns (after: Option<string>, ok: bool)
      ensures (after, ok) == WriteFile(before, text, fate)
    {
      match fate {
        case Written => after, ok := Some(text), true;
        case Refused => after, ok := before, false;
        case Torn(left) => after, ok := Some(left), false;
      }
    }

    /** The retired script directories that still exist. */
    method RetiredPresent(retired: seq<string>) returns (present: seq<string>)
      ensures present == [] <==> forall name :: name in retired ==> name !in dirs
    {
      present := [];
      for i := 0 to |retired|
        invariant present == [] <==> forall j :: 0 <= j < i ==> retired[j] !in dirs
      {
        if retired[i] in dirs {
          present := present + [retired[i]];
        }
      }
    }

    method RemoveRetired(retired: seq<string>, stuck: set<string>) returns (ok: bool)
      modifies this`dirs
      ensures (dirs, ok) == Retire(old(dirs), retired, |retired|, stuck)
    {
      for i := 0 to |retired|
        invariant (dirs, true) == Retire(old(dirs), retired, i, stuck)
      {
        if retired[i] in dirs {
          if retired[i] in stuck {
            StuckStays(old(dirs), retired, i + 1, stuck);
            return false;
          }
          dirs := dirs - {retired[i]};
        }
      }
      ok := true;
    }
  }

  lemma {:induction false} StuckStays(dirs: set<string>, retired: seq<string>, n: nat, stuck: set<string>)
    requires n <= |retired| && !Retire(dirs, retired, n, stuck).1
    ensures Retire(dirs, retired, |retired|, stuck) == Retire(dirs, retired, n, stuck)
    decreases |retired| - n
  {
    if n < |retired| { StuckStays(dirs, retired, n + 1, stuck); }
  }

  /** How a run ends. */
  ghost function OutcomeOf(cfg: Config, d: Disk, checkOnly: bool, f: Faults): Outcome {
    if f.readSchedule then ReadError
    else if Loaded(d.schedule).None? then ParseError
    else if f.readRuntime then ReadError
    else if checkOnly then (if Clean(cfg, d) then CheckClean else CheckDirty)
    else if ApplyWith(cfg, d, f).1 then Done
    else Failed
  }

  // ----- applies that fail ----------------------------------------------

  lemma {:induction false} RetireAll(dirs: set<string>, retired: seq<string>, n: nat, stuck: set<string>)
    requires n <= |retired|
    ensures var r := Retire(dirs, retired, n, stuck);
      && dirs - Elements(retired[..n]) <= r.0 <= dirs
      && (r.1 ==> r.0 == dirs - Elements(retired[..n]))
      && (stuck == {} ==> r.1)
  {
    if n > 0 {
      RetireAll(dirs, retired, n - 1, stuck);
      assert retired[..n] == retired[..n - 1] + [retired[n - 1]];
    }
  }

  /** An apply that reports success has done all of it; without faults it succeeds. */
  lemma SuccessIsApplied(cfg: Config, d: Disk, f: Faults)
    requires Loaded(d.schedule).Some?
    ensures ApplyWith(cfg, d, f).1 ==> ApplyWith(cfg, d, f).0 == Applied(cfg, d)
    ensures f == NO_FAULTS ==> ApplyWith(cfg, d, f).1
  {
    RetireAll(d.dirs, cfg.retired, |cfg.retired|, f.stuck);
    assert cfg.retired[..|cfg.retired|] == cfg.retired;
  }

  /** Whatever goes wrong: before the schedule is touched its old text is in the backup,
      and only directories of retired scripts go. */
  lemma OldScheduleIsSafe(cfg: Config, d: Disk, f: Faults)
    requires Loaded(d.schedule).Some?
    ensures var after := ApplyWith(cfg, d, f).0;
      && (after.schedule == d.schedule || d.schedule.None? || after.backup == d.schedule)
      && d.dirs - Elements(cfg.retired) <= after.dirs <= d.dirs
  {
    var saved := SaveSchedule(d, Wanted(cfg, d), f).0;
    SavedIsSafe(d, Wanted(cfg, d), f);
    assert Mirror(saved, Wanted(cfg, d), f).0.(runtime := saved.runtime) == saved;
    RetireAll(d.dirs, cfg.retired, |cfg.retired|, f.stuck);
    assert cfg.retired[..|cfg.retired|] == cfg.retired;
  }

  lemma SavedIsSafe(d: Disk, text: string, f: Faults)
    ensures var saved := SaveSchedule(d, text, f).0;
      && (saved.schedule == d.schedule || d.schedule.None? || saved.backup == d.schedule)
      && saved.dirs == d.dirs
  {
  }

  /** Unless the write of the schedule itself was torn, an apply that failed anywhere can
      be repeated: the repeat reaches the files of an apply that did not fail. */
  lemma RetryCompletes(cfg: Config, d: Disk, f: Faults)
    requires Loaded(d.schedule).Some? && !f.schedule.Torn?
    ensures var after := ApplyWith(cfg, d, f).0;
      && Loaded(after.schedule).Some?
      && Applied(cfg, after).schedule == Applied(cfg, d).schedule
      && Applied(cfg, after).runtime == Applied(cfg, d).runtime
      && Applied(cfg, after).dirs == Applied(cfg, d).dirs
  {
    var after := ApplyWith(cfg, d, f).0;
    OldScheduleIsSafe(cfg, d, f);
    LoadedApplied(cfg, d);
    if after.schedule != d.schedule {
      assert after.schedule == Applied(cfg, d).schedule;
      ApplyThenCheckIsClean(cfg, d);
    }
  }

  /** What a write of the schedule left behind, torn or not, still loads, and merges to
      the same document as the file before it. */
  ghost predicate StillMerges(cfg: Config, d: Disk, after: Disk)
    requires Loaded(d.schedule).Some?
  {
    Loaded(after.schedule).Some?
    && Merged(cfg, Loaded(after.schedule).value) == Merged(cfg, Loaded(d.schedule).value)
  }

  /** Whatever went wrong, a torn write included: the repeat reaches the files of an
      apply that did not fail iff what is left still merges to the same document. */
  lemma RetryCompletesIff(cfg: Config, d: Disk, f: Faults)
    requires Loaded(d.schedule).Some?
    ensures var after := ApplyWith(cfg, d, f).0;
      StillMerges(cfg, d, after) <==>
        && Loaded(after.schedule).Some?
        && Applied(cfg, after).schedule == Applied(cfg, d).schedule
        && Applied(cfg, after).runtime == Applied(cfg, d).runtime
        && Applied(cfg, after).dirs == Applied(cfg, d).dirs
  {
    var after := ApplyWith(cfg, d, f).0;
    OldScheduleIsSafe(cfg, d, f);
    if Loaded(after.schedule).Some? {
      LoadedCanonical(d.schedule);
      LoadedCanonical(after.schedule);
      MergedCanonical(cfg, Loaded(d.schedule).value);
      MergedCanonical(cfg, Loaded(after.schedule).value);
      MarshalInjective(Merged(cfg, Loaded(after.schedule).value), Merged(cfg, Loaded(d.schedule).value));
    }
  }

  // ----- check and apply ------------------------------------------------

  /** A check reports clean iff an apply would leave the schedule, its runtime copy
      and the script directories as they are. */
  lemma CheckAgreesWithApply(cfg: Config, d: Disk)
    requires Loaded(d.schedule).Some?
    ensures Clean(cfg, d) <==>
      var after := Applied(cfg, d);
      after.schedule == d.schedule && after.runtime == d.runtime && after.dirs == d.dirs
    ensures Clean(cfg, d) ==> Applied(cfg, d) == d
  {
    assert d.dirs - Elements(cfg.retired) == d.dirs <==> forall name :: name in cfg.retired ==> name !in d.dirs by {
      if d.dirs - Elements(cfg.retired) == d.dirs {
        forall name | name in cfg.retired ensures name !in d.dirs {
          assert name in Elements(cfg.retired);
        }
      }
    }
  }

  lemma LoadedApplied(cfg: Config, d: Disk)
    requires Loaded(d.schedule).Some?
    ensures Loaded(Applied(cfg, d).schedule) == Some(Merged(cfg, Loaded(d.schedule).value))
  {
    LoadedCanonical(d.schedule);
    MergedCanonical(cfg, Loaded(d.schedule).value);
    UnmarshalMarshal(Merged(cfg, Loaded(d.schedule).value));
  }

  /** Apply followed by check is clean, and applying again changes nothing, for any
      configuration, even one that manages what it retires. */
  lemma ApplyThenCheckIsClean(cfg: Config, d: Disk)
    requires Loaded(d.schedule).Some?
    ensures Loaded(Applied(cfg, d).schedule).Some?
    ensures Clean(cfg, Applied(cfg, d))
    ensures Applied(cfg, Applied(cfg, d)) == Applied(cfg, d)
  {
    var existing := Loaded(d.schedule).value;
    var merged := Merged(cfg, existing);
    LoadedApplied(cfg, d);
    forall path ensures Get(Merged(cfg, merged), path) == Get(merged, path) {
      MergedLookup(cfg, existing, path);
      MergedLookup(cfg, merged, path);
    }
    SameLookups(Merged(cfg, merged), merged);
    forall name | name in cfg.retired ensures name !in Applied(cfg, d).dirs {
      assert name in Elements(cfg.retired);
    }
    CheckAgreesWithApply(cfg, Applied(cfg, d));
  }

  /** An entry that the configuration neither manages nor retires keeps its value. */
  lemma ForeignEntriesKept(cfg: Config, d: Disk, path: string)
    requires Loaded(d.schedule).Some?
    requires path !in EntryPaths(Entries(cfg)) && !Retires(cfg, path)
    ensures Loaded(Applied(cfg, d).schedule).Some?
    ensures Get(Loaded(Applied(cfg, d).schedule).value, path) == Get(Loaded(d.schedule).value, path)
  {
    LoadedApplied(cfg, d);
    MergedLookup(cfg, Loaded(d.schedule).value, path);
    ManagedPaths(Entries(cfg), path);
  }

  // ----- several configurations -----------------------------------------

  /** One configuration manages nothing that the other manages or retires. */
  ghost predicate Apart(a: Config, b: Config) {
    forall path :: path in EntryPaths(Entries(a)) ==> path !in EntryPaths(Entries(b)) && !Retires(b, path)
  }

  ghost predicate PairwiseApart(cs: set<Config>) {
    forall a, b :: a in cs && b in cs && a != b ==> Apart(a, b)
  }

  ghost function AppliedAll(cs: seq<Config>, d: Disk): Disk
    requires Loaded(d.schedule).Some?
    ensures Loaded(AppliedAll(cs, d).schedule).Some?
  {
    if cs == [] then d
    else
      var before := AppliedAll(cs[..|cs| - 1], d);
      LoadedApplied(cs[|cs| - 1], before);
      Applied(cs[|cs| - 1], before)
  }

  /** The result at one path, told without an order: managed by one of them, or
      retired by one of them, or as it was. */
  ghost predicate SettledAt(cs: set<Config>, path: string, before: Option<Value>, after: Option<Value>) {
    && (forall c :: c in cs && path in EntryPaths(Entries(c)) ==> after == Managed(Entries(c), path))
    && ((forall c :: c in cs ==> path !in EntryPaths(Entries(c))) ==>
          after == if exists c :: c in cs && Retires(c, path) then None else before)
  }

  lemma OneMoreSettles(cs: set<Config>, last: Config, path: string, before: Option<Value>, mid: Option<Value>)
    requires PairwiseApart(cs + {last}) && SettledAt(cs, path, before, mid)
    ensures SettledAt(cs + {last}, path, before, MergedAt(last, path, mid))
  {
    var after := MergedAt(last, path, mid);
    ManagedPaths(Entries(last), path);
    forall c | c in cs + {last} && path in EntryPaths(Entries(c)) ensures after == Managed(Entries(c), path) {
      if c != last { assert Apart(c, last); }
    }
    if forall c :: c in cs + {last} ==> path !in EntryPaths(Entries(c)) {
      assert forall c :: c in cs ==> path !in EntryPaths(Entries(c));
      if Retires(last, path) {
        assert last in cs + {last} && Retires(last, path);
      } else if c :| c in cs && Retires(c, path) {
        assert c in cs + {last};
      }
    }
  }

  lemma {:induction false} AppliedAllSettles(cs: seq<Config>, d: Disk, path: string)
    requires Loaded(d.schedule).Some? && PairwiseApart(Elements(cs))
    ensures SettledAt(Elements(cs), path, Get(Loaded(d.schedule).value, path),
                      Get(Loaded(AppliedAll(cs, d).schedule).value, path))
  {
    if cs != [] {
      var n := |cs| - 1;
      var front, last := cs[..n], cs[n];
      var before := Loaded(AppliedAll(front, d).schedule).value;
      assert Elements(cs) == Elements(front) + {last} by { assert cs == front + [last]; }
      AppliedAllSettles(front, d, path);
      LoadedApplied(last, AppliedAll(front, d));
      MergedLookup(last, before, path);
      OneMoreSettles(Elements(front), last, path, Get(Loaded(d.schedule).value, path), Get(before, path));
    }
  }

  lemma SettledUnique(cs: set<Config>, path: string, before: Option<Value>, a: Option<Value>, b: Option<Value>)
    requires SettledAt(cs, path, before, a) && SettledAt(cs, path, before, b)
    ensures a == b
  {
  }

  lemma AppliedAllText(cs: seq<Config>, d: Disk)
    requires Loaded(d.schedule).Some? && cs != []
    ensures var after := AppliedAll(cs, d);
      after.schedule == after.runtime == Some(Marshal(Loaded(after.schedule).value))
  {
    LoadedApplied(cs[|cs| - 1], AppliedAll(cs[..|cs| - 1], d));
  }

  lemma {:induction false} AppliedAllDirs(cs: seq<Config>, d: Disk)
    requires Loaded(d.schedule).Some?
    ensures forall name :: name in AppliedAll(cs, d).dirs <==> name in d.dirs && !RetiredByAny(Elements(cs), name)
  {
    if cs != [] {
      var n := |cs| - 1;
      AppliedAllDirs(cs[..n], d);
      assert Elements(cs) == Elements(cs[..n]) + {cs[n]} by { assert cs == cs[..n] + [cs[n]]; }
      forall name
        ensures RetiredByAny(Elements(cs), name)
           <==> RetiredByAny(Elements(cs[..n]), name) || name in Elements(cs[n].retired)
      {
        if name in Elements(cs[n].retired) { assert cs[n] in Elements(cs); }
      }
      assert AppliedAll(cs, d).dirs == AppliedAll(cs[..n], d).dirs - Elements(cs[n].retired);
    }
  }

  ghost predicate RetiredByAny(cs: set<Config>, name: string) {
    exists c :: c in cs && name in c.retired
  }

  /** Configurations whose names do not overlap reach the same files in any order. */
  lemma OrderDoesNotMatter(cs: seq<Config>, ds: seq<Config>, d: Disk)
    requires Loaded(d.schedule).Some?
    requires Elements(cs) == Elements(ds) && PairwiseApart(Elements(cs)) && cs != []
    ensures var x, y := AppliedAll(cs, d), AppliedAll(ds, d);
      x.schedule == y.schedule && x.runtime == y.runtime && x.dirs == y.dirs
  {
    var x, y := AppliedAll(cs, d), AppliedAll(ds, d);
    var before := Loaded(d.schedule).value;
    var a, b := Loaded(x.schedule).value, Loaded(y.schedule).value;
    forall path ensures Get(a, path) == Get(b, path) {
      AppliedAllSettles(cs, d, path);
      AppliedAllSettles(ds, d, path);
      SettledUnique(Elements(cs), path, Get(before, path), Get(a, path), Get(b, path));
    }
    SameLookups(a, b);
    assert cs[0] in Elements(ds);
    AppliedAllText(cs, d);
    AppliedAllText(ds, d);
    AppliedAllDirs(cs, d);
    AppliedAllDirs(ds, d);
    assert x.dirs == y.dirs;
  }

  /** Once all of them have been applied, all their checks are clean. */
  lemma AllChecksClean(cs: seq<Config>, d: Disk, c: Config)
    requires Loaded(d.schedule).Some?
    requires PairwiseApart(Elements(cs)) && c in cs
    ensures Clean(c, AppliedAll(cs, d))
  {
    var after := AppliedAll(cs, d);
    var final := Loaded(after.schedule).value;
    AppliedAllText(cs, d);
    AppliedAllDirs(cs, d);
    assert c in Elements(cs);
    forall path ensures Get(Merged(c, final), path) == Get(final, path) {
      AppliedAllSettles(cs, d, path);
      MergedLookup(c, final, path);
      ManagedPaths(Entries(c), path);
      if path !in EntryPaths(Entries(c)) && Retires(c, path) {
        forall e | e in Elements(cs) ensures path !in EntryPaths(Entries(e)) {
          if e != c { assert Apart(e, c); }
        }
      }
    }
    SameLookups(Merged(c, final), final);
  }

  // ----- the three shipped configurations -------------------------------

  const BOOTSTRAP := Config("homelab-compose-up", "start", [], ["GHCR Auth"])
  const BACKUP := Config("nas-backup", "daily", [], ["rclone backup"])
  const AOOSTAR := Config("aoostar-display", "start", [Entry("aoostar-display-stop", "stop")],
                          ["aoostar_display", "aoostar_display_controller"])

  lemma ScriptPathInjective(a: string, b: string)
    requires ScriptPath(a) == ScriptPath(b)
    ensures a == b
  {
    var lead := US_PATH + "/scripts/";
    assert ScriptPath(a) == lead + a + "/script" && ScriptPath(b) == lead + b + "/script";
    assert |ScriptPath(a)| == |lead| + |a| + 7 && |ScriptPath(b)| == |lead| + |b| + 7;
    assert ScriptPath(a)[|lead|..|lead| + |a|] == a;
    assert ScriptPath(b)[|lead|..|lead| + |b|] == b;
  }

  ghost predicate NamesApart(a: Config, b: Config) {
    forall e :: e in Entries(a) ==>
      (forall f :: f in Entries(b) ==> e.scriptName != f.scriptName) && e.scriptName !in b.retired
  }

  lemma NamesApartSuffices(a: Config, b: Config)
    requires NamesApart(a, b)
    ensures Apart(a, b)
  {
    forall path | path in EntryPaths(Entries(a)) ensures path !in EntryPaths(Entries(b)) && !Retires(b, path) {
      var i :| 0 <= i < |Entries(a)| && ScriptPath(Entries(a)[i].scriptName) == path;
      var e := Entries(a)[i];
      assert e in Entries(a);
      if path in EntryPaths(Entries(b)) {
        var j :| 0 <= j < |Entries(b)| && ScriptPath(Entries(b)[j].scriptName) == path;
        assert Entries(b)[j] in Entries(b);
        ScriptPathInjective(e.scriptName, Entries(b)[j].scriptName);
      }
      if Retires(b, path) {
        var j :| 0 <= j < |b.retired| && ScriptPath(b.retired[j]) == path;
        ScriptPathInjective(e.scriptName, b.retired[j]);
      }
    }
  }

  lemma BootstrapApart()
    ensures NamesApart(BOOTSTRAP, BACKUP) && NamesApart(BOOTSTRAP, AOOSTAR)
  {
    assert |"homelab-compose-up"| == 18 && |"nas-backup"| == 10 && |"aoostar-display"| == 15;
    assert |"aoostar-display-stop"| == 20 && |"rclone backup"| == 13;
    assert |"aoostar_display"| == 15 && |"aoostar_display_controller"| == 26;
  }

  lemma BackupApart()
    ensures NamesApart(BACKUP, BOOTSTRAP) && NamesApart(BACKUP, AOOSTAR)
  {
    assert |"homelab-compose-up"| == 18 && |"nas-backup"| == 10 && |"aoostar-display"| == 15;
    assert |"aoostar-display-stop"| == 20 && |"GHCR Auth"| == 9;
    assert |"aoostar_display"| == 15 && |"aoostar_display_controller"| == 26;
  }

  lemma AoostarApart()
    ensures NamesApart(AOOSTAR, BOOTSTRAP) && NamesApart(AOOSTAR, BACKUP)
  {
    assert |"homelab-compose-up"| == 18 && |"nas-backup"| == 10 && |"aoostar-display"| == 15;
    assert |"aoostar-display-stop"| == 20 && |"GHCR Auth"| == 9 && |"rclone backup"| == 13;
  }

  /** The three configurations that are shipped may be applied in any order. */
  lemma ShippedConfigsApart()
    ensures PairwiseApart({BOOTSTRAP, BACKUP, AOOSTAR})
  {
    BootstrapApart();
    BackupApart();
    AoostarApart();
    forall a, b | a in {BOOTSTRAP, BACKUP, AOOSTAR} && b in {BOOTSTRAP, BACKUP, AOOSTAR} && a != b ensures Apart(a, b) {
      NamesApartSuffices(a, b);
    }
  }
}
