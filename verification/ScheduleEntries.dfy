/** What an apply leaves in the files, told by reading them: the entry of every managed
    script by its keys, and which file changes when something fails
    (tools/internal/schedulemerge/schedulemerge.go). */
module ScheduleEntries {
  import opened Ordering
  import opened Json
  import opened JsonText
  import opened JsonDocument
  import opened ScheduleMerge

  // ----- ids ------------------------------------------------------------

  predicate LetterOrDigit(c: char) {
    ('A' <= c && c <= 'Z') || ('a' <= c && c <= 'z') || ('0' <= c && c <= '9')
  }

  lemma {:induction false} AlnumAppend(a: string, b: string)
    ensures Alnum(a + b) == Alnum(a) + Alnum(b)
  {
    if b == "" {
      assert a + b == a;
    } else {
      var n := |b| - 1;
      assert (a + b)[..|a + b| - 1] == a + b[..n];
      AlnumAppend(a, b[..n]);
    }
  }

  /** An id keeps the letters and digits of a name and drops everything else. */
  lemma {:induction false} AlnumTold(s: string)
    ensures (forall i :: 0 <= i < |s| ==> LetterOrDigit(s[i])) ==> Alnum(s) == s
    ensures (forall i :: 0 <= i < |s| ==> !LetterOrDigit(s[i])) ==> Alnum(s) == ""
  {
    if s != "" { AlnumTold(s[..|s| - 1]); }
  }

  // ----- the entry of a managed script ----------------------------------

  /** All entries that a configuration manages: its own, then the further ones. */
  function Own(cfg: Config): seq<Entry> {
    [Entry(cfg.scriptName, cfg.frequency)] + cfg.extra
  }

  /** The last entry for its name; earlier ones are overwritten. */
  ghost predicate LastOfName(entries: seq<Entry>, i: nat) {
    i < |entries| && forall j :: i < j < |entries| ==> entries[j].scriptName != entries[i].scriptName
  }

  function WhereInstalled(name: string): string {
    "/boot/config/plugins/user.scripts/scripts/" + name + "/script"
  }

  function Lookup(v: Value, key: string): Option<Value> {
    if v.VObject? then Get(MapOf(v.fields), key) else None
  }

  /** The object has the four keys and no others, and under each of them its value. */
  ghost predicate IsEntry(v: Value, name: string, frequency: string, id: string) {
    && v.VObject?
    && (forall key :: Lookup(v, key).Some? <==> key in {"custom", "frequency", "id", "script"})
    && Lookup(v, "custom") == Some(VString(""))
    && Lookup(v, "frequency") == Some(VString(frequency))
    && Lookup(v, "id") == Some(VString(id))
    && Lookup(v, "script") == Some(VString(WhereInstalled(name)))
  }

  lemma MapOfNext(fields: seq<Field>, f: Field)
    ensures MapOf(fields + [f]) == MapOf(fields)[f.key := f.value]
  {
    assert (fields + [f])[..|fields|] == fields;
  }

  lemma FourKeys(a: Value, b: Value, c: Value, d: Value)
    ensures MapOf([Field("custom", a), Field("frequency", b), Field("id", c), Field("script", d)])
         == map[]["custom" := a]["frequency" := b]["id" := c]["script" := d]
  {
    var one := [Field("custom", a)];
    var two := one + [Field("frequency", b)];
    var three := two + [Field("id", c)];
    assert one == [] + one;
    MapOfNext([], Field("custom", a));
    MapOfNext(one, Field("frequency", b));
    MapOfNext(two, Field("id", c));
    MapOfNext(three, Field("script", d));
    assert three + [Field("script", d)]
        == [Field("custom", a), Field("frequency", b), Field("id", c), Field("script", d)];
  }

  lemma KeysDiffer()
    ensures "custom" != "frequency" && "custom" != "id" && "custom" != "script"
    ensures "frequency" != "id" && "frequency" != "script" && "id" != "script"
  {
    assert "custom"[0] == 'c' && "frequency"[0] == 'f' && "id"[0] == 'i' && "script"[0] == 's';
  }

  lemma EntryIsEntry(e: Entry)
    ensures IsEntry(EntryValue(e), e.scriptName, e.frequency, "schedule" + Alnum(e.scriptName))
  {
    FourKeys(VString(""), VString(e.frequency), VString("schedule" + Alnum(e.scriptName)),
             VString(ScriptPath(e.scriptName)));
    KeysDiffer();
    SamePath(e.scriptName);
  }

  lemma SamePath(name: string)
    ensures ScriptPath(name) == WhereInstalled(name)
  {
    assert US_PATH + "/scripts/" == "/boot/config/plugins/user.scripts/scripts/";
  }

  lemma {:induction false} ManagedIsLast(entries: seq<Entry>, i: nat)
    requires LastOfName(entries, i)
    ensures Managed(entries, ScriptPath(entries[i].scriptName)) == Some(EntryValue(entries[i]))
  {
    var n := |entries| - 1;
    if i < n {
      assert entries[..n][i] == entries[i];
      assert forall j :: i < j < n ==> entries[..n][j] == entries[j];
      ManagedIsLast(entries[..n], i);
      if ScriptPath(entries[n].scriptName) == ScriptPath(entries[i].scriptName) {
        ScriptPathInjective(entries[n].scriptName, entries[i].scriptName);
      }
    }
  }

  lemma DoneWrites(cfg: Config, d: Disk, f: Faults)
    requires OutcomeOf(cfg, d, false, f).Done?
    ensures Loaded(d.schedule).Some?
    ensures var after := ApplyWith(cfg, d, f).0;
      && after.schedule.Some? && after.runtime == after.schedule
      && Unmarshal(after.schedule.value) == Some(Merged(cfg, Loaded(d.schedule).value))
  {
    SuccessIsApplied(cfg, d, f);
    LoadedApplied(cfg, d);
    LoadedCanonical(d.schedule);
    MergedCanonical(cfg, Loaded(d.schedule).value);
    UnmarshalMarshal(Merged(cfg, Loaded(d.schedule).value));
  }

  /** After a run that ends well, the file that the scheduler reads parses, and for the last
      entry of every managed name it holds an object under that script's path: nothing in
      custom, the frequency, the schedule id and the path itself, and no other key. */
  lemma ManagedEntriesWritten(cfg: Config, d: Disk, f: Faults, i: nat)
    requires OutcomeOf(cfg, d, false, f).Done? && LastOfName(Own(cfg), i)
    ensures Loaded(d.schedule).Some?
    ensures var after, e := ApplyWith(cfg, d, f).0, Own(cfg)[i];
      && after.schedule.Some? && after.runtime == after.schedule
      && var read := Unmarshal(after.schedule.value);
         && read.Some? && WhereInstalled(e.scriptName) in read.value
         && IsEntry(read.value[WhereInstalled(e.scriptName)], e.scriptName, e.frequency,
                    "schedule" + Alnum(e.scriptName))
  {
    var e := Own(cfg)[i];
    assert Own(cfg) == Entries(cfg);
    DoneWrites(cfg, d, f);
    SamePath(e.scriptName);
    MergedLookup(cfg, Loaded(d.schedule).value, ScriptPath(e.scriptName));
    ManagedIsLast(Entries(cfg), i);
    EntryIsEntry(e);
  }

  /** And a retired script that is not managed has neither an entry nor a directory. */
  lemma RetiredAreGone(cfg: Config, d: Disk, f: Faults, name: string)
    requires OutcomeOf(cfg, d, false, f).Done? && name in cfg.retired
    requires forall i :: 0 <= i < |Own(cfg)| ==> Own(cfg)[i].scriptName != name
    ensures Loaded(d.schedule).Some?
    ensures var after := ApplyWith(cfg, d, f).0;
      && after.schedule.Some? && name !in after.dirs
      && var read := Unmarshal(after.schedule.value);
         read.Some? && WhereInstalled(name) !in read.value
  {
    DoneWrites(cfg, d, f);
    SuccessIsApplied(cfg, d, f);
    SamePath(name);
    NotManaged(Own(cfg), name);
    var i :| 0 <= i < |cfg.retired| && cfg.retired[i] == name;
    assert Retires(cfg, ScriptPath(name)) && name in Elements(cfg.retired);
    MergedLookup(cfg, Loaded(d.schedule).value, ScriptPath(name));
  }

  lemma {:induction false} NotManaged(entries: seq<Entry>, name: string)
    requires forall i :: 0 <= i < |entries| ==> entries[i].scriptName != name
    ensures Managed(entries, ScriptPath(name)) == None
  {
    if entries != [] {
      var n := |entries| - 1;
      NotManaged(entries[..n], name);
      if ScriptPath(entries[n].scriptName) == ScriptPath(name) { ScriptPathInjective(entries[n].scriptName, name); }
    }
  }

  // ----- the shipped configurations -------------------------------------

  /** The entry of one script in a schedule file. */
  ghost predicate Scheduled(schedule: Option<string>, name: string, frequency: string, id: string) {
    schedule.Some? &&
    var read := Unmarshal(schedule.value);
    read.Some? && WhereInstalled(name) in read.value && IsEntry(read.value[WhereInstalled(name)], name, frequency, id)
  }

  /** A hyphen falls out of an id. */
  lemma Words(a: string, b: string)
    requires forall i :: 0 <= i < |b| ==> LetterOrDigit(b[i])
    ensures Alnum(a + "-" + b) == Alnum(a) + b
  {
    AlnumAppend(a + "-", b);
    AlnumAppend(a, "-");
    AlnumTold("-");
    AlnumTold(b);
    assert Alnum(a) + "" == Alnum(a);
  }

  lemma ShippedIds()
    ensures Alnum("homelab-compose-up") == "homelabcomposeup"
    ensures Alnum("nas-backup") == "nasbackup"
    ensures Alnum("aoostar-display") == "aoostardisplay"
    ensures Alnum("aoostar-display-stop") == "aoostardisplaystop"
  {
    BootstrapId();
    TwoWords("nas", "backup", "nas-backup", "nasbackup");
    DisplayIds();
  }

  lemma BootstrapId()
    ensures Alnum("homelab-compose-up") == "homelabcomposeup"
  {
    TwoWords("homelab", "compose", "homelab-compose", "homelabcompose");
    Words("homelab-compose", "up");
    assert "homelab-compose" + "-" + "up" == "homelab-compose-up" && "homelabcompose" + "up" == "homelabcomposeup";
  }

  lemma DisplayIds()
    ensures Alnum("aoostar-display") == "aoostardisplay"
    ensures Alnum("aoostar-display-stop") == "aoostardisplaystop"
  {
    TwoWords("aoostar", "display", "aoostar-display", "aoostardisplay");
    Words("aoostar-display", "stop");
    assert "aoostar-display" + "-" + "stop" == "aoostar-display-stop";
    assert "aoostardisplay" + "stop" == "aoostardisplaystop";
  }

  lemma TwoWords(a: string, b: string, both: string, id: string)
    requires both == a + "-" + b && id == a + b
    requires forall i :: 0 <= i < |id| ==> LetterOrDigit(id[i])
    ensures Alnum(both) == id
  {
    forall i | 0 <= i < |a| ensures LetterOrDigit(a[i]) { assert id[i] == a[i]; }
    forall i | 0 <= i < |b| ensures LetterOrDigit(b[i]) { assert id[|a| + i] == b[i]; }
    AlnumTold(a);
    Words(a, b);
  }

  lemma EntryScheduled(cfg: Config, d: Disk, f: Faults, i: nat, name: string, frequency: string, id: string)
    requires OutcomeOf(cfg, d, false, f).Done? && LastOfName(Own(cfg), i)
    requires Own(cfg)[i] == Entry(name, frequency) && id == "schedule" + Alnum(name)
    ensures Loaded(d.schedule).Some? && Scheduled(ApplyWith(cfg, d, f).0.schedule, name, frequency, id)
  {
    ManagedEntriesWritten(cfg, d, f, i);
  }

  /** What the three shipped programs schedule, whatever was in the file before. */
  lemma ShippedSchedules(cfg: Config, d: Disk, f: Faults)
    requires OutcomeOf(cfg, d, false, f).Done?
    ensures Loaded(d.schedule).Some?
    ensures var schedule := ApplyWith(cfg, d, f).0.schedule;
      && (cfg == BOOTSTRAP ==> Scheduled(schedule, "homelab-compose-up", "start", "schedulehomelabcomposeup"))
      && (cfg == BACKUP ==> Scheduled(schedule, "nas-backup", "daily", "schedulenasbackup"))
      && (cfg == AOOSTAR ==>
            && Scheduled(schedule, "aoostar-display", "start", "scheduleaoostardisplay")
            && Scheduled(schedule, "aoostar-display-stop", "stop", "scheduleaoostardisplaystop"))
  {
    ShippedIds();
    FullIds();
    DisplayNames();
    if cfg == BOOTSTRAP {
      EntryScheduled(cfg, d, f, 0, "homelab-compose-up", "start", "schedulehomelabcomposeup");
    }
    if cfg == BACKUP {
      EntryScheduled(cfg, d, f, 0, "nas-backup", "daily", "schedulenasbackup");
    }
    if cfg == AOOSTAR {
      EntryScheduled(cfg, d, f, 0, "aoostar-display", "start", "scheduleaoostardisplay");
      EntryScheduled(cfg, d, f, 1, "aoostar-display-stop", "stop", "scheduleaoostardisplaystop");
    }
  }

  lemma FullIds()
    ensures "schedule" + "homelabcomposeup" == "schedulehomelabcomposeup"
    ensures "schedule" + "nasbackup" == "schedulenasbackup"
    ensures "schedule" + "aoostardisplay" == "scheduleaoostardisplay"
    ensures "schedule" + "aoostardisplaystop" == "scheduleaoostardisplaystop"
  {
  }

  lemma DisplayNames()
    ensures LastOfName(Own(AOOSTAR), 0) && LastOfName(Own(AOOSTAR), 1)
  {
    assert |"aoostar-display-stop"| == 20 && |"aoostar-display"| == 15;
  }

  // ----- how a run ends, and what it touches ----------------------------

  /** Reading comes first: a run that cannot read or parse changes nothing, in either mode;
      only then does the mode matter. A check never changes anything. */
  lemma OutcomeTold(cfg: Config, d: Disk, checkOnly: bool, f: Faults)
    ensures var outcome := OutcomeOf(cfg, d, checkOnly, f);
      var unparsed := Loaded(d.schedule).None?;
      && (outcome == ReadError <==> f.readSchedule || (f.readRuntime && !unparsed))
      && (outcome == ParseError <==> !f.readSchedule && unparsed)
      && (outcome == CheckClean || outcome == CheckDirty <==>
            checkOnly && !f.readSchedule && !f.readRuntime && !unparsed)
      && (outcome == Done || outcome == Failed <==>
            !checkOnly && !f.readSchedule && !f.readRuntime && !unparsed)
      && (outcome == CheckClean ==> Clean(cfg, d)) && (outcome == CheckDirty ==> !Clean(cfg, d))
  {
  }

  /** The schedule, when it is missing or blank, stands for no entries at all; any other
      text must parse. */
  lemma MissingIsEmpty(schedule: Option<string>)
    ensures schedule == None ==> Loaded(schedule) == Some(map[])
    ensures schedule.Some? && (forall c :: c in schedule.value ==> c == ' ' || c == '\t' || c == '\n' || c == '\r') ==>
      Loaded(schedule) == Some(map[])
    ensures schedule.Some? && (exists c :: c in schedule.value && c != ' ' && c != '\t' && c != '\n' && c != '\r') ==>
      Loaded(schedule) == Unmarshal(schedule.value)
  {
    if schedule.Some? {
      forall i | 0 <= i < |schedule.value| ensures schedule.value[i] in schedule.value { }
    }
  }

  /** The order of the steps, seen from the files of a run that was stopped anywhere: the
      backup and the schedule change only if the schedule was not as wanted; the runtime
      copy only when the schedule is as wanted; directories go only when both are. */
  lemma StepsInOrder(cfg: Config, d: Disk, f: Faults)
    requires Loaded(d.schedule).Some?
    ensures var after, wanted := ApplyWith(cfg, d, f).0, Some(Wanted(cfg, d));
      && (d.schedule == wanted ==> after.schedule == d.schedule && after.backup == d.backup)
      && (d.schedule == None ==> after.backup == d.backup)
      && (after.runtime != d.runtime ==> after.schedule == wanted)
      && (after.dirs != d.dirs ==> after.schedule == wanted && after.runtime == wanted)
  {
    var saved := SaveSchedule(d, Wanted(cfg, d), f);
    if saved.1 {
      SavedAsWanted(d, Wanted(cfg, d), f);
    }
  }

  lemma SavedAsWanted(d: Disk, text: string, f: Faults)
    requires SaveSchedule(d, text, f).1
    ensures SaveSchedule(d, text, f).0.schedule == Some(text)
  {
  }

  /** Which operations a run gets to, and that each of them is needed: it succeeds iff none
      that it gets to fails. */
  lemma SucceedsIff(cfg: Config, d: Disk, f: Faults)
    requires Loaded(d.schedule).Some?
    ensures var changes := d.schedule != Some(Wanted(cfg, d));
      ApplyWith(cfg, d, f).1 <==>
        && (changes && d.schedule.Some? ==> f.backup.Written?)
        && (changes ==> !f.makeDir && f.schedule.Written? && !f.mode)
        && !f.makeRuntimeDir && f.runtime.Written?
        && (forall name :: name in cfg.retired && name in d.dirs ==> name !in f.stuck)
  {
    var text := Wanted(cfg, d);
    var saved := SaveSchedule(d, text, f);
    if saved.1 && Mirror(saved.0, text, f).1 {
      RetiresIff(d.dirs, cfg.retired, |cfg.retired|, f.stuck);
    }
  }

  lemma {:induction false} RetiresIff(dirs: set<string>, retired: seq<string>, n: nat, stuck: set<string>)
    requires n <= |retired|
    ensures Retire(dirs, retired, n, stuck).1 <==>
      forall i :: 0 <= i < n && retired[i] in dirs ==> retired[i] !in stuck
    ensures var r := Retire(dirs, retired, n, stuck);
      r.0 <= dirs && forall name :: name in dirs && name !in r.0 ==> name !in stuck
  {
    if n > 0 { RetiresIff(dirs, retired, n - 1, stuck); }
  }
}
