/** Bringing Uptime Kuma's monitors in line with the service catalog
    (tools/cmd/provision-kuma/main.go). */
module Provision {
  import opened Ordering

  // ----- the catalog ----------------------------------------------------

  /** The `domain` of a service: absent, a string, or a list whose entries need not
      be strings. */
  datatype Domain = NoDomain | One(domain: string) | Many(domains: seq<Option<string>>)

  datatype Service = Service(
    name: string, enabled: Option<bool>, domain: Domain, monitorPath: string, monitor: Option<bool>)

  datatype Host = Host(nodeName: string, nodeHost: string)

  datatype Catalog = Catalog(services: seq<Service>, hosts: seq<Host>)

  function FirstDomain(d: Domain): string {
    match d
    case One(domain) => domain
    case Many(domains) => if domains == [] || domains[0].None? then "" else domains[0].value
    case NoDomain => ""
  }

  predicate IsMonitored(s: Service) {
    (s.enabled.None? || s.enabled.value) && (s.monitor.None? || s.monitor.value)
  }

  function TargetURLFor(domain: string): string {
    if "http://" <= domain || "https://" <= domain then domain else "https://" + domain
  }

  /** A monitor that the catalog wants. */
  datatype Target =
    | Http(name: string, url: string)
    | Ping(name: string, host: string)
    | Tcp(name: string, host: string, port: int)

  const PING_PREFIX := "Ping: "
  const SMTP_PREFIX := "SMTP: "
  const TCP_PREFIX := "TCP: "
  const MAIL_HOST := "mail.mljr.eu"

  const TCP_TARGETS: seq<Target> := [
    Tcp(SMTP_PREFIX + MAIL_HOST, MAIL_HOST, 587),
    Tcp(TCP_PREFIX + "crowdsec LAPI (mljr)", "100.100.20.1", 8088),
    Tcp(TCP_PREFIX + "mail SMTP 25 (mljr)", "100.100.20.1", 25),
    Tcp(TCP_PREFIX + "mail SMTPS 465", MAIL_HOST, 465),
    Tcp(TCP_PREFIX + "mail IMAPS 993", MAIL_HOST, 993),
    Tcp(TCP_PREFIX + "defectdojo (nuc)", "100.100.10.1", 8101)]

  function ServiceTarget(s: Service): seq<Target> {
    if IsMonitored(s) && FirstDomain(s.domain) != ""
    then [Http(s.name, TargetURLFor(FirstDomain(s.domain)) + s.monitorPath)]
    else []
  }

  function ServiceTargets(services: seq<Service>): seq<Target> {
    if services == [] then []
    else ServiceTargets(services[..|services| - 1]) + ServiceTarget(services[|services| - 1])
  }

  function PingTarget(h: Host): seq<Target> {
    if h.nodeName != "" && h.nodeHost != "" then [Ping(PING_PREFIX + h.nodeName, h.nodeHost)] else []
  }

  function PingTargets(hosts: seq<Host>): seq<Target> {
    if hosts == [] then []
    else PingTargets(hosts[..|hosts| - 1]) + PingTarget(hosts[|hosts| - 1])
  }

  function Targets(cat: Catalog): seq<Target> {
    ServiceTargets(cat.services) + PingTargets(cat.hosts) + TCP_TARGETS
  }

  /** Names that may exist: a host without an address is expected, but not synced. */
  function Expected(cat: Catalog): set<string> {
    (set i | 0 <= i < |cat.services| && IsMonitored(cat.services[i]) && FirstDomain(cat.services[i].domain) != ""
       :: cat.services[i].name)
    + (set i | 0 <= i < |cat.hosts| && cat.hosts[i].nodeName != "" :: PING_PREFIX + cat.hosts[i].nodeName)
    + (set i | 0 <= i < |TCP_TARGETS| :: TCP_TARGETS[i].name)
  }

  lemma {:induction false} ServiceTargetsExpected(services: seq<Service>, t: Target)
    requires t in ServiceTargets(services)
    ensures exists i :: 0 <= i < |services| && IsMonitored(services[i]) && FirstDomain(services[i].domain) != ""
                        && services[i].name == t.name
  {
    var n := |services| - 1;
    if t in ServiceTargets(services[..n]) {
      ServiceTargetsExpected(services[..n], t);
    } else {
      assert t in ServiceTarget(services[n]);
    }
  }

  lemma {:induction false} PingTargetsExpected(hosts: seq<Host>, t: Target)
    requires t in PingTargets(hosts)
    ensures exists i :: 0 <= i < |hosts| && hosts[i].nodeName != "" && PING_PREFIX + hosts[i].nodeName == t.name
  {
    var n := |hosts| - 1;
    if t in PingTargets(hosts[..n]) {
      PingTargetsExpected(hosts[..n], t);
    } else {
      assert t in PingTarget(hosts[n]);
    }
  }

  /** Everything that is synced is expected, so no sync is undone as an orphan. */
  lemma TargetsExpected(cat: Catalog, t: Target)
    requires t in Targets(cat)
    ensures t.name in Expected(cat)
  {
    if t in ServiceTargets(cat.services) {
      ServiceTargetsExpected(cat.services, t);
    } else if t in PingTargets(cat.hosts) {
      PingTargetsExpected(cat.hosts, t);
    } else {
      assert t in TCP_TARGETS;
      var i :| 0 <= i < |TCP_TARGETS| && TCP_TARGETS[i] == t;
      assert TCP_TARGETS[i].name == t.name;
    }
  }

  // ----- the server -----------------------------------------------------

  datatype Kind = HttpKind | PingKind | PortKind | OtherKind

  datatype Monitor = Monitor(
    id: int, name: string, kind: Kind,
    url: string, hostname: string, port: int, maxRetries: int, active: bool)

  datatype Server = Server(monitors: map<int, Monitor>, nextId: int)

  datatype Call = Create(name: string) | Resume(name: string) | Update(name: string) | Delete(name: string)

  /** Which calls fail during a run. */
  type Faults = Call -> bool

  type View = map<string, Monitor>

  /** The server's monitors have unique names, and the view lists them by name. */
  ghost predicate Shows(s: Server, view: View) {
    && (forall id :: id in s.monitors ==>
          s.monitors[id].id == id && id < s.nextId
          && s.monitors[id].name in view && view[s.monitors[id].name] == s.monitors[id])
    && (forall name :: name in view ==>
          view[name].name == name && view[name].id in s.monitors && s.monitors[view[name].id] == view[name])
  }

  /** Whether an existing monitor is left alone. Its kind is not looked at. */
  predicate Matches(t: Target, m: Monitor) {
    match t
    case Http(_, url) => m.url == url
    case Ping(_, host) => m.hostname == host && m.maxRetries == 3
    case Tcp(_, host, port) => m.hostname == host && m.port == port
  }

  function Patched(t: Target, m: Monitor): Monitor {
    match t
    case Http(name, url) => m.(name := name, kind := HttpKind, url := url)
    case Ping(name, host) => m.(name := name, kind := PingKind, hostname := host, maxRetries := 3)
    case Tcp(name, host, port) => m.(name := name, kind := PortKind, hostname := host, port := port)
  }

  /** A new monitor; the client creates it paused. */
  function Blank(t: Target, id: int): Monitor {
    match t
    case Http(name, url) => Monitor(id, name, HttpKind, url, "", 0, 0, false)
    case Ping(name, host) => Monitor(id, name, PingKind, "", host, 0, 3, false)
    case Tcp(name, host, port) => Monitor(id, name, PortKind, "", host, port, 0, false)
  }

  datatype Stats = Stats(
    created: set<string>, updated: set<string>, deleted: set<string>, skipped: nat, failed: set<string>)

  const NO_STATS := Stats({}, {}, {}, 0, {})

  // ----- one run --------------------------------------------------------

  function SyncStep(s: Server, st: Stats, t: Target, existing: View, faults: Faults): (Server, Stats) {
    if t.name in existing then
      var base := existing[t.name];
      if Matches(t, base) then (s, st.(skipped := st.skipped + 1))
      else if faults(Update(t.name)) then (s, st.(failed := st.failed + {t.name}))
      else (s.(monitors := s.monitors[base.id := Patched(t, base)]), st.(updated := st.updated + {t.name}))
    else if faults(Create(t.name)) then (s, st.(failed := st.failed + {t.name}))
    else
      var started := !faults(Resume(t.name));
      (Server(s.monitors[s.nextId := Blank(t, s.nextId).(active := started)], s.nextId + 1),
       if started then st.(created := st.created + {t.name}) else st.(failed := st.failed + {t.name}))
  }

  function SyncAll(s: Server, targets: seq<Target>, existing: View, faults: Faults): (Server, Stats) {
    if targets == [] then (s, NO_STATS)
    else
      var n := |targets| - 1;
      var before := SyncAll(s, targets[..n], existing, faults);
      SyncStep(before.0, before.1, targets[n], existing, faults)
  }

  /** The orphans that deleting removes. */
  function Removed(existing: View, expected: set<string>, faults: Faults): set<string> {
    set name | name in existing && name !in expected && !faults(Delete(name))
  }

  function Undeleted(existing: View, expected: set<string>, faults: Faults): set<string> {
    set name | name in existing && name !in expected && faults(Delete(name)) :: "delete:" + name
  }

  function IdsOf(existing: View, names: set<string>): set<int> {
    set name | name in names && name in existing :: existing[name].id
  }

  function RunSpec(s: Server, cat: Catalog, existing: View, faults: Faults): (Server, Stats) {
    var synced := SyncAll(s, Targets(cat), existing, faults);
    var removed := Removed(existing, Expected(cat), faults);
    (synced.0.(monitors := synced.0.monitors - IdsOf(existing, removed)),
     synced.1.(deleted := removed, failed := synced.1.failed + Undeleted(existing, Expected(cat), faults)))
  }

  // ----- what a run does to the names -----------------------------------

  function ViewStep(view: View, id: int, t: Target, existing: View, faults: Faults): View {
    if t.name in existing then
      if Matches(t, existing[t.name]) || faults(Update(t.name)) then view
      else view[t.name := Patched(t, existing[t.name])]
    else if faults(Create(t.name)) then view
    else view[t.name := Blank(t, id).(active := !faults(Resume(t.name)))]
  }

  ghost predicate DistinctNames(targets: seq<Target>) {
    forall i, j :: 0 <= i < j < |targets| ==> targets[i].name != targets[j].name
  }

  function Names(targets: seq<Target>): set<string> {
    set i | 0 <= i < |targets| :: targets[i].name
  }

  /** No two targets share a name that the server does not have yet. */
  ghost predicate FreshOnce(targets: seq<Target>, existing: View) {
    forall i, j :: 0 <= i < j < |targets| && targets[i].name == targets[j].name ==> targets[i].name in existing
  }

  /** While the targets are synced one after another, the monitors that were there
      keep their ids. */
  ghost predicate SameIds(view: View, existing: View) {
    forall name :: name in existing ==> name in view && view[name].id == existing[name].id
  }

  lemma PatchShows(s: Server, view: View, m: Monitor)
    requires Shows(s, view) && m.name in view && view[m.name].id == m.id
    ensures Shows(s.(monitors := s.monitors[m.id := m]), view[m.name := m])
  {
  }

  lemma AddShows(s: Server, view: View, m: Monitor)
    requires Shows(s, view) && m.name !in view && m.id == s.nextId
    ensures Shows(Server(s.monitors[m.id := m], s.nextId + 1), view[m.name := m])
  {
  }

  lemma RemoveShows(s: Server, view: View, existing: View, names: set<string>)
    requires Shows(s, view)
    requires forall name :: name in names ==> name in view && name in existing && view[name].id == existing[name].id
    ensures Shows(s.(monitors := s.monitors - IdsOf(existing, names)), view - names)
  {
    var t := s.(monitors := s.monitors - IdsOf(existing, names));
    assert forall id :: id in t.monitors ==> s.monitors[id].name !in names;
    assert forall name :: name in view && name !in names ==> view[name].id !in IdsOf(existing, names);
  }

  lemma StepShows(s: Server, st: Stats, view: View, t: Target, existing: View, faults: Faults)
    requires Shows(s, view) && SameIds(view, existing)
    requires if t.name in existing then existing[t.name].name == t.name else t.name !in view
    ensures var r := SyncStep(s, st, t, existing, faults);
      var after := ViewStep(view, s.nextId, t, existing, faults);
      && Shows(r.0, after) && SameIds(after, existing)
      && (forall name :: name != t.name ==> Get(after, name) == Get(view, name))
  {
    if t.name in existing {
      PatchedStep(s, st, view, t, existing, faults);
    } else if !faults(Create(t.name)) {
      AddShows(s, view, Blank(t, s.nextId).(active := !faults(Resume(t.name))));
    }
  }

  lemma PatchedStep(s: Server, st: Stats, view: View, t: Target, existing: View, faults: Faults)
    requires Shows(s, view) && SameIds(view, existing)
    requires t.name in existing && existing[t.name].name == t.name
    ensures var after := ViewStep(view, s.nextId, t, existing, faults);
      Shows(SyncStep(s, st, t, existing, faults).0, after) && SameIds(after, existing)
  {
    if !Matches(t, existing[t.name]) && !faults(Update(t.name)) {
      PatchShows(s, view, Patched(t, existing[t.name]));
    }
  }

  /** What one name looks like after the sync, in terms of its last target that does not
      match and whose call does not fail. */
  ghost predicate SyncedName(targets: seq<Target>, name: string, before: Option<Monitor>, after: Option<Monitor>,
                             faults: Faults)
  {
    if targets == [] then after == before
    else
      var front, t := targets[..|targets| - 1], targets[|targets| - 1];
      if t.name != name then SyncedName(front, name, before, after, faults)
      else
        match before
        case Some(m) =>
          if Matches(t, m) || faults(Update(name)) then SyncedName(front, name, before, after, faults)
          else after == Some(Patched(t, m))
        case None =>
          if faults(Create(name)) then SyncedName(front, name, before, after, faults)
          else after.Some? && after.value == Blank(t, after.value.id).(active := !faults(Resume(name)))
  }

  lemma {:induction false} SyncedElsewhere(targets: seq<Target>, name: string, before: Option<Monitor>,
                                           after: Option<Monitor>, faults: Faults)
    requires name !in Names(targets)
    ensures SyncedName(targets, name, before, after, faults) <==> after == before
  {
    if targets != [] {
      var n := |targets| - 1;
      assert targets[n].name in Names(targets);
      forall i | 0 <= i < n ensures targets[..n][i].name in Names(targets) { assert targets[..n][i] == targets[i]; }
      SyncedElsewhere(targets[..n], name, before, after, faults);
    }
  }

  lemma FreshOnceFront(targets: seq<Target>, existing: View)
    requires FreshOnce(targets, existing) && targets != []
    ensures var n := |targets| - 1;
      FreshOnce(targets[..n], existing) && (targets[n].name !in existing ==> targets[n].name !in Names(targets[..n]))
  {
    var n := |targets| - 1;
    assert forall i :: 0 <= i < n ==> targets[..n][i] == targets[i];
  }

  /** One step changes one name, as told. */
  lemma StepSynced(front: seq<Target>, t: Target, id: int, existing: View, view: View, faults: Faults, name: string)
    requires SyncedName(front, name, Get(existing, name), Get(view, name), faults)
    ensures var after := ViewStep(view, id, t, existing, faults);
      SyncedName(front + [t], name, Get(existing, name), Get(after, name), faults)
  {
    assert (front + [t])[..|front|] == front;
  }

  lemma {:induction false} SyncShows(s: Server, targets: seq<Target>, existing: View, faults: Faults)
    returns (view: View)
    requires Shows(s, existing) && FreshOnce(targets, existing)
    ensures Shows(SyncAll(s, targets, existing, faults).0, view) && SameIds(view, existing)
    ensures forall name :: SyncedName(targets, name, Get(existing, name), Get(view, name), faults)
  {
    if targets == [] {
      view := existing;
    } else {
      var front, t := targets[..|targets| - 1], targets[|targets| - 1];
      FreshOnceFront(targets, existing);
      var before := SyncShows(s, front, existing, faults);
      var r := SyncAll(s, front, existing, faults);
      if t.name !in existing {
        SyncedElsewhere(front, t.name, None, Get(before, t.name), faults);
      }
      StepShows(r.0, r.1, before, t, existing, faults);
      view := ViewStep(before, r.0.nextId, t, existing, faults);
      assert targets == front + [t];
      forall name ensures SyncedName(targets, name, Get(existing, name), Get(view, name), faults) {
        StepSynced(front, t, r.0.nextId, existing, before, faults, name);
      }
    }
  }

  /** What one name looks like after the sync, if one target has it. */
  ghost predicate SyncedTo(before: Option<Monitor>, after: Option<Monitor>, t: Target, faults: Faults) {
    match before
    case Some(m) =>
      after == Some(if Matches(t, m) || faults(Update(t.name)) then m else Patched(t, m))
    case None =>
      if faults(Create(t.name)) then after == None
      else after.Some? && after.value == Blank(t, after.value.id).(active := !faults(Resume(t.name)))
  }

  lemma {:induction false} SyncedOnce(targets: seq<Target>, i: nat, before: Option<Monitor>, after: Option<Monitor>,
                                      faults: Faults)
    requires i < |targets| && DistinctNames(targets) && SyncedName(targets, targets[i].name, before, after, faults)
    ensures SyncedTo(before, after, targets[i], faults)
  {
    var n := |targets| - 1;
    assert forall k :: 0 <= k < n ==> targets[..n][k] == targets[k];
    if i < n {
      SyncedOnce(targets[..n], i, before, after, faults);
    } else {
      assert targets[i].name !in Names(targets[..n]);
      SyncedElsewhere(targets[..n], targets[i].name, before, after, faults);
    }
  }

  /** A run, whatever fails in it: every name that is not removed is as its targets want
      it or, if their calls failed, as it was; expected names are never deleted;
      orphans are deleted unless that fails; no other name appears. */
  lemma RunShows(s: Server, cat: Catalog, existing: View, faults: Faults) returns (view: View)
    requires Shows(s, existing) && FreshOnce(Targets(cat), existing)
    ensures Shows(RunSpec(s, cat, existing, faults).0, view)
    ensures forall name ::
      if name in Removed(existing, Expected(cat), faults) then name !in view
      else SyncedName(Targets(cat), name, Get(existing, name), Get(view, name), faults)
    ensures forall i :: 0 <= i < |Targets(cat)| ==> Targets(cat)[i].name !in Removed(existing, Expected(cat), faults)
    ensures forall name :: name in existing && name in Expected(cat) ==> name in view
  {
    var targets, removed := Targets(cat), Removed(existing, Expected(cat), faults);
    var synced := SyncShows(s, targets, existing, faults);
    forall i | 0 <= i < |targets| ensures targets[i].name !in removed {
      TargetsExpected(cat, targets[i]);
    }
    RemoveShows(SyncAll(s, targets, existing, faults).0, synced, existing, removed);
    view := synced - removed;
    forall name
      ensures if name in removed then name !in view
              else SyncedName(targets, name, Get(existing, name), Get(view, name), faults)
    {
      assert name !in removed ==> Get(view, name) == Get(synced, name);
    }
  }

  /** The same for targets of different names, one by one. */
  lemma RunShowsEach(s: Server, cat: Catalog, existing: View, faults: Faults) returns (view: View)
    requires Shows(s, existing) && DistinctNames(Targets(cat))
    ensures Shows(RunSpec(s, cat, existing, faults).0, view)
    ensures forall i :: 0 <= i < |Targets(cat)| ==>
      SyncedTo(Get(existing, Targets(cat)[i].name), Get(view, Targets(cat)[i].name), Targets(cat)[i], faults)
    ensures forall name :: name !in Names(Targets(cat)) ==>
      Get(view, name) == if name in Removed(existing, Expected(cat), faults) then None else Get(existing, name)
    ensures forall name :: name in existing && name in Expected(cat) ==> name in view
  {
    var targets := Targets(cat);
    view := RunShows(s, cat, existing, faults);
    forall i | 0 <= i < |targets|
      ensures SyncedTo(Get(existing, targets[i].name), Get(view, targets[i].name), targets[i], faults)
    {
      SyncedOnce(targets, i, Get(existing, targets[i].name), Get(view, targets[i].name), faults);
    }
    forall name | name !in Names(targets)
      ensures Get(view, name) == if name in Removed(existing, Expected(cat), faults) then None else Get(existing, name)
    {
      SyncedElsewhere(targets, name, Get(existing, name), Get(view, name), faults);
    }
  }

  // ----- convergence ----------------------------------------------------

  ghost predicate NoFaults(faults: Faults) {
    forall c :: !faults(c)
  }

  /** Each target exists and has what the catalog wants. */
  ghost predicate AllMatch(targets: seq<Target>, view: View) {
    forall i :: 0 <= i < |targets| ==> targets[i].name in view && Matches(targets[i], view[targets[i].name])
  }

  /** The names are exactly the targets and the expected names that were there. */
  ghost predicate NamesInLine(cat: Catalog, before: View, after: View) {
    forall name :: name in after <==> name in Names(Targets(cat)) || (name in before && name in Expected(cat))
  }

  /** New targets are active; what already matched, and what is no target, is as it was. */
  ghost predicate OthersKept(targets: seq<Target>, before: View, after: View) {
    && (forall i :: 0 <= i < |targets| && targets[i].name in after ==>
          var name := targets[i].name;
          && (name !in before ==> after[name].active)
          && (name in before && Matches(targets[i], before[name]) ==> after[name] == before[name]))
    && (forall name :: name in after && name !in Names(targets) ==> Get(before, name) == Some(after[name]))
  }

  ghost predicate InLine(cat: Catalog, before: View, after: View) {
    NamesInLine(cat, before, after) && AllMatch(Targets(cat), after) && OthersKept(Targets(cat), before, after)
  }

  lemma RunConverges(s: Server, cat: Catalog, existing: View, faults: Faults) returns (view: View)
    requires Shows(s, existing) && DistinctNames(Targets(cat)) && NoFaults(faults)
    ensures Shows(RunSpec(s, cat, existing, faults).0, view)
    ensures InLine(cat, existing, view)
  {
    view := RunShowsEach(s, cat, existing, faults);
    forall i | 0 <= i < |Targets(cat)|
      ensures var t := Targets(cat)[i];
        && t.name in view && Matches(t, view[t.name])
        && (t.name !in existing ==> view[t.name].active)
        && (t.name in existing && Matches(t, existing[t.name]) ==> view[t.name] == existing[t.name])
    {
      var t := Targets(cat)[i];
      assert SyncedTo(Get(existing, t.name), Get(view, t.name), t, faults);
    }
    forall name
      ensures name in view <==> name in Names(Targets(cat)) || (name in existing && name in Expected(cat))
      ensures name in view && name !in Names(Targets(cat)) ==> Get(existing, name) == Some(view[name])
    {
      if name in Names(Targets(cat)) {
        var i :| 0 <= i < |Targets(cat)| && Targets(cat)[i].name == name;
      } else {
        assert Get(view, name)
            == if name in Removed(existing, Expected(cat), faults) then None else Get(existing, name);
      }
    }
  }

  lemma {:induction false} SyncIdle(s: Server, targets: seq<Target>, existing: View, faults: Faults)
    requires AllMatch(targets, existing)
    ensures SyncAll(s, targets, existing, faults) == (s, NO_STATS.(skipped := |targets|))
  {
    if targets != [] {
      var n := |targets| - 1;
      assert forall i :: 0 <= i < n ==> targets[..n][i] == targets[i];
      SyncIdle(s, targets[..n], existing, faults);
    }
  }

  /** A second run creates, updates, deletes and fails nothing: every monitor is
      found unchanged. */
  lemma SecondRunIsIdle(cat: Catalog, before: View, view: View, s: Server, faults: Faults)
    requires NamesInLine(cat, before, view) && AllMatch(Targets(cat), view)
    ensures RunSpec(s, cat, view, faults) == (s, NO_STATS.(skipped := |Targets(cat)|))
  {
    SyncIdle(s, Targets(cat), view, faults);
    NothingOrphaned(cat, before, view);
    NoOrphans(s, view, Expected(cat), faults);
    var none: set<string> := {};
    assert none + none == none;
    assert NO_STATS.deleted == none && NO_STATS.failed == none;
  }

  lemma NoOrphans(s: Server, view: View, expected: set<string>, faults: Faults)
    requires forall name :: name in view ==> name in expected
    ensures Removed(view, expected, faults) == {} && Undeleted(view, expected, faults) == {}
    ensures s.(monitors := s.monitors - IdsOf(view, {})) == s
  {
  }

  lemma NothingOrphaned(cat: Catalog, before: View, view: View)
    requires NamesInLine(cat, before, view)
    ensures forall name :: name in view ==> name in Expected(cat)
  {
    forall name | name in view ensures name in Expected(cat) {
      if name in Names(Targets(cat)) {
        var i :| 0 <= i < |Targets(cat)| && Targets(cat)[i].name == name;
        TargetsExpected(cat, Targets(cat)[i]);
      }
    }
  }

  lemma {:induction false} SyncIdleIff(s: Server, targets: seq<Target>, existing: View, faults: Faults)
    requires NoFaults(faults)
    ensures var st := SyncAll(s, targets, existing, faults).1;
      st.created == {} && st.updated == {} <==> AllMatch(targets, existing)
  {
    if targets != [] {
      var n := |targets| - 1;
      SyncIdleIff(s, targets[..n], existing, faults);
      var t := targets[n];
      var before := SyncAll(s, targets[..n], existing, faults).1;
      assert AllMatch(targets, existing) <==>
        AllMatch(targets[..n], existing) && t.name in existing && Matches(t, existing[t.name]) by {
        assert forall i :: 0 <= i < n ==> targets[..n][i] == targets[i];
      }
      assert t.name in before.created + {t.name} && t.name in before.updated + {t.name};
    }
  }

  /** When a run has nothing to do, for any catalog: iff every target matches and
      every name is expected. */
  lemma RunIdleIff(s: Server, cat: Catalog, existing: View, faults: Faults)
    requires NoFaults(faults)
    ensures var st := RunSpec(s, cat, existing, faults).1;
      st.created == {} && st.updated == {} && st.deleted == {} <==>
        AllMatch(Targets(cat), existing) && existing.Keys <= Expected(cat)
  {
    SyncIdleIff(s, Targets(cat), existing, faults);
    var removed := Removed(existing, Expected(cat), faults);
    assert removed == {} <==> existing.Keys <= Expected(cat) by {
      if removed == {} {
        forall name | name in existing ensures name in Expected(cat) {
          assert name !in removed;
        }
      }
    }
  }

  /** Two targets that share a name and want different things keep every run busy:
      no state of the server satisfies both. */
  lemma SharedNameNeverSettles(s: Server, cat: Catalog, existing: View, faults: Faults, i: nat, j: nat)
    requires NoFaults(faults) && i < |Targets(cat)| && j < |Targets(cat)|
    requires Targets(cat)[i].name == Targets(cat)[j].name
    requires Targets(cat)[i].Http? && Targets(cat)[j].Http? && Targets(cat)[i].url != Targets(cat)[j].url
    ensures var st := RunSpec(s, cat, existing, faults).1;
      st.created != {} || st.updated != {}
  {
    SyncIdleIff(s, Targets(cat), existing, faults);
  }

  /** From any uniquely named monitors, one run without failed calls reaches a state
      that every further run leaves alone. */
  lemma ProvisioningReachesFixedPoint(s: Server, cat: Catalog, existing: View, faults: Faults,
                                      later: Faults) returns (view: View)
    requires Shows(s, existing) && DistinctNames(Targets(cat)) && NoFaults(faults)
    ensures var after := RunSpec(s, cat, existing, faults).0;
      && Shows(after, view) && InLine(cat, existing, view)
      && RunSpec(after, cat, view, later) == (after, NO_STATS.(skipped := |Targets(cat)|))
  {
    view := RunConverges(s, cat, existing, faults);
    SecondRunIsIdle(cat, existing, view, RunSpec(s, cat, existing, faults).0, later);
  }

  // ----- in place -------------------------------------------------------

  class Kuma {
    var monitors: map<int, Monitor>
    var nextId: int
    const faults: Faults

    constructor (s: Server, faults: Faults)
      ensures Contents() == s && this.faults == faults
    {
      monitors, nextId := s.monitors, s.nextId;
      this.faults := faults;
    }

    function Contents(): Server
      reads this
    {
      Server(monitors, nextId)
    }

    method CreateMonitor(t: Target) returns (id: int, ok: bool)
      modifies this
      ensures ok == !faults(Create(t.name))
      ensures if ok then id == old(nextId) && Contents() == Server(old(monitors)[id := Blank(t, id)], old(nextId) + 1)
              else Contents() == old(Contents())
    {
      id, ok := nextId, !faults(Create(t.name));
      if ok {
        monitors := monitors[id := Blank(t, id)];
        nextId := nextId + 1;
      }
    }

    method ResumeMonitor(name: string, id: int) returns (ok: bool)
      requires id in monitors
      modifies this`monitors
      ensures ok == !faults(Resume(name))
      ensures monitors == if ok then old(monitors)[id := old(monitors)[id].(active := true)] else old(monitors)
    {
      ok := !faults(Resume(name));
      if ok {
        monitors := monitors[id := monitors[id].(active := true)];
      }
    }

    method UpdateMonitor(m: Monitor) returns (ok: bool)
      modifies this`monitors
      ensures ok == !faults(Update(m.name))
      ensures monitors == if ok then old(monitors)[m.id := m] else old(monitors)
    {
      ok := !faults(Update(m.name));
      if ok {
        monitors := monitors[m.id := m];
      }
    }

    method DeleteMonitor(name: string, id: int) returns (ok: bool)
      modifies this`monitors
      ensures ok == !faults(Delete(name))
      ensures monitors == if ok then old(monitors) - {id} else old(monitors)
    {
      ok := !faults(Delete(name));
      if ok {
        monitors := monitors - {id};
      }
    }
  }

  method CreateAndStart(client: Kuma, t: Target) returns (ok: bool)
    modifies client
    ensures ok == (!client.faults(Create(t.name)) && !client.faults(Resume(t.name)))
    ensures client.Contents() ==
      if client.faults(Create(t.name)) then old(client.Contents())
      else Server(old(client.monitors)[old(client.nextId) := Blank(t, old(client.nextId)).(active := ok)],
                  old(client.nextId) + 1)
  {
    var id, created := client.CreateMonitor(t);
    if !created {
      return false;
    }
    ok := client.ResumeMonitor(t.name, id);
  }

  method SyncTarget(client: Kuma, t: Target, existing: View, st: Stats) returns (r: Stats)
    modifies client
    ensures (client.Contents(), r) == SyncStep(old(client.Contents()), st, t, existing, client.faults)
  {
    if t.name in existing {
      var base := existing[t.name];
      if !Matches(t, base) {
        var ok := client.UpdateMonitor(Patched(t, base));
        r := if ok then st.(updated := st.updated + {t.name}) else st.(failed := st.failed + {t.name});
      } else {
        r := st.(skipped := st.skipped + 1);
      }
    } else {
      var ok := CreateAndStart(client, t);
      r := if ok then st.(created := st.created + {t.name}) else st.(failed := st.failed + {t.name});
    }
  }

  method DeleteOrphanedMonitors(client: Kuma, expected: set<string>, existing: View, st: Stats) returns (r: Stats)
    requires st.deleted == {}
    modifies client`monitors
    ensures var removed := Removed(existing, expected, client.faults);
      && client.monitors == old(client.monitors) - IdsOf(existing, removed)
      && r == st.(deleted := removed, failed := st.failed + Undeleted(existing, expected, client.faults))
  {
    r := st;
    var rest := existing.Keys;
    ghost var seen: set<string> := {};
    while rest != {}
      invariant rest <= existing.Keys && seen == existing.Keys - rest
      invariant r.deleted == Removed(existing, expected, client.faults) * seen
      invariant client.monitors == old(client.monitors) - IdsOf(existing, r.deleted)
      invariant r == st.(deleted := r.deleted, failed := r.failed)
      invariant r.failed == st.failed +
        set name | name in seen && name !in expected && client.faults(Delete(name)) :: "delete:" + name
      decreases rest
    {
      var name :| name in rest;
      rest := rest - {name};
      seen := seen + {name};
      if name !in expected {
        var ok := client.DeleteMonitor(name, existing[name].id);
        if ok {
          ghost var before := r.deleted;
          r := r.(deleted := r.deleted + {name});
          assert IdsOf(existing, r.deleted) == IdsOf(existing, before) + {existing[name].id};
        } else {
          r := r.(failed := r.failed + {"delete:" + name});
        }
      }
    }
    assert Removed(existing, expected, client.faults) * existing.Keys == Removed(existing, expected, client.faults);
  }

  /** The monitors of the server by name, as the listing gives them. */
  method ExistingMonitors(client: Kuma, ghost view: View) returns (existing: View)
    requires Shows(client.Contents(), view)
    ensures existing == view
  {
    existing := map[];
    var rest := client.monitors.Keys;
    while rest != {}
      invariant rest <= client.monitors.Keys
      invariant forall name :: name in existing <==> name in view && view[name].id !in rest
      invariant forall name :: name in existing ==> existing[name] == view[name]
      decreases rest
    {
      HasMember(rest);
      var id :| id in rest;
      var m := client.monitors[id];
      existing := existing[m.name := m];
      rest := rest - {id};
    }
  }

  lemma SyncAppend(s: Server, done: seq<Target>, t: Target, existing: View, faults: Faults)
    ensures var before := SyncAll(s, done, existing, faults);
      SyncAll(s, done + [t], existing, faults) == SyncStep(before.0, before.1, t, existing, faults)
  {
    assert (done + [t])[..|done|] == done;
  }

  lemma ServiceTargetsNext(done: seq<Target>, services: seq<Service>, i: nat)
    requires i < |services|
    ensures var before, next := done + ServiceTargets(services[..i]), ServiceTarget(services[i]);
      done + ServiceTargets(services[..i + 1]) == if next == [] then before else before + next
  {
    assert services[..i + 1][..i] == services[..i];
  }

  lemma PingTargetsNext(done: seq<Target>, hosts: seq<Host>, i: nat)
    requires i < |hosts|
    ensures var before, next := done + PingTargets(hosts[..i]), PingTarget(hosts[i]);
      done + PingTargets(hosts[..i + 1]) == if next == [] then before else before + next
  {
    assert hosts[..i + 1][..i] == hosts[..i];
  }

  method SyncServiceMonitors(client: Kuma, services: seq<Service>, existing: View, st0: Stats,
                             ghost start: Server, ghost done: seq<Target>) returns (st: Stats)
    requires (client.Contents(), st0) == SyncAll(start, done, existing, client.faults)
    modifies client
    ensures (client.Contents(), st) == SyncAll(start, done + ServiceTargets(services), existing, client.faults)
  {
    st := st0;
    assert done + [] == done;
    for i := 0 to |services|
      invariant (client.Contents(), st) == SyncAll(start, done + ServiceTargets(services[..i]), existing, client.faults)
    {
      var svc := services[i];
      ghost var before := done + ServiceTargets(services[..i]);
      ServiceTargetsNext(done, services, i);
      if !IsMonitored(svc) {
        continue;
      }
      var domain := FirstDomain(svc.domain);
      if domain == "" {
        continue;
      }
      var t := Http(svc.name, TargetURLFor(domain) + svc.monitorPath);
      SyncAppend(start, before, t, existing, client.faults);
      st := SyncTarget(client, t, existing, st);
    }
    assert services[..|services|] == services;
  }

  method SyncPingMonitors(client: Kuma, hosts: seq<Host>, existing: View, st0: Stats,
                          ghost start: Server, ghost done: seq<Target>) returns (st: Stats)
    requires (client.Contents(), st0) == SyncAll(start, done, existing, client.faults)
    modifies client
    ensures (client.Contents(), st) == SyncAll(start, done + PingTargets(hosts), existing, client.faults)
  {
    st := st0;
    assert done + [] == done;
    for i := 0 to |hosts|
      invariant (client.Contents(), st) == SyncAll(start, done + PingTargets(hosts[..i]), existing, client.faults)
    {
      var h := hosts[i];
      ghost var before := done + PingTargets(hosts[..i]);
      PingTargetsNext(done, hosts, i);
      if h.nodeName == "" || h.nodeHost == "" {
        continue;
      }
      var t := Ping(PING_PREFIX + h.nodeName, h.nodeHost);
      SyncAppend(start, before, t, existing, client.faults);
      st := SyncTarget(client, t, existing, st);
    }
    assert hosts[..|hosts|] == hosts;
  }

  method SyncTCPMonitors(client: Kuma, existing: View, st0: Stats, ghost start: Server, ghost done: seq<Target>)
    returns (st: Stats)
    requires (client.Contents(), st0) == SyncAll(start, done, existing, client.faults)
    modifies client
    ensures (client.Contents(), st) == SyncAll(start, done + TCP_TARGETS, existing, client.faults)
  {
    st := st0;
    var targets := TCP_TARGETS;
    assert done + targets[..0] == done;
    for i := 0 to |targets|
      invariant (client.Contents(), st) == SyncAll(start, done + targets[..i], existing, client.faults)
    {
      assert done + targets[..i + 1] == (done + targets[..i]) + [targets[i]];
      SyncAppend(start, done + targets[..i], targets[i], existing, client.faults);
      st := SyncTarget(client, targets[i], existing, st);
    }
    assert targets[..|targets|] == targets;
  }

  lemma {:induction false} SyncDeletesNothing(s: Server, targets: seq<Target>, existing: View, faults: Faults)
    ensures SyncAll(s, targets, existing, faults).1.deleted == {}
  {
    if targets != [] { SyncDeletesNothing(s, targets[..|targets| - 1], existing, faults); }
  }

  /** One provisioning run over the monitors. */
  method Run(client: Kuma, cat: Catalog, ghost view: View) returns (st: Stats)
    requires Shows(client.Contents(), view)
    modifies client
    ensures (client.Contents(), st) == RunSpec(old(client.Contents()), cat, view, client.faults)
  {
    ghost var start := client.Contents();
    var existing := ExistingMonitors(client, view);
    st := SyncServiceMonitors(client, cat.services, existing, NO_STATS, start, []);
    assert [] + ServiceTargets(cat.services) == ServiceTargets(cat.services);
    st := SyncPingMonitors(client, cat.hosts, existing, st, start, ServiceTargets(cat.services));
    st := SyncTCPMonitors(client, existing, st, start, ServiceTargets(cat.services) + PingTargets(cat.hosts));
    SyncDeletesNothing(start, Targets(cat), existing, client.faults);
    st := DeleteOrphanedMonitors(client, Expected(cat), existing, st);
  }
}
