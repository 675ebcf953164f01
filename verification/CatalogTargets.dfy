/** Which monitors the catalog wants, what a run makes of them and what it reports, told
    from the catalog's own fields (tools/cmd/provision-kuma/main.go). */
module CatalogTargets {
  import opened Ordering
  import opened Provision

  // ----- services -------------------------------------------------------

  predicate Begins(s: string, lead: string) {
    |lead| <= |s| && s[..|lead|] == lead
  }

  /** The address that a service is found at: a single one, or the first of a list. */
  function Address(s: Service): string {
    match s.domain
    case NoDomain => ""
    case One(d) => d
    case Many(ds) => if |ds| > 0 && ds[0].Some? then ds[0].value else ""
  }

  /** Switched off, or not to be watched. */
  predicate LeftAlone(s: Service) {
    s.enabled == Some(false) || s.monitor == Some(false)
  }

  /** A service is watched at its address, behind https unless that says otherwise, with its
      path after it; one that is left alone or has no address is not watched. */
  lemma ServiceTold(s: Service)
    ensures LeftAlone(s) || Address(s) == "" ==> ServiceTargets([s]) == []
    ensures !LeftAlone(s) && Address(s) != "" ==>
      ServiceTargets([s]) ==
        [Http(s.name, if Begins(Address(s), "http://") || Begins(Address(s), "https://")
                      then Address(s) + s.monitorPath
                      else "https://" + Address(s) + s.monitorPath)]
  {
    assert [s][..0] == [] && [] + ServiceTarget(s) == ServiceTarget(s);
    assert FirstDomain(s.domain) == Address(s);
  }

  lemma {:induction false} ServicesInOrder(a: seq<Service>, b: seq<Service>)
    ensures ServiceTargets(a + b) == ServiceTargets(a) + ServiceTargets(b)
  {
    if b == [] {
      assert a + b == a;
    } else {
      var n := |b| - 1;
      assert (a + b)[..|a + b| - 1] == a + b[..n];
      ServicesInOrder(a, b[..n]);
    }
  }

  // ----- hosts ----------------------------------------------------------

  lemma HostTold(h: Host)
    ensures PingTargets([h])
         == if h.nodeName == "" || h.nodeHost == "" then [] else [Ping("Ping: " + h.nodeName, h.nodeHost)]
  {
    assert [h][..0] == [] && [] + PingTarget(h) == PingTarget(h);
  }

  lemma {:induction false} HostsInOrder(a: seq<Host>, b: seq<Host>)
    ensures PingTargets(a + b) == PingTargets(a) + PingTargets(b)
  {
    if b == [] {
      assert a + b == a;
    } else {
      var n := |b| - 1;
      assert (a + b)[..|a + b| - 1] == a + b[..n];
      HostsInOrder(a, b[..n]);
    }
  }

  /** Services, then hosts, then the six port checks. */
  lemma CatalogInOrder(cat: Catalog)
    ensures var s, h := |ServiceTargets(cat.services)|, |PingTargets(cat.hosts)|;
      && |Targets(cat)| == s + h + 6
      && Targets(cat)[..s] == ServiceTargets(cat.services) && Targets(cat)[s..s + h] == PingTargets(cat.hosts)
      && Targets(cat)[s + h] == Tcp("SMTP: mail.mljr.eu", "mail.mljr.eu", 587)
      && Targets(cat)[s + h + 1] == Tcp("TCP: crowdsec LAPI (mljr)", "100.100.20.1", 8088)
      && Targets(cat)[s + h + 2] == Tcp("TCP: mail SMTP 25 (mljr)", "100.100.20.1", 25)
      && Targets(cat)[s + h + 3] == Tcp("TCP: mail SMTPS 465", "mail.mljr.eu", 465)
      && Targets(cat)[s + h + 4] == Tcp("TCP: mail IMAPS 993", "mail.mljr.eu", 993)
      && Targets(cat)[s + h + 5] == Tcp("TCP: defectdojo (nuc)", "100.100.10.1", 8101)
  {
    MailNames();
    PortNames();
  }

  lemma PortNames()
    ensures "SMTP: " + "mail.mljr.eu" == "SMTP: mail.mljr.eu"
    ensures "TCP: " + "crowdsec LAPI (mljr)" == "TCP: crowdsec LAPI (mljr)"
    ensures "TCP: " + "defectdojo (nuc)" == "TCP: defectdojo (nuc)"
  {
  }

  lemma MailNames()
    ensures "TCP: " + "mail SMTP 25 (mljr)" == "TCP: mail SMTP 25 (mljr)"
    ensures "TCP: " + "mail SMTPS 465" == "TCP: mail SMTPS 465"
    ensures "TCP: " + "mail IMAPS 993" == "TCP: mail IMAPS 993"
  {
  }

  // ----- names that may exist -------------------------------------------

  /** Expected are the names of the targets, and those of hosts without an address. */
  lemma ExpectedIff(cat: Catalog, name: string)
    ensures name in Expected(cat) <==>
      || (exists i :: 0 <= i < |Targets(cat)| && Targets(cat)[i].name == name)
      || (exists i :: 0 <= i < |cat.hosts| && cat.hosts[i].nodeName != "" && cat.hosts[i].nodeHost == ""
                      && name == "Ping: " + cat.hosts[i].nodeName)
  {
    if i :| 0 <= i < |Targets(cat)| && Targets(cat)[i].name == name {
      TargetsExpected(cat, Targets(cat)[i]);
    }
    if i :| 0 <= i < |cat.services| && IsMonitored(cat.services[i]) && FirstDomain(cat.services[i].domain) != ""
            && cat.services[i].name == name
    {
      HasTarget(cat, ServiceTargetIn(cat.services, i), name);
    } else if i :| 0 <= i < |cat.hosts| && cat.hosts[i].nodeName != "" && name == "Ping: " + cat.hosts[i].nodeName {
      if cat.hosts[i].nodeHost != "" { HasTarget(cat, PingTargetIn(cat.hosts, i), name); }
    } else if i :| 0 <= i < |TCP_TARGETS| && TCP_TARGETS[i].name == name {
      assert TCP_TARGETS[i] in TCP_TARGETS;
      HasTarget(cat, TCP_TARGETS[i], name);
    }
  }

  lemma HasTarget(cat: Catalog, t: Target, name: string)
    requires t.name == name
    requires t in ServiceTargets(cat.services) || t in PingTargets(cat.hosts) || t in TCP_TARGETS
    ensures exists i :: 0 <= i < |Targets(cat)| && Targets(cat)[i].name == name
  {
    assert t in Targets(cat);
    var i :| 0 <= i < |Targets(cat)| && Targets(cat)[i] == t;
  }

  function ServiceTargetIn(services: seq<Service>, i: nat): (t: Target)
    requires i < |services| && IsMonitored(services[i]) && FirstDomain(services[i].domain) != ""
    ensures t in ServiceTargets(services) && t.name == services[i].name
  {
    var n := |services| - 1;
    if i == n then
      assert ServiceTarget(services[n])[0] in ServiceTarget(services[n]);
      ServiceTarget(services[n])[0]
    else
      ServiceTargetIn(services[..n], i)
  }

  function PingTargetIn(hosts: seq<Host>, i: nat): (t: Target)
    requires i < |hosts| && hosts[i].nodeName != "" && hosts[i].nodeHost != ""
    ensures t in PingTargets(hosts) && t.name == "Ping: " + hosts[i].nodeName
  {
    var n := |hosts| - 1;
    if i == n then
      assert PingTarget(hosts[n])[0] in PingTarget(hosts[n]);
      PingTarget(hosts[n])[0]
    else
      PingTargetIn(hosts[..n], i)
  }

  // ----- what a run makes of one monitor --------------------------------

  /** The monitor has the name and the address of the target; one for a ping also retries
      three times. */
  predicate Watches(m: Monitor, t: Target) {
    && m.name == t.name
    && match t
       case Http(_, url) => m.url == url
       case Ping(_, host) => m.hostname == host && m.maxRetries == 3
       case Tcp(_, host, port) => m.hostname == host && m.port == port
  }

  predicate OfKind(m: Monitor, t: Target) {
    match m.kind
    case HttpKind => t.Http?
    case PingKind => t.Ping?
    case PortKind => t.Tcp?
    case OtherKind => false
  }

  /** The two monitors differ in nothing that the target does not speak of. */
  predicate OtherwiseSame(a: Monitor, b: Monitor, t: Target) {
    && a.id == b.id && a.active == b.active
    && (t.Http? ==> a.hostname == b.hostname && a.port == b.port && a.maxRetries == b.maxRetries)
    && (t.Ping? ==> a.url == b.url && a.port == b.port)
    && (t.Tcp? ==> a.url == b.url && a.maxRetries == b.maxRetries)
  }

  /** A run without failed calls, for targets of different names: afterwards each target is
      watched. A monitor that watched it before is untouched; one that did not gets the
      target's kind and address and keeps the rest; a new one is active and of its kind. */
  lemma RunWatches(s: Server, cat: Catalog, existing: View, faults: Faults, i: nat) returns (view: View)
    requires Shows(s, existing) && DistinctNames(Targets(cat)) && NoFaults(faults) && i < |Targets(cat)|
    ensures Shows(RunSpec(s, cat, existing, faults).0, view)
    ensures var t := Targets(cat)[i];
      && t.name in view && Watches(view[t.name], t)
      && (t.name !in existing ==> view[t.name].active && OfKind(view[t.name], t))
      && (t.name in existing && Watches(existing[t.name], t) ==> view[t.name] == existing[t.name])
      && (t.name in existing && !Watches(existing[t.name], t) ==>
            OfKind(view[t.name], t) && OtherwiseSame(view[t.name], existing[t.name], t))
  {
    view := RunShowsEach(s, cat, existing, faults);
    var t := Targets(cat)[i];
    assert SyncedTo(Get(existing, t.name), Get(view, t.name), t, faults);
  }

  /** What a new monitor looks like before it is started: paused, of its target's kind, with
      nothing in the fields that the target does not speak of. */
  lemma NewMonitorTold(t: Target, id: int)
    ensures var m := Blank(t, id);
      && m.id == id && Watches(m, t) && OfKind(m, t) && !m.active
      && (!t.Http? ==> m.url == "") && (t.Http? ==> m.hostname == "")
      && (!t.Tcp? ==> m.port == 0) && (!t.Ping? ==> m.maxRetries == 0)
  {
  }

  // ----- what a run reports ---------------------------------------------

  /** The targets that are not there, and come into being and are started. */
  ghost predicate IsCreated(t: Target, existing: View, faults: Faults) {
    t.name !in existing && !faults(Create(t.name)) && !faults(Resume(t.name))
  }

  ghost predicate IsUpdated(t: Target, existing: View, faults: Faults) {
    t.name in existing && !Matches(t, existing[t.name]) && !faults(Update(t.name))
  }

  ghost predicate IsSkipped(t: Target, existing: View) {
    t.name in existing && Matches(t, existing[t.name])
  }

  ghost predicate IsFailed(t: Target, existing: View, faults: Faults) {
    !IsCreated(t, existing, faults) && !IsUpdated(t, existing, faults) && !IsSkipped(t, existing)
  }

  ghost function SkippedAt(targets: seq<Target>, existing: View): set<int> {
    set i | 0 <= i < |targets| && IsSkipped(targets[i], existing)
  }

  ghost function CreatedNames(targets: seq<Target>, existing: View, faults: Faults): set<string> {
    set i | 0 <= i < |targets| && IsCreated(targets[i], existing, faults) :: targets[i].name
  }

  ghost function UpdatedNames(targets: seq<Target>, existing: View, faults: Faults): set<string> {
    set i | 0 <= i < |targets| && IsUpdated(targets[i], existing, faults) :: targets[i].name
  }

  ghost function FailedNames(targets: seq<Target>, existing: View, faults: Faults): set<string> {
    set i | 0 <= i < |targets| && IsFailed(targets[i], existing, faults) :: targets[i].name
  }

  ghost predicate Booked(st: Stats, targets: seq<Target>, existing: View, faults: Faults) {
    && st.created == CreatedNames(targets, existing, faults)
    && st.updated == UpdatedNames(targets, existing, faults)
    && st.failed == FailedNames(targets, existing, faults)
    && st.skipped == |SkippedAt(targets, existing)| && st.deleted == {}
  }

  lemma SkippedNext(targets: seq<Target>, existing: View)
    requires targets != []
    ensures var n := |targets| - 1;
      |SkippedAt(targets, existing)|
      == |SkippedAt(targets[..n], existing)| + if IsSkipped(targets[n], existing) then 1 else 0
  {
    var n := |targets| - 1;
    assert forall i :: 0 <= i < n ==> targets[..n][i] == targets[i];
    assert SkippedAt(targets, existing)
        == SkippedAt(targets[..n], existing) + if IsSkipped(targets[n], existing) then {n} else {};
  }

  lemma CreatedNext(targets: seq<Target>, existing: View, faults: Faults)
    requires targets != []
    ensures var front, t := targets[..|targets| - 1], targets[|targets| - 1];
      CreatedNames(targets, existing, faults)
      == CreatedNames(front, existing, faults) + if IsCreated(t, existing, faults) then {t.name} else {}
  {
    var n := |targets| - 1;
    assert forall i :: 0 <= i < n ==> targets[..n][i] == targets[i];
  }

  lemma UpdatedNext(targets: seq<Target>, existing: View, faults: Faults)
    requires targets != []
    ensures var front, t := targets[..|targets| - 1], targets[|targets| - 1];
      UpdatedNames(targets, existing, faults)
      == UpdatedNames(front, existing, faults) + if IsUpdated(t, existing, faults) then {t.name} else {}
  {
    var n := |targets| - 1;
    assert forall i :: 0 <= i < n ==> targets[..n][i] == targets[i];
  }

  lemma FailedNext(targets: seq<Target>, existing: View, faults: Faults)
    requires targets != []
    ensures var front, t := targets[..|targets| - 1], targets[|targets| - 1];
      FailedNames(targets, existing, faults)
      == FailedNames(front, existing, faults) + if IsFailed(t, existing, faults) then {t.name} else {}
  {
    var n := |targets| - 1;
    assert forall i :: 0 <= i < n ==> targets[..n][i] == targets[i];
  }

  lemma StepBooked(s: Server, st: Stats, targets: seq<Target>, existing: View, faults: Faults)
    requires targets != [] && Booked(st, targets[..|targets| - 1], existing, faults)
    ensures Booked(SyncStep(s, st, targets[|targets| - 1], existing, faults).1, targets, existing, faults)
  {
    SkippedNext(targets, existing);
    CreatedNext(targets, existing, faults);
    UpdatedNext(targets, existing, faults);
    FailedNext(targets, existing, faults);
  }

  lemma {:induction false} SyncBooked(s: Server, targets: seq<Target>, existing: View, faults: Faults)
    ensures Booked(SyncAll(s, targets, existing, faults).1, targets, existing, faults)
  {
    if targets != [] {
      var front := targets[..|targets| - 1];
      SyncBooked(s, front, existing, faults);
      StepBooked(SyncAll(s, front, existing, faults).0, SyncAll(s, front, existing, faults).1,
                 targets, existing, faults);
    }
  }

  /** The report of a run, whatever fails in it: created are the missing targets that could be
      created and started, updated those that were there and could be changed, skipped is how
      many were as wanted, deleted are the unexpected names that could be deleted, and failed
      are all other targets, and the names that could not be deleted. */
  lemma RunBooked(s: Server, cat: Catalog, existing: View, faults: Faults)
    ensures var st := RunSpec(s, cat, existing, faults).1;
      && st.created == CreatedNames(Targets(cat), existing, faults)
      && st.updated == UpdatedNames(Targets(cat), existing, faults)
      && st.skipped == |SkippedAt(Targets(cat), existing)|
      && (forall name :: name in st.deleted <==>
            name in existing && name !in Expected(cat) && !faults(Delete(name)))
      && (forall x :: x in st.failed <==>
            || x in FailedNames(Targets(cat), existing, faults)
            || exists name :: name in existing && name !in Expected(cat) && faults(Delete(name))
                              && x == "delete:" + name)
  {
    SyncBooked(s, Targets(cat), existing, faults);
  }
}
