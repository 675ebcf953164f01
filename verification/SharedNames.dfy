/** Catalogs in which targets share a name: when the server can satisfy them, when its
    names stay unique, and how long provisioning takes to settle. */
module SharedNames {
  import opened Ordering
  import opened Provision

  // ----- which catalogs can be satisfied --------------------------------

  /** Two targets that one monitor can satisfy. A URL and a host do not conflict. */
  predicate Compatible(t: Target, u: Target) {
    && (t.Http? && u.Http? ==> t.url == u.url)
    && (!t.Http? && !u.Http? ==> t.host == u.host)
    && (t.Tcp? && u.Tcp? ==> t.port == u.port)
  }

  ghost predicate AllCompatible(targets: seq<Target>) {
    forall i, j :: 0 <= i < |targets| && 0 <= j < |targets| && targets[i].name == targets[j].name ==>
      Compatible(targets[i], targets[j])
  }

  lemma PatchMatches(t: Target, m: Monitor)
    ensures Matches(t, Patched(t, m)) && Matches(t, Blank(t, m.id))
  {
  }

  /** Patching for one target keeps what a compatible one wants. */
  lemma PatchKeeps(t: Target, u: Target, m: Monitor)
    requires Compatible(t, u) && Matches(u, m)
    ensures Matches(u, Patched(t, m))
  {
  }

  lemma MatchedTogether(t: Target, u: Target, m: Monitor)
    requires Matches(t, m) && Matches(u, m)
    ensures Compatible(t, u)
  {
  }

  /** A server whose monitors are exactly the targets, each satisfied. */
  ghost predicate Serves(s: Server, view: View, targets: seq<Target>) {
    Shows(s, view) && AllMatch(targets, view) && forall name :: name in view ==> name in Names(targets)
  }

  lemma NamesNext(front: seq<Target>, t: Target)
    ensures Names(front + [t]) == Names(front) + {t.name}
  {
    var all := front + [t];
    forall name ensures name in Names(all) <==> name in Names(front) + {t.name} {
      if name in Names(front) {
        var i :| 0 <= i < |front| && front[i].name == name;
        assert all[i].name == name;
      }
      if name == t.name { assert all[|front|].name == name; }
    }
  }

  /** One more compatible target can be served as well. */
  lemma ServeOneMore(s: Server, view: View, front: seq<Target>, t: Target) returns (s': Server, view': View)
    requires Serves(s, view, front)
    requires forall i :: 0 <= i < |front| && front[i].name == t.name ==> Compatible(t, front[i])
    ensures Serves(s', view', front + [t])
  {
    NamesNext(front, t);
    var m := if t.name in view then Patched(t, view[t.name]) else Blank(t, s.nextId);
    PatchMatches(t, if t.name in view then view[t.name] else m);
    view' := view[t.name := m];
    MatchOneMore(view, front, t, m);
    if t.name in view {
      PatchShows(s, view, m);
      s' := s.(monitors := s.monitors[m.id := m]);
    } else {
      AddShows(s, view, m);
      s' := Server(s.monitors[m.id := m], s.nextId + 1);
    }
  }

  lemma MatchOneMore(view: View, front: seq<Target>, t: Target, m: Monitor)
    requires AllMatch(front, view) && Matches(t, m)
    requires t.name in view ==> m == Patched(t, view[t.name])
    requires forall i :: 0 <= i < |front| && front[i].name == t.name ==> Compatible(t, front[i])
    ensures AllMatch(front + [t], view[t.name := m])
  {
    forall i | 0 <= i < |front| && front[i].name == t.name ensures Matches(front[i], m) {
      PatchKeeps(t, front[i], view[t.name]);
    }
  }

  lemma {:induction false} ServerFor(targets: seq<Target>) returns (s: Server, view: View)
    requires AllCompatible(targets)
    ensures Serves(s, view, targets)
  {
    if targets == [] {
      s, view := Server(map[], 0), map[];
    } else {
      var front, t := targets[..|targets| - 1], targets[|targets| - 1];
      assert forall i :: 0 <= i < |front| ==> front[i] == targets[i];
      s, view := ServerFor(front);
      assert targets == front + [t];
      s, view := ServeOneMore(s, view, front, t);
    }
  }

  /** A state of the server that no run of this catalog changes. */
  ghost predicate Settled(s: Server, view: View, cat: Catalog) {
    Shows(s, view) && AllMatch(Targets(cat), view) && view.Keys <= Expected(cat)
  }

  lemma SettledIsIdle(s: Server, view: View, cat: Catalog, faults: Faults)
    requires Settled(s, view, cat)
    ensures RunSpec(s, cat, view, faults) == (s, NO_STATS.(skipped := |Targets(cat)|))
  {
    SecondRunIsIdle(cat, view, view, s, faults);
  }

  /** Exactly which catalogs can be satisfied at all: iff targets that share a name are
      compatible. */
  lemma CanSettleIff(cat: Catalog)
    ensures (exists s, view :: Settled(s, view, cat)) <==> AllCompatible(Targets(cat))
  {
    var targets := Targets(cat);
    if s, view :| Settled(s, view, cat) {
      forall i, j | 0 <= i < |targets| && 0 <= j < |targets| && targets[i].name == targets[j].name
        ensures Compatible(targets[i], targets[j])
      {
        MatchedTogether(targets[i], targets[j], view[targets[i].name]);
      }
    }
    if AllCompatible(targets) {
      var s, view := ServerFor(targets);
      forall name | name in view ensures name in Expected(cat) {
        var i :| 0 <= i < |targets| && targets[i].name == name;
        TargetsExpected(cat, targets[i]);
      }
      assert Settled(s, view, cat);
    }
  }

  // ----- whether names stay unique --------------------------------------

  function Created(targets: seq<Target>, existing: View): nat {
    if targets == [] then 0
    else Created(targets[..|targets| - 1], existing) + if targets[|targets| - 1].name in existing then 0 else 1
  }

  ghost predicate OldIds(existing: View, s: Server) {
    forall name :: name in existing ==> existing[name].id < s.nextId
  }

  lemma {:induction false} CreatedCount(s: Server, targets: seq<Target>, existing: View, faults: Faults)
    requires OldIds(existing, s) && NoFaults(faults)
    ensures SyncAll(s, targets, existing, faults).0.nextId == s.nextId + Created(targets, existing)
  {
    if targets != [] {
      var n := |targets| - 1;
      var before := SyncAll(s, targets[..n], existing, faults);
      CreatedCount(s, targets[..n], existing, faults);
      StepCreates(s.nextId, before.0, before.1, targets[n], existing, faults);
    }
  }

  ghost predicate HasCreated(s: Server, r: Server, id: int, name: string) {
    s.nextId <= id < r.nextId && id in r.monitors && r.monitors[id].name == name
  }

  /** Without failed calls every new target gets a monitor of its own, with an id of its
      own. */
  lemma {:induction false} CreatedMonitors(s: Server, targets: seq<Target>, existing: View, faults: Faults, i: nat)
    requires OldIds(existing, s) && NoFaults(faults) && i < |targets| && targets[i].name !in existing
    ensures HasCreated(s, SyncAll(s, targets, existing, faults).0, s.nextId + Created(targets[..i], existing),
                       targets[i].name)
  {
    var n := |targets| - 1;
    if i < n {
      var before := SyncAll(s, targets[..n], existing, faults);
      assert targets[..n][i] == targets[i] && targets[..n][..i] == targets[..i];
      CreatedMonitors(s, targets[..n], existing, faults, i);
      CreatedStays(s, before.0, before.1, targets[n], existing, faults,
                   s.nextId + Created(targets[..i], existing), targets[i].name);
    } else {
      LastCreated(s, targets, existing, faults);
    }
  }

  lemma LastCreated(s: Server, targets: seq<Target>, existing: View, faults: Faults)
    requires OldIds(existing, s) && NoFaults(faults) && targets != []
    requires targets[|targets| - 1].name !in existing
    ensures var n := |targets| - 1;
      HasCreated(s, SyncAll(s, targets, existing, faults).0, s.nextId + Created(targets[..n], existing),
                 targets[n].name)
  {
    var n := |targets| - 1;
    var before := SyncAll(s, targets[..n], existing, faults);
    CreatedCount(s, targets[..n], existing, faults);
    StepCreates(s.nextId, before.0, before.1, targets[n], existing, faults);
  }

  lemma CreatedStays(s: Server, before: Server, st: Stats, t: Target, existing: View, faults: Faults,
                     id: int, name: string)
    requires OldIds(existing, s) && NoFaults(faults) && HasCreated(s, before, id, name)
    ensures HasCreated(s, SyncStep(before, st, t, existing, faults).0, id, name)
  {
    StepCreates(s.nextId, before, st, t, existing, faults);
  }

  /** A step adds a monitor for a new target and leaves those created before it. */
  lemma StepCreates(first: int, s: Server, st: Stats, t: Target, existing: View, faults: Faults)
    requires NoFaults(faults) && first <= s.nextId && forall name :: name in existing ==> existing[name].id < first
    ensures var r := SyncStep(s, st, t, existing, faults).0;
      && r.nextId == s.nextId + (if t.name in existing then 0 else 1)
      && (forall id :: first <= id < s.nextId && id in s.monitors ==>
            id in r.monitors && r.monitors[id] == s.monitors[id])
      && (t.name !in existing ==> s.nextId in r.monitors && r.monitors[s.nextId].name == t.name)
  {
  }

  lemma {:induction false} CreatedGrows(targets: seq<Target>, existing: View, i: nat, j: nat)
    requires i < j <= |targets| && targets[i].name !in existing
    ensures Created(targets[..i], existing) < Created(targets[..j], existing)
  {
    assert targets[..j][..j - 1] == targets[..j - 1];
    if i < j - 1 { CreatedGrows(targets, existing, i, j - 1); }
  }

  lemma TwoCreated(s: Server, targets: seq<Target>, existing: View, faults: Faults, i: nat, j: nat)
    returns (a: int, b: int)
    requires OldIds(existing, s) && NoFaults(faults)
    requires i < j < |targets| && targets[i].name == targets[j].name && targets[i].name !in existing
    ensures a != b
    ensures HasCreated(s, SyncAll(s, targets, existing, faults).0, a, targets[i].name)
    ensures HasCreated(s, SyncAll(s, targets, existing, faults).0, b, targets[i].name)
  {
    CreatedMonitors(s, targets, existing, faults, i);
    CreatedMonitors(s, targets, existing, faults, j);
    CreatedGrows(targets, existing, i, j);
    a, b := s.nextId + Created(targets[..i], existing), s.nextId + Created(targets[..j], existing);
  }

  lemma TwoOfOneName(s: Server, cat: Catalog, existing: View, faults: Faults, i: nat, j: nat)
    requires Shows(s, existing) && NoFaults(faults)
    requires i < j < |Targets(cat)| && Targets(cat)[i].name == Targets(cat)[j].name
    requires Targets(cat)[i].name !in existing
    ensures forall view :: !Shows(RunSpec(s, cat, existing, faults).0, view)
  {
    var name := Targets(cat)[i].name;
    assert OldIds(existing, s);
    var a, b := TwoCreated(s, Targets(cat), existing, faults, i, j);
    CreatedInRun(s, cat, existing, faults, a, name);
    CreatedInRun(s, cat, existing, faults, b, name);
    NeverShown(RunSpec(s, cat, existing, faults).0, a, b);
  }

  /** What a run created is no orphan of it. */
  lemma CreatedInRun(s: Server, cat: Catalog, existing: View, faults: Faults, id: int, name: string)
    requires OldIds(existing, s) && HasCreated(s, SyncAll(s, Targets(cat), existing, faults).0, id, name)
    ensures HasCreated(s, RunSpec(s, cat, existing, faults).0, id, name)
  {
    NotAmongOld(existing, s, Removed(existing, Expected(cat), faults));
  }

  lemma NeverShown(s: Server, a: int, b: int)
    requires a in s.monitors && b in s.monitors && s.monitors[a].name == s.monitors[b].name && a != b
    ensures forall view :: !Shows(s, view)
  {
    forall view ensures !Shows(s, view) {
      OneMonitorPerName(s, view, a, b);
    }
  }

  lemma NotAmongOld(existing: View, s: Server, names: set<string>)
    requires OldIds(existing, s)
    ensures forall id :: id in IdsOf(existing, names) ==> id < s.nextId
  {
  }

  lemma OneMonitorPerName(s: Server, view: View, a: int, b: int)
    requires a in s.monitors && b in s.monitors && s.monitors[a].name == s.monitors[b].name
    ensures Shows(s, view) ==> a == b
  {
  }

  /** Exactly when a run without failed calls leaves the names of the server unique: iff
      no two targets share a name that the server does not have yet. */
  lemma NamesStayUniqueIff(s: Server, cat: Catalog, existing: View, faults: Faults)
    requires Shows(s, existing) && NoFaults(faults)
    ensures (exists view :: Shows(RunSpec(s, cat, existing, faults).0, view)) <==> FreshOnce(Targets(cat), existing)
  {
    if FreshOnce(Targets(cat), existing) {
      var view := RunShows(s, cat, existing, faults);
    } else {
      var i, j :| 0 <= i < j < |Targets(cat)| && Targets(cat)[i].name == Targets(cat)[j].name
                  && Targets(cat)[i].name !in existing;
      TwoOfOneName(s, cat, existing, faults, i, j);
    }
  }

  // ----- settling -------------------------------------------------------

  function Unmatched(targets: seq<Target>, view: View): set<int> {
    set i | 0 <= i < |targets| && !(targets[i].name in view && Matches(targets[i], view[targets[i].name]))
  }

  /** A compatible target that matched goes on matching. */
  lemma {:induction false} MatchesStay(targets: seq<Target>, u: Target, m: Monitor, after: Option<Monitor>,
                                       faults: Faults)
    requires SyncedName(targets, u.name, Some(m), after, faults) && Matches(u, m)
    requires forall i :: 0 <= i < |targets| && targets[i].name == u.name ==> Compatible(targets[i], u)
    ensures after.Some? && Matches(u, after.value)
  {
    if targets != [] {
      var front, t := targets[..|targets| - 1], targets[|targets| - 1];
      assert forall i :: 0 <= i < |front| ==> front[i] == targets[i];
      if t.name == u.name && !Matches(t, m) && !faults(Update(u.name)) {
        PatchKeeps(t, u, m);
      } else {
        MatchesStay(front, u, m, after, faults);
      }
    }
  }

  /** If some target of a name did not match, or there was no monitor, one matches now
      that did not. */
  lemma {:induction false} OneMoreMatches(targets: seq<Target>, k: nat, before: Option<Monitor>, after: Option<Monitor>,
                                          faults: Faults) returns (i: nat)
    requires NoFaults(faults) && k < |targets|
    requires SyncedName(targets, targets[k].name, before, after, faults)
    requires before.Some? ==> !Matches(targets[k], before.value)
    ensures i < |targets| && targets[i].name == targets[k].name
    ensures before.Some? ==> !Matches(targets[i], before.value)
    ensures after.Some? && Matches(targets[i], after.value)
  {
    var n := |targets| - 1;
    var front, t := targets[..n], targets[n];
    assert forall j :: 0 <= j < n ==> front[j] == targets[j];
    if t.name == targets[k].name && (before.None? || !Matches(t, before.value)) {
      i := n;
      PatchMatches(t, if before.Some? then before.value else after.value);
    } else {
      i := OneMoreMatches(front, k, before, after, faults);
    }
  }

  lemma OnlyTargetMatches(targets: seq<Target>, i: nat, existing: View, after: Option<Monitor>, faults: Faults)
    requires FreshOnce(targets, existing) && NoFaults(faults) && i < |targets| && targets[i].name !in existing
    requires SyncedName(targets, targets[i].name, None, after, faults)
    ensures after.Some? && Matches(targets[i], after.value)
  {
    var j := OneMoreMatches(targets, i, None, after, faults);
    assert i == j;
  }

  /** One run without failed calls, from any state of the server in which names stay
      unique: it takes nothing back, and gets at least one more target right. */
  lemma RunMakesProgress(s: Server, cat: Catalog, existing: View, faults: Faults) returns (view: View)
    requires Shows(s, existing) && FreshOnce(Targets(cat), existing) && AllCompatible(Targets(cat)) && NoFaults(faults)
    ensures Shows(RunSpec(s, cat, existing, faults).0, view)
    ensures view.Keys <= Expected(cat) && FreshOnce(Targets(cat), view)
    ensures var before, after := Unmatched(Targets(cat), existing), Unmatched(Targets(cat), view);
      after <= before && (before != {} ==> after < before)
  {
    var targets := Targets(cat);
    view := RunShows(s, cat, existing, faults);
    forall i | 0 <= i < |targets|
      ensures targets[i].name in view && (i in Unmatched(targets, view) ==> i in Unmatched(targets, existing))
    {
      var name := targets[i].name;
      if name !in existing {
        OnlyTargetMatches(targets, i, existing, Get(view, name), faults);
      } else {
        KnownTarget(targets, i, existing[name], Get(view, name), faults);
      }
    }
    if k :| k in Unmatched(targets, existing) {
      var name := targets[k].name;
      var i := OneMoreMatches(targets, k, Get(existing, name), Get(view, name), faults);
      assert i in Unmatched(targets, existing) && i !in Unmatched(targets, view);
    }
    OnlyExpected(cat, existing, view, faults);
  }

  lemma KnownTarget(targets: seq<Target>, i: nat, m: Monitor, after: Option<Monitor>, faults: Faults)
    requires AllCompatible(targets) && i < |targets| && SyncedName(targets, targets[i].name, Some(m), after, faults)
    ensures after.Some? && (Matches(targets[i], m) ==> Matches(targets[i], after.value))
  {
    KnownStays(targets, targets[i].name, m, after, faults);
    if Matches(targets[i], m) { MatchesStay(targets, targets[i], m, after, faults); }
  }

  lemma {:induction false} KnownStays(targets: seq<Target>, name: string, m: Monitor, after: Option<Monitor>,
                                      faults: Faults)
    requires SyncedName(targets, name, Some(m), after, faults)
    ensures after.Some?
  {
    if targets != [] {
      var t := targets[|targets| - 1];
      if t.name != name || Matches(t, m) || faults(Update(name)) {
        KnownStays(targets[..|targets| - 1], name, m, after, faults);
      }
    }
  }

  lemma OnlyExpected(cat: Catalog, existing: View, view: View, faults: Faults)
    requires NoFaults(faults)
    requires forall name ::
      if name in Removed(existing, Expected(cat), faults) then name !in view
      else SyncedName(Targets(cat), name, Get(existing, name), Get(view, name), faults)
    ensures view.Keys <= Expected(cat)
  {
    forall name | name in view ensures name in Expected(cat) {
      if name in Names(Targets(cat)) {
        var i :| 0 <= i < |Targets(cat)| && Targets(cat)[i].name == name;
        TargetsExpected(cat, Targets(cat)[i]);
      } else {
        SyncedElsewhere(Targets(cat), name, Get(existing, name), Get(view, name), faults);
      }
    }
  }

  /** The server after a number of runs without failed calls, each with its own listing. */
  ghost predicate Reaches(s: Server, existing: View, cat: Catalog, faults: Faults, runs: nat, end: Server, view: View)
    decreases runs
  {
    if runs == 0 then s == end && existing == view
    else
      var next := RunSpec(s, cat, existing, faults).0;
      exists mid :: Shows(next, mid) && Reaches(next, mid, cat, faults, runs - 1, end, view)
  }

  /** Compatible targets may share names: repeated runs settle, and no later than there
      are targets to get right. */
  lemma {:induction false} CompatibleCatalogSettles(s: Server, cat: Catalog, existing: View, faults: Faults)
    returns (runs: nat, end: Server, view: View)
    requires Shows(s, existing) && FreshOnce(Targets(cat), existing) && AllCompatible(Targets(cat)) && NoFaults(faults)
    ensures Reaches(s, existing, cat, faults, runs, end, view) && Settled(end, view, cat)
    ensures runs <= |Unmatched(Targets(cat), existing)| + 1
    decreases |Unmatched(Targets(cat), existing)|
  {
    var next := RunSpec(s, cat, existing, faults).0;
    var mid := RunMakesProgress(s, cat, existing, faults);
    var before, after := Unmatched(Targets(cat), existing), Unmatched(Targets(cat), mid);
    if after == {} {
      AllMatchIff(Targets(cat), mid);
      runs, end, view := 1, next, mid;
      assert Reaches(next, mid, cat, faults, 0, end, view);
    } else {
      SmallerSet(after, before);
      var rest: nat;
      rest, end, view := CompatibleCatalogSettles(next, cat, mid, faults);
      runs := rest + 1;
    }
  }

  lemma AllMatchIff(targets: seq<Target>, view: View)
    ensures Unmatched(targets, view) == {} <==> AllMatch(targets, view)
  {
    if Unmatched(targets, view) == {} {
      forall i | 0 <= i < |targets| ensures targets[i].name in view && Matches(targets[i], view[targets[i].name]) {
        assert i !in Unmatched(targets, view);
      }
    }
  }

  lemma SmallerSet(a: set<int>, b: set<int>)
    requires a < b
    ensures |a| < |b|
  {
    assert b == a + (b - a) && |b| == |a| + |b - a| && b - a != {};
  }
}
