/** What a run gathers: the results of the collectors, walked in the order of a map
    iteration, and the observations the run derives from them
    (tools/internal/healthreport/run.go). */
module Collectors {
  import opened Ordering
  import opened Severity

  datatype CollectorResult = CollectorResult(status: string, observations: seq<Observation>)

  type Results = map<string, CollectorResult>

  const WD_DISK := "disk_usage.wd-mycloud./mnt/HD/HD_a2"
  const WD_TARGET := "backup_target_usage.nas.wd-cloud"

  function Failed(results: Results): set<string> {
    set name | name in results && results[name].status != "ok"
  }

  /** A collector that did not complete is itself an observation. */
  function HealthOf(name: string, status: string): Observation {
    Observation("collector_failed." + name + ".", name, "collector_failed", Info,
                Text(status, None), Nil, Missing, false, None, None)
  }

  function HealthAll(names: seq<string>, results: Results): seq<Observation>
    requires forall i :: 0 <= i < |names| ==> names[i] in results
  {
    seq(|names|, i requires 0 <= i < |names| => HealthOf(names[i], results[names[i]].status))
  }

  lemma SortedFailed(results: Results)
    ensures forall i :: 0 <= i < |SortedOf(Failed(results))| ==> SortedOf(Failed(results))[i] in results
  {
    var names := SortedOf(Failed(results));
    forall i | 0 <= i < |names| ensures names[i] in results {
      assert names[i] in Elements(names);
    }
  }

  ghost function Health(results: Results): seq<Observation> {
    SortedFailed(results);
    HealthAll(SortedOf(Failed(results)), results)
  }

  /** Every collector that did not complete is observed once, in the order of the names, under
      an id and a kind of its own; its value is the status, and nothing is known of its past. */
  lemma HealthTold(results: Results)
    ensures |Health(results)| == |SortedOf(Failed(results))|
    ensures forall name :: name in SortedOf(Failed(results)) <==> name in results && results[name].status != "ok"
    ensures forall i :: 0 <= i < |Health(results)| ==>
      var o, name := Health(results)[i], SortedOf(Failed(results))[i];
      && name in results
      && o.id == "collector_failed." + name + "." && o.kind == "collector_failed" && o.subject == name
      && Show(o.value) == results[name].status && o.value.Text?
      && o.severity == Info && o.firstSeen == Missing && o.previousValue == Nil && o.evidence == None
      && !o.notice && o.threshold == None
  {
    SortedFailed(results);
    forall name ensures name in SortedOf(Failed(results)) <==> name in results && results[name].status != "ok" {
      assert name in SortedOf(Failed(results)) <==> name in Elements(SortedOf(Failed(results)));
    }
  }

  function FirstWith(observations: seq<Observation>, id: string): Option<Observation> {
    if observations == [] then None
    else if observations[0].id == id then Some(observations[0])
    else FirstWith(observations[1..], id)
  }

  predicate IsWdTarget(o: Observation) {
    o.kind == "backup_target_usage" && o.subject == "nas" && o.evidence == Some("wd_cloud")
  }

  /** The backup target whose usage is only known as that of another host's disk. */
  function Derived(observations: seq<Observation>): seq<Observation> {
    var disk := FirstWith(observations, WD_DISK);
    if disk.None? || (exists i :: 0 <= i < |observations| && IsWdTarget(observations[i])) then []
    else
      [Observation(WD_TARGET, "nas", "backup_target_usage", Info, disk.value.value, Nil, Missing, false, None,
                   Some("wd_cloud"))]
  }

  lemma {:induction false} FirstWithTold(observations: seq<Observation>, id: string, i: nat)
    requires i < |observations| && observations[i].id == id
    requires forall j :: 0 <= j < i ==> observations[j].id != id
    ensures FirstWith(observations, id) == Some(observations[i])
  {
    if i > 0 { FirstWithTold(observations[1..], id, i - 1); }
  }

  lemma {:induction false} FirstWithNone(observations: seq<Observation>, id: string)
    requires forall j :: 0 <= j < |observations| ==> observations[j].id != id
    ensures FirstWith(observations, id) == None
  {
    if observations != [] { FirstWithNone(observations[1..], id); }
  }

  /** The one backup target is derived iff the disk was read and no collector reported the
      target: it then has the first reading's value, as one of the storage host's targets. */
  lemma DerivedTold(observations: seq<Observation>, i: nat)
    requires i < |observations| && observations[i].id == "disk_usage.wd-mycloud./mnt/HD/HD_a2"
    requires forall j :: 0 <= j < i ==> observations[j].id != "disk_usage.wd-mycloud./mnt/HD/HD_a2"
    ensures var reported := exists j :: 0 <= j < |observations| && observations[j].kind == "backup_target_usage"
                                        && observations[j].subject == "nas"
                                        && observations[j].evidence == Some("wd_cloud");
      if reported then Derived(observations) == []
      else |Derived(observations)| == 1 &&
           var o := Derived(observations)[0];
           && o.id == "backup_target_usage.nas.wd-cloud" && o.kind == "backup_target_usage" && o.subject == "nas"
           && o.value == observations[i].value && o.evidence == Some("wd_cloud")
           && o.severity == Info && o.firstSeen == Missing && o.previousValue == Nil
           && !o.notice && o.threshold == None
  {
    FirstWithTold(observations, WD_DISK, i);
    if j :| 0 <= j < |observations| && observations[j].kind == "backup_target_usage"
            && observations[j].subject == "nas" && observations[j].evidence == Some("wd_cloud")
    {
      assert IsWdTarget(observations[j]);
    }
  }

  lemma NotDerived(observations: seq<Observation>)
    requires forall j :: 0 <= j < |observations| ==> observations[j].id != "disk_usage.wd-mycloud./mnt/HD/HD_a2"
    ensures Derived(observations) == []
  {
    FirstWithNone(observations, WD_DISK);
  }

  /** The collectors' own observations, in one order of the collectors. */
  function Blocks(results: Results, order: seq<string>): seq<Observation>
    requires forall i :: 0 <= i < |order| ==> order[i] in results
  {
    if order == [] then []
    else Blocks(results, order[..|order| - 1]) + results[order[|order| - 1]].observations
  }

  /** An order in which a map iteration may yield the collectors. */
  ghost predicate Walks(order: seq<string>, results: Results) {
    && (forall i, j :: 0 <= i < j < |order| ==> order[i] != order[j])
    && (forall i :: 0 <= i < |order| ==> order[i] in results)
    && (forall name :: name in results ==> name in order)
  }

  ghost function Gathered(results: Results, order: seq<string>): seq<Observation>
    requires Walks(order, results)
  {
    var own := Blocks(results, order) + Health(results);
    own + Derived(own)
  }

  /** The collectors' own observations come first, block by block in the order of the walk, then
      those about the collectors, then what is derived from all of these. */
  lemma GatheredInOrder(results: Results, order: seq<string>)
    requires Walks(order, results)
    ensures var all, n := Gathered(results, order), |Blocks(results, order)|;
      var m := n + |Health(results)|;
      && m <= |all| && all[..n] == Blocks(results, order) && all[n..m] == Health(results)
      && all[m..] == Derived(all[..m])
  {
    var own := Blocks(results, order) + Health(results);
    assert Gathered(results, order)[..|own|] == own;
  }

  lemma {:induction false} BlockPlaced(results: Results, order: seq<string>, k: nat)
    requires (forall i :: 0 <= i < |order| ==> order[i] in results) && k < |order|
    ensures var from := |Blocks(results, order[..k])|;
      var to := from + |results[order[k]].observations|;
      to <= |Blocks(results, order)| && Blocks(results, order)[from..to] == results[order[k]].observations
  {
    var n := |order| - 1;
    if k < n {
      assert order[..n][..k] == order[..k];
      BlockPlaced(results, order[..n], k);
    }
  }

  method CollectorHealth(results: Results) returns (observations: seq<Observation>)
    ensures observations == Health(results)
  {
    var names := FailedNames(results);
    SortedFailed(results);
    observations := [];
    for i := 0 to |names|
      invariant |observations| == i
      invariant forall j :: 0 <= j < i ==> observations[j] == HealthOf(names[j], results[names[j]].status)
    {
      observations := observations + [HealthOf(names[i], results[names[i]].status)];
    }
    assert observations == HealthAll(names, results);
  }

  /** The names of the collectors that did not complete, sorted. */
  method FailedNames(results: Results) returns (names: seq<string>)
    ensures names == SortedOf(Failed(results))
  {
    var failed: set<string> := {};
    var rest := results.Keys;
    while rest != {}
      invariant rest <= results.Keys && failed == Failed(results) - rest
      decreases rest
    {
      var name :| name in rest;
      rest := rest - {name};
      if results[name].status != "ok" {
        failed := failed + {name};
      }
    }
    assert failed == Failed(results);
    names := SortKeys(failed);
  }

  method WdCloudBackupTargetUsage(observations: seq<Observation>) returns (derived: seq<Observation>)
    ensures derived == Derived(observations)
  {
    var disk: Option<Observation> := None;
    for i := 0 to |observations|
      invariant disk == None && FirstWith(observations, WD_DISK) == FirstWith(observations[i..], WD_DISK)
    {
      assert observations[i..][1..] == observations[i + 1..];
      if observations[i].id == WD_DISK {
        disk := Some(observations[i]);
        break;
      }
    }
    if disk.None? {
      return [];
    }
    for i := 0 to |observations|
      invariant forall j :: 0 <= j < i ==> !IsWdTarget(observations[j])
    {
      if IsWdTarget(observations[i]) {
        return [];
      }
    }
    derived := [Observation(WD_TARGET, "nas", "backup_target_usage", Info, disk.value.value, Nil, Missing, false,
                            None, Some("wd_cloud"))];
  }

  /** Everything a run observes. */
  method Gather(results: Results) returns (observations: seq<Observation>)
    ensures exists order :: Walks(order, results) && observations == Gathered(results, order)
  {
    observations := [];
    ghost var order: seq<string> := [];
    var rest := results.Keys;
    while rest != {}
      invariant rest <= results.Keys
      invariant forall i :: 0 <= i < |order| ==> order[i] in results && order[i] !in rest
      invariant forall i, j :: 0 <= i < j < |order| ==> order[i] != order[j]
      invariant forall name :: name in results && name !in rest ==> name in order
      invariant observations == Blocks(results, order)
      decreases rest
    {
      var name :| name in rest;
      rest := rest - {name};
      assert (order + [name])[..|order|] == order;
      order := order + [name];
      observations := observations + results[name].observations;
    }
    var health := CollectorHealth(results);
    observations := observations + health;
    var derived := WdCloudBackupTargetUsage(observations);
    observations := observations + derived;
    assert Walks(order, results);
  }
}
