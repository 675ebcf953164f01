/** The client's cache of monitors, fed by server events
    (tools/thirdparty/go-uptime-kuma-client: client.go, tag.go, monitor.go). The
    cache is a slice: an array of which the first `len` cells are in use, changed in
    place. It is compared with a plain map from ids to monitors. */
module KumaCache {
  import opened Ordering

  datatype Tag = Tag(tagId: int, value: string)

  datatype Monitor = Monitor(id: int, name: string, tags: seq<Tag>)

  type View = map<int, Monitor>

  // ----- the plain map --------------------------------------------------

  /** What a step does to the map of monitors. Events carry maps whose keys are the
      ids of the monitors; a refresh carries the monitor fetched for its id. */
  datatype Step =
    | List(monitors: View)
    | Update(monitors: View)
    | Delete(id: int)
    | Refresh(monitor: Monitor)
    | DropTag(tagId: int)

  ghost predicate Keyed(m: View) {
    forall id :: id in m ==> m[id].id == id
  }

  ghost predicate Sound(step: Step) {
    match step
    case List(m) => Keyed(m)
    case Update(m) => Keyed(m)
    case _ => true
  }

  function Without(tags: seq<Tag>, tagId: int): seq<Tag> {
    if tags == [] then []
    else
      var n := |tags| - 1;
      Without(tags[..n], tagId) + if tags[n].tagId != tagId then [tags[n]] else []
  }

  function MapStep(view: View, step: Step): View {
    match step
    case List(m) => m
    case Update(m) => view + m
    case Delete(id) => view - {id}
    case Refresh(monitor) => view[monitor.id := monitor]
    case DropTag(tagId) => map id | id in view :: view[id].(tags := Without(view[id].tags, tagId))
  }

  // ----- the slice ------------------------------------------------------

  ghost predicate UniqueIds(s: seq<Monitor>) {
    forall i, j :: 0 <= i < j < |s| ==> s[i].id != s[j].id
  }

  function Ids(s: seq<Monitor>): set<int> {
    set i | 0 <= i < |s| :: s[i].id
  }

  /** The slice holds the monitors of the map, each once. */
  ghost predicate Shows(s: seq<Monitor>, view: View) {
    && UniqueIds(s)
    && (forall i :: 0 <= i < |s| ==> s[i].id in view && view[s[i].id] == s[i])
    && (forall id :: id in view ==> id in Ids(s))
  }

  /** The position of the first monitor with an id. */
  function Find(s: seq<Monitor>, id: int): (i: nat)
    ensures i <= |s| && (i < |s| ==> s[i].id == id) && forall j :: 0 <= j < i ==> s[j].id != id
  {
    if s == [] || s[0].id == id then 0 else 1 + Find(s[1..], id)
  }

  /** Overwrites the monitor with the same id, or appends. */
  function Put(s: seq<Monitor>, m: Monitor): seq<Monitor> {
    var i := Find(s, m.id);
    if i < |s| then s[i := m] else s + [m]
  }

  function Cut(s: seq<Monitor>, id: int): seq<Monitor> {
    var i := Find(s, id);
    if i < |s| then s[..i] + s[i + 1..] else s
  }

  function DropTags(s: seq<Monitor>, tagId: int): seq<Monitor> {
    seq(|s|, i requires 0 <= i < |s| => s[i].(tags := Without(s[i].tags, tagId)))
  }

  lemma PutShows(s: seq<Monitor>, view: View, m: Monitor)
    requires Shows(s, view)
    ensures Shows(Put(s, m), view[m.id := m])
  {
    var i, t := Find(s, m.id), Put(s, m);
    if i < |s| {
      assert forall j :: 0 <= j < |s| && j != i ==> s[j].id != m.id;
      assert forall j :: 0 <= j < |s| ==> t[j].id == s[j].id;
    } else {
      assert t[|s|] == m;
      assert forall j :: 0 <= j < |s| ==> t[j] == s[j];
    }
    forall id | id in view[m.id := m] ensures id in Ids(t) {
      if id != m.id {
        assert id in Ids(s);
        var j :| 0 <= j < |s| && s[j].id == id;
        assert t[j].id == id;
      }
    }
  }

  lemma CutUnique(s: seq<Monitor>, i: nat)
    requires UniqueIds(s) && i < |s|
    ensures var t := s[..i] + s[i + 1..];
      && (forall j :: 0 <= j < |t| ==> t[j] == (if j < i then s[j] else s[j + 1]) && t[j].id != s[i].id)
      && UniqueIds(t)
  {
  }

  lemma CutShows(s: seq<Monitor>, view: View, id: int)
    requires Shows(s, view)
    ensures Shows(Cut(s, id), view - {id})
  {
    var i, t := Find(s, id), Cut(s, id);
    if i < |s| {
      CutUnique(s, i);
      forall x | x in view - {id} ensures x in Ids(t) {
        assert x in Ids(s);
        var j :| 0 <= j < |s| && s[j].id == x;
        assert t[if j < i then j else j - 1].id == x;
      }
    }
  }

  lemma DropTagsShows(s: seq<Monitor>, view: View, tagId: int)
    requires Shows(s, view)
    ensures Shows(DropTags(s, tagId), MapStep(view, DropTag(tagId)))
  {
    var t := DropTags(s, tagId);
    assert forall i :: 0 <= i < |s| ==> t[i].id == s[i].id;
    forall id | id in view ensures id in Ids(t) {
      assert id in Ids(s);
      var j :| 0 <= j < |s| && s[j].id == id;
      assert t[j].id == id;
    }
  }

  /** A slice shows one map only. */
  lemma ShowsOne(s: seq<Monitor>, a: View, b: View)
    requires Shows(s, a) && Shows(s, b)
    ensures a == b
  {
    forall id ensures id in a <==> id in b {
      if id in a {
        assert id in Ids(s);
      }
      if id in b {
        assert id in Ids(s);
      }
    }
    forall id | id in a ensures a[id] == b[id] {
      assert id in Ids(s);
    }
  }

  // ----- what stays where -----------------------------------------------

  /** The places of the tags that are not dropped, in ascending order. */
  lemma {:induction false} TagsDropped(tags: seq<Tag>, tagId: int) returns (at: seq<nat>)
    ensures |at| == |Without(tags, tagId)|
    ensures forall k :: 0 <= k < |at| ==> at[k] < |tags| && Without(tags, tagId)[k] == tags[at[k]]
    ensures forall j, k :: 0 <= j < k < |at| ==> at[j] < at[k]
    ensures forall i :: 0 <= i < |tags| ==> (i in at <==> tags[i].tagId != tagId)
  {
    if tags == [] {
      at := [];
    } else {
      var n := |tags| - 1;
      at := TagsDropped(tags[..n], tagId);
      if tags[n].tagId != tagId { at := at + [n]; }
    }
  }

  /** After a tag is dropped no monitor has it; each keeps all its other tags in their order,
      its place, its id and its name. */
  lemma DroppedEverywhere(s: seq<Monitor>, tagId: int, i: nat) returns (at: seq<nat>)
    requires i < |s|
    ensures |DropTags(s, tagId)| == |s|
    ensures var m, t := s[i], DropTags(s, tagId)[i];
      && t.id == m.id && t.name == m.name && |t.tags| == |at|
      && (forall k :: 0 <= k < |t.tags| ==> t.tags[k].tagId != tagId)
      && (forall k :: 0 <= k < |at| ==> at[k] < |m.tags| && t.tags[k] == m.tags[at[k]])
      && (forall j, k :: 0 <= j < k < |at| ==> at[j] < at[k])
      && (forall k :: 0 <= k < |m.tags| && m.tags[k].tagId != tagId ==> k in at)
  {
    at := TagsDropped(s[i].tags, tagId);
    forall k | 0 <= k < |at| ensures DropTags(s, tagId)[i].tags[k].tagId != tagId { assert at[k] in at; }
  }

  ghost predicate IdFree(s: seq<Monitor>, id: int) {
    forall i :: 0 <= i < |s| ==> s[i].id != id
  }

  lemma FindFirst(a: seq<Monitor>, m: Monitor, b: seq<Monitor>)
    requires IdFree(a, m.id)
    ensures Find(a + [m] + b, m.id) == |a|
  {
    var s := a + [m] + b;
    assert s[|a|] == m;
    assert forall i :: 0 <= i < |a| ==> s[i] == a[i];
  }

  /** Overwriting keeps a monitor's place, cutting closes the gap, and neither moves another
      one; a monitor that is not there goes to the end. */
  lemma PlacesKept(a: seq<Monitor>, was: Monitor, b: seq<Monitor>, m: Monitor)
    requires IdFree(a, m.id) && was.id == m.id
    ensures Put(a + [was] + b, m) == a + [m] + b
    ensures Cut(a + [was] + b, m.id) == a + b
    ensures Put(a, m) == a + [m] && Cut(a, m.id) == a
  {
    FindFirst(a, was, b);
    assert (a + [was] + b)[..|a|] == a && (a + [was] + b)[|a| + 1..] == b;
  }

  // ----- any sequence of steps ------------------------------------------

  /** What the event handlers may make of the slice. A map event is taken in any
      order of its entries, so only the map it shows is fixed. */
  ghost predicate SliceStep(s: seq<Monitor>, step: Step, t: seq<Monitor>) {
    match step
    case List(m) => UniqueIds(t) && |t| == |m| && forall i :: 0 <= i < |t| ==> t[i].id in m && t[i] == m[t[i].id]
    case Update(m) => exists order: seq<int> :: Lists(order, m.Keys) && UpdatedIn(s, order, m, t)
    case Delete(id) => t == Cut(s, id)
    case Refresh(monitor) => t == Put(s, monitor)
    case DropTag(tagId) => t == DropTags(s, tagId)
  }

  ghost predicate UpdatedIn(s: seq<Monitor>, order: seq<int>, m: View, t: seq<Monitor>) {
    (forall i :: 0 <= i < |order| ==> order[i] in m) && t == PutAll(s, order, m)
  }

  ghost predicate Lists(order: seq<int>, keys: set<int>) {
    && (forall i, j :: 0 <= i < j < |order| ==> order[i] != order[j])
    && Elements(order) == keys
  }

  function PutAll(s: seq<Monitor>, order: seq<int>, m: View): seq<Monitor>
    requires forall i :: 0 <= i < |order| ==> order[i] in m
  {
    if order == [] then s
    else Put(PutAll(s, order[..|order| - 1], m), m[order[|order| - 1]])
  }

  function Part(m: View, order: seq<int>): View {
    map id | id in Elements(order) && id in m :: m[id]
  }

  function PutAllView(view: View, order: seq<int>, m: View): View
    requires forall i :: 0 <= i < |order| ==> order[i] in m
  {
    if order == [] then view
    else PutAllView(view, order[..|order| - 1], m)[order[|order| - 1] := m[order[|order| - 1]]]
  }

  lemma OneMoreListed(s: seq<Monitor>, order: seq<int>, m: View, rest: set<int>, id: int, t: seq<Monitor>)
    requires id in rest && rest <= m.Keys && Lists(order, m.Keys - rest) && UpdatedIn(s, order, m, t)
    ensures Lists(order + [id], m.Keys - (rest - {id})) && UpdatedIn(s, order + [id], m, Put(t, m[id]))
  {
    assert id !in Elements(order) && Elements(order + [id]) == Elements(order) + {id};
    assert (order + [id])[..|order|] == order;
  }

  lemma {:induction false} PutAllShows(s: seq<Monitor>, view: View, order: seq<int>, m: View)
    requires Shows(s, view) && Keyed(m) && forall i :: 0 <= i < |order| ==> order[i] in m
    ensures Shows(PutAll(s, order, m), PutAllView(view, order, m))
  {
    if order != [] {
      var n := |order| - 1;
      PutAllShows(s, view, order[..n], m);
      var last := m[order[n]];
      assert last.id == order[n];
      PutShows(PutAll(s, order[..n], m), PutAllView(view, order[..n], m), last);
    }
  }

  lemma {:induction false} PutAllViewIs(view: View, order: seq<int>, m: View)
    requires forall i :: 0 <= i < |order| ==> order[i] in m
    ensures PutAllView(view, order, m) == view + Part(m, order)
  {
    if order == [] {
      assert view + Part(m, order) == view;
    } else {
      PutAllViewIs(view, order[..|order| - 1], m);
      PartNext(view, m, order);
    }
  }

  lemma PartNext(view: View, m: View, order: seq<int>)
    requires order != [] && order[|order| - 1] in m
    ensures var n := |order| - 1;
      view + Part(m, order) == (view + Part(m, order[..n]))[order[n] := m[order[n]]]
  {
    var n := |order| - 1;
    assert Elements(order) == Elements(order[..n]) + {order[n]} by { assert order == order[..n] + [order[n]]; }
  }

  lemma ListShows(m: View, t: seq<Monitor>)
    requires Keyed(m) && SliceStep([], List(m), t)
    ensures Shows(t, m)
  {
    UniqueCount(t);
    assert Ids(t) <= m.Keys;
    assert |Ids(t)| == |m.Keys|;
    SubsetSameSize(Ids(t), m.Keys);
  }

  lemma {:induction false} UniqueCount(s: seq<Monitor>)
    requires UniqueIds(s)
    ensures |Ids(s)| == |s|
  {
    if s != [] {
      var n := |s| - 1;
      UniqueCount(s[..n]);
      forall id ensures id in Ids(s) <==> id in Ids(s[..n]) || id == s[n].id {
        if id in Ids(s[..n]) {
          var i :| 0 <= i < n && s[..n][i].id == id;
          assert s[i].id == id;
        }
        if id in Ids(s) && id != s[n].id {
          var i :| 0 <= i < |s| && s[i].id == id;
          assert s[..n][i].id == id;
        }
      }
      assert Ids(s) == Ids(s[..n]) + {s[n].id};
      assert s[n].id !in Ids(s[..n]);
    }
  }

  lemma SubsetSameSize(a: set<int>, b: set<int>)
    requires a <= b && |a| == |b|
    ensures a == b
  {
    assert |b - a| == |b| - |a|;
    assert b == a + (b - a);
  }

  ghost predicate Handled(s: seq<Monitor>, step: Step, t: seq<Monitor>) {
    Sound(step) && SliceStep(s, step, t)
  }

  /** One step on the slice is the same step on the map. */
  lemma StepShows(s: seq<Monitor>, view: View, step: Step, t: seq<Monitor>)
    requires Shows(s, view) && Handled(s, step, t)
    ensures Shows(t, MapStep(view, step))
  {
    match step
    case List(m) => ListShows(m, t);
    case Update(m) =>
      var order: seq<int> :| Lists(order, m.Keys) && UpdatedIn(s, order, m, t);
      PutAllShows(s, view, order, m);
      PutAllViewIs(view, order, m);
      assert Part(m, order) == m;
    case Delete(id) => CutShows(s, view, id);
    case Refresh(monitor) => PutShows(s, view, monitor);
    case DropTag(tagId) => DropTagsShows(s, view, tagId);
  }

  function MapFold(steps: seq<Step>): View {
    if steps == [] then map[] else MapStep(MapFold(steps[..|steps| - 1]), steps[|steps| - 1])
  }

  /** The slices between the steps, from an empty cache on. */
  ghost predicate Feeds(steps: seq<Step>, slices: seq<seq<Monitor>>) {
    && |slices| == |steps| + 1 && slices[0] == []
    && forall i :: 0 <= i < |steps| ==> Handled(slices[i], steps[i], slices[i + 1])
  }

  /** After any sequence of steps the slice has unique ids and equals the fold of
      the same steps over a plain map. */
  lemma {:induction false} CacheIsMap(steps: seq<Step>, slices: seq<seq<Monitor>>, n: nat)
    requires Feeds(steps, slices) && n <= |steps|
    ensures Shows(slices[n], MapFold(steps[..n]))
  {
    if n > 0 {
      CacheIsMap(steps, slices, n - 1);
      MapFoldNext(steps, n);
      assert Handled(slices[n - 1], steps[n - 1], slices[n - 1 + 1]);
      StepShows(slices[n - 1], MapFold(steps[..n - 1]), steps[n - 1], slices[n]);
    }
  }

  lemma MapFoldNext(steps: seq<Step>, n: nat)
    requires 0 < n <= |steps|
    ensures MapFold(steps[..n]) == MapStep(MapFold(steps[..n - 1]), steps[n - 1])
  {
    assert steps[..n][..n - 1] == steps[..n - 1];
  }

  // ----- tag queries ----------------------------------------------------

  predicate HasTag(m: Monitor, tagId: int) {
    exists i :: 0 <= i < |m.tags| && m.tags[i].tagId == tagId
  }

  function TagMonitors(s: seq<Monitor>, tagId: int): seq<int> {
    if s == [] then []
    else
      var n := |s| - 1;
      TagMonitors(s[..n], tagId) + if HasTag(s[n], tagId) then [s[n].id] else []
  }

  /** The tag query on the slice answers what the map says, each id once. */
  lemma TagQueryAgrees(s: seq<Monitor>, view: View, tagId: int)
    requires Shows(s, view)
    ensures forall id :: id in TagMonitors(s, tagId) <==> id in view && HasTag(view[id], tagId)
    ensures forall i, j :: 0 <= i < j < |TagMonitors(s, tagId)| ==> TagMonitors(s, tagId)[i] != TagMonitors(s, tagId)[j]
  {
    TagMonitorsIn(s, tagId);
    forall id ensures Carries(s, id, tagId) <==> id in view && HasTag(view[id], tagId) {
      if id in view {
        assert id in Ids(s);
        var i :| 0 <= i < |s| && s[i].id == id;
      }
    }
  }

  ghost predicate Carries(s: seq<Monitor>, id: int, tagId: int) {
    exists i :: 0 <= i < |s| && s[i].id == id && HasTag(s[i], tagId)
  }

  lemma {:induction false} TagMonitorsIn(s: seq<Monitor>, tagId: int)
    requires UniqueIds(s)
    ensures var r := TagMonitors(s, tagId);
      && (forall id :: id in r <==> Carries(s, id, tagId))
      && (forall i, j :: 0 <= i < j < |r| ==> r[i] != r[j])
  {
    if s != [] {
      var n := |s| - 1;
      TagMonitorsIn(s[..n], tagId);
      forall id ensures Carries(s, id, tagId)
                        <==> Carries(s[..n], id, tagId) || (s[n].id == id && HasTag(s[n], tagId)) {
        if Carries(s[..n], id, tagId) {
          var i :| 0 <= i < n && s[..n][i].id == id && HasTag(s[..n][i], tagId);
          assert s[i].id == id;
        }
        if Carries(s, id, tagId) && !(s[n].id == id && HasTag(s[n], tagId)) {
          var i :| 0 <= i < |s| && s[i].id == id && HasTag(s[i], tagId);
          assert s[..n][i].id == id;
        }
      }
      assert !Carries(s[..n], s[n].id, tagId);
      assert s[n].id !in TagMonitors(s[..n], tagId);
    }
  }

  // ----- in place -------------------------------------------------------

  class Client {
    var data: array<Monitor>
    var len: nat
    /** The slices that callers of GetMonitors hold. */
    ghost var handed: set<array<Monitor>>

    ghost predicate Valid()
      reads this
    {
      len <= data.Length && data !in handed
    }

    function Contents(): seq<Monitor>
      requires len <= data.Length
      reads this, data
    {
      data[..len]
    }

    constructor ()
      ensures Valid() && Contents() == [] && handed == {} && fresh(data)
    {
      data := new Monitor[0];
      len := 0;
      handed := {};
    }

    /** The monitorList event: a new slice, in the order the map is walked. */
    method OnMonitorList(m: View)
      requires Valid() && Keyed(m)
      modifies this
      ensures Valid() && handed == old(handed) && fresh(data)
      ensures SliceStep(old(Contents()), List(m), Contents())
    {
      var monitors := new Monitor[|m|];
      var n := 0;
      var rest := m.Keys;
      while rest != {}
        invariant rest <= m.Keys && n + |rest| == |m|
        invariant forall i :: 0 <= i < n ==>
          monitors[i].id in m && monitors[i].id !in rest && monitors[i] == m[monitors[i].id]
        invariant forall i, j :: 0 <= i < j < n ==> monitors[i].id != monitors[j].id
        modifies monitors
        decreases rest
      {
        HasMember(rest);
        var id :| id in rest;
        monitors[n] := m[id];
        rest := rest - {id};
        n := n + 1;
      }
      data, len := monitors, n;
    }

    /** Looks for the id; overwrites in place, or appends. */
    method PutOne(m: Monitor)
      requires Valid()
      modifies this, data
      ensures Valid() && handed == old(handed) && (data == old(data) || fresh(data))
      ensures Contents() == Put(old(Contents()), m)
      ensures forall a :: a in handed ==> a[..] == old(a[..])
    {
      var i := FindId(m.id);
      ghost var before := Contents();
      FindIs(before, m.id, i);
      if i < len {
        data[i] := m;
      } else {
        if len == data.Length {
          Grow();
        }
        data[len] := m;
        len := len + 1;
      }
    }

    method Grow()
      requires Valid()
      modifies this`data
      ensures Valid() && fresh(data) && data.Length > len && Contents() == old(Contents())
    {
      var bigger := new Monitor[2 * len + 1];
      for i := 0 to len
        invariant bigger[..i] == data[..i]
        modifies bigger
      {
        bigger[i] := data[i];
      }
      data := bigger;
    }

    method FindId(id: int) returns (i: nat)
      requires Valid()
      ensures i <= len && (i < len ==> data[i].id == id) && forall j :: 0 <= j < i ==> data[j].id != id
    {
      i := 0;
      while i < len && data[i].id != id
        invariant i <= len && forall j :: 0 <= j < i ==> data[j].id != id
      {
        i := i + 1;
      }
    }

    /** The updateMonitorIntoList event. */
    method OnUpdate(m: View)
      requires Valid() && Keyed(m)
      modifies this, data
      ensures Valid() && handed == old(handed) && (data == old(data) || fresh(data))
      ensures SliceStep(old(Contents()), Update(m), Contents())
      ensures forall a :: a in handed ==> a[..] == old(a[..])
    {
      ghost var before := Contents();
      ghost var order: seq<int> := [];
      var rest := m.Keys;
      while rest != {}
        invariant Valid() && handed == old(handed) && (data == old(data) || fresh(data))
        invariant rest <= m.Keys && Lists(order, m.Keys - rest)
        invariant UpdatedIn(before, order, m, Contents())
        invariant forall a :: a in handed ==> a[..] == old(a[..])
        decreases rest
      {
        HasMember(rest);
        var id :| id in rest;
        OneMoreListed(before, order, m, rest, id, Contents());
        PutOne(m[id]);
        order := order + [id];
        rest := rest - {id};
      }
      assert UpdatedIn(before, order, m, Contents());
    }

    /** The deleteMonitorFromList event: cuts the cell out by moving the rest of
        the slice down, in the same array. */
    method OnDelete(id: int)
      requires Valid()
      modifies this, data
      ensures Valid() && handed == old(handed) && data == old(data)
      ensures SliceStep(old(Contents()), Delete(id), Contents())
      ensures forall a :: a in handed ==> a[..] == old(a[..])
    {
      var i := FindId(id);
      FindIs(Contents(), id, i);
      if i < len {
        ShiftDown(i);
        len := len - 1;
      }
    }

    /** Moves the cells after i one down. */
    method ShiftDown(i: nat)
      requires Valid() && i < len
      modifies data
      ensures data[..len - 1] == old(data[..i]) + old(data[i + 1..len])
    {
      ghost var before := data[..len];
      for j := i to len - 1
        invariant forall k :: 0 <= k < j ==> data[k] == before[if k < i then k else k + 1]
        invariant forall k :: j <= k < len ==> data[k] == before[k]
        modifies data
      {
        data[j] := data[j + 1];
      }
      ClosedGap(before, i, data[..len - 1]);
    }

    /** The cache part of a tag operation, once the monitor has been fetched. */
    method RefreshMonitor(monitorID: int, m: Monitor)
      requires Valid() && m.id == monitorID
      modifies this, data
      ensures Valid() && handed == old(handed) && (data == old(data) || fresh(data))
      ensures SliceStep(old(Contents()), Refresh(m), Contents())
      ensures forall a :: a in handed ==> a[..] == old(a[..])
    {
      PutOne(m);
    }

    method Filter(tags: seq<Tag>, tagId: int) returns (r: seq<Tag>)
      ensures r == Without(tags, tagId)
    {
      r := [];
      for i := 0 to |tags|
        invariant r == Without(tags[..i], tagId)
      {
        assert tags[..i + 1][..i] == tags[..i];
        if tags[i].tagId != tagId {
          r := r + [tags[i]];
        }
      }
      assert tags[..|tags|] == tags;
    }

    /** The cache part of deleting a tag. */
    method DeleteTag(tagId: int)
      requires Valid()
      modifies data
      ensures Valid()
      ensures SliceStep(old(Contents()), DropTag(tagId), Contents())
      ensures forall a :: a in handed ==> a[..] == old(a[..])
    {
      ghost var before := Contents();
      for i := 0 to len
        invariant forall j :: 0 <= j < i ==> data[j] == before[j].(tags := Without(before[j].tags, tagId))
        invariant forall j :: i <= j < len ==> data[j] == before[j]
        modifies data
      {
        var filtered := Filter(data[i].tags, tagId);
        data[i] := data[i].(tags := filtered);
      }
      assert Contents() == DropTags(before, tagId);
    }

    /** Hands out a copy: later changes of the cache cannot reach it. */
    method GetMonitors() returns (monitors: array<Monitor>)
      requires Valid()
      modifies this`handed
      ensures Valid() && fresh(monitors) && monitors[..] == Contents()
      ensures handed == old(handed) + {monitors}
    {
      monitors := new Monitor[len];
      for i := 0 to len
        invariant monitors[..i] == data[..i]
        modifies monitors
      {
        monitors[i] := data[i];
      }
      handed := handed + {monitors};
    }

    /** The tags of a monitor, if the cache has it. */
    method GetMonitorTags(monitorID: int, ghost view: View) returns (tags: Option<seq<Tag>>)
      requires Valid() && Shows(Contents(), view)
      ensures tags == if monitorID in view then Some(view[monitorID].tags) else None
    {
      for i := 0 to len
        invariant forall j :: 0 <= j < i ==> data[j].id != monitorID
      {
        if data[i].id == monitorID {
          assert Contents()[i].id in view;
          return Some(data[i].tags);
        }
      }
      tags := None;
    }

    /** The ids of the monitors that carry a tag. */
    method GetTagMonitors(tagId: int, ghost view: View) returns (ids: seq<int>)
      requires Valid() && Shows(Contents(), view)
      ensures forall id :: id in ids <==> id in view && HasTag(view[id], tagId)
      ensures forall i, j :: 0 <= i < j < |ids| ==> ids[i] != ids[j]
    {
      ids := [];
      for i := 0 to len
        invariant ids == TagMonitors(Contents()[..i], tagId)
      {
        assert Contents()[..i + 1][..i] == Contents()[..i];
        var tags := data[i].tags;
        for j := 0 to |tags|
          invariant ids == TagMonitors(Contents()[..i], tagId)
          invariant forall k :: 0 <= k < j ==> tags[k].tagId != tagId
        {
          if tags[j].tagId == tagId {
            ids := ids + [data[i].id];
            break;
          }
        }
      }
      assert Contents()[..len] == Contents();
      TagQueryAgrees(Contents(), view, tagId);
    }
  }

  lemma ClosedGap(before: seq<Monitor>, i: nat, after: seq<Monitor>)
    requires i < |before| == |after| + 1
    requires forall k :: 0 <= k < |after| ==> after[k] == before[if k < i then k else k + 1]
    ensures after == before[..i] + before[i + 1..]
  {
  }

  lemma {:induction false} FindIs(s: seq<Monitor>, id: int, i: nat)
    requires i <= |s| && (i < |s| ==> s[i].id == id) && forall j :: 0 <= j < i ==> s[j].id != id
    ensures Find(s, id) == i
  {
  }
}
