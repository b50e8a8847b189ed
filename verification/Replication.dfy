/** Expansion of physical devices into annotated replicas (pkg/rm/device_map.go). */
module Replication {
  import opened Text
  import opened AnnotatedIds
  import opened Devices
  import Allocator

  type Entries = map<string, DeviceSet>

  /** A device reference: a UUID, a GPU or MIG index, or neither (which is silently skipped). */
  datatype DeviceRef = ByUuid(id: string) | ByIndex(index: string) | Unrecognised(text: string)

  datatype ReplicatedDevices = ReplicatedDevices(all: bool, count: int, list: seq<DeviceRef>)

  datatype ReplicatedResource = ReplicatedResource(
    name: string, rename: string, devices: ReplicatedDevices, replicas: int)

  function Target(r: ReplicatedResource): string { if r.rename != "" then r.rename else r.name }

  ghost predicate AllKeyed(m: Entries) { forall name :: name in m ==> Keyed(m[name]) }

  function Get(m: Entries, name: string): DeviceSet { if name in m then m[name] else map[] }

  // ---------- which devices to replicate ----------

  ghost predicate Resolves(ds: DeviceSet, ref: DeviceRef, id: string) {
    id in ds && match ref
      case ByUuid(u) => id == u
      case ByIndex(x) => ds[id].index == x
      case Unrecognised(_) => false
  }

  ghost predicate Dangling(ds: DeviceSet, ref: DeviceRef) {
    !ref.Unrecognised? && forall id :: !Resolves(ds, ref, id)
  }

  /** `ids` is a selection the source may make for `wanted`, or `None` is an error it reports. */
  ghost predicate Selects(ds: DeviceSet, wanted: ReplicatedDevices, ids: Option<seq<string>>) {
    if wanted.all then
      ids.Some? && NoDup(ids.value) && Elements(ids.value) == ds.Keys
    else if wanted.count > 0 then
      if wanted.count > |ds| then ids.None?
      else ids.Some? && NoDup(ids.value) && Elements(ids.value) <= ds.Keys && |ids.value| == wanted.count
    else if wanted.list != [] then
      if exists ref :: ref in wanted.list && Dangling(ds, ref) then ids.None?
      else
        && ids.Some?
        && (forall id :: id in ids.value ==> exists ref :: ref in wanted.list && Resolves(ds, ref, id))
        && (forall ref :: ref in wanted.list && !ref.Unrecognised? ==>
              exists id :: id in ids.value && Resolves(ds, ref, id))
    else ids.None?
  }

  /** Some device with the given index, in map-iteration order. */
  method GetByIndex(ds: DeviceSet, index: string) returns (id: Option<string>)
    ensures id.None? <==> forall k :: k in ds ==> ds[k].index != index
    ensures id.Some? ==> id.value in ds && ds[id.value].index == index
  {
    var todo := ds.Keys;
    while todo != {}
      invariant todo <= ds.Keys
      invariant forall k :: k in ds && k !in todo ==> ds[k].index != index
      decreases todo
    {
      var k :| k in todo;
      if ds[k].index == index { return Some(k); }
      todo := todo - {k};
    }
    return None;
  }

  method SelectFromList(ds: DeviceSet, refs: seq<DeviceRef>) returns (ids: Option<seq<string>>)
    requires refs != []
    ensures Selects(ds, ReplicatedDevices(false, 0, refs), ids)
    ensures ids.None? <==>
              || (exists u :: ByUuid(u) in refs && u !in ds)
              || (exists x :: ByIndex(x) in refs && forall id :: id in ds ==> ds[id].index != x)
    ensures ids.Some? ==>
              && (forall u :: ByUuid(u) in refs ==> u in ids.value)
              && (forall x :: ByIndex(x) in refs ==> exists id :: id in ids.value && id in ds && ds[id].index == x)
              && (forall id :: id in ids.value ==> id in ds && (ByUuid(id) in refs || ByIndex(ds[id].index) in refs))
  {
    var found: seq<string> := [];
    for k := 0 to |refs|
      invariant forall ref :: ref in refs[..k] ==> !Dangling(ds, ref)
      invariant forall id :: id in found ==> exists ref :: ref in refs[..k] && Resolves(ds, ref, id)
      invariant forall ref :: ref in refs[..k] && !ref.Unrecognised? ==>
                  exists id :: id in found && Resolves(ds, ref, id)
    {
      var ref := refs[k];
      assert refs[..k + 1] == refs[..k] + [ref];
      var hit: Option<string> := None;
      match ref {
        case ByUuid(u) => if u in ds { hit := Some(u); }
        case ByIndex(x) => hit := GetByIndex(ds, x);
        case Unrecognised(_) =>
      }
      if hit.None? && !ref.Unrecognised? {
        assert Dangling(ds, ref);
        return None;
      }
      if hit.Some? {
        assert Resolves(ds, ref, hit.value);
        ghost var before := found;
        found := found + [hit.value];
        assert hit.value in found;
        assert forall id :: id in before ==> id in found;
      }
    }
    assert refs[..|refs|] == refs;
    ids := Some(found);
  }

  /** The IDs of the devices to replicate for one resource. */
  method GetIdsOfDevicesToReplicate(m: Entries, r: ReplicatedResource) returns (ids: Option<seq<string>>)
    requires AllKeyed(m)
    ensures r.name !in m ==> ids == Some([])
    ensures r.name in m ==> Selects(m[r.name], r.devices, ids)
    ensures r.name in m && r.devices.all ==>
              ids.Some? && |ids.value| == |m[r.name]| && forall id :: id in ids.value <==> id in m[r.name]
    ensures r.name in m && !r.devices.all && r.devices.count > 0 ==>
              && (ids.None? <==> r.devices.count > |m[r.name]|)
              && (ids.Some? ==> |ids.value| == r.devices.count && forall id :: id in ids.value ==> id in m[r.name])
    ensures r.name in m && !r.devices.all && r.devices.count <= 0 && r.devices.list == [] ==> ids.None?
  {
    if r.name !in m { return Some([]); }
    var ds := m[r.name];
    if r.devices.all {
      var all := GetIds(ds);
      assert forall id :: id in all <==> id in Elements(all);
      return Some(all);
    }
    if r.devices.count > 0 {
      if r.devices.count > |ds| { return None; }
      var all := GetIds(ds);
      NoDupCardinality(all);
      var some := all[..r.devices.count];
      assert forall id :: id in some ==> id in all;
      return Some(some);
    }
    if r.devices.list != [] {
      ids := SelectFromList(ds, r.devices.list);
      return;
    }
    return None;
  }

  // ---------- the expansion as a function ----------

  function Replica(d: Device, i: int, n: int): Device {
    d.(id := NewAnnotatedId(d.id, i), replicas := n)
  }

  /** The first `k` of `n` replicas of a device. */
  function ReplicasOf(d: Device, k: nat, n: int): DeviceSet {
    if k == 0 then map[]
    else ReplicasOf(d, k - 1, n)[NewAnnotatedId(d.id, k - 1) := Replica(d, k - 1, n)]
  }

  function Copies(n: int): nat { if n < 0 then 0 else n }

  function ReplicaSet(ds: DeviceSet, ids: seq<string>, n: int): DeviceSet
    requires forall id :: id in ids ==> id in ds
  {
    if ids == [] then map[]
    else
      var last := |ids| - 1;
      ReplicaSet(ds, ids[..last], n) + ReplicasOf(ds[ids[last]], Copies(n), n)
  }

  function Unselected(ds: DeviceSet, ids: seq<string>): DeviceSet {
    map id | id in ds && id !in ids :: ds[id]
  }

  function InsertAll(m: Entries, name: string, ds: DeviceSet): Entries {
    if ds == map[] then m else m[name := Get(m, name) + ds]
  }

  function Expand(m: Entries, o: Entries, r: ReplicatedResource, ids: seq<string>): Entries
    requires forall id :: id in ids ==> id in Get(o, r.name)
  {
    if ids == [] then m
    else
      var ds := Get(o, r.name);
      InsertAll(InsertAll(m, r.name, Unselected(ds, ids)), Target(r), ReplicaSet(ds, ids, r.replicas))
  }

  ghost predicate Listed(rs: seq<ReplicatedResource>, name: string) {
    exists k :: 0 <= k < |rs| && rs[k].name == name
  }

  ghost predicate ValidPicks(o: Entries, rs: seq<ReplicatedResource>, picks: seq<seq<string>>) {
    && |picks| <= |rs|
    && forall k :: 0 <= k < |picks| ==> forall id :: id in picks[k] ==> id in Get(o, rs[k].name)
  }

  /** The device map after the resources that `picks` already covers. */
  ghost function Expanded(o: Entries, rs: seq<ReplicatedResource>, picks: seq<seq<string>>): Entries
    requires ValidPicks(o, rs, picks)
  {
    if picks == [] then map name | name in o && !Listed(rs, name) :: o[name]
    else
      var k := |picks| - 1;
      Expand(Expanded(o, rs, picks[..k]), o, rs[k], picks[k])
  }

  // ---------- the device map ----------

  class DeviceMap {
    var entries: Entries

    constructor ()
      ensures entries == map[]
    {
      entries := map[];
    }

    method Insert(name: string, dev: Device)
      modifies this
      ensures entries == InsertAll(old(entries), name, map[dev.id := dev])
    {
      if name !in entries { entries := entries[name := map[]]; }
      entries := entries[name := entries[name][dev.id := dev]];
      assert map[dev.id := dev] != map[] by { assert dev.id in map[dev.id := dev]; }
      assert Get(old(entries), name) + map[dev.id := dev] == entries[name];
    }

    /** Insert every device of a set, in any order. */
    method InsertSet(name: string, ds: DeviceSet)
      requires Keyed(ds)
      modifies this
      ensures entries == InsertAll(old(entries), name, ds)
    {
      ghost var start := entries;
      ghost var done: DeviceSet := map[];
      var todo := ds.Keys;
      while todo != {}
        invariant todo <= ds.Keys
        invariant done == map id | id in ds && id !in todo :: ds[id]
        invariant entries == InsertAll(start, name, done)
        decreases todo
      {
        var id :| id in todo;
        todo := todo - {id};
        InsertAllTwice(start, name, done, id, ds[id]);
        done := done[id := ds[id]];
        Insert(name, ds[id]);
      }
      assert done == ds;
    }

    /** Insert every device of another map's entries. */
    method Merge(other: Entries)
      requires AllKeyed(other)
      modifies this
      ensures forall name :: Get(entries, name) == Get(old(entries), name) + Get(other, name)
    {
      var todo := other.Keys;
      while todo != {}
        invariant todo <= other.Keys
        invariant forall name :: Get(entries, name) ==
                    Get(old(entries), name) + (if name in todo then map[] else Get(other, name))
        decreases todo
      {
        var name :| name in todo;
        todo := todo - {name};
        InsertSet(name, other[name]);
      }
    }
  }

  lemma InsertAllTwice(m: Entries, name: string, done: DeviceSet, id: string, d: Device)
    ensures InsertAll(InsertAll(m, name, done), name, map[id := d]) == InsertAll(m, name, done[id := d])
  {
    assert id in map[id := d] && id in done[id := d];
    var left := InsertAll(InsertAll(m, name, done), name, map[id := d]);
    var right := InsertAll(m, name, done[id := d]);
    assert left[name] == right[name];
  }

  /** Insert the replicas of one device on top of those inserted before it. */
  method InsertReplicasOf(devices: DeviceMap, name: string, original: Device, n: int,
                          ghost start: Entries, ghost base: DeviceSet)
    requires devices.entries == InsertAll(start, name, base)
    modifies devices
    ensures devices.entries == InsertAll(start, name, base + ReplicasOf(original, Copies(n), n))
  {
    hide InsertAll;
    var i := 0;
    assert base + map[] == base;
    while i < n
      invariant 0 <= i <= Copies(n)
      invariant devices.entries == InsertAll(start, name, base + ReplicasOf(original, i, n))
    {
      var replica := Replica(original, i, n);
      InsertAllTwice(start, name, base + ReplicasOf(original, i, n), replica.id, replica);
      OneMoreReplica(base, original, i, n);
      devices.Insert(name, replica);
      i := i + 1;
    }
  }

  lemma OneMoreReplica(base: DeviceSet, original: Device, i: nat, n: int)
    ensures var replica := Replica(original, i, n);
      (base + ReplicasOf(original, i, n))[replica.id := replica] == base + ReplicasOf(original, i + 1, n)
  {}

  /** Insert the replicas of every selected device. */
  method InsertReplicas(devices: DeviceMap, name: string, ds: DeviceSet, ids: seq<string>, n: int)
    requires Keyed(ds) && forall id :: id in ids ==> id in ds
    modifies devices
    ensures devices.entries == InsertAll(old(devices.entries), name, ReplicaSet(ds, ids, n))
  {
    ghost var start := devices.entries;
    for k := 0 to |ids|
      invariant devices.entries == InsertAll(start, name, ReplicaSet(ds, ids[..k], n))
    {
      assert ids[..k + 1][..k] == ids[..k];
      InsertReplicasOf(devices, name, ds[ids[k]], n, start, ReplicaSet(ds, ids[..k], n));
    }
    assert ids[..|ids|] == ids;
  }

  /** The work for one listed resource with selection `ids`. */
  method ExpandResource(devices: DeviceMap, o: Entries, r: ReplicatedResource, ids: seq<string>)
    requires AllKeyed(o) && forall id :: id in ids ==> id in Get(o, r.name)
    modifies devices
    ensures devices.entries == Expand(old(devices.entries), o, r, ids)
  {
    if ids == [] { return; }
    assert ids[0] in ids;
    var ds := o[r.name];
    var selected := Subset(ds, ids);
    var rest := Difference(ds, selected);
    assert rest == Unselected(ds, ids);
    devices.InsertSet(r.name, rest);
    InsertReplicas(devices, Target(r), ds, ids, r.replicas);
  }

  /** The updated map, or `None` when some resource asks for devices that do not exist. The ghost
      result records which devices were selected. */
  method UpdateDeviceMapWithReplicas(rs: seq<ReplicatedResource>, o: Entries)
    returns (r: Option<DeviceMap>, ghost picks: seq<seq<string>>)
    requires AllKeyed(o)
    ensures ValidPicks(o, rs, picks)
    ensures forall k :: 0 <= k < |picks| && rs[k].name in o ==>
              Selects(o[rs[k].name], rs[k].devices, Some(picks[k]))
    ensures r.None? ==>
              && |picks| < |rs|
              && rs[|picks|].name in o
              && Selects(o[rs[|picks|].name], rs[|picks|].devices, None)
    ensures r.Some? ==> |picks| == |rs| && fresh(r.value) && r.value.entries == Expanded(o, rs, picks)
  {
    hide Selects, Expand, AllKeyed;
    var devices := CopyUnlisted(rs, o);
    picks := [];
    for k := 0 to |rs|
      invariant |picks| == k && ValidPicks(o, rs, picks)
      invariant forall j :: 0 <= j < k && rs[j].name in o ==>
                  Selects(o[rs[j].name], rs[j].devices, Some(picks[j]))
      invariant devices.entries == Expanded(o, rs, picks)
      invariant fresh(devices)
    {
      var ids := GetIdsOfDevicesToReplicate(o, rs[k]);
      if ids.None? { return None, picks; }
      SelectedExist(o, rs[k], ids.value);
      ExpandResource(devices, o, rs[k], ids.value);
      assert (picks + [ids.value])[..k] == picks;
      picks := picks + [ids.value];
    }
    r := Some(devices);
  }

  /** The devices of every resource that is not listed. */
  method CopyUnlisted(rs: seq<ReplicatedResource>, o: Entries) returns (devices: DeviceMap)
    ensures fresh(devices) && devices.entries == Expanded(o, rs, [])
  {
    var names: set<string> := {};
    for k := 0 to |rs|
      invariant names == set j | 0 <= j < k :: rs[j].name
    {
      names := names + {rs[k].name};
    }
    assert forall name :: name in names <==> Listed(rs, name);
    devices := new DeviceMap();
    devices.entries := map name | name in o && name !in names :: o[name];
  }

  lemma SelectedExist(o: Entries, r: ReplicatedResource, ids: seq<string>)
    requires if r.name in o then Selects(o[r.name], r.devices, Some(ids)) else ids == []
    ensures forall id :: id in ids ==> id in Get(o, r.name)
  {}

  // ---------- conservation ----------

  lemma {:induction false} ReplicasOfAt(d: Device, k: nat, n: int)
    requires Strippable(d.id)
    ensures forall p :: p in ReplicasOf(d, k, n) <==> exists i: nat :: i < k && p == NewAnnotatedId(d.id, i)
    ensures forall i: nat :: i < k ==>
              && NewAnnotatedId(d.id, i) in ReplicasOf(d, k, n)
              && ReplicasOf(d, k, n)[NewAnnotatedId(d.id, i)] == Replica(d, i, n)
  {
    if k > 0 {
      ReplicasOfAt(d, k - 1, n);
      forall i: nat | i < k - 1 ensures NewAnnotatedId(d.id, i) != NewAnnotatedId(d.id, k - 1) {
        if NewAnnotatedId(d.id, i) == NewAnnotatedId(d.id, k - 1) { NewInjective(d.id, i, d.id, k - 1); }
      }
    }
  }

  /** The replica set holds exactly the replicas `0..n-1` of every selected device. */
  lemma {:induction false} ReplicaSetAt(ds: DeviceSet, ids: seq<string>, n: int)
    requires Keyed(ds) && forall id :: id in ids ==> id in ds && Strippable(id)
    ensures forall p :: p in ReplicaSet(ds, ids, n) <==>
              exists id, i: nat :: id in ids && i < n && p == NewAnnotatedId(id, i)
    ensures forall id, i: nat :: id in ids && i < n ==>
              && NewAnnotatedId(id, i) in ReplicaSet(ds, ids, n)
              && ReplicaSet(ds, ids, n)[NewAnnotatedId(id, i)] == Replica(ds[id], i, n)
  {
    if ids != [] {
      var last := |ids| - 1;
      var x := ids[last];
      assert ids == ids[..last] + [x];
      ReplicaSetAt(ds, ids[..last], n);
      ReplicasOfAt(ds[x], Copies(n), n);
      forall id, i: nat | id in ids && i < n
        ensures NewAnnotatedId(id, i) in ReplicaSet(ds, ids, n)
        ensures ReplicaSet(ds, ids, n)[NewAnnotatedId(id, i)] == Replica(ds[id], i, n)
      {
        if NewAnnotatedId(id, i) in ReplicasOf(ds[x], Copies(n), n) {
          var j: nat :| j < Copies(n) && NewAnnotatedId(id, i) == NewAnnotatedId(x, j);
          NewInjective(id, i, x, j);
        }
      }
    }
  }

  /** Resource names are distinct and no renamed resource takes a name that is otherwise in use. */
  ghost predicate NoCollision(o: Entries, rs: seq<ReplicatedResource>) {
    && (forall j, k :: 0 <= j < k < |rs| ==> rs[j].name != rs[k].name && Target(rs[j]) != Target(rs[k]))
    && (forall j, k :: 0 <= j < |rs| && 0 <= k < |rs| && j != k ==> Target(rs[j]) != rs[k].name)
    && (forall k :: 0 <= k < |rs| && Target(rs[k]) != rs[k].name ==> Target(rs[k]) !in o)
  }

  /** What the devices of one resource become, under the resource's own name and its target name. */
  ghost predicate ResourceExpanded(m: Entries, o: Entries, r: ReplicatedResource, ids: seq<string>)
    requires forall id :: id in ids ==> id in Get(o, r.name)
  {
    var ds := Get(o, r.name);
    var rest := if ids == [] then map[] else Unselected(ds, ids);
    if Target(r) == r.name then Get(m, r.name) == rest + ReplicaSet(ds, ids, r.replicas)
    else Get(m, r.name) == rest && Get(m, Target(r)) == ReplicaSet(ds, ids, r.replicas)
  }

  /** Unlisted resources are unchanged, and each listed one is expanded on its own. */
  lemma {:induction false} ExpandedExactly(o: Entries, rs: seq<ReplicatedResource>, picks: seq<seq<string>>)
    requires ValidPicks(o, rs, picks) && NoCollision(o, rs)
    ensures forall name :: name in o && !Listed(rs, name) ==> Get(Expanded(o, rs, picks), name) == o[name]
    ensures forall k :: 0 <= k < |picks| ==> ResourceExpanded(Expanded(o, rs, picks), o, rs[k], picks[k])
    ensures forall name :: Get(Expanded(o, rs, picks), name) != map[] ==>
              || (name in o && !Listed(rs, name))
              || exists k :: 0 <= k < |picks| && (name == rs[k].name || name == Target(rs[k]))
  {
    if picks != [] {
      var k := |picks| - 1;
      ExpandedExactly(o, rs, picks[..k]);
      var m, m' := Expanded(o, rs, picks[..k]), Expanded(o, rs, picks);
      assert m' == Expand(m, o, rs[k], picks[k]);
      hide Expand, Expanded;
      ExpandLocal(m, o, rs[k], picks[k]);
      assert Listed(rs, rs[k].name);
      assert Get(m, rs[k].name) == map[] && Get(m, Target(rs[k])) == map[];
      ExpandFresh(m, o, rs[k], picks[k]);
      forall j | 0 <= j < k ensures ResourceExpanded(m', o, rs[j], picks[j]) {
        assert picks[..k][j] == picks[j];
        ResourceKept(m, m', o, rs[j], picks[j]);
      }
    }
  }

  lemma ResourceKept(m: Entries, m': Entries, o: Entries, r: ReplicatedResource, ids: seq<string>)
    requires forall id :: id in ids ==> id in Get(o, r.name)
    requires ResourceExpanded(m, o, r, ids)
    requires Get(m', r.name) == Get(m, r.name) && Get(m', Target(r)) == Get(m, Target(r))
    ensures ResourceExpanded(m', o, r, ids)
  {}

  lemma ExpandLocal(m: Entries, o: Entries, r: ReplicatedResource, ids: seq<string>)
    requires forall id :: id in ids ==> id in Get(o, r.name)
    ensures forall name :: name != r.name && name != Target(r) ==> Get(Expand(m, o, r, ids), name) == Get(m, name)
  {}

  lemma ExpandFresh(m: Entries, o: Entries, r: ReplicatedResource, ids: seq<string>)
    requires forall id :: id in ids ==> id in Get(o, r.name)
    requires Get(m, r.name) == map[] && Get(m, Target(r)) == map[]
    ensures ResourceExpanded(Expand(m, o, r, ids), o, r, ids)
  {
    var ds := Get(o, r.name);
    var rest, reps := Unselected(ds, ids), ReplicaSet(ds, ids, r.replicas);
    assert map[] + rest == rest && map[] + reps == reps && rest + map[] == rest;
  }

  /** The original behind an advertised device: its annotation and share count removed. */
  function Restore(d: Device): Device { d.(id := GetId(d.id), replicas := 0) }

  /** Conservation for one resource: every unselected device is there once, unchanged; every selected
      one exactly `replicas` times, with annotations 0..replicas-1; nothing else is; and stripping
      the annotations gives back exactly the original devices. */
  lemma ResourceConserved(ds: DeviceSet, ids: seq<string>, n: int)
    requires Keyed(ds) && forall id :: id in ds ==> Strippable(id) && ds[id].replicas == 0
    requires ids != [] && forall id :: id in ids ==> id in ds
    ensures var all := Unselected(ds, ids) + ReplicaSet(ds, ids, n);
      && (forall id :: id in ds && id !in ids ==> id in all && all[id] == ds[id])
      && (forall id, i: nat :: id in ids && i < n ==>
            NewAnnotatedId(id, i) in all && all[NewAnnotatedId(id, i)] == Replica(ds[id], i, n))
      && (forall id :: id in ids ==> |Allocator.Owned(all.Keys, id)| == Copies(n))
      && (n > 0 ==> (set p | p in all :: Restore(all[p])) == set id | id in ds :: ds[id])
  {
    var rest, reps := Unselected(ds, ids), ReplicaSet(ds, ids, n);
    var all := rest + reps;
    ReplicaSetAt(ds, ids, n);
    forall id | id in ds && id !in ids ensures id !in reps {
      if id in reps {
        var x, i: nat :| x in ids && i < n && id == NewAnnotatedId(x, i);
        NewHasAnnotations(x, i);
      }
    }
    forall id | id in ids ensures |Allocator.Owned(all.Keys, id)| == Copies(n) {
      ReplicaCount(ds, ids, n, id);
    }
    if n > 0 { RestoresAll(ds, ids, n); }
  }

  lemma ReplicaCount(ds: DeviceSet, ids: seq<string>, n: int, id: string)
    requires Keyed(ds) && forall x :: x in ds ==> Strippable(x)
    requires id in ids && forall x :: x in ids ==> x in ds
    ensures |Allocator.Owned((Unselected(ds, ids) + ReplicaSet(ds, ids, n)).Keys, id)| == Copies(n)
  {
    var mine := seq(Copies(n), i requires 0 <= i < Copies(n) => NewAnnotatedId(id, i));
    forall i, j | 0 <= i < j < |mine| ensures mine[i] != mine[j] {
      if mine[i] == mine[j] { NewInjective(id, i, id, j); }
    }
    NoDupCardinality(mine);
    var own := Allocator.Owned((Unselected(ds, ids) + ReplicaSet(ds, ids, n)).Keys, id);
    forall p ensures p in own <==> p in mine {
      OwnReplica(ds, ids, n, id, p);
      if p in own {
        var i: nat :| i < n && p == NewAnnotatedId(id, i);
        assert p == mine[i];
      }
    }
    assert own == Elements(mine);
  }

  /** The advertised IDs that strip to a selected device are its replicas. */
  lemma OwnReplica(ds: DeviceSet, ids: seq<string>, n: int, id: string, p: string)
    requires Keyed(ds) && forall x :: x in ds ==> Strippable(x)
    requires id in ids && forall x :: x in ids ==> x in ds
    ensures (p in Unselected(ds, ids) || p in ReplicaSet(ds, ids, n)) && GetId(p) == id
            <==> exists i: nat :: i < n && p == NewAnnotatedId(id, i)
  {
    ReplicaSetAt(ds, ids, n);
    if p in ReplicaSet(ds, ids, n) {
      var x, i: nat :| x in ids && i < n && p == NewAnnotatedId(x, i);
      StripNew(x, i);
      if j: nat :| j < n && p == NewAnnotatedId(id, j) { StripNew(id, j); }
    } else if p in Unselected(ds, ids) {
      PlainIdKept(p);
    }
  }

  lemma RestoresAll(ds: DeviceSet, ids: seq<string>, n: int)
    requires Keyed(ds) && forall id :: id in ds ==> Strippable(id) && ds[id].replicas == 0
    requires n > 0 && forall id :: id in ids ==> id in ds
    ensures var all := Unselected(ds, ids) + ReplicaSet(ds, ids, n);
      (set p | p in all :: Restore(all[p])) == set id | id in ds :: ds[id]
  {
    var reps := ReplicaSet(ds, ids, n);
    var all := Unselected(ds, ids) + reps;
    var back, originals := set p | p in all :: Restore(all[p]), set id | id in ds :: ds[id];
    ReplicaSetAt(ds, ids, n);
    forall p | p in all ensures Restore(all[p]) in originals {
      if p in reps {
        var x, i: nat :| x in ids && i < n && p == NewAnnotatedId(x, i);
        StripNew(x, i);
        assert Restore(all[p]) == ds[x];
      } else {
        PlainIdKept(p);
        assert Restore(all[p]) == ds[p];
      }
    }
    forall id | id in ds ensures ds[id] in back {
      if id in ids {
        var p := NewAnnotatedId(id, 0);
        StripNew(id, 0);
        assert p in reps && Restore(all[p]) == ds[id];
      } else {
        PlainIdKept(id);
        if id in reps {
          var x, i: nat :| x in ids && i < n && id == NewAnnotatedId(x, i);
          NewHasAnnotations(x, i);
        }
        assert id in all && Restore(all[id]) == ds[id];
      }
    }
  }

  /** Replication conserves devices: over the whole configuration, what is advertised under a replicated
      resource's own and target name together is exactly its unselected devices and the replicas of its
      selected ones, so each selected GPU has exactly `replicas` of them and stripping the annotations
      gives back the original devices. A resource nothing was selected from is not advertised at all. */
  lemma ReplicationConserves(o: Entries, rs: seq<ReplicatedResource>, picks: seq<seq<string>>, k: nat)
    requires ValidPicks(o, rs, picks) && NoCollision(o, rs) && k < |picks|
    requires var ds := Get(o, rs[k].name);
      Keyed(ds) && forall id :: id in ds ==> Strippable(id) && ds[id].replicas == 0
    ensures var ds := Get(o, rs[k].name);
      var m := Expanded(o, rs, picks);
      var all := Get(m, rs[k].name) + Get(m, Target(rs[k]));
      if picks[k] == [] then all == map[]
      else
        && all == Unselected(ds, picks[k]) + ReplicaSet(ds, picks[k], rs[k].replicas)
        && (forall id :: id in picks[k] ==> |Allocator.Owned(all.Keys, id)| == Copies(rs[k].replicas))
        && (rs[k].replicas > 0 ==> (set p | p in all :: Restore(all[p])) == set id | id in ds :: ds[id])
  {
    hide Expanded;
    ExpandedExactly(o, rs, picks);
    var m := Expanded(o, rs, picks);
    assert ResourceExpanded(m, o, rs[k], picks[k]);
    if picks[k] != [] {
      ResourceConserved(Get(o, rs[k].name), picks[k], rs[k].replicas);
      assert Get(m, rs[k].name) + Get(m, Target(rs[k])) ==
             Unselected(Get(o, rs[k].name), picks[k]) + ReplicaSet(Get(o, rs[k].name), picks[k], rs[k].replicas);
    }
    hide *;
  }

  lemma ReplicaFields(ds: DeviceSet, ids: seq<string>, n: int, id: string, i: nat)
    requires Keyed(ds) && id in ids && i < n
    requires forall x :: x in ids ==> x in ds && Strippable(x)
    ensures var d := ds[id];
      && id + "::" + FormatInt(i) in ReplicaSet(ds, ids, n)
      && ReplicaSet(ds, ids, n)[id + "::" + FormatInt(i)] ==
           Device(id + "::" + FormatInt(i), d.health, d.topology, d.paths, d.index, d.totalMemory,
                  d.computeCapability, n)
  {
    ReplicaSetAt(ds, ids, n);
    assert NewAnnotatedId(id, i) == id + "::" + FormatInt(i);
    hide ReplicaSet, FormatInt;
  }

  lemma UnselectedKept(ds: DeviceSet, ids: seq<string>, n: int, id: string)
    requires Keyed(ds) && id in ds && id !in ids && Strippable(id)
    requires forall x :: x in ids ==> x in ds && Strippable(x)
    ensures id in Unselected(ds, ids) && Unselected(ds, ids)[id] == ds[id] && id !in ReplicaSet(ds, ids, n)
  {
    ReplicaSetAt(ds, ids, n);
    if id in ReplicaSet(ds, ids, n) {
      var x, j: nat :| x in ids && j < n && id == NewAnnotatedId(x, j);
      NewHasAnnotations(x, j);
    }
  }

  /** Where the two parts of an expanded resource are. */
  lemma UnderItsName(m: Entries, o: Entries, r: ReplicatedResource, ids: seq<string>)
    requires ids != [] && forall id :: id in ids ==> id in Get(o, r.name)
    requires ResourceExpanded(m, o, r, ids)
    ensures var rest, reps := Unselected(Get(o, r.name), ids), ReplicaSet(Get(o, r.name), ids, r.replicas);
      var name := if r.rename == "" then r.name else r.rename;
      && (forall p :: p in reps ==> name in m && p in m[name] && m[name][p] == reps[p])
      && (forall p :: p in rest && p !in reps ==> r.name in m && p in m[r.name] && m[r.name][p] == rest[p])
  {
    hide ReplicaSet, Unselected;
  }

  /** What a configuration advertises, field by field: a selected device appears as `replicas` devices
      `<id>::0`, `<id>::1`, ... under the resource's new name if it has one and its own otherwise, each
      like the original but for its ID and the number of replicas; an unselected device stays as it is
      under the resource's own name. */
  lemma Advertised(o: Entries, rs: seq<ReplicatedResource>, picks: seq<seq<string>>, k: nat, id: string, i: nat)
    requires ValidPicks(o, rs, picks) && NoCollision(o, rs) && k < |picks| && picks[k] != []
    requires var ds := Get(o, rs[k].name); Keyed(ds) && id in ds && forall x :: x in ds ==> Strippable(x)
    ensures var m, d := Expanded(o, rs, picks), Get(o, rs[k].name)[id];
      var name := if rs[k].rename == "" then rs[k].name else rs[k].rename;
      if id !in picks[k] then
        rs[k].name in m && id in m[rs[k].name] && m[rs[k].name][id] == d
      else if i < rs[k].replicas then
        && name in m && id + "::" + FormatInt(i) in m[name]
        && m[name][id + "::" + FormatInt(i)] ==
             Device(id + "::" + FormatInt(i), d.health, d.topology, d.paths, d.index, d.totalMemory,
                    d.computeCapability, rs[k].replicas)
      else true
  {
    hide Expanded, NoCollision, ResourceExpanded, ReplicaSet, Unselected, Keyed, Strippable, FormatInt;
    var m, r, ids := Expanded(o, rs, picks), rs[k], picks[k];
    ExpandedExactly(o, rs, picks);
    assert ResourceExpanded(m, o, r, ids);
    UnderItsName(m, o, r, ids);
    if id in ids {
      if i < r.replicas { ReplicaFields(Get(o, r.name), ids, r.replicas, id, i); }
    } else {
      UnselectedKept(Get(o, r.name), ids, r.replicas, id);
    }
  }

  /** A resource whose references are all recognised only loses its devices if it had none. */
  lemma SelectionNonEmpty(ds: DeviceSet, wanted: ReplicatedDevices, ids: seq<string>)
    requires Selects(ds, wanted, Some(ids)) && ds != map[]
    ensures ids == [] <==>
              !wanted.all && wanted.count <= 0 && forall ref :: ref in wanted.list ==> ref.Unrecognised?
  {
    if wanted.all {
      var id :| id in ds;
      assert id in Elements(ids);
    } else if wanted.count <= 0 {
      if ids != [] {
        assert ids[0] in ids;
        var ref :| ref in wanted.list && Resolves(ds, ref, ids[0]);
        assert !ref.Unrecognised?;
      } else {
        forall ref | ref in wanted.list ensures ref.Unrecognised? {
          assert !Dangling(ds, ref);
        }
      }
    }
  }
}
