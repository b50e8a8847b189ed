/** The limits the MPS daemon sets for shared devices (pkg/mps/daemon.go). */
module MpsLimits {
  import opened Text
  import opened AnnotatedIds
  import opened Devices

  const MIB := 1024 * 1024

  ghost function Sharing(ds: DeviceSet, index: string): set<string> {
    set id | id in ds && ds[id].index == index
  }

  /** Devices of one index are replicas of one GPU and report the same memory. */
  ghost predicate SharedMemory(ds: DeviceSet) {
    forall a, b :: a in ds && b in ds && ds[a].index == ds[b].index ==> ds[a].totalMemory == ds[b].totalMemory
  }

  /** `limit` mebibytes is the most every one of `replicas` clients can have within `memory` bytes. */
  ghost predicate LargestShare(limit: nat, replicas: nat, memory: nat) {
    forall l: nat :: l <= limit <==> l * replicas * MIB <= memory
  }

  lemma ShareByDivision(memory: nat, replicas: nat)
    requires replicas > 0
    ensures LargestShare(memory / replicas / MIB, replicas, memory)
  {
    var q := memory / replicas;
    forall l: nat ensures l <= q / MIB <==> l * replicas * MIB <= memory {
      assert l * replicas * MIB == (l * MIB) * replicas;
      DivIff(l * MIB, memory, replicas);
      DivIff(l, q, MIB);
    }
  }

  lemma DivIff(l: nat, n: nat, d: nat)
    requires d > 0
    ensures l <= n / d <==> l * d <= n
  {
    var q := n / d;
    assert q * d <= n < q * d + d;
    if l <= q { assert l * d <= q * d; } else { assert l * d >= (q + 1) * d == q * d + d; }
  }

  ghost predicate MemoryFrom(ds: DeviceSet, x: string, memory: nat, id: string) {
    id in ds && ds[id].index == x && ds[id].totalMemory == memory
  }

  ghost predicate MemoryKnown(total: map<string, nat>, ds: DeviceSet) {
    forall x :: x in total ==> exists id :: MemoryFrom(ds, x, total[x], id)
  }

  /** Memory and replica count per index: the two maps of the first loop. The memory is that of some
      device of the index, the last one visited. */
  ghost predicate Tallied(total: map<string, nat>, replicas: map<string, nat>, ds: DeviceSet) {
    && total.Keys == replicas.Keys
    && (forall x :: x in total <==> Sharing(ds, x) != {})
    && (forall x :: x in total ==> replicas[x] == |Sharing(ds, x)| > 0)
    && MemoryKnown(total, ds)
  }

  lemma SharingOne(done: DeviceSet, id: string, d: Device, x: string)
    requires id !in done
    ensures Sharing(done[id := d], x) == Sharing(done, x) + if x == d.index then {id} else {}
    ensures |Sharing(done[id := d], x)| == |Sharing(done, x)| + if x == d.index then 1 else 0
  {}

  lemma MemoryOne(total: map<string, nat>, done: DeviceSet, id: string, d: Device)
    requires id !in done && MemoryKnown(total, done)
    ensures MemoryKnown(total[d.index := d.totalMemory], done[id := d])
  {
    var total', done' := total[d.index := d.totalMemory], done[id := d];
    forall x | x in total' ensures exists k :: MemoryFrom(done', x, total'[x], k) {
      if x == d.index {
        assert MemoryFrom(done', x, total'[x], id);
      } else {
        var k :| MemoryFrom(done, x, total[x], k);
        assert MemoryFrom(done', x, total'[x], k);
      }
    }
  }

  lemma TallyOne(total: map<string, nat>, replicas: map<string, nat>, done: DeviceSet, id: string, d: Device)
    requires Tallied(total, replicas, done) && id !in done
    ensures Tallied(total[d.index := d.totalMemory],
                    replicas[d.index := (if d.index in replicas then replicas[d.index] else 0) + 1], done[id := d])
  {
    forall x
      ensures |Sharing(done[id := d], x)| == |Sharing(done, x)| + if x == d.index then 1 else 0
      ensures Sharing(done[id := d], x) == {} <==> Sharing(done, x) == {} && x != d.index
    {
      SharingOne(done, id, d, x);
    }
    MemoryOne(total, done, id, d);
    assert d.index !in total ==> |Sharing(done, d.index)| == 0;
    hide Sharing, MemoryKnown;
  }

  method Tally(ds: DeviceSet) returns (total: map<string, nat>, replicas: map<string, nat>)
    ensures Tallied(total, replicas, ds)
  {
    hide Tallied;
    total, replicas := map[], map[];
    var todo := ds.Keys;
    ghost var done: DeviceSet := map[];
    assert Tallied(total, replicas, done) by { TallyNothing(); }
    while todo != {}
      invariant todo <= ds.Keys && done == map id | id in ds && id !in todo :: ds[id]
      invariant Tallied(total, replicas, done)
      decreases todo
    {
      var id :| id in todo;
      todo := todo - {id};
      TallyOne(total, replicas, done, id, ds[id]);
      done := done[id := ds[id]];
      total := total[ds[id].index := ds[id].totalMemory];
      replicas := replicas[ds[id].index := (if ds[id].index in replicas then replicas[ds[id].index] else 0) + 1];
    }
    assert done == ds;
  }

  lemma TallyNothing()
    ensures Tallied(map[], map[], map[])
  {}

  /** The limits give index `x` what the device `id` of that index asks for: the largest share of its
      memory, or no limit if it has no memory. */
  ghost predicate LimitFrom(ds: DeviceSet, limits: map<string, nat>, x: string, id: string) {
    && id in ds && ds[id].index == x
    && (if ds[id].totalMemory == 0 then x !in limits
        else x in limits && LargestShare(limits[x], |Sharing(ds, x)|, ds[id].totalMemory))
  }

  /** The pinned memory limit of each device index, in mebibytes, from some device of the index; when the
      devices of an index share one memory it is the limit for each of them. */
  method PerDevicePinnedDeviceMemoryLimits(ds: DeviceSet) returns (limits: map<string, nat>)
    ensures forall x :: x in limits ==> Sharing(ds, x) != {}
    ensures forall x :: Sharing(ds, x) != {} ==> exists id :: LimitFrom(ds, limits, x, id)
    ensures SharedMemory(ds) ==> forall id :: id in ds ==> LimitFrom(ds, limits, ds[id].index, id)
  {
    hide LargestShare, Sharing;
    var total, replicas := Tally(ds);
    limits := map[];
    var left := total.Keys;
    while left != {}
      invariant left <= total.Keys
      invariant forall x :: x in left ==> replicas[x] > 0
      invariant limits == map x | x in total && x !in left && total[x] > 0 :: total[x] / replicas[x] / MIB
      decreases left
    {
      var x :| x in left;
      left := left - {x};
      if total[x] != 0 { limits := limits[x := total[x] / replicas[x] / MIB]; }
    }
    LimitsMeaning(ds, total, replicas, limits);
  }

  /** What a limit from a device means: none without memory; otherwise as many replicas as the index has fit
      into the memory with it and not with one MiB more. */
  lemma LimitText(ds: DeviceSet, limits: map<string, nat>, x: string, id: string)
    requires LimitFrom(ds, limits, x, id)
    ensures id in ds && ds[id].index == x && (ds[id].totalMemory == 0 <==> x !in limits)
    ensures ds[id].totalMemory > 0 ==>
              var replicas := |set d | d in ds && ds[d].index == x|;
              limits[x] * replicas * 1048576 <= ds[id].totalMemory < (limits[x] + 1) * replicas * 1048576
  {
    if ds[id].totalMemory > 0 {
      ShareBounds(limits[x], |Sharing(ds, x)|, ds[id].totalMemory);
    }
    hide LargestShare;
  }

  lemma SharedText(ds: DeviceSet)
    ensures SharedMemory(ds) <==>
              forall a, b :: a in ds && b in ds && ds[a].totalMemory != ds[b].totalMemory ==> ds[a].index != ds[b].index
  {}

  lemma ShareBounds(limit: nat, replicas: nat, memory: nat)
    requires LargestShare(limit, replicas, memory)
    ensures limit * replicas * 1048576 <= memory < (limit + 1) * replicas * 1048576
  {}

  lemma SameLimit(ds: DeviceSet, limits: map<string, nat>, id: string, other: string)
    requires SharedMemory(ds) && id in ds && LimitFrom(ds, limits, ds[id].index, other)
    ensures LimitFrom(ds, limits, ds[id].index, id)
  {
    hide LargestShare, Sharing;
  }

  lemma LimitsMeaning(ds: DeviceSet, total: map<string, nat>, replicas: map<string, nat>, limits: map<string, nat>)
    requires Tallied(total, replicas, ds)
    requires limits == map x | x in total && total[x] > 0 :: total[x] / replicas[x] / MIB
    ensures forall x :: x in limits ==> Sharing(ds, x) != {}
    ensures forall x :: Sharing(ds, x) != {} ==> exists id :: LimitFrom(ds, limits, x, id)
    ensures SharedMemory(ds) ==> forall id :: id in ds ==> LimitFrom(ds, limits, ds[id].index, id)
  {
    hide LargestShare;
    forall x | Sharing(ds, x) != {} ensures exists id :: LimitFrom(ds, limits, x, id) {
      ShareByDivision(total[x], replicas[x]);
      var id :| MemoryFrom(ds, x, total[x], id);
      assert LimitFrom(ds, limits, x, id);
    }
    if SharedMemory(ds) {
      hide Tallied;
      forall id | id in ds ensures LimitFrom(ds, limits, ds[id].index, id) {
        assert id in Sharing(ds, ds[id].index);
        var other :| LimitFrom(ds, limits, ds[id].index, other);
        SameLimit(ds, limits, id, other);
      }
    }
  }

  ghost function UuidsOf(keys: set<string>, ds: DeviceSet): set<string>
    requires keys <= ds.Keys
  {
    set id | id in keys :: GetId(ds[id].id)
  }

  ghost function Uuids(ds: DeviceSet): set<string> { UuidsOf(ds.Keys, ds) }

  /** The distinct UUIDs in map-iteration order. */
  method GetUuids(ds: DeviceSet) returns (res: seq<string>)
    ensures NoDup(res) && Elements(res) == Uuids(ds)
    ensures forall u :: u in res <==> exists id :: id in ds && u == GetId(ds[id].id)
  {
    res := [];
    var seen: map<string, bool> := map[];
    var todo := ds.Keys;
    while todo != {}
      invariant todo <= ds.Keys && NoDup(res)
      invariant forall u :: u in res <==> u in seen
      invariant Elements(res) == UuidsOf(ds.Keys - todo, ds)
      decreases todo
    {
      var id :| id in todo;
      todo := todo - {id};
      var uuid := GetId(ds[id].id);
      ElementsSnoc(res, uuid);
      if uuid !in seen {
        seen := seen[uuid := true];
        res := res + [uuid];
      }
    }
    assert forall u :: u in res <==> u in Elements(res);
  }

  lemma {:induction false} UuidsFewer(keys: set<string>, ds: DeviceSet)
    requires keys <= ds.Keys
    ensures |UuidsOf(keys, ds)| <= |keys|
    decreases keys
  {
    if keys != {} {
      var id :| id in keys;
      UuidsFewer(keys - {id}, ds);
      assert UuidsOf(keys, ds) == UuidsOf(keys - {id}, ds) + {GetId(ds[id].id)};
    }
  }

  /** The share of threads each replica may use; nothing when there are no devices. The inner division
      never divides by zero: it is the largest percentage that fits 100 as often as there are replicas
      per GPU on average, rounded down. With `r` replicas of every GPU it is the largest percentage
      whose product with `r` is at most 100. */
  method ActiveThreadPercentage(ds: DeviceSet) returns (p: Option<nat>)
    ensures p.None? <==> ds == map[]
    ensures p.Some? ==> |Uuids(ds)| > 0 && p.value <= 100
    ensures forall q: nat :: p.Some? ==> (q <= p.value <==> q * (|ds| / |Uuids(ds)|) <= 100)
    ensures forall r: nat :: p.Some? && r > 0 && |ds| == |Uuids(ds)| * r ==> p.value * r <= 100 < (p.value + 1) * r
  {
    if |ds| == 0 { return None; }
    var uuids := GetUuids(ds);
    NoDupCardinality(uuids);
    UuidsFewer(ds.Keys, ds);
    var some :| some in ds;
    assert GetId(ds[some].id) in Uuids(ds);
    assert |ds.Keys| == |ds|;
    DivIff(1, |ds|, |uuids|);
    var replicasPerDevice := |ds| / |uuids|;
    p := Some(100 / replicasPerDevice);
    DivIff(p.value, 100, replicasPerDevice);
    DivIff(p.value + 1, 100, replicasPerDevice);
    DivIff(101, 100, replicasPerDevice);
    forall q: nat ensures q <= p.value <==> q * replicasPerDevice <= 100 { DivIff(q, 100, replicasPerDevice); }
    forall r: nat | r > 0 && |ds| == |Uuids(ds)| * r ensures replicasPerDevice == r {
      DivIff(r, |ds|, |uuids|);
      DivIff(r + 1, |ds|, |uuids|);
      assert (r + 1) * |uuids| > |ds|;
    }
  }
}
