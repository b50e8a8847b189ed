/** Consuming the pod annotation one container at a time (pkg/util/util.go): the next request of a
    device type, its erasure, and what repeating the two does. */
module PodDrain {
  import opened Text
  import opened PodCodec

  // ---------- one step, on decoded devices ----------

  function OfType(cd: ContainerDevices, dtype: string): ContainerDevices {
    if cd == [] then []
    else (if cd[0].dtype == dtype then [cd[0]] else []) + OfType(cd[1..], dtype)
  }

  function NotOfType(cd: ContainerDevices, dtype: string): ContainerDevices {
    if cd == [] then []
    else (if cd[0].dtype == dtype then [] else [cd[0]]) + NotOfType(cd[1..], dtype)
  }

  predicate Holds(cd: ContainerDevices, dtype: string) {
    exists j :: 0 <= j < |cd| && cd[j].dtype == dtype
  }

  /** The first container at or after `from` that holds a device of the type. */
  function NextHolder(pd: PodDevices, dtype: string, from: nat): (i: nat)
    requires from <= |pd|
    ensures from <= i <= |pd|
    ensures i < |pd| ==> Holds(pd[i], dtype)
    ensures forall k :: from <= k < i ==> !Holds(pd[k], dtype)
    decreases |pd| - from
  {
    if from == |pd| || Holds(pd[from], dtype) then from else NextHolder(pd, dtype, from + 1)
  }

  /** Container index and devices of the next request of a type. */
  function NextRequest(pd: PodDevices, dtype: string): Option<(nat, ContainerDevices)> {
    var i := NextHolder(pd, dtype, 0);
    if i == |pd| then None else Some((i, OfType(pd[i], dtype)))
  }

  function EraseNext(pd: PodDevices, dtype: string): PodDevices {
    var i := NextHolder(pd, dtype, 0);
    if i == |pd| then pd else pd[i := NotOfType(pd[i], dtype)]
  }

  lemma {:induction false} FilterSnoc(cd: ContainerDevices, d: ContainerDevice, dtype: string)
    ensures OfType(cd + [d], dtype) == OfType(cd, dtype) + if d.dtype == dtype then [d] else []
  {
    if cd == [] {
      assert cd + [d] == [d];
    } else {
      var all := cd + [d];
      assert all[0] == cd[0] && all[1..] == cd[1..] + [d];
      FilterSnoc(cd[1..], d, dtype);
      var head := if cd[0].dtype == dtype then [cd[0]] else [];
      assert OfType(all, dtype) == head + OfType(all[1..], dtype);
    }
  }

  lemma {:induction false} FilterOutSnoc(cd: ContainerDevices, d: ContainerDevice, dtype: string)
    ensures NotOfType(cd + [d], dtype) == NotOfType(cd, dtype) + if d.dtype == dtype then [] else [d]
  {
    if cd == [] {
      assert cd + [d] == [d];
    } else {
      var all := cd + [d];
      assert all[0] == cd[0] && all[1..] == cd[1..] + [d];
      FilterOutSnoc(cd[1..], d, dtype);
      var head := if cd[0].dtype == dtype then [] else [cd[0]];
      assert NotOfType(all, dtype) == head + NotOfType(all[1..], dtype);
    }
  }

  /** Filtering splits a container's devices in two without loss. */
  lemma {:induction false} FilterSplits(cd: ContainerDevices, dtype: string)
    ensures multiset(OfType(cd, dtype)) + multiset(NotOfType(cd, dtype)) == multiset(cd)
    ensures |OfType(cd, dtype)| + |NotOfType(cd, dtype)| == |cd|
  {
    if cd != [] {
      FilterSplits(cd[1..], dtype);
      assert cd == [cd[0]] + cd[1..];
    }
  }

  /** One part has only the type, the other none of it, and the other is everything exactly when the
      container holds none of the type. */
  lemma {:induction false} FilterTypes(cd: ContainerDevices, dtype: string)
    ensures forall j :: 0 <= j < |OfType(cd, dtype)| ==> OfType(cd, dtype)[j].dtype == dtype
    ensures !Holds(NotOfType(cd, dtype), dtype)
    ensures OfType(cd, dtype) == [] <==> !Holds(cd, dtype)
    ensures !Holds(cd, dtype) ==> NotOfType(cd, dtype) == cd
  {
    if cd != [] {
      var tail := cd[1..];
      FilterTypes(tail, dtype);
      assert cd == [cd[0]] + tail;
      if Holds(tail, dtype) {
        var j :| 0 <= j < |tail| && tail[j].dtype == dtype;
        assert cd[j + 1].dtype == dtype;
      }
    }
  }

  /** The devices of a type in a container, and the rest. */
  method Partition(cd: ContainerDevices, dtype: string)
    returns (found: bool, mine: ContainerDevices, rest: ContainerDevices)
    ensures found <==> Holds(cd, dtype)
    ensures mine == OfType(cd, dtype) && rest == NotOfType(cd, dtype)
  {
    found, mine, rest := false, [], [];
    for k := 0 to |cd|
      invariant found <==> exists j :: 0 <= j < k && cd[j].dtype == dtype
      invariant mine == OfType(cd[..k], dtype) && rest == NotOfType(cd[..k], dtype)
    {
      assert cd[..k + 1] == cd[..k] + [cd[k]];
      FilterSnoc(cd[..k], cd[k], dtype);
      FilterOutSnoc(cd[..k], cd[k], dtype);
      if cd[k].dtype == dtype {
        found, mine := true, mine + [cd[k]];
      } else {
        rest := rest + [cd[k]];
      }
    }
    assert cd[..|cd|] == cd;
  }

  // ---------- one step, on the annotation ----------

  /** Outcome of looking for the next request. `Panics` is an index out of range: a malformed
      annotation, or one that lists more containers than the pod has. */
  datatype Request = Found(container: string, devices: ContainerDevices) | NotFound | Panics

  function RequestIn(annotation: string, dtype: string, containers: seq<string>): Request {
    match Decoded(annotation)
    case None => Panics
    case Some(pd) =>
      match NextRequest(pd, dtype)
      case None => NotFound
      case Some((i, devs)) => if i < |containers| then Found(containers[i], devs) else Panics
  }

  /** The answer to a request: the first container with a device of the type, by the name it has in the pod,
      with its devices of the type in order; nothing when no container has one. */
  lemma RequestMeaning(annotation: string, dtype: string, containers: seq<string>, pd: PodDevices)
    requires Decoded(annotation) == Some(pd)
    ensures RequestIn(annotation, dtype, containers) == NotFound <==>
              forall k, j :: 0 <= k < |pd| && 0 <= j < |pd[k]| ==> pd[k][j].dtype != dtype
    ensures forall i :: 0 <= i < |pd| && (exists j :: 0 <= j < |pd[i]| && pd[i][j].dtype == dtype)
                        && (forall k, j :: 0 <= k < i && 0 <= j < |pd[k]| ==> pd[k][j].dtype != dtype) ==>
              RequestIn(annotation, dtype, containers) ==
              if i < |containers| then Found(containers[i], OfType(pd[i], dtype)) else Panics
  {
    hide Decoded, OfType;
    var h := NextHolder(pd, dtype, 0);
    forall i | 0 <= i < |pd| && (exists j :: 0 <= j < |pd[i]| && pd[i][j].dtype == dtype)
               && (forall k, j :: 0 <= k < i && 0 <= j < |pd[k]| ==> pd[k][j].dtype != dtype)
      ensures h == i
    {
      assert Holds(pd[i], dtype);
      assert forall k :: 0 <= k < i ==> !Holds(pd[k], dtype);
    }
  }

  /** The annotation after the next request of the type is erased; `None` is an index panic. */
  function Erased(annotation: string, dtype: string): Option<string> {
    match Decoded(annotation)
    case None => None
    case Some(pd) => Some(Encoded(EraseNext(pd, dtype)))
  }

  method GetNextDeviceRequest(dtype: string, annotation: string, containers: seq<string>) returns (r: Request)
    ensures r == RequestIn(annotation, dtype, containers)
  {
    var pdevices, _ := DecodePodDevices(annotation);
    if pdevices.None? { return Panics; }
    var pd := pdevices.value;
    for idx := 0 to |pd|
      invariant NextHolder(pd, dtype, 0) == NextHolder(pd, dtype, idx)
    {
      var found, res, _ := Partition(pd[idx], dtype);
      if found {
        return if idx < |containers| then Found(containers[idx], res) else Panics;
      }
    }
    return NotFound;
  }

  method EraseNextDeviceTypeFromAnnotation(dtype: string, annotation: string) returns (r: Option<string>)
    ensures r == Erased(annotation, dtype)
  {
    hide Encoded, Decoded, EraseNext;
    var pdevices, _ := DecodePodDevices(annotation);
    if pdevices.None? { return None; }
    var res := EraseFrom(pdevices.value, dtype);
    var s := EncodePodDevices(res);
    r := Some(s);
  }

  /** The devices with the first holder's devices of the type left out. */
  method EraseFrom(pd: PodDevices, dtype: string) returns (res: PodDevices)
    ensures res == EraseNext(pd, dtype)
  {
    hide NotOfType, OfType;
    res := [];
    var found := false;
    ghost var h := NextHolder(pd, dtype, 0);
    for k := 0 to |pd|
      invariant found <==> h < k
      invariant |res| == k
      invariant forall j :: 0 <= j < k ==> res[j] == if j == h then NotOfType(pd[j], dtype) else pd[j]
    {
      if found {
        res := res + [pd[k]];
      } else {
        var here, _, rest := Partition(pd[k], dtype);
        found := here;
        res := res + [if found then rest else pd[k]];
      }
    }
  }

  // ---------- repeating the step ----------

  /** The indices, in order, of the containers from `from` on that hold the type. */
  function Holders(pd: PodDevices, dtype: string, from: nat): (h: seq<nat>)
    requires from <= |pd|
    ensures forall a :: 0 <= a < |h| ==> h[a] < |pd|
    decreases |pd| - from
  {
    var i := NextHolder(pd, dtype, from);
    if i == |pd| then [] else [i] + Holders(pd, dtype, i + 1)
  }

  /** The devices left when the containers before index `upTo` have given up the type. */
  function Drained(pd: PodDevices, dtype: string, upTo: nat): (r: PodDevices)
    ensures |r| == |pd|
  {
    seq(|pd|, i requires 0 <= i < |pd| => if i < upTo then NotOfType(pd[i], dtype) else pd[i])
  }

  /** How far the first `k` steps have drained. */
  function Frontier(pd: PodDevices, dtype: string, k: nat): nat
    requires k <= |Holders(pd, dtype, 0)|
  {
    if k == 0 then 0 else Holders(pd, dtype, 0)[k - 1] + 1
  }

  function AnnotationAfter(annotation: string, dtype: string, k: nat): Option<string> {
    if k == 0 then Some(annotation)
    else match AnnotationAfter(annotation, dtype, k - 1)
      case None => None
      case Some(a) => Erased(a, dtype)
  }

  ghost predicate Ascending(h: seq<nat>, from: nat) {
    && (forall a, b :: 0 <= a < b < |h| ==> h[a] < h[b])
    && forall a :: 0 <= a < |h| ==> from <= h[a]
  }

  lemma AscendingCons(i: nat, rest: seq<nat>, from: nat)
    requires from <= i && Ascending(rest, i + 1)
    ensures Ascending([i] + rest, from)
    ensures forall k :: k in [i] + rest <==> k == i || k in rest
  {}

  lemma {:induction false} HoldersInOrder(pd: PodDevices, dtype: string, from: nat)
    requires from <= |pd|
    ensures Ascending(Holders(pd, dtype, from), from)
    ensures forall i: nat :: i in Holders(pd, dtype, from) <==> from <= i < |pd| && Holds(pd[i], dtype)
    decreases |pd| - from
  {
    var i := NextHolder(pd, dtype, from);
    if i < |pd| {
      assert Holders(pd, dtype, from) == [i] + Holders(pd, dtype, i + 1);
      hide *;
      HoldersInOrder(pd, dtype, i + 1);
      AscendingCons(i, Holders(pd, dtype, i + 1), from);
    } else {
      assert Holders(pd, dtype, from) == [];
      hide *;
      AscendingNone(from);
    }
  }

  lemma AscendingNone(from: nat)
    ensures Ascending([], from)
  {}

  /** The `k`-th holder is the next one when everything before it is drained. */
  lemma {:induction false} HolderAt(pd: PodDevices, dtype: string, from: nat, k: nat)
    requires from <= |pd| && k <= |Holders(pd, dtype, from)|
    ensures var h := Holders(pd, dtype, from);
      var start := if k == 0 then from else h[k - 1] + 1;
      && start <= |pd|
      && NextHolder(pd, dtype, start) == if k < |h| then h[k] else |pd|
    decreases |pd| - from
  {
    var i := NextHolder(pd, dtype, from);
    if i < |pd| {
      if k > 0 {
        HolderAt(pd, dtype, i + 1, k - 1);
      }
    }
  }

  /** In a partly drained pod the next holder is the first holder past the drained part. */
  lemma NextInDrained(pd: PodDevices, dtype: string, upTo: nat)
    requires upTo <= |pd|
    ensures NextHolder(Drained(pd, dtype, upTo), dtype, 0) == NextHolder(pd, dtype, upTo)
  {
    var d := Drained(pd, dtype, upTo);
    forall k | 0 <= k < upTo ensures !Holds(d[k], dtype) { FilterTypes(pd[k], dtype); }
    assert forall k :: upTo <= k < |pd| ==> d[k] == pd[k];
  }

  /** Draining one more container extends the drained part up to and including it. */
  lemma DrainOne(pd: PodDevices, dtype: string, upTo: nat)
    requires upTo <= |pd|
    ensures var i := NextHolder(pd, dtype, upTo);
      && NextRequest(Drained(pd, dtype, upTo), dtype) ==
           (if i == |pd| then None else Some((i, OfType(pd[i], dtype))))
      && EraseNext(Drained(pd, dtype, upTo), dtype) == Drained(pd, dtype, if i == |pd| then upTo else i + 1)
  {
    NextInDrained(pd, dtype, upTo);
    var i := NextHolder(pd, dtype, upTo);
    if i < |pd| {
      forall k | upTo <= k < i ensures NotOfType(pd[k], dtype) == pd[k] { FilterTypes(pd[k], dtype); }
      assert EraseNext(Drained(pd, dtype, upTo), dtype) == Drained(pd, dtype, i + 1);
    }
  }

  lemma {:induction false} RestClean(cd: ContainerDevices, dtype: string)
    requires forall j :: 0 <= j < |cd| ==> Clean(cd[j])
    ensures forall j :: 0 <= j < |NotOfType(cd, dtype)| ==> Clean(NotOfType(cd, dtype)[j])
  {
    if cd != [] { RestClean(cd[1..], dtype); }
  }

  /** A single empty container is not told apart from none by the annotation. */
  function Collapse(pd: PodDevices): PodDevices { if pd == [[]] then [] else pd }

  lemma CollapseInvisible(pd: PodDevices, dtype: string)
    ensures NextRequest(Collapse(pd), dtype) == NextRequest(pd, dtype)
    ensures Encoded(EraseNext(Collapse(pd), dtype)) == Encoded(EraseNext(pd, dtype))
  {}

  lemma DecodedDrained(pd: PodDevices, dtype: string, upTo: nat)
    requires AllCleanDevices(pd)
    ensures Decoded(Encoded(Drained(pd, dtype, upTo))) == Some(Collapse(Drained(pd, dtype, upTo)))
  {
    DrainedClean(pd, dtype, upTo);
    RoundTrip(Drained(pd, dtype, upTo));
  }

  /** Erasing from a partly drained annotation drains the next holder. */
  lemma ErasedDrained(pd: PodDevices, dtype: string, upTo: nat)
    requires AllCleanDevices(pd) && upTo <= |pd|
    ensures var i := NextHolder(pd, dtype, upTo);
      Erased(Encoded(Drained(pd, dtype, upTo)), dtype) ==
      Some(Encoded(Drained(pd, dtype, if i == |pd| then upTo else i + 1)))
  {
    DecodedDrained(pd, dtype, upTo);
    DrainOne(pd, dtype, upTo);
    CollapseInvisible(Drained(pd, dtype, upTo), dtype);
  }

  /** The step from `k - 1` to `k` erasures passes the holder the request was taken from. */
  lemma FrontierStep(pd: PodDevices, dtype: string, k: nat)
    requires 0 < k <= |Holders(pd, dtype, 0)|
    ensures Frontier(pd, dtype, k - 1) <= |pd|
    ensures NextHolder(pd, dtype, Frontier(pd, dtype, k - 1)) < |pd|
    ensures Frontier(pd, dtype, k) == NextHolder(pd, dtype, Frontier(pd, dtype, k - 1)) + 1
  {
    HolderAt(pd, dtype, 0, k - 1);
  }

  /** The encoding of the devices with the first `k` holders drained. */
  ghost function DrainedAnnotation(pd: PodDevices, dtype: string, k: nat): string
    requires k <= |Holders(pd, dtype, 0)|
  {
    Encoded(Drained(pd, dtype, Frontier(pd, dtype, k)))
  }

  lemma DrainedStep(pd: PodDevices, dtype: string, k: nat)
    requires AllCleanDevices(pd) && 0 < k <= |Holders(pd, dtype, 0)|
    ensures Erased(DrainedAnnotation(pd, dtype, k - 1), dtype) == Some(DrainedAnnotation(pd, dtype, k))
  {
    hide Encoded, Decoded, Erased, Drained, Holders;
    FrontierStep(pd, dtype, k);
    ErasedDrained(pd, dtype, Frontier(pd, dtype, k - 1));
  }

  lemma DrainedNothing(pd: PodDevices, dtype: string)
    ensures Drained(pd, dtype, 0) == pd
  {}

  /** The first erasure of any annotation that decodes to `pd`, whoever wrote it. */
  lemma FirstErasure(s: string, pd: PodDevices, dtype: string)
    requires Decoded(s) == Some(pd) && |Holders(pd, dtype, 0)| > 0
    ensures Erased(s, dtype) == Some(DrainedAnnotation(pd, dtype, 1))
  {
    assert Frontier(pd, dtype, 0) == 0;
    assert Erased(s, dtype) == Some(Encoded(EraseNext(pd, dtype)));
    assert DrainedAnnotation(pd, dtype, 1) == Encoded(Drained(pd, dtype, Frontier(pd, dtype, 1)));
    hide *;
    DrainedNothing(pd, dtype);
    DrainOne(pd, dtype, 0);
    FrontierStep(pd, dtype, 1);
  }

  /** `k` erasures take any annotation that decodes to `pd` to the drained one. */
  lemma {:induction false} AnnotationDrained(s: string, pd: PodDevices, dtype: string, k: nat)
    requires Decoded(s) == Some(pd) && 0 < k <= |Holders(pd, dtype, 0)|
    ensures AnnotationAfter(s, dtype, k) == Some(DrainedAnnotation(pd, dtype, k))
  {
    hide Encoded, Decoded, Erased, DrainedAnnotation;
    if k == 1 {
      FirstErasure(s, pd, dtype);
      assert AnnotationAfter(s, dtype, 0) == Some(s);
    } else {
      AnnotationDrained(s, pd, dtype, k - 1);
      DecodedClean(s);
      DrainedStep(pd, dtype, k);
    }
  }

  lemma DrainedClean(pd: PodDevices, dtype: string, upTo: nat)
    requires AllCleanDevices(pd)
    ensures AllCleanDevices(Drained(pd, dtype, upTo))
  {
    var now := Drained(pd, dtype, upTo);
    forall i, j | 0 <= i < |now| && 0 <= j < |now[i]| ensures Clean(now[i][j]) {
      RestClean(pd[i], dtype);
    }
  }

  /** The next request after the first `k` holders are drained is the `k`-th holder's. */
  lemma NextAfterDrain(pd: PodDevices, dtype: string, k: nat)
    requires k <= |Holders(pd, dtype, 0)|
    ensures var h, d := Holders(pd, dtype, 0), Drained(pd, dtype, Frontier(pd, dtype, k));
      && NextRequest(d, dtype) == (if k < |h| then Some((h[k], OfType(pd[h[k]], dtype))) else None)
      && NextRequest(Collapse(d), dtype) == NextRequest(d, dtype)
  {
    hide Drained, OfType, NotOfType, NextRequest, EraseNext;
    HolderAt(pd, dtype, 0, k);
    DrainOne(pd, dtype, Frontier(pd, dtype, k));
    CollapseInvisible(Drained(pd, dtype, Frontier(pd, dtype, k)), dtype);
  }

  /** The drain protocol, for every annotation that decodes, whoever wrote it: after `k` erasures it
      decodes to the original devices with exactly the first `k` holders drained of the type and every
      other device at its container index; the next request is the `k`-th holder's, and after as many
      steps as there are holders nothing is found. */
  lemma DrainProtocol(s: string, pd: PodDevices, dtype: string, k: nat)
    requires Decoded(s) == Some(pd) && k <= |Holders(pd, dtype, 0)|
    ensures var h, d := Holders(pd, dtype, 0), Drained(pd, dtype, Frontier(pd, dtype, k));
      var a := AnnotationAfter(s, dtype, k);
      && a.Some?
      && Decoded(a.value) == Some(if k == 0 then pd else Collapse(d))
      && NextRequest(Decoded(a.value).value, dtype) ==
           if k < |h| then Some((h[k], OfType(pd[h[k]], dtype))) else None
  {
    if k == 0 {
      assert Drained(pd, dtype, 0) == pd;
    }
    hide Encoded, Decoded, Drained, OfType, NextRequest, Collapse;
    NextAfterDrain(pd, dtype, k);
    if k > 0 {
      AnnotationDrained(s, pd, dtype, k);
      DecodedClean(s);
      DecodedDrained(pd, dtype, Frontier(pd, dtype, k));
    }
  }

  lemma {:induction false} CountUpdate(pd: PodDevices, i: nat, cd: ContainerDevices)
    requires i < |pd|
    ensures DeviceCount(pd[i := cd]) == DeviceCount(pd) - |pd[i]| + |cd|
  {
    if i == 0 {
      assert pd[i := cd][1..] == pd[1..];
    } else {
      assert pd[i := cd][1..] == pd[1..][i - 1 := cd];
      CountUpdate(pd[1..], i - 1, cd);
    }
  }

  /** Erasing removes as many devices as the request returned. */
  lemma EraseCount(pd: PodDevices, dtype: string)
    ensures DeviceCount(EraseNext(pd, dtype)) ==
            DeviceCount(pd) - match NextRequest(pd, dtype) case None => 0 case Some((_, devs)) => |devs|
  {
    var i := NextHolder(pd, dtype, 0);
    if i < |pd| {
      FilterSplits(pd[i], dtype);
      CountUpdate(pd, i, NotOfType(pd[i], dtype));
    }
  }
}
