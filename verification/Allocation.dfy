/** The pod allocation protocol: `Allocate` (pkg/plugin/server.go) over the pods of a cluster and the
    annotations of the plugin's node, with the helpers of pkg/util/util.go. */
module Allocation {
  import opened Text
  import opened AnnotatedIds
  import opened PodCodec
  import opened PodDrain

  /** The annotation keys the protocol reads or writes. */
  datatype Key =
    | TimeKey          // volcano.sh/vgpu-time
    | ToAllocateKey    // volcano.sh/devices-to-allocate
    | NodeKey          // volcano.sh/vgpu-node
    | PhaseKey         // volcano.sh/bind-phase
    | LockKey          // hamivgpu, on the node
    | OtherKey(name: string)

  type Annotations = map<Key, string>

  const LAST_TIME := "18446744073709551615"  // the decimal form of the largest uint64
  const PHASE_FAILED := "failed"
  const PHASE_SUCCESS := "success"
  const NVIDIA := "NVIDIA"
  const COMMON_WORD := "GPU"
  const POD_ANNOTATION_MAX_LENGTH := 1024 * 1024

  /** Both marks a finished allocation leaves: the phase, and a time that sorts last. */
  function Finished(phase: string): Annotations {
    map[PhaseKey := phase, TimeKey := LAST_TIME]
  }

  datatype Pod = Pod(annotations: Annotations, containers: seq<string>)

  /** Pods by UID, and the node's annotations. */
  datatype State = State(pods: map<string, Pod>, node: Annotations)

  /** A missing annotation reads as the empty string. */
  function Lookup(m: Annotations, key: Key): string { if key in m then m[key] else "" }

  function ToAllocate(p: Pod): string { Lookup(p.annotations, ToAllocateKey) }

  // ---------- the pending pod ----------

  predicate OnNode(p: Pod, nodeName: string) { Lookup(p.annotations, NodeKey) == nodeName }

  predicate Malformed(p: Pod, nodeName: string) { OnNode(p, nodeName) && Decoded(ToAllocate(p)).None? }

  /** A pod of the node with as many devices over all its containers as the request asks for. */
  predicate Eligible(p: Pod, nodeName: string, amount: nat) {
    && OnNode(p, nodeName)
    && Decoded(ToAllocate(p)).Some?
    && DeviceCount(Decoded(ToAllocate(p)).value) == amount
  }

  /** The scheduling time; missing, overlong and malformed times sort last. */
  function PredicateTime(p: Pod): nat {
    if TimeKey !in p.annotations then MAX_UINT64
    else if |p.annotations[TimeKey]| > POD_ANNOTATION_MAX_LENGTH then MAX_UINT64
    else match ParseUint(p.annotations[TimeKey], MAX_UINT64)
      case Value(n) => n
      case _ => MAX_UINT64
  }

  /** The time read, for every annotation text: the number it is the decimal form of, or the largest one
      when it is missing, overlong, empty, holds anything but digits, or overflows. */
  lemma TimeMeaning(p: Pod, digits: string, tail: string)
    requires AllDigits(digits) && (tail == "" || !IsDigit(tail[0]))
    ensures TimeKey !in p.annotations ==> PredicateTime(p) == 0xFFFF_FFFF_FFFF_FFFF
    ensures TimeKey in p.annotations && p.annotations[TimeKey] == digits + tail ==>
              PredicateTime(p) ==
              if digits == "" || tail != "" || |digits| > 0x10_0000 || Horner(digits, 0) > 0xFFFF_FFFF_FFFF_FFFF
              then 0xFFFF_FFFF_FFFF_FFFF else Horner(digits, 0)
  {
    hide Horner, IsDigit;
    ScanMixed(digits, tail, 0, MAX_UINT64);
  }

  /** A time as the scheduler writes it is read back. */
  lemma WrittenTime(p: Pod, n: nat)
    requires n <= 0xFFFF_FFFF_FFFF_FFFF
    requires TimeKey in p.annotations && p.annotations[TimeKey] == Digits(n)
    ensures PredicateTime(p) == n
  {
    Digits64(n);
    HornerDigits(n);
    assert Digits(n) + "" == Digits(n);
    TimeMeaning(p, Digits(n), "");
  }

  /** Which pods a request is for: those of the node, by their annotation, whose devices over all
      containers are as many as asked for. */
  lemma EligibleMeaning(p: Pod, nodeName: string, amount: nat)
    ensures Eligible(p, nodeName, amount) <==>
              && (if NodeKey in p.annotations then p.annotations[NodeKey] == nodeName else nodeName == "")
              && exists pd: PodDevices ::
                   && Decoded(if ToAllocateKey in p.annotations then p.annotations[ToAllocateKey] else "") == Some(pd)
                   && DeviceCount(pd) == amount
    ensures Malformed(p, nodeName) <==>
              && (if NodeKey in p.annotations then p.annotations[NodeKey] == nodeName else nodeName == "")
              && Decoded(if ToAllocateKey in p.annotations then p.annotations[ToAllocateKey] else "") == None
  {
    hide Decoded, DeviceCount;
  }

  datatype Pick = Chosen(k: nat) | Nobody | PickPanics

  /** `filtered` lists, in order, the eligible ones among the first `k` pods. */
  ghost predicate FilteredTo(filtered: seq<nat>, pods: seq<Pod>, nodeName: string, amount: nat, k: nat)
    requires k <= |pods|
  {
    && (forall j: nat :: j in filtered <==> j < k && Eligible(pods[j], nodeName, amount))
    && forall i, i' :: 0 <= i < i' < |filtered| ==> filtered[i] < filtered[i']
  }

  lemma FilterOneMore(filtered: seq<nat>, pods: seq<Pod>, nodeName: string, amount: nat, k: nat)
    requires k < |pods| && FilteredTo(filtered, pods, nodeName, amount, k)
    ensures FilteredTo(filtered + if Eligible(pods[k], nodeName, amount) then [k] else [],
                       pods, nodeName, amount, k + 1)
  {
    hide Eligible;
    assert forall i :: 0 <= i < |filtered| ==> filtered[i] in filtered;
    assert forall j :: j in filtered + [k] <==> j in filtered || j == k;
    assert filtered + [] == filtered;
  }

  /** The eligible pods, by position; `None` when some pod of the node has a malformed annotation. */
  method FilterEligible(pods: seq<Pod>, nodeName: string, amount: nat) returns (r: Option<seq<nat>>)
    ensures r.None? <==> exists j :: 0 <= j < |pods| && Malformed(pods[j], nodeName)
    ensures r.Some? ==> FilteredTo(r.value, pods, nodeName, amount, |pods|)
    ensures r.Some? ==> forall j: nat :: j in r.value <==> j < |pods| && Eligible(pods[j], nodeName, amount)
    ensures r.Some? ==> forall i, i' :: 0 <= i < i' < |r.value| ==> r.value[i] < r.value[i']
  {
    hide Decoded, DeviceCount, FilteredTo;
    var filtered: seq<nat> := [];
    assert FilteredTo([], pods, nodeName, amount, 0) by { FilterNothing(pods, nodeName, amount); }
    for k := 0 to |pods|
      invariant forall j :: 0 <= j < k ==> !Malformed(pods[j], nodeName)
      invariant FilteredTo(filtered, pods, nodeName, amount, k)
    {
      FilterOneMore(filtered, pods, nodeName, amount, k);
      assert filtered + [] == filtered;
      if Lookup(pods[k].annotations, NodeKey) == nodeName {
        var pd, count := DecodePodDevices(ToAllocate(pods[k]));
        if pd.None? {
          assert Malformed(pods[k], nodeName);
          return None;
        }
        if count == amount { filtered := filtered + [k]; }
      }
    }
    r := Some(filtered);
    FilteredMeaning(filtered, pods, nodeName, amount);
  }

  lemma FilteredMeaning(filtered: seq<nat>, pods: seq<Pod>, nodeName: string, amount: nat)
    requires FilteredTo(filtered, pods, nodeName, amount, |pods|)
    ensures forall j: nat :: j in filtered <==> j < |pods| && Eligible(pods[j], nodeName, amount)
    ensures forall i, i' :: 0 <= i < i' < |filtered| ==> filtered[i] < filtered[i']
  {}

  lemma FilterNothing(pods: seq<Pod>, nodeName: string, amount: nat)
    ensures FilteredTo([], pods, nodeName, amount, 0)
  {}

  /** `getOldestPod`: an eligible pod with the least predicate time; among equally old ones the last eligible
      pod if it is one of them, else the first. */
  method GetOldestPod(pods: seq<Pod>, nodeName: string, amount: nat) returns (r: Pick)
    ensures r.PickPanics? <==> exists j :: 0 <= j < |pods| && Malformed(pods[j], nodeName)
    ensures r.Nobody? ==> forall j :: 0 <= j < |pods| ==> !Eligible(pods[j], nodeName, amount)
    ensures r.Chosen? ==>
              && r.k < |pods|
              && Eligible(pods[r.k], nodeName, amount)
              && (forall j :: 0 <= j < |pods| && Eligible(pods[j], nodeName, amount) ==>
                    PredicateTime(pods[r.k]) <= PredicateTime(pods[j]))
              && ((forall j :: r.k < j < |pods| ==> !Eligible(pods[j], nodeName, amount)) ||
                  forall j :: 0 <= j < r.k && Eligible(pods[j], nodeName, amount) ==>
                    PredicateTime(pods[r.k]) < PredicateTime(pods[j]))
  {
    var eligible := FilterEligible(pods, nodeName, amount);
    if eligible.None? { return PickPanics; }
    if eligible.value == [] {
      assert forall j: nat :: j !in eligible.value;
      return Nobody;
    }
    var times := seq(|pods|, j requires 0 <= j < |pods| => PredicateTime(pods[j]));
    var oldest := OldestOf(times, eligible.value);
    r := Chosen(oldest);
  }

  /** The loop that keeps the oldest pod so far, starting from the last eligible one. */
  method OldestOf(times: seq<nat>, filtered: seq<nat>) returns (oldest: nat)
    requires filtered != [] && forall j :: j in filtered ==> j < |times|
    requires forall i, i' :: 0 <= i < i' < |filtered| ==> filtered[i] < filtered[i']
    ensures oldest in filtered && forall j :: j in filtered ==> times[oldest] <= times[j]
    ensures (forall j :: j in filtered ==> j <= oldest) ||
            (forall j :: j in filtered && j < oldest ==> times[oldest] < times[j])
  {
    var last := filtered[|filtered| - 1];
    oldest := last;
    for i := 0 to |filtered|
      invariant oldest in filtered && times[oldest] <= times[last]
      invariant forall j :: 0 <= j < i ==> times[oldest] <= times[filtered[j]]
      invariant oldest == last ||
                forall j :: 0 <= j < |filtered| && filtered[j] < oldest ==> times[oldest] < times[filtered[j]]
    {
      if times[oldest] > times[filtered[i]] { oldest := filtered[i]; }
    }
  }

  // ---------- one Allocate call, as a function of the state ----------

  /** One request with what the rest of the plugin contributes: whether it is for the resource this
      code handles, the device IDs the plugin knows, the sharing limit, and whether the pods can be
      listed, the response can be built and the annotation patch goes through. */
  datatype Request = Request(
    containers: seq<seq<string>>,
    handled: bool,
    known: set<string>,
    singleOnly: bool,
    listOk: bool,
    responseOk: bool,
    eraseOk: bool)

  datatype Outcome =
    | TooMany            // more than one container request
    | Unhandled          // another resource: empty responses
    | Refused            // an error exit that releases the lock
    | ResponseFailed     // the one error exit that does not
    | Crashed            // an index out of range
    | Allocated(uid: string)

  function Patch(s: State, uid: string, annotations: Annotations): State
    requires uid in s.pods
  {
    s.(pods := s.pods[uid := s.pods[uid].(annotations := s.pods[uid].annotations + annotations)])
  }

  function Unlock(s: State): State { s.(node := s.node - {LockKey}) }

  function Fail(s: State, uid: string): State
    requires uid in s.pods
  {
    Unlock(Patch(s, uid, Finished(PHASE_FAILED)))
  }

  function TrySuccess(s: State, uid: string): State
    requires uid in s.pods
  {
    if Contains(ToAllocate(s.pods[uid]), COMMON_WORD) then s
    else Unlock(Patch(s, uid, Finished(PHASE_SUCCESS)))
  }

  predicate IsMigRequest(ids: seq<string>)
    requires ids != []
  {
    Contains(ids[0], "MIG")
  }

  predicate AnyAnnotated(ids: seq<string>) { exists k :: 0 <= k < |ids| && HasAnnotations(ids[k]) }

  function AllocateMig(s: State, rq: Request, uid: string, ids: seq<string>): (State, Outcome)
    requires uid in s.pods
  {
    if rq.singleOnly && AnyAnnotated(ids) && |ids| > 1 then (Fail(s, uid), Refused)
    else if exists k :: 0 <= k < |ids| && ids[k] !in rq.known then (Fail(s, uid), Refused)
    else if !rq.responseOk then (Fail(s, uid), Refused)
    else (TrySuccess(s, uid), Allocated(uid))
  }

  function AllocateFromAnnotation(s: State, rq: Request, uid: string, ids: seq<string>): (State, Outcome)
    requires uid in s.pods
  {
    var annotation := ToAllocate(s.pods[uid]);
    match RequestIn(annotation, NVIDIA, s.pods[uid].containers)
    case Panics => (s, Crashed)
    case NotFound => (Fail(s, uid), Refused)
    case Found(_, devs) =>
      if |devs| != |ids| then (Fail(s, uid), Refused)
      else if !rq.responseOk then (s, ResponseFailed)
      else if !rq.eraseOk then (Fail(s, uid), Refused)
      else match Erased(annotation, NVIDIA)
        case None => (s, Crashed)
        case Some(left) => (TrySuccess(Patch(s, uid, map[ToAllocateKey := left]), uid), Allocated(uid))
  }

  /** `ListFailed` is an error of the API call that lists the pods. */
  datatype PodPick = PodChosen(uid: string) | NoPod | ListFailed | ListPanics

  function AfterAllocate(s: State, rq: Request, pick: PodPick): (State, Outcome)
    requires pick.PodChosen? ==> pick.uid in s.pods
  {
    if |rq.containers| > 1 then (s, TooMany)
    else if !rq.handled then (s, Unhandled)
    else if |rq.containers| == 0 then (s, Crashed)
    else
      var ids := rq.containers[0];
      match pick
      case ListPanics => (s, Crashed)
      case NoPod => (Unlock(s), Refused)
      case ListFailed => (Unlock(s), Refused)
      case PodChosen(uid) =>
        if ids == [] then (s, Crashed)
        else if IsMigRequest(ids) then AllocateMig(s, rq, uid, ids)
        else AllocateFromAnnotation(s, rq, uid, ids)
  }

  /** The pods a call may work on: any eligible one with the least predicate time. */
  ghost predicate MayPick(s: State, nodeName: string, amount: nat, pick: PodPick) {
    match pick
    case ListPanics => exists u :: u in s.pods && Malformed(s.pods[u], nodeName)
    case NoPod => forall u :: u in s.pods ==> !Eligible(s.pods[u], nodeName, amount)
    case ListFailed => true
    case PodChosen(uid) =>
      && uid in s.pods
      && Eligible(s.pods[uid], nodeName, amount)
      && forall u :: u in s.pods && Eligible(s.pods[u], nodeName, amount) ==>
           PredicateTime(s.pods[uid]) <= PredicateTime(s.pods[u])
  }

  function Amount(rq: Request): nat { if rq.containers == [] then 0 else |rq.containers[0]| }

  /** Of two pods of the node that hold the devices asked for, the one whose scheduling time is older is
      worked on; a pod of another node never is. */
  lemma OlderFirst(s: State, nodeName: string, amount: nat, uid: string, other: string, t: nat, t': nat)
    requires MayPick(s, nodeName, amount, PodChosen(uid))
    ensures uid in s.pods && Lookup(s.pods[uid].annotations, NodeKey) == nodeName
    ensures t < t' <= 0xFFFF_FFFF_FFFF_FFFF && other in s.pods && Eligible(s.pods[other], nodeName, amount)
            && Lookup(s.pods[other].annotations, TimeKey) == Digits(t) ==>
              Lookup(s.pods[uid].annotations, TimeKey) != Digits(t')
  {
    hide Eligible;
    assert Lookup(s.pods[uid].annotations, NodeKey) == nodeName by { EligibleMeaning(s.pods[uid], nodeName, amount); }
    if t < t' <= 0xFFFF_FFFF_FFFF_FFFF && other in s.pods && Eligible(s.pods[other], nodeName, amount)
       && Lookup(s.pods[other].annotations, TimeKey) == Digits(t)
       && Lookup(s.pods[uid].annotations, TimeKey) == Digits(t')
    {
      WrittenTime(s.pods[other], t);
      WrittenTime(s.pods[uid], t');
    }
  }

  /** In every state there is a pod a call may work on, or a reason for none. */
  lemma SomePick(s: State, nodeName: string, amount: nat) returns (pick: PodPick)
    ensures MayPick(s, nodeName, amount, pick)
  {
    var eligible := set u | u in s.pods && Eligible(s.pods[u], nodeName, amount);
    if eligible == {} {
      pick := NoPod;
      assert forall u :: u in s.pods ==> u !in eligible;
    } else {
      var u := SomeOldest(s, eligible);
      pick := PodChosen(u);
    }
  }

  lemma {:induction false} SomeOldest(s: State, among: set<string>) returns (u: string)
    requires among != {} && among <= s.pods.Keys
    ensures u in among && forall v :: v in among ==> PredicateTime(s.pods[u]) <= PredicateTime(s.pods[v])
    decreases among
  {
    var e :| e in among;
    u := e;
    if among != {e} {
      var v := SomeOldest(s, among - {e});
      if PredicateTime(s.pods[v]) < PredicateTime(s.pods[e]) { u := v; }
    }
  }

  // ---------- the plugin against the cluster ----------

  class Cluster {
    const nodeName: string
    var pods: map<string, Pod>
    var node: Annotations

    constructor (nodeName: string)
      ensures this.nodeName == nodeName && Value() == State(map[], map[])
    {
      this.nodeName := nodeName;
      pods, node := map[], map[];
    }

    ghost function Value(): State
      reads this
    {
      State(pods, node)
    }

    /** The pods in the order the API lists them. */
    method ListPods() returns (uids: seq<string>)
      ensures forall u :: u in uids <==> u in pods
    {
      uids := [];
      var todo := pods.Keys;
      while todo != {}
        invariant todo <= pods.Keys
        invariant forall u :: u in uids <==> u in pods && u !in todo
        decreases todo
      {
        var u :| u in todo;
        uids, todo := uids + [u], todo - {u};
      }
    }

    method GetPendingPod(amount: nat, listOk: bool) returns (pick: PodPick)
      ensures MayPick(Value(), nodeName, amount, pick)
      ensures pick.ListFailed? <==> !listOk
    {
      if !listOk { return ListFailed; }
      var uids := ListPods();
      var items := seq(|uids|, k requires 0 <= k < |uids| reads this =>
        assert uids[k] in uids; if uids[k] in pods then pods[uids[k]] else Pod(map[], []));
      var r := GetOldestPod(items, nodeName, amount);
      forall u | u in pods ensures exists k :: 0 <= k < |items| && uids[k] == u && items[k] == pods[u] {
        var k :| 0 <= k < |uids| && uids[k] == u;
        assert items[k] == pods[u];
      }
      match r {
        case PickPanics =>
          ghost var j :| 0 <= j < |items| && Malformed(items[j], nodeName);
          assert uids[j] in uids && items[j] == pods[uids[j]];
          pick := ListPanics;
        case Nobody => pick := NoPod;
        case Chosen(k) =>
          assert uids[k] in uids && items[k] == pods[uids[k]];
          pick := PodChosen(uids[k]);
      }
    }

    method PatchPodAnnotations(uid: string, annotations: Annotations)
      requires uid in pods
      modifies this`pods
      ensures Value() == Patch(old(Value()), uid, annotations)
    {
      pods := pods[uid := pods[uid].(annotations := pods[uid].annotations + annotations)];
    }

    method ReleaseNodeLock()
      modifies this`node
      ensures Value() == Unlock(old(Value()))
    {
      if LockKey in node { node := node - {LockKey}; }
      assert LockKey !in old(node) ==> old(node) - {LockKey} == old(node);
    }

    method PodAllocationFailed(uid: string)
      requires uid in pods
      modifies this
      ensures Value() == Fail(old(Value()), uid)
    {
      PatchPodAnnotations(uid, Finished(PHASE_FAILED));
      ReleaseNodeLock();
    }

    method PodAllocationTrySuccess(uid: string)
      requires uid in pods
      modifies this
      ensures Value() == TrySuccess(old(Value()), uid)
    {
      if Contains(ToAllocate(pods[uid]), COMMON_WORD) { return; }
      PatchPodAnnotations(uid, Finished(PHASE_SUCCESS));
      ReleaseNodeLock();
    }

    method ServeMig(rq: Request, uid: string, ids: seq<string>) returns (o: Outcome)
      requires uid in pods
      modifies this
      ensures (Value(), o) == AllocateMig(old(Value()), rq, uid, ids)
    {
      if rq.singleOnly && AnyAnnotated(ids) && |ids| > 1 {
        PodAllocationFailed(uid);
        return Refused;
      }
      for k := 0 to |ids|
        invariant forall j :: 0 <= j < k ==> ids[j] in rq.known
        invariant Value() == old(Value())
      {
        if ids[k] !in rq.known {
          PodAllocationFailed(uid);
          return Refused;
        }
      }
      if !rq.responseOk {
        PodAllocationFailed(uid);
        return Refused;
      }
      PodAllocationTrySuccess(uid);
      o := Allocated(uid);
    }

    method ServeFromAnnotation(rq: Request, uid: string, ids: seq<string>) returns (o: Outcome)
      requires uid in pods
      modifies this
      ensures (Value(), o) == AllocateFromAnnotation(old(Value()), rq, uid, ids)
    {
      var next := GetNextDeviceRequest(NVIDIA, ToAllocate(pods[uid]), pods[uid].containers);
      if next.Panics? { return Crashed; }
      if next.NotFound? || |next.devices| != |ids| {
        PodAllocationFailed(uid);
        return Refused;
      }
      if !rq.responseOk { return ResponseFailed; }
      var left := EraseNextDeviceTypeFromAnnotation(NVIDIA, ToAllocate(pods[uid]));
      if left.None? { return Crashed; }
      if !rq.eraseOk {
        PodAllocationFailed(uid);
        return Refused;
      }
      PatchPodAnnotations(uid, map[ToAllocateKey := left.value]);
      PodAllocationTrySuccess(uid);
      o := Allocated(uid);
    }

    /** One `Allocate` call. The ghost result is the pod it worked on. */
    method Allocate(rq: Request) returns (o: Outcome, ghost pick: PodPick)
      modifies this
      ensures MayPick(old(Value()), nodeName, Amount(rq), pick)
      ensures |rq.containers| == 1 && rq.handled ==> (pick.ListFailed? <==> !rq.listOk)
      ensures (Value(), o) == AfterAllocate(old(Value()), rq, pick)
    {
      pick := SomePick(Value(), nodeName, Amount(rq));
      if |rq.containers| > 1 { return TooMany, pick; }
      if !rq.handled { return Unhandled, pick; }
      if |rq.containers| == 0 { return Crashed, pick; }
      var ids := rq.containers[0];
      var p := GetPendingPod(|ids|, rq.listOk);
      pick := p;
      match p {
        case ListPanics => o := Crashed;
        case NoPod =>
          ReleaseNodeLock();
          o := Refused;
        case ListFailed =>
          ReleaseNodeLock();
          o := Refused;
        case PodChosen(uid) =>
          if ids == [] {
            o := Crashed;
          } else if IsMigRequest(ids) {
            o := ServeMig(rq, uid, ids);
          } else {
            o := ServeFromAnnotation(rq, uid, ids);
          }
      }
    }
  }

  // ---------- what a successful call means ----------

  /** All devices of the pod are in container `i` and of NVIDIA type. */
  ghost predicate OnlyHolder(pd: PodDevices, i: nat) {
    && i < |pd| && pd[i] != []
    && (forall j :: 0 <= j < |pd[i]| ==> pd[i][j].dtype == NVIDIA)
    && (forall k :: 0 <= k < |pd| && k != i ==> pd[k] == [])
  }

  lemma {:induction false} CountZero(pd: PodDevices)
    ensures DeviceCount(pd) == 0 <==> forall k :: 0 <= k < |pd| ==> pd[k] == []
  {
    if pd != [] {
      CountZero(pd[1..]);
      assert pd == [pd[0]] + pd[1..];
    }
  }

  lemma {:induction false} FilterWhole(cd: ContainerDevices, dtype: string)
    ensures |OfType(cd, dtype)| <= |cd|
    ensures |OfType(cd, dtype)| == |cd| <==> forall j :: 0 <= j < |cd| ==> cd[j].dtype == dtype
  {
    if cd != [] {
      FilterWhole(cd[1..], dtype);
      assert cd == [cd[0]] + cd[1..];
    }
  }

  /** The total count and the next request's count agree exactly when one container holds all. */
  lemma CountsAgree(pd: PodDevices)
    requires DeviceCount(pd) > 0
    ensures var i := NextHolder(pd, NVIDIA, 0);
      (i < |pd| && |OfType(pd[i], NVIDIA)| == DeviceCount(pd)) <==> exists k: nat :: OnlyHolder(pd, k)
  {
    var i := NextHolder(pd, NVIDIA, 0);
    if i < |pd| {
      FilterWhole(pd[i], NVIDIA);
      CountUpdate(pd, i, []);
      CountZero(pd[i := []]);
      if |OfType(pd[i], NVIDIA)| == DeviceCount(pd) {
        forall k | 0 <= k < |pd| && k != i ensures pd[k] == [] { assert pd[i := []][k] == []; }
        assert OnlyHolder(pd, i);
      }
    }
    if k: nat :| OnlyHolder(pd, k) {
      assert pd[k][0].dtype == NVIDIA;
      assert Holds(pd[k], NVIDIA);
      assert i == k;
      var without := pd[i := []];
      assert forall j :: 0 <= j < |without| ==> without[j] == [];
    }
  }

  lemma {:induction false} EncodedOfEmpty(pd: PodDevices)
    requires forall k :: 0 <= k < |pd| ==> pd[k] == []
    ensures forall c :: c in Encoded(pd) ==> c == ';'
  {
    var ss := EncodedContainers(pd);
    if |pd| >= 1 { assert ss[0] == ""; }
    if |pd| > 1 {
      EncodedOfEmpty(pd[1..]);
      assert ss[1..] == EncodedContainers(pd[1..]);
      assert Encoded(pd) == "" + ";" + Encoded(pd[1..]);
    }
  }

  /** Nothing is left to allocate for the pod. */
  ghost predicate Exhausted(p: Pod) {
    Decoded(ToAllocate(p)).Some? && DeviceCount(Decoded(ToAllocate(p)).value) == 0
  }

  lemma ErasedOnlyHolder(pd: PodDevices, i: nat)
    requires OnlyHolder(pd, i)
    ensures var a := Encoded(EraseNext(pd, NVIDIA));
      && !Contains(a, COMMON_WORD)
      && Decoded(a).Some? && DeviceCount(Decoded(a).value) == 0
  {
    CountUpdate(pd, i, []);
    CountZero(pd[i := []]);
    assert DeviceCount(pd) == |pd[i]|;
    CountsAgree(pd);
    EraseCount(pd, NVIDIA);
    var left := EraseNext(pd, NVIDIA);
    FilterWhole(pd[i], NVIDIA);
    CountZero(left);
    EncodedOfEmpty(left);
    assert COMMON_WORD[0] !in Encoded(left);
    NotContained(Encoded(left), COMMON_WORD);
    CountRoundTrip(left);
  }

  /** When a non-MIG call on a chosen pod succeeds: exactly when the pod's devices are all in one
      container it has and all of NVIDIA type, the response can be built and the patch goes through.
      A pod whose GPUs are spread over two containers is never served. */
  lemma SuccessCondition(s: State, rq: Request, uid: string, pd: PodDevices)
    requires |rq.containers| == 1 && rq.handled && rq.containers[0] != [] && !IsMigRequest(rq.containers[0])
    requires uid in s.pods && Decoded(ToAllocate(s.pods[uid])) == Some(pd) && DeviceCount(pd) == Amount(rq)
    ensures AfterAllocate(s, rq, PodChosen(uid)).1 == Allocated(uid) <==>
              && rq.responseOk && rq.eraseOk
              && exists i: nat :: OnlyHolder(pd, i) && i < |s.pods[uid].containers|
  {
    CountsAgree(pd);
    var i := NextHolder(pd, NVIDIA, 0);
    if k: nat :| OnlyHolder(pd, k) {
      assert pd[k][0].dtype == NVIDIA;
      assert i == k;
    }
  }

  /** Which calls end before any pod is looked at, or for want of one. */
  lemma EarlyOutcome(s: State, rq: Request, pick: PodPick)
    requires pick.PodChosen? ==> pick.uid in s.pods
    ensures var o := AfterAllocate(s, rq, pick).1;
      && (o == TooMany <==> |rq.containers| > 1)
      && (o == Unhandled <==> |rq.containers| <= 1 && !rq.handled)
      && (|rq.containers| <= 1 && rq.handled ==>
            if rq.containers == [] || pick == ListPanics then o == Crashed
            else if !pick.PodChosen? then o == Refused
            else rq.containers[0] == [] ==> o == Crashed)
  {
    hide AllocateMig, AllocateFromAnnotation;
    if pick.PodChosen? && |rq.containers| == 1 && rq.handled && rq.containers[0] != [] {
      PodOutcome(s, rq, pick.uid, rq.containers[0]);
    }
  }

  /** A call on a pod ends in neither of the early ways. */
  lemma PodOutcome(s: State, rq: Request, uid: string, ids: seq<string>)
    requires uid in s.pods
    ensures var o, o' := AllocateMig(s, rq, uid, ids).1, AllocateFromAnnotation(s, rq, uid, ids).1;
      !o.TooMany? && !o.Unhandled? && !o'.TooMany? && !o'.Unhandled?
  {
    hide RequestIn, Erased;
  }

  /** When a MIG call on a chosen pod succeeds: exactly when the response can be built, the plugin knows
      every device asked for, and sharing does not limit the request to one; otherwise it is refused. */
  lemma MigOutcome(s: State, rq: Request, uid: string)
    requires |rq.containers| == 1 && rq.handled && rq.containers[0] != []
    requires Contains(rq.containers[0][0], "MIG") && uid in s.pods
    ensures var ids := rq.containers[0];
      AfterAllocate(s, rq, PodChosen(uid)).1 ==
      if rq.responseOk
         && (forall id :: id in ids ==> id in rq.known)
         && !(rq.singleOnly && |ids| > 1 && exists id :: id in ids && Contains(id, "::"))
      then Allocated(uid) else Refused
  {
    var ids := rq.containers[0];
    assert AnyAnnotated(ids) <==> exists id :: id in ids && Contains(id, "::");
    hide Contains;
  }

  /** The exits of the annotation branch, by the first container with a GPU. */
  lemma FromAnnotation(s: State, rq: Request, uid: string, ids: seq<string>, pd: PodDevices)
    requires uid in s.pods && Decoded(ToAllocate(s.pods[uid])) == Some(pd)
    ensures var i := NextHolder(pd, NVIDIA, 0);
      AllocateFromAnnotation(s, rq, uid, ids).1 ==
      if i == |pd| then Refused
      else if i >= |s.pods[uid].containers| then Crashed
      else if |OfType(pd[i], NVIDIA)| != |ids| then Refused
      else if !rq.responseOk then ResponseFailed
      else if !rq.eraseOk then Refused
      else Allocated(uid)
  {
    hide Decoded, OfType, EraseNext, Encoded, Fail, TrySuccess;
  }

  /** How a non-MIG call on a chosen pod ends when it does not succeed: without a word while the lock
      stays when only the response fails, with an index panic when the next request is of a container the
      pod does not have, and refused otherwise. */
  lemma OtherOutcomes(s: State, rq: Request, uid: string, pd: PodDevices)
    requires |rq.containers| == 1 && rq.handled && rq.containers[0] != [] && !IsMigRequest(rq.containers[0])
    requires uid in s.pods && Decoded(ToAllocate(s.pods[uid])) == Some(pd) && DeviceCount(pd) == Amount(rq)
    ensures var o := AfterAllocate(s, rq, PodChosen(uid)).1;
      && (o == ResponseFailed <==>
            !rq.responseOk && exists i: nat :: OnlyHolder(pd, i) && i < |s.pods[uid].containers|)
      && (o == Crashed <==>
            exists i: nat :: |s.pods[uid].containers| <= i < |pd| && Holds(pd[i], "NVIDIA")
                             && forall k :: 0 <= k < i ==> !Holds(pd[k], "NVIDIA"))
      && (o == Allocated(uid) || o == ResponseFailed || o == Crashed || o == Refused)
  {
    hide Decoded, AllocateFromAnnotation, OfType, DeviceCount, Fail, TrySuccess;
    CountsAgree(pd);
    FromAnnotation(s, rq, uid, rq.containers[0], pd);
    var i := NextHolder(pd, NVIDIA, 0);
    if k: nat :| OnlyHolder(pd, k) {
      assert pd[k][0].dtype == NVIDIA;
      assert i == k;
    }
    hide Holds, OnlyHolder;
    if k: nat :| k < |pd| && Holds(pd[k], "NVIDIA") && forall j :: 0 <= j < k ==> !Holds(pd[j], "NVIDIA") {
      assert i == k;
    }
  }

  /** A successful non-MIG call: the chosen pod had all its devices in one container and of NVIDIA
      type; afterwards nothing is left to allocate, the phase is success and the lock is free. */
  lemma SuccessMeans(s: State, rq: Request, uid: string, pd: PodDevices)
    requires uid in s.pods && Decoded(ToAllocate(s.pods[uid])) == Some(pd) && DeviceCount(pd) == Amount(rq)
    requires AfterAllocate(s, rq, PodChosen(uid)).1 == Allocated(uid) && !IsMigRequest(rq.containers[0])
    ensures exists i: nat :: OnlyHolder(pd, i) && |pd[i]| == Amount(rq)
    ensures var s' := AfterAllocate(s, rq, PodChosen(uid)).0;
      && uid in s'.pods
      && Exhausted(s'.pods[uid])
      && Lookup(s'.pods[uid].annotations, PhaseKey) == PHASE_SUCCESS
      && LockKey !in s'.node
  {
    SuccessCondition(s, rq, uid, pd);
    var i: nat :| OnlyHolder(pd, i) && i < |s.pods[uid].containers|;
    OnlyHolderCount(pd, i);
    ErasedOnlyHolder(pd, i);
    var left := Encoded(EraseNext(pd, NVIDIA));
    FinishEffect(s, uid, left);
    assert AfterAllocate(s, rq, PodChosen(uid)).0 == TrySuccess(Patch(s, uid, map[ToAllocateKey := left]), uid);
  }

  lemma OnlyHolderCount(pd: PodDevices, i: nat)
    requires OnlyHolder(pd, i)
    ensures DeviceCount(pd) == |pd[i]|
  {
    CountUpdate(pd, i, []);
    CountZero(pd[i := []]);
  }

  /** Patching in an annotation without GPUs and finishing: the success mark, the lock released. */
  lemma FinishEffect(s: State, uid: string, left: string)
    requires uid in s.pods && !Contains(left, COMMON_WORD)
    ensures var s' := TrySuccess(Patch(s, uid, map[ToAllocateKey := left]), uid);
      && uid in s'.pods
      && ToAllocate(s'.pods[uid]) == left
      && Lookup(s'.pods[uid].annotations, PhaseKey) == PHASE_SUCCESS
      && LockKey !in s'.node
  {}

  /** What a call may do: nothing; release the lock and mark the pod failed; or, on success, rewrite
      the pod's allocation annotation and, if no GPU is left in it, mark success and release. */
  ghost predicate CallEffect(s: State, s': State, o: Outcome, pick: PodPick) {
    match o
    case Refused =>
      && s'.node == s.node - {LockKey}
      && (if pick.PodChosen? then
            pick.uid in s.pods && s'.pods == s.pods[pick.uid :=
              s.pods[pick.uid].(annotations := s.pods[pick.uid].annotations + Finished(PHASE_FAILED))]
          else s'.pods == s.pods)
    case Allocated(uid) =>
      && pick == PodChosen(uid)
      && uid in s.pods && uid in s'.pods
      && (forall u :: u != uid ==> (u in s.pods <==> u in s'.pods))
      && (forall u :: u != uid && u in s.pods ==> s'.pods[u] == s.pods[u])
      && (if Contains(ToAllocate(s'.pods[uid]), COMMON_WORD) then s'.node == s.node
          else s'.node == s.node - {LockKey} && Lookup(s'.pods[uid].annotations, PhaseKey) == PHASE_SUCCESS)
    case _ => s' == s
  }

  lemma TrySuccessEffect(s: State, base: State, uid: string)
    requires uid in s.pods && uid in base.pods && base.node == s.node
    requires base.pods == s.pods[uid := base.pods[uid]]
    ensures CallEffect(s, TrySuccess(base, uid), Allocated(uid), PodChosen(uid))
  {}

  /** Lock and phase after every call: each error exit but one releases the lock, a success releases
      it exactly when no GPU is left in the annotation, and the other exits change nothing. */
  lemma LockAfterCall(s: State, rq: Request, pick: PodPick)
    requires pick.PodChosen? ==> pick.uid in s.pods
    ensures CallEffect(s, AfterAllocate(s, rq, pick).0, AfterAllocate(s, rq, pick).1, pick)
  {
    if pick.PodChosen? && |rq.containers| == 1 && rq.handled && rq.containers[0] != [] {
      MigEffect(s, rq, pick.uid, rq.containers[0]);
      AnnotationEffect(s, rq, pick.uid, rq.containers[0]);
    }
    hide CallEffect, AllocateMig, AllocateFromAnnotation, IsMigRequest;
    NothingEffect(s, pick);
  }

  lemma NothingEffect(s: State, pick: PodPick)
    ensures forall o: Outcome :: !o.Refused? && !o.Allocated? ==> CallEffect(s, s, o, pick)
    ensures !pick.PodChosen? ==> CallEffect(s, Unlock(s), Refused, pick)
  {}

  lemma FailEffect(s: State, uid: string)
    requires uid in s.pods
    ensures CallEffect(s, Fail(s, uid), Refused, PodChosen(uid))
  {}

  lemma MigEffect(s: State, rq: Request, uid: string, ids: seq<string>)
    requires uid in s.pods
    ensures CallEffect(s, AllocateMig(s, rq, uid, ids).0, AllocateMig(s, rq, uid, ids).1, PodChosen(uid))
  {}

  lemma AnnotationEffect(s: State, rq: Request, uid: string, ids: seq<string>)
    requires uid in s.pods
    ensures CallEffect(s, AllocateFromAnnotation(s, rq, uid, ids).0,
                       AllocateFromAnnotation(s, rq, uid, ids).1, PodChosen(uid))
  {
    hide Erased, RequestIn, CallEffect, Fail, TrySuccess;
    var left := Erased(ToAllocate(s.pods[uid]), NVIDIA);
    if left.Some? { TrySuccessEffect(s, Patch(s, uid, map[ToAllocateKey := left.value]), uid); }
    FailEffect(s, uid);
    NothingEffect(s, PodChosen(uid));
  }

  /** The marks of a finished call, spelled out. */
  lemma MarksText(s: State, uid: string)
    requires uid in s.pods
    ensures var (p, node) := (s.pods[uid], s.node - {LockKey});
      && Fail(s, uid) == State(s.pods[uid := p.(annotations :=
           p.annotations[PhaseKey := "failed"][TimeKey := "18446744073709551615"])], node)
      && TrySuccess(s, uid) ==
           if exists i: nat :: OccursAt(Lookup(p.annotations, ToAllocateKey), "GPU", i) then s
           else State(s.pods[uid := p.(annotations :=
             p.annotations[PhaseKey := "success"][TimeKey := "18446744073709551615"])], node)
  {
    var a := s.pods[uid].annotations;
    ContainsIff(ToAllocate(s.pods[uid]), "GPU");
    hide Contains, OccursAt;
    assert a + Finished("failed") == a[PhaseKey := "failed"][TimeKey := "18446744073709551615"];
    assert a + Finished("success") == a[PhaseKey := "success"][TimeKey := "18446744073709551615"];
  }

  ghost function Five(s: string): nat
    requires |s| == 5 && AllDigits(s)
  {
    DigitValue(s[0]) * 10000 + DigitValue(s[1]) * 1000 + DigitValue(s[2]) * 100 + DigitValue(s[3]) * 10
    + DigitValue(s[4])
  }

  lemma FiveDigits(s: string, acc: nat)
    requires |s| == 5 && AllDigits(s)
    ensures Horner(s, acc) == acc * 100000 + Five(s)
  {
    hide DigitValue, IsDigit;
    var t := s[1..];
    var u := t[1..];
    var v := u[1..];
    var w := v[1..];
    assert w[1..] == "";
    var n1 := acc * 10 + DigitValue(s[0]);
    var n2 := n1 * 10 + DigitValue(s[1]);
    var n3 := n2 * 10 + DigitValue(s[2]);
    var n4 := n3 * 10 + DigitValue(s[3]);
    var n5 := n4 * 10 + DigitValue(s[4]);
    assert Horner(w, n4) == n5;
    assert Horner(v, n3) == n5;
    assert Horner(u, n2) == n5;
    assert Horner(t, n1) == n5;
  }

  lemma FourBlocks(a: string, b: string, c: string, d: string)
    requires |a| == |b| == |c| == |d| == 5
    requires AllDigits(a) && AllDigits(b) && AllDigits(c) && AllDigits(d)
    ensures Horner(a + b + c + d, 0) == ((Five(a) * 100000 + Five(b)) * 100000 + Five(c)) * 100000 + Five(d)
  {
    HornerAppend(a, b, 0);
    HornerAppend(a + b, c, 0);
    HornerAppend(a + b + c, d, 0);
    FiveDigits(a, 0);
    FiveDigits(b, Horner(a, 0));
    FiveDigits(c, Horner(a + b, 0));
    FiveDigits(d, Horner(a + b + c, 0));
    hide Five, Horner;
  }

  lemma FrontBlocks()
    ensures AllDigits("18446") && AllDigits("74407") && Five("18446") == 18446 && Five("74407") == 74407
  {}

  lemma BackBlocks()
    ensures AllDigits("37095") && AllDigits("51615") && Five("37095") == 37095 && Five("51615") == 51615
  {}

  lemma LastTimeValue()
    ensures AllDigits("18446744073709551615")
    ensures Horner("18446744073709551615", 0) == 0xFFFF_FFFF_FFFF_FFFF
  {
    var a, b, c, d := "18446", "74407", "37095", "51615";
    hide Five, Horner, IsDigit;
    FrontBlocks();
    BackBlocks();
    FourBlocks(a, b, c, d);
    assert a + b + c + d == "18446744073709551615";
  }

  /** The mark of a finished pod sorts last. */
  lemma FinishedLast(p: Pod)
    requires TimeKey in p.annotations && p.annotations[TimeKey] == "18446744073709551615"
    ensures PredicateTime(p) == 0xFFFF_FFFF_FFFF_FFFF
  {
    hide Horner, PredicateTime, AllDigits;
    LastTimeValue();
    assert "18446744073709551615" + "" == "18446744073709551615";
    TimeMeaning(p, "18446744073709551615", "");
  }

  /** The whole new state after a call that succeeds: the annotation patched for a non-MIG request, and the
      marks unless a GPU is left. */
  lemma SuccessState(s: State, rq: Request, uid: string)
    requires uid in s.pods && AfterAllocate(s, rq, PodChosen(uid)).1 == Allocated(uid)
    ensures |rq.containers| == 1 && rq.containers[0] != []
    ensures var s' := AfterAllocate(s, rq, PodChosen(uid)).0;
      if Contains(rq.containers[0][0], "MIG") then s' == TrySuccess(s, uid)
      else
        var p := s.pods[uid];
        && Erased(ToAllocate(p), "NVIDIA").Some?
        && s' == TrySuccess(s.(pods := s.pods[uid := p.(annotations :=
             p.annotations[ToAllocateKey := Erased(ToAllocate(p), "NVIDIA").value])]), uid)
  {
    hide TrySuccess, Fail, Erased, RequestIn, Contains;
    if Erased(ToAllocate(s.pods[uid]), NVIDIA).Some? {
      var left := Erased(ToAllocate(s.pods[uid]), NVIDIA).value;
      assert s.pods[uid].annotations + map[ToAllocateKey := left] == s.pods[uid].annotations[ToAllocateKey := left];
    }
  }

  // ---------- whole runs ----------

  /** A step of the cluster: an `Allocate` call, or anything else that happens to pods and node. */
  datatype Event = Call(rq: Request, pick: PodPick) | Outside(next: State)

  function Apply(s: State, e: Event): State
    requires e.Call? && e.pick.PodChosen? ==> e.pick.uid in s.pods
  {
    match e
    case Call(rq, pick) => AfterAllocate(s, rq, pick).0
    case Outside(next) => next
  }

  /** Calls work on a pod `getOldestPod` may return; anything may happen outside. */
  ghost predicate Run(s: State, events: seq<Event>, nodeName: string)
    decreases events
  {
    events != [] ==>
      && (events[0].Call? ==> MayPick(s, nodeName, Amount(events[0].rq), events[0].pick))
      && Run(Apply(s, events[0]), events[1..], nodeName)
  }

  /** The state before the `k`-th event of a run. */
  ghost function StateAt(s: State, events: seq<Event>, nodeName: string, k: nat): State
    requires Run(s, events, nodeName) && k <= |events|
    decreases k
  {
    if k == 0 then s else StateAt(Apply(s, events[0]), events[1..], nodeName, k - 1)
  }

  /** An outside step may delete the pod, but neither bring it back nor rewrite its allocation
      annotation, which only `Allocate` does once the scheduler has bound the pod. */
  ghost predicate LeavesAlone(s: State, e: Event, uid: string) {
    e.Outside? && uid in e.next.pods ==> uid in s.pods && ToAllocate(e.next.pods[uid]) == ToAllocate(s.pods[uid])
  }

  /** From event `from` on every outside step leaves the pod alone. */
  ghost predicate LeftAlone(s: State, events: seq<Event>, nodeName: string, uid: string, from: nat)
    requires Run(s, events, nodeName)
  {
    forall k :: from <= k < |events| ==> LeavesAlone(StateAt(s, events, nodeName, k), events[k], uid)
  }

  lemma TailLeftAlone(s: State, events: seq<Event>, nodeName: string, uid: string, from: nat)
    requires events != [] && Run(s, events, nodeName)
    requires LeftAlone(s, events, nodeName, uid, from + 1) || LeftAlone(s, events, nodeName, uid, from)
    ensures LeftAlone(Apply(s, events[0]), events[1..], nodeName, uid, from)
  {
    hide LeavesAlone, Apply;
    var next, rest := Apply(s, events[0]), events[1..];
    forall k | from <= k < |rest| ensures LeavesAlone(StateAt(next, rest, nodeName, k), rest[k], uid) {
      assert LeavesAlone(StateAt(s, events, nodeName, k + 1), events[k + 1], uid);
    }
  }

  /** No call asking for devices works on the pod from event `from` on. */
  ghost predicate NeverPicked(events: seq<Event>, from: nat, uid: string) {
    forall k :: from <= k < |events| && events[k].Call? && Amount(events[k].rq) > 0 ==>
      events[k].pick != PodChosen(uid)
  }

  /** Every step that leaves an exhausted pod alone keeps it exhausted, and no call asking for
      devices works on it. */
  lemma ExhaustedKept(s: State, e: Event, nodeName: string, uid: string)
    requires uid in s.pods ==> Exhausted(s.pods[uid])
    requires LeavesAlone(s, e, uid)
    requires e.Call? ==> MayPick(s, nodeName, Amount(e.rq), e.pick)
    ensures uid in Apply(s, e).pods ==> Exhausted(Apply(s, e).pods[uid])
    ensures e.Call? && Amount(e.rq) > 0 ==> e.pick != PodChosen(uid)
  {
    if e.Call? {
      LockAfterCall(s, e.rq, e.pick);
      if e.pick == PodChosen(uid) { assert AfterAllocate(s, e.rq, e.pick).0 == s; }
    }
  }

  lemma {:induction false} ExhaustedForever(s: State, events: seq<Event>, nodeName: string, uid: string)
    requires uid in s.pods ==> Exhausted(s.pods[uid])
    requires Run(s, events, nodeName) && LeftAlone(s, events, nodeName, uid, 0)
    ensures NeverPicked(events, 0, uid)
    decreases events
  {
    if events != [] {
      var next, rest := Apply(s, events[0]), events[1..];
      assert LeavesAlone(StateAt(s, events, nodeName, 0), events[0], uid);
      ExhaustedKept(s, events[0], nodeName, uid);
      TailLeftAlone(s, events, nodeName, uid, 0);
      ExhaustedForever(next, rest, nodeName, uid);
      assert events == [events[0]] + rest;
    }
  }

  ghost predicate IsNonMigCall(e: Event) {
    e.Call? && !(|e.rq.containers| == 1 && e.rq.containers[0] != [] && IsMigRequest(e.rq.containers[0]))
  }

  /** The annotation lists devices to allocate, but not all in one container and of NVIDIA type. */
  ghost predicate Spread(annotation: string) {
    var pd := Decoded(annotation);
    pd.Some? && DeviceCount(pd.value) > 0 && forall i: nat :: !OnlyHolder(pd.value, i)
  }

  /** The event is a non-MIG call that succeeds for the pod. */
  ghost predicate Serves(s: State, e: Event, uid: string) {
    && IsNonMigCall(e)
    && (e.pick.PodChosen? ==> e.pick.uid in s.pods)
    && AfterAllocate(s, e.rq, e.pick).1 == Allocated(uid)
  }

  /** A call that a spread pod is chosen for fails, and no step that leaves its annotation alone changes
      that. */
  lemma SpreadKept(s: State, e: Event, nodeName: string, uid: string)
    requires uid in s.pods ==> Spread(ToAllocate(s.pods[uid]))
    requires LeavesAlone(s, e, uid)
    requires e.Call? ==> MayPick(s, nodeName, Amount(e.rq), e.pick)
    ensures uid in Apply(s, e).pods ==> Spread(ToAllocate(Apply(s, e).pods[uid]))
    ensures !Serves(s, e, uid)
  {
    hide Spread;
    if e.Call? {
      LockAfterCall(s, e.rq, e.pick);
      if e.pick == PodChosen(uid) {
        AnnotationKept(s, e.rq, uid);
      }
    }
  }

  /** Marking a pod failed or finished leaves its allocation annotation as it is. */
  lemma MarksKeepAnnotation(s: State, uid: string)
    requires uid in s.pods
    ensures uid in Fail(s, uid).pods && ToAllocate(Fail(s, uid).pods[uid]) == ToAllocate(s.pods[uid])
    ensures uid in TrySuccess(s, uid).pods && ToAllocate(TrySuccess(s, uid).pods[uid]) == ToAllocate(s.pods[uid])
  {}

  /** A call on a spread pod leaves its allocation annotation as it is, and serves nothing from it. */
  lemma AnnotationKept(s: State, rq: Request, uid: string)
    requires uid in s.pods && Spread(ToAllocate(s.pods[uid]))
    requires DeviceCount(Decoded(ToAllocate(s.pods[uid])).value) == Amount(rq)
    ensures var (s', o) := AfterAllocate(s, rq, PodChosen(uid));
      && uid in s'.pods && ToAllocate(s'.pods[uid]) == ToAllocate(s.pods[uid])
      && (o == Allocated(uid) ==> |rq.containers| == 1 && rq.containers[0] != [] && IsMigRequest(rq.containers[0]))
  {
    hide Fail, TrySuccess, Patch, Decoded, RequestIn, Erased, DeviceCount, OnlyHolder, AnyAnnotated, Contains;
    MarksKeepAnnotation(s, uid);
    if |rq.containers| == 1 && rq.handled && rq.containers[0] != [] && !IsMigRequest(rq.containers[0]) {
      SuccessCondition(s, rq, uid, Decoded(ToAllocate(s.pods[uid])).value);
    }
  }

  /** The event that comes `k`-th in a run serves the pod. */
  ghost predicate ServedAt(s: State, events: seq<Event>, nodeName: string, k: nat, uid: string)
    requires Run(s, events, nodeName) && k < |events|
  {
    Serves(StateAt(s, events, nodeName, k), events[k], uid)
  }

  /** Over whole runs: a pod whose devices are spread over containers, or not all NVIDIA, is never served
      by a non-MIG call, whatever happens to other pods and to the node. */
  lemma {:induction false} SpreadNeverServed(s: State, events: seq<Event>, nodeName: string, uid: string, k: nat)
    requires uid in s.pods ==> Spread(ToAllocate(s.pods[uid]))
    requires Run(s, events, nodeName) && k < |events| && LeftAlone(s, events, nodeName, uid, 0)
    ensures !ServedAt(s, events, nodeName, k, uid)
    decreases k
  {
    hide LeavesAlone, Apply, Serves, Spread;
    var next, rest := Apply(s, events[0]), events[1..];
    assert LeavesAlone(StateAt(s, events, nodeName, 0), events[0], uid);
    SpreadKept(s, events[0], nodeName, uid);
    if k > 0 {
      TailLeftAlone(s, events, nodeName, uid, 0);
      SpreadNeverServed(next, rest, nodeName, uid, k - 1);
      assert rest[k - 1] == events[k];
    }
  }

  const TWO_CONTAINERS: PodDevices :=
    [[ContainerDevice("GPU-0", NVIDIA, 1000, 50)], [ContainerDevice("GPU-1", NVIDIA, 1000, 50)]]

  lemma OneDevice(d: ContainerDevice)
    requires d.dtype == NVIDIA
    ensures Holds([d], NVIDIA) && OfType([d], NVIDIA) == [d]
  {
    assert [d][0] == d && [d][1..] == [];
  }

  /** The first container of two that each hold one GPU is asked for on its own. */
  lemma TwoOneByOne(c: ContainerDevice, d: ContainerDevice)
    requires c.dtype == d.dtype == NVIDIA
    ensures DeviceCount([[c], [d]]) == 2 && NextRequest([[c], [d]], NVIDIA) == Some((0, [c]))
  {
    OneDevice(c);
    hide OfType, Holds;
    assert [[c], [d]][1..] == [[d]] && [[d]][1..] == [];
    assert DeviceCount([[d]]) == 1;
  }

  lemma TwoContainersDecode()
    ensures Decoded(Encoded(TWO_CONTAINERS)) == Some(TWO_CONTAINERS)
    ensures DeviceCount(TWO_CONTAINERS) == 2
    ensures NextRequest(TWO_CONTAINERS, NVIDIA) == Some((0, TWO_CONTAINERS[0]))
  {
    hide Decoded, Encoded, DeviceCount, NextRequest;
    var pd := TWO_CONTAINERS;
    assert AllCleanDevices(pd);
    RoundTrip(pd);
    TwoOneByOne(pd[0][0], pd[1][0]);
  }

  /** The simplest such pod: two containers with one GPU each. A request for both GPUs chooses it, is
      refused, and leaves the pod marked as failed and the node unlocked. */
  lemma TwoContainersRefused(s: State, rq: Request, nodeName: string)
    requires s.pods == map["u" := Pod(map[NodeKey := nodeName, ToAllocateKey := Encoded(TWO_CONTAINERS)], ["a", "b"])]
    requires rq.handled && rq.containers == [["id-0", "id-1"]]
    ensures MayPick(s, nodeName, Amount(rq), PodChosen("u"))
    ensures AfterAllocate(s, rq, PodChosen("u")) == (Fail(s, "u"), Refused)
    ensures Lookup(Fail(s, "u").pods["u"].annotations, PhaseKey) == PHASE_FAILED && LockKey !in Fail(s, "u").node
  {
    hide Decoded, Encoded, DeviceCount, NextRequest, Contains;
    TwoContainersDecode();
    NotContained("id-0", "MIG");
    assert ToAllocate(s.pods["u"]) == Encoded(TWO_CONTAINERS);
    assert RequestIn(Encoded(TWO_CONTAINERS), NVIDIA, ["a", "b"]) == Found("a", TWO_CONTAINERS[0]);
  }

  /** A non-MIG call that succeeds leaves the pod exhausted. */
  lemma SuccessExhausts(s: State, e: Event, nodeName: string, uid: string)
    requires Serves(s, e, uid) && MayPick(s, nodeName, Amount(e.rq), e.pick)
    ensures uid in Apply(s, e).pods && Exhausted(Apply(s, e).pods[uid])
  {
    LockAfterCall(s, e.rq, e.pick);
    hide AllocateMig, AllocateFromAnnotation, PredicateTime, Decoded, DeviceCount;
    SuccessMeans(s, e.rq, uid, Decoded(ToAllocate(s.pods[uid])).value);
  }

  /** Over whole runs: once a non-MIG call has succeeded for a pod, no later call asking for devices
      works on that pod again, whatever happens to other pods and to the node in between. */
  lemma {:induction false} ServedOnce(s: State, events: seq<Event>, nodeName: string, uid: string, k: nat)
    requires Run(s, events, nodeName) && k < |events| && ServedAt(s, events, nodeName, k, uid)
    requires LeftAlone(s, events, nodeName, uid, k + 1)
    ensures NeverPicked(events, k + 1, uid)
    decreases k
  {
    hide LeavesAlone, LeftAlone, Apply, AfterAllocate, Exhausted;
    var next, rest := Apply(s, events[0]), events[1..];
    TailLeftAlone(s, events, nodeName, uid, k);
    if k == 0 {
      SuccessExhausts(s, events[0], nodeName, uid);
      ExhaustedForever(next, rest, nodeName, uid);
    } else {
      assert rest[k - 1] == events[k];
      ServedOnce(next, rest, nodeName, uid, k - 1);
    }
    PickedLater(events, k, uid);
  }

  lemma PickedLater(events: seq<Event>, k: nat, uid: string)
    requires events != [] && NeverPicked(events[1..], k, uid)
    ensures NeverPicked(events, k + 1, uid)
  {
    forall j | k + 1 <= j < |events| && events[j].Call? && Amount(events[j].rq) > 0
      ensures events[j].pick != PodChosen(uid)
    {
      assert events[1..][j - 1] == events[j];
    }
  }
}
