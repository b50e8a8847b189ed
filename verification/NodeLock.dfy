/** The node lock (pkg/util/nodelock/nodelock.go): an annotation on a versioned node object that the
    API server only updates from the current version. Here are the calls themselves, running against
    a server that others write to at any moment. */
module NodeLock {
  import opened Text

  const MAX_LOCK_RETRY := 5
  const EXPIRY_SECONDS := 300

  /** An annotation value: the time a lock was taken, or any other text. */
  datatype Mark = Stamp(time: int) | Words(text: string)

  type Annotations = map<string, Mark>

  datatype Node = Node(version: nat, annotations: Annotations)

  /** A copy read from the node earlier: it is out of date or equal to it. */
  ghost predicate CopyOf(copy: Node, node: Node) {
    copy.version <= node.version && (copy.version == node.version ==> copy == node)
  }

  /** A write by somebody else: a key set to a value, or deleted. */
  datatype Write = Write(key: string, value: Option<Mark>)

  function Applied(a: Annotations, w: Write): Annotations {
    match w.value case Some(v) => a[w.key := v] case None => a - {w.key}
  }

  function Replay(a: Annotations, ws: seq<Write>): Annotations {
    if ws == [] then a else Applied(Replay(a, ws[..|ws| - 1]), ws[|ws| - 1])
  }

  lemma {:induction false} ReplayMore(a: Annotations, ws: seq<Write>, more: seq<Write>)
    ensures Replay(Replay(a, ws), more) == Replay(a, ws + more)
  {
    if more == [] {
      assert ws + more == ws;
    } else {
      var k := |more| - 1;
      ReplayMore(a, ws, more[..k]);
      assert (ws + more)[..|ws + more| - 1] == ws + more[..k];
    }
  }

  /** The API server with one node. `foreign` logs what others wrote to it, and `failed` counts the
      calls that failed. */
  class ApiServer {
    var node: Node
    ghost var foreign: seq<Write>
    ghost var failed: nat

    constructor (node: Node)
      ensures this.node == node && foreign == [] && failed == 0
    {
      this.node, foreign, failed := node, [], 0;
    }

    /** The node's annotations if only others had written since the log was `log` and they were `a`. */
    ghost function Theirs(a: Annotations, log: seq<Write>): Annotations
      reads this
      requires log <= foreign
    {
      Replay(a, foreign[|log|..])
    }

    /** Others write whatever they like before the next call is served. */
    method Interfere()
      modifies this`node, this`foreign
      ensures old(foreign) <= foreign && node.annotations == Theirs(old(node.annotations), old(foreign))
      ensures node.version >= old(node.version)
      ensures node.version == old(node.version) ==> foreign == old(foreign) && node == old(node)
    {
      var n: nat :| true;
      assert foreign[|foreign|..] == [];
      for k := 0 to n
        invariant old(foreign) <= foreign && node.annotations == Theirs(old(node.annotations), old(foreign))
        invariant node.version == old(node.version) + k
        invariant k == 0 ==> foreign == old(foreign) && node == old(node)
      {
        var w: Write := *;
        ReplayMore(old(node.annotations), foreign[|old(foreign)|..], [w]);
        assert (foreign + [w])[|old(foreign)|..] == foreign[|old(foreign)|..] + [w];
        assert Replay(node.annotations, [w]) == Applied(node.annotations, w);
        node := Node(node.version + 1, Applied(node.annotations, w));
        foreign := foreign + [w];
      }
    }

    /** Read the node; the call itself may fail. */
    method Get() returns (r: Option<Node>)
      modifies this
      ensures old(foreign) <= foreign && node.annotations == Theirs(old(node.annotations), old(foreign))
      ensures r.Some? ==> r.value == node
      ensures failed == old(failed) + if r.None? then 1 else 0
    {
      Interfere();
      var ok: bool := *;
      r := if ok then Some(node) else None;
      if !ok { failed := failed + 1; }
    }

    /** Replace the node's annotations, provided nobody has written since `read` was current. */
    method Update(read: Node, annotations: Annotations) returns (done: bool)
      requires CopyOf(read, node)
      modifies this
      ensures old(foreign) <= foreign
      ensures done ==> foreign == old(foreign) && read == old(node) && node == Node(read.version + 1, annotations)
      ensures !done ==> node.annotations == Theirs(old(node.annotations), old(foreign))
      ensures failed == old(failed) + if done then 0 else 1
    {
      Interfere();
      var ok: bool := *;
      done := ok && read.version == node.version;
      if done { node := Node(node.version + 1, annotations); } else { failed := failed + 1; }
    }

    lemma NothingWritten(a: Annotations, log: seq<Write>)
      requires log <= foreign
      ensures log == foreign ==> Theirs(a, log) == a
    {
      assert log == foreign ==> foreign[|log|..] == [];
    }

    lemma TheirsMore(a: Annotations, log: seq<Write>, mid: Annotations, middle: seq<Write>)
      requires log <= middle <= foreign && mid == Replay(a, middle[|log|..])
      ensures Theirs(mid, middle) == Theirs(a, log)
    {
      ReplayMore(a, middle[|log|..], foreign[|middle|..]);
      assert foreign[|log|..] == middle[|log|..] + foreign[|middle|..];
    }
  }

  /** What a call wants to make of the lock annotation. */
  datatype Edit = SetStamp | Delete

  function Edited(a: Annotations, lockName: string, edit: Edit, now: int): Annotations {
    match edit case SetStamp => a[lockName := Stamp(now)] case Delete => a - {lockName}
  }

  /** The current time. */
  method Now() returns (now: int) { now := *; }

  /** The update both calls share: a first try with the copy at hand, then at most five rounds of
      reading again and trying again, without testing the lock again. On success exactly the edit is
      applied on top of what others wrote; on failure only they have written, and the first try and
      every round have failed. */
  method UpdateWithRetry(api: ApiServer, read: Node, lockName: string, edit: Edit) returns (done: bool, ghost now: int)
    requires CopyOf(read, api.node)
    modifies api
    ensures old(api.foreign) <= api.foreign
    ensures api.node.annotations == var theirs := api.Theirs(old(api.node.annotations), old(api.foreign));
              if done then Edited(theirs, lockName, edit, now) else theirs
    ensures if done then old(api.failed) <= api.failed <= old(api.failed) + 5 else api.failed == old(api.failed) + 6
  {
    ghost var a0, log0 := api.node.annotations, api.foreign;
    var t := Now();
    now := t;
    done := api.Update(read, Edited(read.annotations, lockName, edit, t));
    assert done ==> api.foreign[|log0|..] == [];
    var i := 0;
    while i < MAX_LOCK_RETRY && !done
      invariant log0 <= api.foreign
      invariant api.node.annotations ==
                if done then Edited(api.Theirs(a0, log0), lockName, edit, now) else api.Theirs(a0, log0)
      invariant i <= MAX_LOCK_RETRY
      invariant if done then old(api.failed) <= api.failed <= old(api.failed) + i
                else api.failed == old(api.failed) + 1 + i
    {
      i := i + 1;
      ghost var a1, log1 := api.node.annotations, api.foreign;
      var r := api.Get();
      api.TheirsMore(a0, log0, a1, log1);
      if r.Some? {
        ghost var a2, log2 := api.node.annotations, api.foreign;
        t := Now();
        now := t;
        done := api.Update(r.value, Edited(r.value.annotations, lockName, edit, t));
        api.TheirsMore(a0, log0, a2, log2);
        assert done ==> api.foreign[|log2|..] == [];
      }
    }
  }

  datatype LockResult = Done | AlreadyLocked | BadTime | ApiError

  /** Take the lock. On success the node is what others made it, with the lock stamped on top, and the lock
      was free at some moment of the call: it is tested on the first read only. */
  method SetNodeLock(api: ApiServer, lockName: string) returns (r: LockResult, ghost now: int)
    modifies api
    ensures old(api.foreign) <= api.foreign
    ensures api.node.annotations == var theirs := api.Theirs(old(api.node.annotations), old(api.foreign));
              if r.Done? then theirs[lockName := Stamp(now)] else theirs
    ensures r.Done? ==>
      exists k :: |old(api.foreign)| <= k <= |api.foreign| &&
        lockName !in Replay(old(api.node.annotations), api.foreign[|old(api.foreign)|..k])
    ensures r.AlreadyLocked? ==> lockName in api.node.annotations
    ensures match r
      case Done => old(api.failed) <= api.failed <= old(api.failed) + 5
      case AlreadyLocked => api.failed == old(api.failed)
      case ApiError => api.failed == old(api.failed) + 1 || api.failed == old(api.failed) + 6
      case BadTime => false
  {
    ghost var a0, log0 := api.node.annotations, api.foreign;
    now := 0;
    var node := api.Get();
    if node.None? { return ApiError, now; }
    if lockName in node.value.annotations { return AlreadyLocked, now; }
    ghost var a1, log1 := api.node.annotations, api.foreign;
    var done;
    done, now := UpdateWithRetry(api, node.value, lockName, SetStamp);
    api.TheirsMore(a0, log0, a1, log1);
    assert api.foreign[|log0|..|log1|] == log1[|log0|..];
    r := if done then Done else ApiError;
  }

  /** Release the lock, whoever holds it; releasing a free lock succeeds. */
  method ReleaseNodeLock(api: ApiServer, lockName: string) returns (r: LockResult)
    modifies api
    ensures old(api.foreign) <= api.foreign && (r.Done? || r.ApiError?)
    ensures api.node.annotations == var theirs := api.Theirs(old(api.node.annotations), old(api.foreign));
              if r.Done? then theirs - {lockName} else theirs
    ensures if r.Done? then old(api.failed) <= api.failed <= old(api.failed) + 5
            else api.failed == old(api.failed) + 1 || api.failed == old(api.failed) + 6
  {
    ghost var a0, log0 := api.node.annotations, api.foreign;
    var node := api.Get();
    if node.None? { return ApiError; }
    if lockName !in node.value.annotations {
      assert api.node.annotations - {lockName} == api.node.annotations;
      return Done;
    }
    ghost var a1, log1 := api.node.annotations, api.foreign;
    var done, _ := UpdateWithRetry(api, node.value, lockName, Delete);
    api.TheirsMore(a0, log0, a1, log1);
    r := if done then Done else ApiError;
  }

  /** Differing in the lock only, the nodes agree once it is stamped. */
  lemma SameWithStamp(a: Annotations, b: Annotations, key: string, v: Mark)
    requires a - {key} == b - {key}
    ensures a[key := v] == b[key := v]
  {
    assert a[key := v] == (a - {key})[key := v];
    assert b[key := v] == (b - {key})[key := v];
  }

  /** Take the lock, first releasing one that is older than five minutes. `seen` is what the first read
      showed and `checked` the time it was compared with. A lock that is no time is an error and a fresh
      one is left alone; only a lock that was free or expired on that read is ever taken. Whatever
      happens, every other annotation is exactly what others made it; on success the lock is stamped on
      top. */
  method LockNode(api: ApiServer, lockName: string)
    returns (r: LockResult, ghost stamp: int, ghost seen: Option<Annotations>, ghost checked: int)
    modifies api
    ensures old(api.foreign) <= api.foreign
    ensures var theirs := api.Theirs(old(api.node.annotations), old(api.foreign));
      && api.node.annotations - {lockName} == theirs - {lockName}
      && (r.Done? ==> api.node.annotations == theirs[lockName := Stamp(stamp)])
      && (r.BadTime? ==> api.node.annotations == theirs)
    ensures seen.Some? ==>
      exists k :: |old(api.foreign)| <= k <= |api.foreign| &&
        seen.value == Replay(old(api.node.annotations), api.foreign[|old(api.foreign)|..k])
    ensures seen.None? ==> r.ApiError?
    ensures r.BadTime? <==> seen.Some? && lockName in seen.value && seen.value[lockName].Words?
    ensures seen.Some? && lockName in seen.value && seen.value[lockName].Stamp?
            && checked - seen.value[lockName].time <= 300 ==>
              r.AlreadyLocked? && api.node.annotations == seen.value
    ensures r.AlreadyLocked? ==> lockName in api.node.annotations
    ensures r.ApiError? ==> api.failed > old(api.failed)
    ensures api.failed == old(api.failed) && api.foreign == old(api.foreign) ==>
      seen.Some? && (r.Done? <==> lockName in seen.value ==>
        seen.value[lockName].Stamp? && checked - seen.value[lockName].time > 300)
  {
    hide Replay;
    ghost var a0, log0 := api.node.annotations, api.foreign;
    stamp, checked, seen := 0, 0, None;
    var node := api.Get();
    if node.None? { return ApiError, stamp, seen, checked; }
    seen := Some(node.value.annotations);
    ghost var a1, log1 := api.node.annotations, api.foreign;
    assert api.foreign[|log0|..|log1|] == api.foreign[|log0|..];
    if lockName in node.value.annotations {
      if node.value.annotations[lockName].Words? { return BadTime, stamp, seen, checked; }
      var now := Now();
      checked := now;
      if now - node.value.annotations[lockName].time <= EXPIRY_SECONDS { return AlreadyLocked, stamp, seen, checked; }
      r := ReleaseNodeLock(api, lockName);
      api.TheirsMore(a0, log0, a1, log1);
      assert api.foreign[|log0|..|log1|] == log1[|log0|..];
      if !r.Done? { return; }
      ghost var a2, log2 := api.Theirs(a0, log0), api.foreign;
      ghost var b2 := api.node.annotations;
      r, stamp := SetNodeLock(api, lockName);
      api.TheirsMore(a0, log0, a2, log2);
      api.NothingWritten(b2, log2);
      SameButFor(b2, a2, api.foreign[|log2|..], lockName);
      SameWithStamp(api.Theirs(b2, log2), api.Theirs(a2, log2), lockName, Stamp(stamp));
    } else {
      r, stamp := SetNodeLock(api, lockName);
      api.NothingWritten(a1, log1);
      api.TheirsMore(a0, log0, a1, log1);
    }
    assert api.foreign[|log0|..|log1|] == log1[|log0|..];
  }

  /** Others' writes act on each key alone: two nodes that differ in one key only still do. */
  lemma {:induction false} SameButFor(a: Annotations, b: Annotations, ws: seq<Write>, key: string)
    requires a - {key} == b - {key}
    ensures Replay(a, ws) - {key} == Replay(b, ws) - {key}
  {
    if ws != [] {
      var k := |ws| - 1;
      SameButFor(a, b, ws[..k], key);
      var x, y := Replay(a, ws[..k]), Replay(b, ws[..k]);
      forall j | j != key ensures (j in x <==> j in y) && (j in x ==> x[j] == y[j]) {
        assert j in x <==> j in x - {key};
        assert j in y <==> j in y - {key};
        if j in x { assert (x - {key})[j] == (y - {key})[j]; }
      }
    }
  }
}
