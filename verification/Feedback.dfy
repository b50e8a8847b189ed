/** The priority feedback controller (cmd/vgpu-monitor/feedback.go): a two-pass update of the shared
    records of the containers on a node. */
module Feedback {
  import opened Text

  // ---------- containers as values ----------

  /** One container's shared record. `uuids` are the device slots; an empty slot's UUID starts with a
      NUL byte. */
  datatype Usage = Usage(uuids: seq<string>, priority: int, recentKernel: int, utilizationSwitch: int)

  predicate IsValidUuid(uuid: string) { uuid != "" && uuid[0] != '\0' }

  type Snapshot = map<string, Usage>

  /** The first pass: kernels age by one. */
  function Aged(u: Usage): Usage {
    if u.recentKernel > 0 then u.(recentKernel := u.recentKernel - 1) else u
  }

  /** A container whose kernel is still recent after ageing. */
  predicate Active(u: Usage) { u.recentKernel > 1 }

  /** The device slots on `uuid` of active containers with priority `p`. */
  ghost function Slots(s: Snapshot, uuid: string, p: int): set<(string, int)> {
    set n, i | n in s && 0 <= i < |s[n].uuids| && s[n].uuids[i] == uuid
               && IsValidUuid(uuid) && Active(s[n]) && s[n].priority == p :: (n, i)
  }

  ghost function Work(s: Snapshot, uuid: string, p: int): nat { |Slots(s, uuid, p)| }

  /** The device has an entry in the table of active tasks. */
  ghost predicate Used(s: Snapshot, uuid: string) { exists p :: 0 <= p <= 1 && Work(s, uuid, p) > 0 }

  /** The controller's table has room for priorities 0 and 1 only, so counting a slot of any other priority
      indexes past it. */
  predicate CountPanics(u: Usage) {
    Active(u) && !(0 <= u.priority <= 1) && exists i :: 0 <= i < |u.uuids| && IsValidUuid(u.uuids[i])
  }

  /** A negative priority is looked up for the first used device; a priority above 1 never is, because some
      lower priority has work there. */
  ghost predicate LookupPanics(s: Snapshot, u: Usage) {
    u.priority < 0 && exists i :: 0 <= i < |u.uuids| && Used(s, u.uuids[i])
  }

  ghost predicate Sane(s: Snapshot) {
    forall n :: n in s ==> !CountPanics(s[n]) && !LookupPanics(s, s[n])
  }

  /** The first device of the container that has an entry, or the slot count. */
  ghost function FirstUsed(s: Snapshot, uuids: seq<string>, from: nat): (i: nat)
    requires from <= |uuids|
    ensures from <= i <= |uuids|
    ensures i < |uuids| ==> Used(s, uuids[i])
    ensures forall j :: from <= j < i ==> !Used(s, uuids[j])
    decreases |uuids| - from
  {
    if from == |uuids| || Used(s, uuids[from]) then from else FirstUsed(s, uuids, from + 1)
  }

  ghost predicate HigherWork(s: Snapshot, uuid: string, p: int) {
    exists q :: 0 <= q < p && Work(s, uuid, q) > 0
  }

  /** Blocked: the first used device has active work of higher priority. */
  ghost predicate Blocked(s: Snapshot, u: Usage) {
    var i := FirstUsed(s, u.uuids, 0);
    i < |u.uuids| && HigherWork(s, u.uuids[i], u.priority)
  }

  /** Contended: some device has higher-priority work, or more than one slot of the same priority. */
  ghost predicate Contended(s: Snapshot, u: Usage) {
    exists i :: 0 <= i < |u.uuids| && Used(s, u.uuids[i])
      && (HigherWork(s, u.uuids[i], u.priority) || Work(s, u.uuids[i], u.priority) > 1)
  }

  /** What one call makes of one container, given the state before the call. */
  ghost function ObservedOne(s: Snapshot, u: Usage): Usage {
    var a := Aged(u);
    a.(recentKernel := if Blocked(s, u) then (if a.recentKernel >= 0 then -1 else a.recentKernel)
                       else (if a.recentKernel < 0 then 0 else a.recentKernel),
       utilizationSwitch := if Contended(s, u) then 1 else 0)
  }

  ghost function Observed(s: Snapshot): Snapshot {
    map n | n in s :: ObservedOne(s, s[n])
  }

  // ---------- the controller ----------

  class ContainerUsage {
    const uuids: seq<string>
    const priority: int
    var recentKernel: int
    var utilizationSwitch: int

    constructor (uuids: seq<string>, priority: int, recentKernel: int, utilizationSwitch: int)
      ensures View() == Usage(uuids, priority, recentKernel, utilizationSwitch)
    {
      this.uuids, this.priority := uuids, priority;
      this.recentKernel, this.utilizationSwitch := recentKernel, utilizationSwitch;
    }

    function View(): Usage
      reads this
    {
      Usage(uuids, priority, recentKernel, utilizationSwitch)
    }
  }

  type Table = map<string, (nat, nat)>

  function Entry(t: (nat, nat), p: int): nat
    requires 0 <= p <= 1
  {
    if p == 0 then t.0 else t.1
  }

  ghost predicate TableOf(t: Table, s: Snapshot) {
    && (forall u :: u in t <==> Used(s, u))
    && forall u :: u in t ==> t[u] == (Work(s, u, 0), Work(s, u, 1))
  }

  method CheckBlocking(t: Table, p: int, c: ContainerUsage, ghost s: Snapshot) returns (blocked: bool)
    requires TableOf(t, s) && p == c.priority
    ensures blocked <==> Blocked(s, c.View())
  {
    for i := 0 to |c.uuids|
      invariant FirstUsed(s, c.uuids, 0) == FirstUsed(s, c.uuids, i)
    {
      if c.uuids[i] in t {
        blocked := HasHigher(t[c.uuids[i]], p, s, c.uuids[i]);
        return;
      }
    }
    return false;
  }

  /** The search for work of a higher priority on one used device: it never reads past the entry. */
  method HasHigher(e: (nat, nat), p: int, ghost s: Snapshot, ghost uuid: string) returns (higher: bool)
    requires Used(s, uuid) && e == (Work(s, uuid, 0), Work(s, uuid, 1))
    ensures higher <==> HigherWork(s, uuid, p)
    ensures p > 1 ==> higher
  {
    var q := 0;
    while q < p
      invariant 0 <= q && forall r :: 0 <= r < q ==> Work(s, uuid, r) == 0
    {
      assert q > 1 ==> Work(s, uuid, 0) == Work(s, uuid, 1) == 0;
      if Entry(e, q) > 0 { return true; }
      q := q + 1;
    }
    return false;
  }

  /** Whether the container is contended, or `None` for an index below the table. */
  method CheckPriority(t: Table, p: int, c: ContainerUsage, ghost s: Snapshot) returns (contended: Option<bool>)
    requires TableOf(t, s) && p == c.priority
    ensures contended.None? <==> LookupPanics(s, c.View())
    ensures contended.Some? ==> (contended.value <==> Contended(s, c.View()))
  {
    for i := 0 to |c.uuids|
      invariant forall j :: 0 <= j < i && Used(s, c.uuids[j]) ==>
                  p >= 0 && !HigherWork(s, c.uuids[j], p) && Work(s, c.uuids[j], p) <= 1
    {
      if c.uuids[i] in t {
        var higher := HasHigher(t[c.uuids[i]], p, s, c.uuids[i]);
        if higher { return Some(true); }
        if p < 0 { return None; }
        if Entry(t[c.uuids[i]], p) > 1 { return Some(true); }
      }
    }
    return Some(false);
  }

  /** The slots on `uuid` counted so far: the containers in `done`, and the first `k` slots of `cur`. */
  ghost function SlotsSoFar(s: Snapshot, done: set<string>, cur: string, k: int, uuid: string, p: int)
    : set<(string, int)>
  {
    set q | q in Slots(s, uuid, p) && (q.0 in done || (q.0 == cur && q.1 < k)) :: q
  }

  ghost predicate EntrySoFar(t: Table, s: Snapshot, done: set<string>, cur: string, k: int, uuid: string) {
    var n0, n1 := |SlotsSoFar(s, done, cur, k, uuid, 0)|, |SlotsSoFar(s, done, cur, k, uuid, 1)|;
    if uuid in t then t[uuid] == (n0, n1) && n0 + n1 > 0 else n0 == n1 == 0
  }

  ghost predicate TableSoFar(t: Table, s: Snapshot, done: set<string>, cur: string, k: int) {
    forall u :: EntrySoFar(t, s, done, cur, k, u)
  }

  /** Adding slot `k` of the active container `cur` adds one to its device's count. */
  lemma SlotCounted(s: Snapshot, done: set<string>, cur: string, k: int, uuid: string, p: int)
    requires cur in s && cur !in done && 0 <= k < |s[cur].uuids|
    ensures |SlotsSoFar(s, done, cur, k + 1, uuid, p)| ==
            |SlotsSoFar(s, done, cur, k, uuid, p)| + if (cur, k) in Slots(s, uuid, p) then 1 else 0
  {
    assert SlotsSoFar(s, done, cur, k + 1, uuid, p) ==
           SlotsSoFar(s, done, cur, k, uuid, p) + if (cur, k) in Slots(s, uuid, p) then {(cur, k)} else {};
  }

  lemma TableStep(t: Table, s: Snapshot, done: set<string>, cur: string, k: int)
    requires TableSoFar(t, s, done, cur, k)
    requires cur in s && cur !in done && 0 <= k < |s[cur].uuids|
    requires IsValidUuid(s[cur].uuids[k]) ==> 0 <= s[cur].priority <= 1
    ensures TableSoFar(Bumped(t, s[cur], k), s, done, cur, k + 1)
  {
    var t', k' := Bumped(t, s[cur], k), k + 1;
    forall u ensures EntrySoFar(t', s, done, cur, k', u) {
      assert EntrySoFar(t, s, done, cur, k, u);
      SlotCounted(s, done, cur, k, u, 0);
      SlotCounted(s, done, cur, k, u, 1);
      assert forall p :: (cur, k) in Slots(s, u, p) <==>
               s[cur].uuids[k] == u && IsValidUuid(u) && Active(s[cur]) && s[cur].priority == p;
      hide SlotsSoFar, Slots;
    }
  }

  /** The table after slot `k` of a container has been seen. */
  function Bumped(t: Table, u: Usage, k: int): Table
    requires 0 <= k < |u.uuids|
  {
    var uuid := u.uuids[k];
    if !Active(u) || !IsValidUuid(uuid) then t
    else
      var e := if uuid in t then t[uuid] else (0, 0);
      t[uuid := if u.priority == 0 then (e.0 + 1, e.1) else (e.0, e.1 + 1)]
  }

  /** A finished container joins the done ones; one without active slots joins at any time. */
  lemma ContainerDone(t: Table, s: Snapshot, done: set<string>, cur: string, k: int, next: string)
    requires cur in s && TableSoFar(t, s, done, cur, k)
    requires k == |s[cur].uuids| || (k == 0 && !Active(s[cur]))
    ensures TableSoFar(t, s, done + {cur}, next, 0)
  {
    forall u ensures EntrySoFar(t, s, done + {cur}, next, 0, u) {
      assert EntrySoFar(t, s, done, cur, k, u);
      assert SlotsSoFar(s, done, cur, k, u, 0) == SlotsSoFar(s, done + {cur}, next, 0, u, 0);
      assert SlotsSoFar(s, done, cur, k, u, 1) == SlotsSoFar(s, done + {cur}, next, 0, u, 1);
    }
  }

  lemma TableStarts(s: Snapshot, cur: string)
    ensures TableSoFar(map[], s, {}, cur, 0)
  {}

  lemma TableFull(t: Table, s: Snapshot, cur: string)
    requires TableSoFar(t, s, s.Keys, cur, 0)
    ensures TableOf(t, s)
  {
    forall u ensures u in t <==> Used(s, u)
             ensures u in t ==> t[u] == (Work(s, u, 0), Work(s, u, 1))
    {
      assert EntrySoFar(t, s, s.Keys, cur, 0, u);
      assert SlotsSoFar(s, s.Keys, cur, 0, u, 0) == Slots(s, u, 0);
      assert SlotsSoFar(s, s.Keys, cur, 0, u, 1) == Slots(s, u, 1);
      assert Work(s, u, 0) > 0 || Work(s, u, 1) > 0 ==> Used(s, u);
    }
  }

  class ContainerLister {
    var containers: map<string, ContainerUsage>

    constructor ()
      ensures containers == map[]
    {
      containers := map[];
    }

    /** Each container has its own record. */
    ghost predicate Distinct()
      reads this
    {
      forall m, n :: m in containers && n in containers && m != n ==> containers[m] != containers[n]
    }

    ghost function Snap(): Snapshot
      reads this, containers.Values
    {
      map n | n in containers :: containers[n].View()
    }

    /** The slots of one active container are entered in the table; not `ok` is an index out of range. */
    method CountSlots(t: Table, c: ContainerUsage, ghost s: Snapshot, ghost done: set<string>, ghost cur: string)
      returns (ok: bool, t': Table)
      requires cur in s && cur !in done && c.uuids == s[cur].uuids && c.priority == s[cur].priority
      requires Active(s[cur])
      requires TableSoFar(t, s, done, cur, 0)
      ensures ok <==> !CountPanics(s[cur])
      ensures ok ==> TableSoFar(t', s, done, cur, |c.uuids|)
    {
      ok, t' := true, t;
      for i := 0 to |c.uuids|
        invariant ok && TableSoFar(t', s, done, cur, i)
        invariant 0 <= c.priority <= 1 || forall j :: 0 <= j < i ==> !IsValidUuid(c.uuids[j])
      {
        hide TableSoFar;
        if IsValidUuid(c.uuids[i]) && !(0 <= c.priority <= 1) { return false, t'; }
        TableStep(t', s, done, cur, i);
        if !IsValidUuid(c.uuids[i]) { continue; }
        var uuid := c.uuids[i];
        ghost var before := t';
        if uuid !in t' { t' := t'[uuid := (0, 0)]; }
        var e := t'[uuid];
        t' := t'[uuid := if c.priority == 0 then (e.0 + 1, e.1) else (e.0, e.1 + 1)];
        assert t' == Bumped(before, s[cur], i);
      }
    }

    /** First pass for one container: age its kernel and count its slots if it stays active. */
    method AgeOne(t: Table, c: ContainerUsage, ghost s: Snapshot, ghost done: set<string>, ghost n: string)
      returns (ok: bool, t': Table)
      requires n in s && n !in done && c.View() == s[n]
      requires forall cur :: TableSoFar(t, s, done, cur, 0)
      modifies c
      ensures ok <==> !CountPanics(s[n])
      ensures ok ==> c.View() == Aged(s[n])
      ensures ok ==> forall cur :: TableSoFar(t', s, done + {n}, cur, 0)
    {
      hide TableSoFar;
      ok, t' := true, t;
      var recentKernel := c.recentKernel;
      assert TableSoFar(t, s, done, n, 0);
      if recentKernel > 0 {
        recentKernel := recentKernel - 1;
        if recentKernel > 0 {
          ok, t' := CountSlots(t, c, s, done, n);
          if !ok { return; }
        }
        c.recentKernel := recentKernel;
      }
      forall cur ensures TableSoFar(t', s, done + {n}, cur, 0) {
        ContainerDone(t', s, done, n, if Active(s[n]) then |s[n].uuids| else 0, cur);
      }
    }

    /** First pass, over the containers in any order: age the kernels and count the active slots. */
    method AgeAndCount() returns (ok: bool, t: Table)
      requires Distinct()
      modifies containers.Values
      ensures ok <==> forall n :: n in old(Snap()) ==> !CountPanics(old(Snap())[n])
      ensures ok ==> TableOf(t, old(Snap()))
      ensures ok ==> forall n :: n in containers ==> containers[n].View() == Aged(old(containers[n].View()))
    {
      hide TableSoFar, TableOf, Aged, CountPanics;
      ghost var s := Snap();
      ok, t := true, map[];
      var todo := containers.Keys;
      ghost var done: set<string> := {};
      forall cur ensures TableSoFar(t, s, {}, cur, 0) { TableStarts(s, cur); }
      while todo != {}
        invariant todo <= containers.Keys && done == containers.Keys - todo
        invariant forall n :: n in todo ==> containers[n].View() == s[n]
        invariant forall n :: n in done ==> containers[n].View() == Aged(s[n])
        invariant ok && forall n :: n in done ==> !CountPanics(s[n])
        invariant forall cur :: TableSoFar(t, s, done, cur, 0)
        decreases todo
      {
        var n :| n in todo;
        assert containers[n].View() == s[n];
        ok, t := AgeOne(t, containers[n], s, done, n);
        if !ok { return; }
        todo, done := todo - {n}, done + {n};
      }
      assert done == s.Keys;
      TableFull(t, s, "");
    }

    /** Second pass for one container: set or clear blocking and the utilization switch. */
    method React(t: Table, c: ContainerUsage, ghost s: Snapshot, ghost before: Usage) returns (ok: bool)
      requires TableOf(t, s) && c.View() == Aged(before)
      modifies c
      ensures ok <==> !LookupPanics(s, before)
      ensures ok ==> c.View() == ObservedOne(s, before)
    {
      var recentKernel, utilizationSwitch := c.recentKernel, c.utilizationSwitch;
      var blocking := CheckBlocking(t, c.priority, c, s);
      if blocking {
        if recentKernel >= 0 { c.recentKernel := -1; }
      } else {
        if recentKernel < 0 { c.recentKernel := 0; }
      }
      var contended := CheckPriority(t, c.priority, c, s);
      if contended.None? { return false; }
      if contended.value {
        if utilizationSwitch != 1 { c.utilizationSwitch := 1; }
      } else {
        if utilizationSwitch != 0 { c.utilizationSwitch := 0; }
      }
      return true;
    }

    /** Second pass, over the containers in any order. */
    method ReactAll(t: Table, ghost s: Snapshot) returns (ok: bool)
      requires Distinct() && TableOf(t, s) && s.Keys == containers.Keys
      requires forall n :: n in containers ==> containers[n].View() == Aged(s[n])
      modifies containers.Values
      ensures ok <==> forall n :: n in s ==> !LookupPanics(s, s[n])
      ensures ok ==> forall n :: n in containers ==> containers[n].View() == ObservedOne(s, s[n])
    {
      hide ObservedOne, Aged, TableOf, LookupPanics, ContainerUsage.View;
      ok := true;
      var todo := containers.Keys;
      while todo != {}
        invariant todo <= containers.Keys
        invariant forall n :: n in todo ==> containers[n].View() == Aged(s[n])
        invariant forall n :: n in containers && n !in todo ==> containers[n].View() == ObservedOne(s, s[n])
        invariant ok && forall n :: n in containers && n !in todo ==> !LookupPanics(s, s[n])
        decreases todo
      {
        var n :| n in todo;
        ok := React(t, containers[n], s, s[n]);
        if !ok { return; }
        todo := todo - {n};
      }
    }

    /** One call of the controller. It panics exactly when a priority does not fit the table where it is
        looked up; otherwise the result is a function of the state before the call, so it does not
        depend on the order in which the two passes visit the containers. */
    method Observe() returns (ok: bool)
      requires Distinct()
      modifies containers.Values
      ensures ok <==> Sane(old(Snap()))
      ensures ok ==> Snap() == Observed(old(Snap()))
    {
      hide ObservedOne, Aged, TableOf, CountPanics, LookupPanics, ContainerUsage.View;
      ghost var s := Snap();
      var t;
      ok, t := AgeAndCount();
      if ok { ok := ReactAll(t, s); }
    }
  }

  // ---------- what one call establishes ----------

  /** After a call a container's kernel count is negative exactly when it is blocked, its switch is on
      exactly when it is contended and off otherwise; blocked implies contended, and priority 0 is
      never blocked. */
  lemma ObservedMeaning(s: Snapshot, n: string)
    requires n in s
    ensures Observed(s)[n].recentKernel < 0 <==> Blocked(s, s[n])
    ensures Observed(s)[n].utilizationSwitch == if Contended(s, s[n]) then 1 else 0
    ensures Blocked(s, s[n]) ==> Contended(s, s[n])
    ensures s[n].priority == 0 ==> !Blocked(s, s[n])
  {}

  /** Everything else a call does to a container, of every priority: its slots and priority stay; while it is
      not blocked a recent kernel ages by one and a negative count is cleared; blocking writes -1 over a
      count of 0 or more and leaves a negative one as it was. */
  lemma ObservedMoves(s: Snapshot, n: string)
    requires n in s
    ensures Observed(s).Keys == s.Keys
    ensures Observed(s)[n].uuids == s[n].uuids && Observed(s)[n].priority == s[n].priority
    ensures Observed(s)[n].recentKernel ==
      if Blocked(s, s[n]) then (if s[n].recentKernel < 0 then s[n].recentKernel else -1)
      else if s[n].recentKernel > 0 then s[n].recentKernel - 1 else 0
  {
    hide Blocked, Contended;
  }

  /** The device is in use: an active container, one whose kernel count is above 1, has it in a slot. */
  ghost predicate InUse(s: Snapshot, uuid: string) {
    && uuid != "" && uuid[0] != '\0'
    && exists m :: m in s && s[m].recentKernel > 1 && 0 <= s[m].priority <= 1 && uuid in s[m].uuids
  }

  lemma UsedIsInUse(s: Snapshot, uuid: string)
    ensures Used(s, uuid) <==> InUse(s, uuid)
  {
    if IsValidUuid(uuid) {
      WorkMeans(s, uuid, 0);
      WorkMeans(s, uuid, 1);
      hide Work;
      if m :| m in s && s[m].recentKernel > 1 && 0 <= s[m].priority <= 1 && uuid in s[m].uuids {
        var i :| 0 <= i < |s[m].uuids| && s[m].uuids[i] == uuid;
        assert Occupies(s, m, i, uuid, s[m].priority);
      }
    } else {
      assert Slots(s, uuid, 0) == {} && Slots(s, uuid, 1) == {};
    }
  }

  /** Some active container of a higher priority has the device in a slot. */
  ghost predicate Outranked(s: Snapshot, uuid: string, p: int) {
    && uuid != "" && uuid[0] != '\0'
    && exists m :: m in s && s[m].recentKernel > 1 && 0 <= s[m].priority < p && uuid in s[m].uuids
  }

  lemma HigherIsOutranked(s: Snapshot, uuid: string, p: int)
    ensures HigherWork(s, uuid, p) <==> Outranked(s, uuid, p)
  {
    if IsValidUuid(uuid) {
      forall q { WorkMeans(s, uuid, q); }
      hide Work;
      if m :| m in s && s[m].recentKernel > 1 && 0 <= s[m].priority < p && uuid in s[m].uuids {
        var i :| 0 <= i < |s[m].uuids| && s[m].uuids[i] == uuid;
        assert Occupies(s, m, i, uuid, s[m].priority);
        assert Work(s, uuid, s[m].priority) > 0;
      }
      if q :| 0 <= q < p && Work(s, uuid, q) > 0 {
        var m, i :| Occupies(s, m, i, uuid, q);
        assert uuid in s[m].uuids;
      }
    } else {
      forall q ensures Work(s, uuid, q) == 0 { assert Slots(s, uuid, q) == {}; }
    }
  }

  /** Blocking, in terms of the containers: the first device of the container that is in use is used by an
      active container of a higher priority. */
  lemma BlockedMeaning(s: Snapshot, u: Usage)
    ensures Blocked(s, u) <==>
              exists i :: 0 <= i < |u.uuids| && InUse(s, u.uuids[i]) && Outranked(s, u.uuids[i], u.priority)
                          && forall j :: 0 <= j < i ==> !InUse(s, u.uuids[j])
  {
    forall i | 0 <= i < |u.uuids|
      ensures Used(s, u.uuids[i]) <==> InUse(s, u.uuids[i])
      ensures HigherWork(s, u.uuids[i], u.priority) <==> Outranked(s, u.uuids[i], u.priority)
    {
      UsedIsInUse(s, u.uuids[i]);
      HigherIsOutranked(s, u.uuids[i], u.priority);
    }
    hide Used, InUse, HigherWork, Outranked;
  }

  /** Two different slots of active containers of the priority have the device. */
  ghost predicate TwoSlots(s: Snapshot, uuid: string, p: int) {
    exists m, a, n, b :: (m != n || a != b) && Occupies(s, m, a, uuid, p) && Occupies(s, n, b, uuid, p)
  }

  /** Contention, in terms of the containers: some device of the container is used by an active container of
      a higher priority, or two slots of active containers of its own priority have it. */
  lemma ContendedMeaning(s: Snapshot, u: Usage)
    ensures Contended(s, u) <==>
              exists i :: 0 <= i < |u.uuids| && InUse(s, u.uuids[i]) &&
                (Outranked(s, u.uuids[i], u.priority) || TwoSlots(s, u.uuids[i], u.priority))
  {
    forall i | 0 <= i < |u.uuids|
      ensures Used(s, u.uuids[i]) <==> InUse(s, u.uuids[i])
      ensures HigherWork(s, u.uuids[i], u.priority) <==> Outranked(s, u.uuids[i], u.priority)
      ensures InUse(s, u.uuids[i]) ==>
                (Work(s, u.uuids[i], u.priority) > 1 <==> TwoSlots(s, u.uuids[i], u.priority))
    {
      UsedIsInUse(s, u.uuids[i]);
      HigherIsOutranked(s, u.uuids[i], u.priority);
      if InUse(s, u.uuids[i]) { WorkMeans(s, u.uuids[i], u.priority); }
    }
    hide Used, InUse, HigherWork, Outranked, Work, TwoSlots;
  }

  /** When a call panics, in terms of the containers: an active one with a priority other than 0 and 1 has a
      device, or one with a negative priority has a device in use. */
  lemma SaneMeaning(s: Snapshot)
    ensures Sane(s) <==>
              forall n, i :: n in s && 0 <= i < |s[n].uuids| ==>
                && !(s[n].recentKernel > 1 && !(0 <= s[n].priority <= 1)
                     && s[n].uuids[i] != "" && s[n].uuids[i][0] != '\0')
                && !(s[n].priority < 0 && InUse(s, s[n].uuids[i]))
  {
    forall n, i | n in s && 0 <= i < |s[n].uuids| ensures Used(s, s[n].uuids[i]) <==> InUse(s, s[n].uuids[i]) {
      UsedIsInUse(s, s[n].uuids[i]);
    }
    hide Used, InUse;
  }

  ghost predicate Occupies(s: Snapshot, n: string, i: int, uuid: string, p: int) {
    n in s && 0 <= i < |s[n].uuids| && s[n].uuids[i] == uuid && s[n].recentKernel > 1 && s[n].priority == p
  }

  lemma MoreThanOne<T>(s: set<T>)
    ensures |s| > 0 <==> exists x :: x in s
    ensures |s| > 1 <==> exists x, y :: x in s && y in s && x != y
  {
    if s != {} {
      var x :| x in s;
      assert s == {x} + (s - {x});
      if s - {x} != {} {
        var y :| y in s - {x};
      }
    }
  }

  lemma OccupiesSlot(s: Snapshot, n: string, i: int, uuid: string, p: int)
    requires IsValidUuid(uuid)
    ensures Occupies(s, n, i, uuid, p) <==> (n, i) in Slots(s, uuid, p)
  {}

  /** A device has work of a priority exactly when some active container of that priority has it in a
      slot, and more than one piece of it exactly when two different slots do. */
  lemma WorkMeans(s: Snapshot, uuid: string, p: int)
    requires IsValidUuid(uuid)
    ensures Work(s, uuid, p) > 0 <==> exists n, i :: Occupies(s, n, i, uuid, p)
    ensures Work(s, uuid, p) > 1 <==> exists m, i, n, j ::
              (m != n || i != j) && Occupies(s, m, i, uuid, p) && Occupies(s, n, j, uuid, p)
  {
    var slots := Slots(s, uuid, p);
    MoreThanOne(slots);
    forall n, i ensures Occupies(s, n, i, uuid, p) <==> (n, i) in slots { OccupiesSlot(s, n, i, uuid, p); }
    hide Slots, Occupies;
    if q :| q in slots { assert (q.0, q.1) in slots; }
    if q, r :| q in slots && r in slots && q != r {
      assert (q.0, q.1) in slots && (r.0, r.1) in slots;
    }
  }

  // ---------- convergence ----------

  ghost function Iterated(s: Snapshot, k: nat): Snapshot {
    if k == 0 then s else Observed(Iterated(s, k - 1))
  }

  ghost predicate AtMost(s: Snapshot, bound: int) {
    forall n :: n in s ==> s[n].recentKernel <= bound
  }

  ghost predicate Quiet(s: Snapshot) {
    forall n :: n in s ==> s[n].recentKernel == 0 && s[n].utilizationSwitch == 0
  }

  /** Without active containers nothing is blocked or contended. */
  lemma NothingUsed(s: Snapshot)
    requires AtMost(s, 1)
    ensures forall uuid :: !Used(s, uuid)
    ensures Quiet(Observed(s))
  {}

  lemma KernelsAge(s: Snapshot, bound: int)
    requires AtMost(s, bound)
    ensures AtMost(Observed(s), if bound > 0 then bound - 1 else 0)
  {}

  lemma {:induction false} BoundAfter(s: Snapshot, bound: nat, k: nat)
    requires AtMost(s, bound)
    ensures AtMost(Iterated(s, k), if k < bound then bound - k else 0)
  {
    if k > 0 {
      BoundAfter(s, bound, k - 1);
      KernelsAge(Iterated(s, k - 1), if k - 1 < bound then bound - (k - 1) else 0);
    }
  }

  /** A quiet state is a fixed point. */
  lemma QuietFixed(s: Snapshot)
    requires Quiet(s)
    ensures Observed(s) == s
  {}

  /** A container keeps its slots and priority, and is active after a call only if it was before. */
  lemma StillActive(s: Snapshot, u: Usage)
    ensures var u' := ObservedOne(s, u);
      u'.uuids == u.uuids && u'.priority == u.priority && (Active(u') ==> Active(u))
  {
    hide Blocked, Contended;
  }

  lemma SlotBefore(s: Snapshot, uuid: string, p: int, q: (string, int))
    requires q in Slots(Observed(s), uuid, p)
    ensures q in Slots(s, uuid, p)
  {
    assert q.0 in Observed(s) && Observed(s)[q.0] == ObservedOne(s, s[q.0]);
    StillActive(s, s[q.0]);
    hide ObservedOne, Active, Observed;
  }

  lemma UsedBefore(s: Snapshot, uuid: string)
    requires Used(Observed(s), uuid)
    ensures Used(s, uuid)
  {
    hide Slots, Observed;
    var p :| 0 <= p <= 1 && Work(Observed(s), uuid, p) > 0;
    var q :| q in Slots(Observed(s), uuid, p);
    SlotBefore(s, uuid, p, q);
    assert Work(s, uuid, p) > 0;
  }

  /** A call leaves behind a state on which the next does not panic. */
  lemma SaneKept(s: Snapshot)
    requires Sane(s)
    ensures Sane(Observed(s))
  {
    forall n | n in s ensures !CountPanics(Observed(s)[n]) && !LookupPanics(Observed(s), Observed(s)[n]) {
      StillActive(s, s[n]);
      hide ObservedOne, Active, Used;
      var u := s[n];
      assert !CountPanics(u) && !LookupPanics(s, u);
      forall i | 0 <= i < |u.uuids| && Used(Observed(s), u.uuids[i]) ensures Used(s, u.uuids[i]) {
        UsedBefore(s, u.uuids[i]);
      }
    }
  }

  lemma {:induction false} IteratedSane(s: Snapshot, k: nat)
    requires Sane(s)
    ensures Sane(Iterated(s, k))
  {
    hide Sane, Observed;
    if k > 0 {
      IteratedSane(s, k - 1);
      SaneKept(Iterated(s, k - 1));
    }
  }

  /** If the containers write nothing, then from any state whose kernel counts are at most `bound`,
      `max(1, bound)` calls or more leave every kernel count and every switch at 0, for good; none of
      the calls panics if the first does not. */
  lemma {:induction false} Converges(s: Snapshot, bound: int, k: nat)
    requires AtMost(s, bound) && k >= 1 && k >= bound
    ensures Quiet(Iterated(s, k))
    ensures Sane(s) ==> forall j: nat :: Sane(Iterated(s, j))
  {
    hide Sane, Observed, AtMost;
    var b := if bound < 1 then 1 else bound;
    AtMostMore(s, bound, b);
    BoundAfter(s, b, k - 1);
    NothingUsed(Iterated(s, k - 1));
    if Sane(s) {
      forall j: nat ensures Sane(Iterated(s, j)) { IteratedSane(s, j); }
    }
  }

  lemma AtMostMore(s: Snapshot, bound: int, more: int)
    requires AtMost(s, bound) && bound <= more
    ensures AtMost(s, more)
  {}

  lemma ForegroundAges(s: Snapshot, n: string)
    requires n in s && s[n].priority == 0 && s[n].recentKernel > 0
    ensures n in Observed(s) && Observed(s)[n].priority == 0
    ensures Observed(s)[n].recentKernel == s[n].recentKernel - 1
  {}

  /** The bound is tight: a priority-0 container counts down by one a call, so it is still active
      one call before. */
  lemma {:induction false} CountsDown(s: Snapshot, n: string, k: nat)
    requires n in s && s[n].priority == 0 && s[n].recentKernel >= k
    ensures n in Iterated(s, k)
    ensures Iterated(s, k)[n].priority == 0 && Iterated(s, k)[n].recentKernel == s[n].recentKernel - k
  {
    hide Observed;
    if k > 0 {
      CountsDown(s, n, k - 1);
      ForegroundAges(Iterated(s, k - 1), n);
    }
  }
}
