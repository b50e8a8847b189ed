/** Every interleaving of lock and release calls by several clients with writes by others, one API
    call at a time: what the lock steps keep, when they exclude each other, and when they do not. */
module LockProtocol {
  import opened Text
  import opened NodeLock

  const LOCK := "hamivgpu"

  /** Where a client is in a call. `Writing` and `Retrying` carry the loop's round; `takeover` marks a
      release made by `LockNode` to take over an expired lock. */
  datatype Pc =
    | Idle
    | LockReading
    | SetReading
    | SetWriting(copy: Node, round: nat)
    | SetRetrying(round: nat)
    | ReleaseReading(takeover: bool)
    | ReleaseWriting(copy: Node, round: nat, takeover: bool)
    | ReleaseRetrying(round: nat, takeover: bool)

  /** `holds` records that the client's last lock call succeeded and it has not released since. */
  datatype Client = Client(pc: Pc, holds: bool)

  datatype System = System(node: Node, clients: seq<Client>)

  /** One atomic step: a client starts a call, a client makes its next API call (which may fail for
      its own reasons), or somebody else writes. */
  datatype Step =
    | Start(i: nat, first: Pc)
    | Go(i: nat, ok: bool, now: int)
    | Outside(w: Write)

  // ---------- one client step ----------

  function AfterRelease(takeover: bool): Pc { if takeover then SetReading else Idle }

  function RetryOrStop(next: Pc, round: nat): Pc { if round < MAX_LOCK_RETRY then next else Idle }

  function GoClient(c: Client, node: Node, ok: bool, now: int): (Client, Node) {
    match c.pc
    case Idle => (c, node)
    case LockReading =>
      if !ok then (c.(pc := Idle), node)
      else if LOCK !in node.annotations then (c.(pc := SetReading), node)
      else if node.annotations[LOCK].Words? then (c.(pc := Idle), node)
      else if now - node.annotations[LOCK].time > EXPIRY_SECONDS then (c.(pc := ReleaseReading(true)), node)
      else (c.(pc := Idle), node)
    case SetReading =>
      if !ok || LOCK in node.annotations then (c.(pc := Idle), node)
      else (c.(pc := SetWriting(node, 0)), node)
    case SetWriting(copy, round) =>
      if ok && copy.version == node.version then
        (Client(Idle, true), Node(node.version + 1, Edited(copy.annotations, LOCK, SetStamp, now)))
      else (c.(pc := RetryOrStop(SetRetrying(round), round)), node)
    case SetRetrying(round) =>
      if ok then (c.(pc := SetWriting(node, round + 1)), node)
      else (c.(pc := RetryOrStop(SetRetrying(round + 1), round + 1)), node)
    case ReleaseReading(takeover) =>
      if !ok then (c.(pc := Idle), node)
      else if LOCK !in node.annotations then (Client(AfterRelease(takeover), false), node)
      else (c.(pc := ReleaseWriting(node, 0, takeover)), node)
    case ReleaseWriting(copy, round, takeover) =>
      if ok && copy.version == node.version then
        (Client(AfterRelease(takeover), false), Node(node.version + 1, Edited(copy.annotations, LOCK, Delete, now)))
      else (c.(pc := RetryOrStop(ReleaseRetrying(round, takeover), round)), node)
    case ReleaseRetrying(round, takeover) =>
      if ok then (c.(pc := ReleaseWriting(node, round + 1, takeover)), node)
      else (c.(pc := RetryOrStop(ReleaseRetrying(round + 1, takeover), round + 1)), node)
  }

  ghost predicate Enabled(s: System, t: Step) {
    match t
    case Start(i, first) =>
      && i < |s.clients| && s.clients[i].pc == Idle
      && (first == LockReading || first == ReleaseReading(false))
    case Go(i, _, _) => i < |s.clients|
    case Outside(w) => w.key != LOCK
  }

  function Do(s: System, t: Step): System
    requires Enabled(s, t)
  {
    match t
    case Start(i, first) => s.(clients := s.clients[i := s.clients[i].(pc := first)])
    case Go(i, ok, now) =>
      var (c, node) := GoClient(s.clients[i], s.node, ok, now);
      System(node, s.clients[i := c])
    case Outside(w) => s.(node := Node(s.node.version + 1, Applied(s.node.annotations, w)))
  }

  // ---------- invariants of every run ----------

  /** Copies are out of date or current; the first write of a lock call comes from a copy on which
      the lock was free; rounds stay within the retry limit. */
  ghost predicate PcOk(pc: Pc, node: Node) {
    match pc
    case SetWriting(copy, round) =>
      CopyOf(copy, node) && round <= MAX_LOCK_RETRY && (round == 0 ==> LOCK !in copy.annotations)
    case ReleaseWriting(copy, round, _) => CopyOf(copy, node) && round <= MAX_LOCK_RETRY
    case SetRetrying(round) => round < MAX_LOCK_RETRY
    case ReleaseRetrying(round, _) => round < MAX_LOCK_RETRY
    case _ => true
  }

  ghost predicate Consistent(s: System) {
    forall i :: 0 <= i < |s.clients| ==> PcOk(s.clients[i].pc, s.node)
  }

  lemma ConsistentKept(s: System, t: Step)
    requires Consistent(s) && Enabled(s, t)
    ensures Consistent(Do(s, t))
    ensures !t.Outside? ==> Do(s, t).node.annotations - {LOCK} == s.node.annotations - {LOCK}
  {}

  ghost predicate Run(s: System, steps: seq<Step>)
    decreases steps
  {
    steps != [] ==> Enabled(s, steps[0]) && Run(Do(s, steps[0]), steps[1..])
  }

  ghost function End(s: System, steps: seq<Step>): System
    requires Run(s, steps)
    decreases steps
  {
    if steps == [] then s else End(Do(s, steps[0]), steps[1..])
  }

  function OutsideWrites(steps: seq<Step>): seq<Write> {
    if steps == [] then []
    else (if steps[0].Outside? then [steps[0].w] else []) + OutsideWrites(steps[1..])
  }

  /** In every interleaving, the annotations other than the lock end as if the lock steps had not
      happened: exactly the others' writes, in order, none lost and none invented. */
  lemma {:induction false} OthersUnaffected(s: System, steps: seq<Step>)
    requires Consistent(s) && Run(s, steps)
    ensures Consistent(End(s, steps))
    ensures End(s, steps).node.annotations - {LOCK} ==
            Replay(s.node.annotations, OutsideWrites(steps)) - {LOCK}
    decreases steps
  {
    if steps != [] {
      var s', rest := Do(s, steps[0]), steps[1..];
      ConsistentKept(s, steps[0]);
      OthersUnaffected(s', rest);
      if steps[0].Outside? {
        var w := steps[0].w;
        assert Replay(s.node.annotations, [w]) == Applied(s.node.annotations, w);
        ReplayMore(s.node.annotations, [w], OutsideWrites(rest));
      } else {
        SameButFor(s'.node.annotations, s.node.annotations, OutsideWrites(rest), LOCK);
        assert OutsideWrites(steps) == OutsideWrites(rest);
      }
    }
  }

  // ---------- every call ends ----------

  /** An upper bound on the API calls a client still makes before it is idle again. */
  function CallsLeft(pc: Pc): nat {
    match pc
    case Idle => 0
    case SetReading => 12
    case SetWriting(_, round) => if round <= 5 then 11 - 2 * round else 1
    case SetRetrying(round) => if round < 5 then 10 - 2 * round else 1
    case ReleaseReading(takeover) => if takeover then 24 else 12
    case ReleaseWriting(_, round, takeover) => (if round <= 5 then 11 - 2 * round else 1) + (if takeover then 12 else 0)
    case ReleaseRetrying(round, takeover) => (if round < 5 then 10 - 2 * round else 1) + (if takeover then 12 else 0)
    case LockReading => 25
  }

  /** Each API call brings the client closer to the end of its call, whatever the others do: a lock
      call makes at most 25 of them and a release at most 12. */
  lemma CallsEnd(c: Client, node: Node, ok: bool, now: int)
    requires PcOk(c.pc, node) && c.pc != Idle
    ensures CallsLeft(GoClient(c, node, ok, now).0.pc) < CallsLeft(c.pc)
  {}

  // ---------- one call among the others ----------

  /** What a step of anybody but client `i` writes to the node. */
  ghost function WriteOf(s: System, t: Step, i: nat): seq<Write>
    requires Enabled(s, t)
  {
    match t
    case Start(_, _) => []
    case Outside(w) => [w]
    case Go(j, ok, now) =>
      if j == i then []
      else match s.clients[j].pc
        case SetWriting(copy, _) =>
          if ok && copy.version == s.node.version then [Write(LOCK, Some(Stamp(now)))] else []
        case ReleaseWriting(copy, _, _) =>
          if ok && copy.version == s.node.version then [Write(LOCK, None)] else []
        case _ => []
  }

  ghost function WritesOfOthers(s: System, steps: seq<Step>, i: nat): seq<Write>
    requires Run(s, steps)
    decreases steps
  {
    if steps == [] then [] else WriteOf(s, steps[0], i) + WritesOfOthers(Do(s, steps[0]), steps[1..], i)
  }

  /** The part of a run in which client `i` completes the call it is in: it is idle after the last step,
      which is its own, and not before. */
  ghost predicate Completes(s: System, steps: seq<Step>, i: nat)
    requires Run(s, steps) && i < |s.clients|
    decreases steps
  {
    && steps != [] && s.clients[i].pc != Idle
    && var s', rest := Do(s, steps[0]), steps[1..];
       if s'.clients[i].pc == Idle then rest == [] else Completes(s', rest, i)
  }

  /** The places of the `setNodeLock` part of a lock call, or of a release that is not part of a takeover. */
  ghost predicate InCall(pc: Pc, edit: Edit) {
    match edit
    case SetStamp => pc.SetReading? || pc.SetWriting? || pc.SetRetrying?
    case Delete =>
      || pc == ReleaseReading(false)
      || (pc.ReleaseWriting? && !pc.takeover)
      || (pc.ReleaseRetrying? && !pc.takeover)
  }

  /** The step of client `i` is a write that goes through, or a release that finds the lock free. */
  ghost predicate Succeeds(s: System, t: Step, i: nat)
    requires Enabled(s, t)
  {
    t.Go? && t.i == i && t.ok && match s.clients[i].pc
      case SetWriting(copy, _) => copy.version == s.node.version
      case ReleaseWriting(copy, _, _) => copy.version == s.node.version
      case ReleaseReading(_) => LOCK !in s.node.annotations
      case _ => false
  }

  /** The last step of the run is a success of client `i`. */
  ghost predicate CallSucceeds(s: System, steps: seq<Step>, i: nat)
    requires Run(s, steps)
    decreases steps
  {
    steps != [] &&
      if |steps| == 1 then Succeeds(s, steps[0], i) else CallSucceeds(Do(s, steps[0]), steps[1..], i)
  }

  /** One step while a call is under way. */
  lemma CallStep(s: System, t: Step, i: nat, edit: Edit) returns (now: int)
    requires Consistent(s) && Enabled(s, t) && i < |s.clients| && InCall(s.clients[i].pc, edit)
    ensures var (s', theirs) := (Do(s, t), Replay(s.node.annotations, WriteOf(s, t, i)));
      if s'.clients[i].pc == Idle then
        && s'.node.annotations == (if Succeeds(s, t, i) then Edited(theirs, LOCK, edit, now) else theirs)
        && s'.clients[i].holds == (if Succeeds(s, t, i) then edit.SetStamp? else s.clients[i].holds)
      else
        && InCall(s'.clients[i].pc, edit) && s'.node.annotations == theirs
        && s'.clients[i].holds == s.clients[i].holds
  {
    now := if t.Go? then t.now else 0;
    var a, ws := s.node.annotations, WriteOf(s, t, i);
    assert Replay(a, ws) == if ws == [] then a else Applied(a, ws[0]);
    assert LOCK !in a ==> a - {LOCK} == a;
  }

  /** A client's call keeps the contract its method is proved against, whoever holds the lock: among any
      steps of others, a successful call leaves the node as the others made it with exactly its edit on
      top, and a failed one leaves it as the others made it. */
  lemma {:induction false} CallRefines(s: System, steps: seq<Step>, i: nat, edit: Edit) returns (now: int)
    requires Consistent(s) && Run(s, steps) && i < |s.clients| && Completes(s, steps, i)
    requires InCall(s.clients[i].pc, edit)
    ensures i < |End(s, steps).clients| && End(s, steps).clients[i].pc == Idle
    ensures End(s, steps).node.annotations == var theirs := Replay(s.node.annotations, WritesOfOthers(s, steps, i));
      if CallSucceeds(s, steps, i) then Edited(theirs, LOCK, edit, now) else theirs
    ensures End(s, steps).clients[i].holds ==
      if CallSucceeds(s, steps, i) then edit.SetStamp? else s.clients[i].holds
    decreases steps
  {
    var s', rest := Do(s, steps[0]), steps[1..];
    ConsistentKept(s, steps[0]);
    now := CallStep(s, steps[0], i, edit);
    hide InCall, Succeeds, WriteOf, Consistent, Edited;
    var first := WriteOf(s, steps[0], i);
    if s'.clients[i].pc == Idle {
      assert WritesOfOthers(s, steps, i) == first;
    } else {
      now := CallRefines(s', rest, i, edit);
      ReplayMore(s.node.annotations, first, WritesOfOthers(s', rest, i));
    }
  }

  /** The places of a whole `LockNode` call, the takeover of an expired lock included. */
  ghost predicate InLockCall(pc: Pc) {
    || pc.LockReading? || pc.SetReading? || pc.SetWriting? || pc.SetRetrying?
    || pc == ReleaseReading(true)
    || (pc.ReleaseWriting? && pc.takeover)
    || (pc.ReleaseRetrying? && pc.takeover)
  }

  lemma LockCallStep(s: System, t: Step, i: nat) returns (now: int)
    requires Consistent(s) && Enabled(s, t) && i < |s.clients| && InLockCall(s.clients[i].pc)
    ensures var (s', theirs) := (Do(s, t), Replay(s.node.annotations, WriteOf(s, t, i)));
      && s'.node.annotations - {LOCK} == theirs - {LOCK}
      && (if s'.clients[i].pc == Idle then
            Succeeds(s, t, i) ==> s'.node.annotations == theirs[LOCK := Stamp(now)]
          else InLockCall(s'.clients[i].pc))
  {
    now := if t.Go? then t.now else 0;
    var a, ws := s.node.annotations, WriteOf(s, t, i);
    assert Replay(a, ws) == if ws == [] then a else Applied(a, ws[0]);
  }

  /** The same for a whole `LockNode` call: whatever others do, it changes no other annotation, and a
      success leaves the node as the others made it with the lock stamped on top, taken over or not. */
  lemma {:induction false} LockCallRefines(s: System, steps: seq<Step>, i: nat) returns (now: int)
    requires Consistent(s) && Run(s, steps) && i < |s.clients| && Completes(s, steps, i)
    requires InLockCall(s.clients[i].pc)
    ensures var mine := End(s, steps).node.annotations;
      var theirs := Replay(s.node.annotations, WritesOfOthers(s, steps, i));
      && mine - {LOCK} == theirs - {LOCK}
      && (CallSucceeds(s, steps, i) ==> mine == theirs[LOCK := Stamp(now)])
    decreases steps
  {
    var s', rest := Do(s, steps[0]), steps[1..];
    ConsistentKept(s, steps[0]);
    now := LockCallStep(s, steps[0], i);
    hide InLockCall, Succeeds, WriteOf, Consistent;
    var first := WriteOf(s, steps[0], i);
    if s'.clients[i].pc == Idle {
      assert WritesOfOthers(s, steps, i) == first;
    } else {
      now := LockCallRefines(s', rest, i);
      var more := WritesOfOthers(s', rest, i);
      ReplayMore(s.node.annotations, first, more);
      SameButFor(s'.node.annotations, Replay(s.node.annotations, first), more, LOCK);
      SameWithStamp(Replay(s'.node.annotations, more), Replay(s.node.annotations, first + more), LOCK, Stamp(now));
    }
  }

  // ---------- mutual exclusion ----------

  ghost predicate Exclusive(s: System) {
    forall i, j :: 0 <= i < |s.clients| && 0 <= j < |s.clients| && s.clients[i].holds && s.clients[j].holds ==> i == j
  }

  ghost predicate Releasing(pc: Pc) { pc.ReleaseReading? || pc.ReleaseWriting? || pc.ReleaseRetrying? }

  /** A holder's lock is on the node, and only holders are releasing. */
  ghost predicate Guarded(s: System) {
    && Exclusive(s)
    && forall i :: 0 <= i < |s.clients| ==>
         && (s.clients[i].holds ==> LOCK in s.node.annotations)
         && (Releasing(s.clients[i].pc) ==> s.clients[i].holds)
  }

  /** A lock write that goes through from a copy that showed the lock: what the first write of a call
      tests for and a retry does not. */
  ghost predicate BlindWrite(s: System, t: Step)
    requires Enabled(s, t)
  {
    t.Go? && match s.clients[t.i].pc
      case SetWriting(copy, _) => t.ok && copy.version == s.node.version && LOCK in copy.annotations
      case _ => false
  }

  /** The step turns a lock call into the takeover of an expired lock. */
  ghost predicate TakesOver(s: System, t: Step)
    requires Enabled(s, t)
  {
    t.Go? && s.clients[t.i].pc == LockReading && Do(s, t).clients[t.i].pc == ReleaseReading(true)
  }

  /** Callers release only what they hold and no lock is taken over by expiry. */
  ghost predicate Owning(s: System, t: Step)
    requires Enabled(s, t)
  {
    && !TakesOver(s, t)
    && (t.Start? && t.first == ReleaseReading(false) ==> s.clients[t.i].holds)
  }

  /** The discipline under which the lock excludes. */
  ghost predicate Disciplined(s: System, t: Step)
    requires Enabled(s, t)
  {
    Owning(s, t) && !BlindWrite(s, t)
  }

  lemma GuardedKept(s: System, t: Step)
    requires Consistent(s) && Guarded(s) && Enabled(s, t) && Disciplined(s, t)
    ensures Guarded(Do(s, t))
  {}

  ghost predicate DisciplinedRun(s: System, steps: seq<Step>)
    requires Run(s, steps)
    decreases steps
  {
    steps != [] ==> Disciplined(s, steps[0]) && DisciplinedRun(Do(s, steps[0]), steps[1..])
  }

  /** At most one client holds in every state of the run. */
  ghost predicate AlwaysExclusive(s: System, steps: seq<Step>)
    requires Run(s, steps)
    decreases steps
  {
    Exclusive(s) && (steps != [] ==> AlwaysExclusive(Do(s, steps[0]), steps[1..]))
  }

  /** Mutual exclusion in every state of every disciplined run, from any state in which it holds. */
  lemma {:induction false} MutualExclusion(s: System, steps: seq<Step>)
    requires Consistent(s) && Guarded(s) && Run(s, steps) && DisciplinedRun(s, steps)
    ensures Guarded(End(s, steps)) && AlwaysExclusive(s, steps)
    decreases steps
  {
    if steps != [] {
      ConsistentKept(s, steps[0]);
      GuardedKept(s, steps[0]);
      MutualExclusion(Do(s, steps[0]), steps[1..]);
    }
  }

  /** Idle clients that hold nothing make a good start, whatever is on the node. */
  lemma IdleStart(s: System)
    requires forall i :: 0 <= i < |s.clients| ==> s.clients[i] == Client(Idle, false)
    ensures Consistent(s) && Guarded(s)
  {}

  /** A lock call takes a lock over exactly when it reads a stamp more than five minutes old; it goes on to
      lock when it reads none, and ends on any other text and on a fresh stamp. */
  lemma TakeoverIffExpired(c: Client, node: Node, now: int)
    requires c.pc == LockReading
    ensures var (c', node') := GoClient(c, node, true, now);
      && node' == node && c'.holds == c.holds
      && (c'.pc == SetReading <==> "hamivgpu" !in node.annotations)
      && (c'.pc == ReleaseReading(true) <==>
            "hamivgpu" in node.annotations && node.annotations["hamivgpu"].Stamp?
            && now - node.annotations["hamivgpu"].time > 300)
      && (c'.pc == SetReading || c'.pc == ReleaseReading(true) || c'.pc == Idle)
  {}

  /** A failed write is followed by another round until five have failed. */
  lemma FiveRounds(c: Client, node: Node, now: int)
    requires c.pc.SetWriting? || c.pc.ReleaseWriting?
    ensures GoClient(c, node, false, now).0.pc == Idle <==> c.pc.round >= 5
  {}

  /** Callers release only what they hold, no lock is taken over by expiry, and every lock call succeeds
      on its first update if at all. */
  ghost predicate FirstTryRun(s: System, steps: seq<Step>)
    requires Run(s, steps)
    decreases steps
  {
    steps != [] ==>
      && Owning(s, steps[0])
      && (WritesLock(s, steps[0]) ==> s.clients[steps[0].i].pc.round == 0)
      && FirstTryRun(Do(s, steps[0]), steps[1..])
  }

  /** A lock write that goes through. */
  ghost predicate WritesLock(s: System, t: Step)
    requires Enabled(s, t)
  {
    t.Go? && t.ok && s.clients[t.i].pc.SetWriting? && s.clients[t.i].pc.copy.version == s.node.version
  }

  lemma {:induction false} FirstTriesDisciplined(s: System, steps: seq<Step>)
    requires Consistent(s) && Run(s, steps) && FirstTryRun(s, steps)
    ensures DisciplinedRun(s, steps)
    decreases steps
  {
    if steps != [] {
      ConsistentKept(s, steps[0]);
      FirstTriesDisciplined(Do(s, steps[0]), steps[1..]);
    }
  }

  /** In the callers' terms: from idle clients, whatever is on the node, at most one client ever holds
      the lock while every lock call succeeds on its first update, none takes over an expired lock and
      callers release only what they hold. */
  lemma FirstTryExclusion(s: System, steps: seq<Step>)
    requires forall i :: 0 <= i < |s.clients| ==> s.clients[i] == Client(Idle, false)
    requires Run(s, steps) && FirstTryRun(s, steps)
    ensures AlwaysExclusive(s, steps)
  {
    IdleStart(s);
    FirstTriesDisciplined(s, steps);
    MutualExclusion(s, steps);
  }

  // ---------- exactly when it is lost ----------

  ghost predicate Locking(pc: Pc) { pc.LockReading? || pc.SetReading? || pc.SetWriting? || pc.SetRetrying? }

  /** The lock is on the node exactly while somebody holds it, and no holder is locking. */
  ghost predicate Tracked(s: System) {
    && Guarded(s)
    && (LOCK in s.node.annotations ==> exists i :: 0 <= i < |s.clients| && s.clients[i].holds)
    && forall i :: 0 <= i < |s.clients| && Locking(s.clients[i].pc) ==> !s.clients[i].holds
  }

  /** Callers release only what they hold, lock only when they hold nothing, and take over no lock. */
  ghost predicate Polite(s: System, t: Step)
    requires Enabled(s, t)
  {
    Owning(s, t) && (t.Start? && t.first != ReleaseReading(false) ==> !s.clients[t.i].holds)
  }

  /** Idle clients on a node without the lock. */
  lemma FreshStart(s: System)
    requires forall i :: 0 <= i < |s.clients| ==> s.clients[i] == Client(Idle, false)
    requires LOCK !in s.node.annotations
    ensures Consistent(s) && Tracked(s)
  {}

  lemma TrackedKept(s: System, t: Step)
    requires Consistent(s) && Tracked(s) && Enabled(s, t) && Polite(s, t) && !BlindWrite(s, t)
    ensures Tracked(Do(s, t))
  {
    GuardedKept(s, t);
    var s' := Do(s, t);
    if LOCK in s'.node.annotations {
      if LOCK in s.node.annotations {
        var j :| 0 <= j < |s.clients| && s.clients[j].holds;
        assert s'.clients[j].holds;
      } else {
        assert s'.clients[t.i].holds;
      }
    }
  }

  /** One lock write that goes through keeps the exclusion exactly when its copy showed the lock free:
      the test `setNodeLock` makes on its first read and its retry loop leaves out. */
  lemma WriteKeepsIff(s: System, i: nat, now: int)
    requires Consistent(s) && Tracked(s) && i < |s.clients| && s.clients[i].pc.SetWriting?
    requires s.clients[i].pc.copy.version == s.node.version
    ensures Exclusive(Do(s, Go(i, true, now))) <==> LOCK !in s.clients[i].pc.copy.annotations
  {
    var s' := Do(s, Go(i, true, now));
    assert s'.clients[i].holds;
    assert forall j :: 0 <= j < |s.clients| && j != i ==> s'.clients[j] == s.clients[j];
  }

  ghost predicate PoliteRun(s: System, steps: seq<Step>)
    requires Run(s, steps)
    decreases steps
  {
    steps != [] ==> Polite(s, steps[0]) && PoliteRun(Do(s, steps[0]), steps[1..])
  }

  /** Every lock write that goes through starts from a copy on which the lock was free. */
  ghost predicate AllTested(s: System, steps: seq<Step>)
    requires Run(s, steps)
    decreases steps
  {
    steps != [] ==> !BlindWrite(s, steps[0]) && AllTested(Do(s, steps[0]), steps[1..])
  }

  /** Over every run of polite callers, at most one client holds in every state if and only if every
      lock write that goes through starts from a copy that showed the lock free. */
  lemma {:induction false} ExclusionIff(s: System, steps: seq<Step>)
    requires Consistent(s) && Tracked(s) && Run(s, steps) && PoliteRun(s, steps)
    ensures AlwaysExclusive(s, steps) <==> AllTested(s, steps)
    decreases steps
  {
    if steps != [] {
      if BlindWrite(s, steps[0]) {
        WriteKeepsIff(s, steps[0].i, steps[0].now);
        assert !Exclusive(Do(s, steps[0]));
      } else {
        ConsistentKept(s, steps[0]);
        TrackedKept(s, steps[0]);
        ExclusionIff(Do(s, steps[0]), steps[1..]);
      }
    }
  }

  /** The retry loop does not test the lock again, so two clients can hold it: client 0 reads a free
      lock, an unrelated write makes its update conflict, client 1 locks, and client 0's retry
      stamps over that lock. Both are polite: no lock expires and nobody releases. */
  lemma RetryBreaksExclusion()
    ensures Run(Fresh(), Overlap()) && PoliteRun(Fresh(), Overlap()) && !Exclusive(End(Fresh(), Overlap()))
  {
    hide Run, PoliteRun, End, Do, Exclusive;
    var first, second, third := Overlap()[..5], Overlap()[5..9], Overlap()[9..];
    Conflict(first);
    SecondLocks(second);
    RetryLocks(third);
    RunAppend(Fresh(), first, second);
    RunAppend(Fresh(), first + second, third);
    assert first + second + third == Overlap();
  }

  function Overlap(): seq<Step> {
    [Start(0, LockReading), Go(0, true, 0), Go(0, true, 0), Outside(Write("x", None)), Go(0, true, 0),
     Start(1, LockReading), Go(1, true, 0), Go(1, true, 0), Go(1, true, 0),
     Go(0, true, 0), Go(0, true, 0)]
  }

  function Fresh(): System { System(Node(0, map[]), [Client(Idle, false), Client(Idle, false)]) }

  /** Client 0's first update has conflicted, and its loop is about to read again. */
  function Conflicted(): System {
    System(Node(1, map[]), [Client(SetRetrying(0), false), Client(Idle, false)])
  }

  function SecondHolds(): System {
    System(Node(2, map[LOCK := Stamp(0)]), [Client(SetRetrying(0), false), Client(Idle, true)])
  }

  /** Client 0's first update conflicts with an unrelated write. */
  lemma Conflict(steps: seq<Step>)
    requires steps == [Start(0, LockReading), Go(0, true, 0), Go(0, true, 0), Outside(Write("x", None)), Go(0, true, 0)]
    ensures Run(Fresh(), steps) && PoliteRun(Fresh(), steps) && End(Fresh(), steps) == Conflicted()
  {
    var free := Node(0, map[]);
    var s1 := System(free, [Client(LockReading, false), Client(Idle, false)]);
    var s2 := System(free, [Client(SetReading, false), Client(Idle, false)]);
    var s3 := System(free, [Client(SetWriting(free, 0), false), Client(Idle, false)]);
    var s4 := System(Node(1, map[]), s3.clients);
    var r1 := Unfold(Fresh(), steps, s1);
    var r2 := Unfold(s1, r1, s2);
    var r3 := Unfold(s2, r2, s3);
    assert Applied(map[], Write("x", None)) == map[];
    var r4 := Unfold(s3, r3, s4);
    var r5 := Unfold(s4, r4, Conflicted());
  }

  /** Client 1 locks. */
  lemma SecondLocks(steps: seq<Step>)
    requires steps == [Start(1, LockReading), Go(1, true, 0), Go(1, true, 0), Go(1, true, 0)]
    ensures Run(Conflicted(), steps) && PoliteRun(Conflicted(), steps) && End(Conflicted(), steps) == SecondHolds()
  {
    var free, zero := Node(1, map[]), Client(SetRetrying(0), false);
    var s1 := System(free, [zero, Client(LockReading, false)]);
    var s2 := System(free, [zero, Client(SetReading, false)]);
    var s3 := System(free, [zero, Client(SetWriting(free, 0), false)]);
    var r1 := Unfold(Conflicted(), steps, s1);
    var r2 := Unfold(s1, r1, s2);
    var r3 := Unfold(s2, r2, s3);
    var r4 := Unfold(s3, r3, SecondHolds());
  }

  /** Client 0 reads the locked node and stamps over the lock. */
  lemma RetryLocks(steps: seq<Step>)
    requires steps == [Go(0, true, 0), Go(0, true, 0)]
    ensures Run(SecondHolds(), steps) && PoliteRun(SecondHolds(), steps) && !Exclusive(End(SecondHolds(), steps))
  {
    var locked := Node(2, map[LOCK := Stamp(0)]);
    var s1 := System(locked, [Client(SetWriting(locked, 1), false), Client(Idle, true)]);
    var s2 := System(Node(3, map[LOCK := Stamp(0)]), [Client(Idle, true), Client(Idle, true)]);
    var r1 := Unfold(SecondHolds(), steps, s1);
    var r2 := Unfold(s1, r1, s2);
    assert s2.clients[0].holds && s2.clients[1].holds;
  }

  /** The first step of a run, to the state it leads to. */
  lemma Unfold(s: System, steps: seq<Step>, s': System) returns (rest: seq<Step>)
    requires steps != [] && Enabled(s, steps[0]) && Polite(s, steps[0]) && s' == Do(s, steps[0])
    ensures rest == steps[1..]
    ensures Run(s', rest) ==> Run(s, steps) && End(s, steps) == End(s', rest)
    ensures Run(s', rest) && PoliteRun(s', rest) ==> PoliteRun(s, steps)
  {
    rest := steps[1..];
  }

  lemma {:induction false} RunAppend(s: System, a: seq<Step>, b: seq<Step>)
    requires Run(s, a) && Run(End(s, a), b)
    ensures Run(s, a + b) && End(s, a + b) == End(End(s, a), b)
    ensures PoliteRun(s, a) && PoliteRun(End(s, a), b) ==> PoliteRun(s, a + b)
    decreases a
  {
    if a == [] {
      assert a + b == b;
    } else {
      assert (a + b)[1..] == a[1..] + b;
      RunAppend(Do(s, a[0]), a[1..], b);
    }
  }
}
