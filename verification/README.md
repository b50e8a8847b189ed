# A verified model of the vGPU device plugin

The repository is a Kubernetes device plugin that hands out shared NVIDIA GPUs. This project models
the parts of it that decide something: which replica goes to whom, what a pod annotation still owes,
who holds the node lock, which container is throttled, how a GPU is cut into MIG instances, what the
bytes of a configuration space say. Each part is a module with the operations in the shape the Go
code gives them (loops, maps and fields updated in place), a specification function or predicate each
operation is proved against, and theorems about that specification over all inputs or all runs.

`dafny verify dfyconfig.toml` checks everything.

## What is modelled

- `Text`: Go's `strings` and `strconv` as far as they are used, with the split/join and decimal
  round trips everything else rests on. Numbers are read with the source's widths: int32, uint64,
  int64, clamping and dropped errors included.
- `AnnotatedIds`, `Devices`: replica IDs `<id>::<n>` and device sets keyed by ID.
- `Allocator`: the preferred allocation. A GPU's load is its replicas minus its free ones. The greedy
  rule "take a replica of a least loaded GPU" is a predicate on pick sequences; the method is proved to
  follow it, and every sequence that follows it is proved to minimise every convex cost of the final
  loads (sum of squares and maximum among them) and to end in the same multiset of loads.
- `Replication`: the device map with replicas. `Expanded` is the whole result as a function of the
  selections made; conservation is proved about it.
- `PodCodec`, `PodDrain`: the annotation codec, and taking one container's request after another out
  of it.
- `Allocation`: `Allocate` as a step of a cluster of pods and one node, and runs of such steps mixed
  with arbitrary outside steps.
- `NodeLock`, `LockProtocol`: the lock calls against a versioned node that others write at any moment,
  first as sequential calls with interference, then as interleavings of single API calls of any number
  of clients. The two describe the same code twice, as loops and as a machine of program points; the
  machine is proved to keep the contracts the loops are proved against (`LockProtocol.CallRefines`,
  `LockProtocol.LockCallRefines`).
- `Feedback`: one call of the priority controller over shared container records, and its iteration.
- `MigConfig`: the per-GPU MIG state. MIG counts are heap objects because a Go map is a reference: the
  theorems about separate GPUs are theorems about aliasing.
- `PciConfig`, `Vgpu`: the capability walk of section 6.7 of the PCI Local Bus Specification Revision
  3.0 and the record walk inside a capability, in 8-bit arithmetic.
- `Wildcard`: the wildcard compiler, with a parser and a matcher for the regular expressions it emits.
- `DeviceEntries`, `MpsLimits`, `HealthXids`: list lengths and advice, MPS limits, XID precedence.

Choices that hold throughout. Iterating a Go map picks any remaining key; `sort.Slice` leaves equal
elements in any order. A Go panic is an outcome of its own (`Panics`, `Crashed`, `IndexPanic`,
`SlicePanic`) and not a precondition, except where listed under "Left out". In `Allocation` API writes
succeed; a failing listing, a failing response and a failing annotation patch are inputs (`listOk`,
`responseOk`, `eraseOk`). Where an operation is proved against a specification function, a lemma says
what that function means in terms of its inputs alone. In
`NodeLock` and `LockProtocol` every API call may fail or conflict.

## Results that differ from what the code or its comments suggest

- A pod whose GPUs are spread over more than one container is never served: the pending pod is chosen
  by the total number of devices, the request is answered with one container's. The condition for a
  call to succeed is `Allocation.SuccessCondition`, an equivalence; over runs it is
  `Allocation.SpreadNeverServed`, and `Allocation.TwoContainersRefused` is the simplest case.
- `setNodeLock` tests the lock on its first read only, so two clients can hold it without expiry and
  without anybody releasing (`LockProtocol.RetryBreaksExclusion`). Among callers that release only what
  they hold, lock only when they hold nothing and take over no expired lock, at most one holds in every
  state of a run if and only if every lock write that goes through starts from a copy that showed the
  lock free, which is the test the retry loop leaves out (`LockProtocol.ExclusionIff`). It holds in
  particular while every lock call succeeds on its first update (`LockProtocol.FirstTryExclusion`).
- "set gpuMemoryFactor to at least" a value: from a factor above 1 that value may be too small, on
  ordinary nodes (`DeviceEntries.AdviceTooSmall`). It is always enough when what the old list leaves over
  is less than the value, as on nodes of few GPUs (`DeviceEntries.AdviceEnoughIff`). Number of GPUs,
  entries and leftovers of the old list do not decide the remaining cases
  (`DeviceEntries.AdviceJustEnough`): what the new list leaves over does, and the equivalence of
  `AdviceEnoughIff` says how, though by `DeviceEntries.CountCovers` that amounts to counting the new
  list. Repeating the advice ends (`DeviceEntries.AdviceSettles`).
- An annotation reads back as it was written if and only if no string field holds a separator and it is
  not one empty container, which reads back as no container (`PodCodec.RoundTrip`). The encoder checks
  neither.
- `*` does not match across a newline (`Wildcard.NewlineStops`); the exact meaning is
  `Wildcard.CompilationPreservesMeaning`.
- A container with a negative priority, or an active one with a priority above 1, makes the feedback
  controller index out of its two-entry table; `Feedback.ContainerLister.Observe` says exactly when.
- A GPU whose MIG configuration lists no profiles at all makes every request for a non-empty template
  panic (`MigConfig.GeneratedMeaning`).
- A vGPU record of length zero makes `GetInfo` loop for ever (`Vgpu.ZeroLengthLoops`), and a capability
  of exactly five bytes is accepted by the signature test and then indexed past its end
  (`Vgpu.ShortestSignature`).
- A template that names one profile twice with different counts asks for a reset on every call
  (`MigConfig.GeneratedMeaning`).
- Stripping a replica annotation gives the ID back exactly when the ID neither contains `::` nor ends
  in `:` (`AnnotatedIds.StripNew`).

## Model

| member | source | states |
|---|---|---|
| Text.SplitJoin | pkg/util/util.go:181-231 | splitting undoes joining on every non-empty list of separator-free pieces |
| Text.JoinSplit | pkg/util/util.go:189-231 | joining undoes splitting on every string, and the pieces are separator-free |
| Text.ParseUintDigits | pkg/util/util.go:120-136 | a printed number parses back exactly while it fits the width, otherwise it is a range error |
| Text.ParseFormatInt32 | pkg/util/util.go:172-209 | every int32, negative ones included, survives printing and the decoder's parsing |
| Text.DigitPlace | pkg/util/util.go:130-134 | a digit stands for its place in 0123456789, so numbers other programs write are read as meant |
| Text.ParseInt32Meaning | pkg/util/util.go:206-209 | for every text: an optional sign and digits read as their value clamped to int32, anything malformed as 0 unless its digits already overflow |
| Text.AtoiMeaning | pkg/util/util.go:561-564 | for every text: a position exactly for an optional sign, digits and nothing else within 64 bits |
| Text.ContainsIff | pkg/plugin/server.go:390 | a text contains another exactly when it has it at some place |
| Text.TrimMeaning | pkg/vgpu/vgpu.go:130-146 | trimming removes a run of cut characters at each end and stops at the first other one |
| Text.TrimPadded | pkg/util/util.go:556 | trimming a padded text gives back its core |
| AnnotatedIds.StripNew | pkg/rm/devices.go:242-267 | stripping the annotation gives the ID back if and only if it neither contains "::" nor ends in ":" |
| AnnotatedIds.PlainIdKept | pkg/rm/devices.go:255-267 | an ID without annotation is its own stripped form |
| AnnotatedIds.GetIdCut | pkg/rm/devices.go:253-267 | an annotated ID is cut at its first "::", whatever follows |
| AnnotatedIds.NewHasAnnotations | pkg/rm/devices.go:242-253 | an annotated ID is always recognised as one |
| AnnotatedIds.NewInjective | pkg/rm/devices.go:242-245 | different (ID, replica) pairs have different annotated IDs, whatever the IDs look like |
| Devices.Subset | pkg/rm/devices.go:131-141 | the result is exactly the named devices that exist |
| Devices.Difference | pkg/rm/devices.go:143-152 | the result is exactly the devices the other set lacks |
| Devices.GetIds | pkg/rm/devices.go:154-161 | every ID once, in any order |
| Allocator.BalancedStep | pkg/rm/allocate.go:61-74 | taking a replica of a least loaded GPU keeps every picked GPU at most one above any GPU with free replicas |
| Allocator.LoadIsHandedOut | pkg/rm/allocate.go:36-52 | the load that is balanced, total minus available, is the number of a GPU's replicas handed out already |
| Allocator.GreedyBalanced | pkg/rm/allocate.go:61-74 | greedy picks are distinct free replicas and leave the loads balanced |
| Allocator.BalancedOptimal | pkg/rm/allocate.go:27-29 | a balanced choice costs no more than any choice of as many replicas, for every convex cost of the final loads |
| Allocator.GreedyOptimal | pkg/rm/allocate.go:27-80 | among all choices of that many candidates the greedy one minimises the sum of squared final loads, the largest final load and every convex cost |
| Allocator.GreedyDeterministic | pkg/rm/allocate.go:61-74 | two greedy runs of equal length end with the same multiset of per-GPU loads, whatever ties and map order did |
| Allocator.ResourceManager.ListCandidates | pkg/rm/allocate.go:27-34 | the candidates are exactly the devices of the manager that are available and not required, each once |
| Allocator.ResourceManager.CountAvailable | pkg/rm/allocate.go:36-45 | per GPU of a candidate, the number of its free replicas |
| Allocator.ResourceManager.CountTotals | pkg/rm/allocate.go:46-52 | per GPU of a candidate, the number of all its replicas |
| Allocator.ResourceManager.SortByLoad | pkg/rm/allocate.go:62-69 | a permutation ordered by total minus available, ties in any order |
| Allocator.ResourceManager.TakeOne | pkg/rm/allocate.go:61-74 | one round hands out a least loaded candidate, removes only it and keeps all counters exact |
| Allocator.ResourceManager.TakeMany | pkg/rm/allocate.go:60-74 | the picks form a greedy sequence of exactly the number needed |
| Allocator.ResourceManager.DistributedAlloc | pkg/rm/allocate.go:27-80 | fails exactly when fewer devices are available and not required than are missing; otherwise the required devices followed by a greedy sequence of distinct such devices filling up to the size |
| Replication.GetByIndex | pkg/rm/devices.go:121-129 | finds a device of the index exactly when there is one |
| Replication.SelectFromList | pkg/rm/device_map.go:275-293 | an error exactly when some recognised reference resolves to nothing; otherwise every ID comes from a reference and every recognised reference gives one |
| Replication.GetIdsOfDevicesToReplicate | pkg/rm/device_map.go:255-298 | all devices, a count of them, or the listed ones, with the source's error for each case |
| Replication.SelectionNonEmpty | pkg/rm/device_map.go:255-298 | a selection from a non-empty resource is empty exactly when the list holds only unrecognised references |
| Replication.DeviceMap.Insert | pkg/rm/device_map.go:228-234 | the map afterwards has the device under the resource and nothing else changed |
| Replication.DeviceMap.InsertSet | pkg/rm/device_map.go:332-334 | inserting a set in any order adds exactly its devices |
| Replication.DeviceMap.Merge | pkg/rm/device_map.go:236-243 | per resource the union, the other map's devices winning |
| Replication.InsertReplicasOf | pkg/rm/device_map.go:343-359 | adds exactly the replicas 0..n-1 of one device |
| Replication.InsertReplicas | pkg/rm/device_map.go:342-360 | adds exactly the replica set of the selected devices |
| Replication.ExpandResource | pkg/rm/device_map.go:319-361 | unselected devices under the resource's name, replicas under its target name, nothing when nothing was selected |
| Replication.CopyUnlisted | pkg/rm/device_map.go:305-316 | the unlisted resources and only they are copied |
| Replication.UpdateDeviceMapWithReplicas | pkg/rm/device_map.go:300-364 | the result is the expansion of legitimate selections, one per listed resource; an error only if some resource's selection is one |
| Replication.ReplicaSetAt | pkg/rm/device_map.go:342-360 | the replica set holds the annotated IDs of the selected devices with numbers below the count, and no others, each with the original's fields |
| Replication.Advertised | pkg/rm/device_map.go:331-360 | field by field: each replica has the annotated ID, the configured share count and the original's other fields, under the new name if there is one; unselected devices stay as they are under the resource's own |
| Replication.ExpandedExactly | pkg/rm/device_map.go:300-364 | with distinct names and no colliding rename, unlisted resources are unchanged, every listed one is expanded on its own, and nothing else appears |
| Replication.ReplicaCount | pkg/rm/device_map.go:342-360 | each selected device has exactly the configured number of advertised IDs that strip to it |
| Replication.RestoresAll | pkg/rm/device_map.go:331-360 | stripping the annotations of everything advertised gives back exactly the original devices |
| Replication.ResourceConserved | pkg/rm/device_map.go:331-360 | for one resource: unselected devices once and unchanged, selected ones exactly the configured number of times with equal fields, stripping gives the originals |
| Replication.ReplicationConserves | pkg/rm/device_map.go:300-364 | the same for every listed resource of a whole configuration, over its own and its target name together; one nothing was selected from is not advertised at all |
| PodCodec.EncodeContainerDevices | pkg/util/util.go:172-179 | the loop writes the encoding: comma-joined fields, each device ended by a colon |
| PodCodec.EncodePodDevices | pkg/util/util.go:181-187 | the loop writes the containers' encodings joined by semicolons |
| PodCodec.EncodedText | pkg/util/util.go:181-187 | one container after another with a semicolon in between |
| PodCodec.DecodeContainerDevices | pkg/util/util.go:189-216 | the decoded devices and their number; an index panic exactly where an item has a comma but fewer than four fields |
| PodCodec.DecodePodDevices | pkg/util/util.go:218-231 | the decoded containers and the total number of devices |
| PodCodec.DecodeItemText | pkg/util/util.go:200-212 | for any fields, whoever wrote them: one is skipped, two or three panic, from four on the first four count |
| PodCodec.DecodedContainerText | pkg/util/util.go:189-216 | a container's text decodes item by item |
| PodCodec.DecodedText | pkg/util/util.go:218-231 | an annotation decodes container by container, the empty one to none |
| PodCodec.EncodedEmpty | pkg/util/util.go:181-187 | the empty annotation encodes no container and one empty container, and nothing else |
| PodCodec.RoundTrip | pkg/util/util.go:172-231 | for every list, decoding the encoding gives it back if and only if no string field holds a separator and it is not the single empty container; numbers are any int32 |
| PodCodec.CountRoundTrip | pkg/util/util.go:172-231 | the total device count survives encoding and decoding without exception |
| PodDrain.Partition | pkg/util/util.go:239-268 | a container's devices of a type, the others, and whether there was one |
| PodDrain.FilterSplits | pkg/util/util.go:233-275 | the two parts together are the container's devices, none lost, none doubled |
| PodDrain.FilterTypes | pkg/util/util.go:233-275 | one part has only the type, the other none, and a container without the type is left as it is |
| PodDrain.GetNextDeviceRequest | pkg/util/util.go:233-250 | the first container holding the type, with its devices of the type; not found; or the index panic |
| PodDrain.RequestMeaning | pkg/util/util.go:233-250 | the name the first container with the type has in the pod and its devices of the type; nothing exactly when no container has one; a panic exactly when the pod lacks that container |
| PodDrain.EraseFrom | pkg/util/util.go:252-275 | only the first holder changes, and loses exactly its devices of the type |
| PodDrain.EraseNextDeviceTypeFromAnnotation | pkg/util/util.go:252-280 | the new annotation encodes the devices with the next request taken out |
| PodDrain.EraseCount | pkg/util/util.go:233-280 | an erasure removes as many devices as the request returned |
| PodDrain.DrainOne | pkg/util/util.go:233-280 | on a pod drained up to a container, the next request is the next holder's and erasing drains up to and including it |
| PodDrain.HoldersInOrder | pkg/util/util.go:233-250 | the holders are listed in order and are exactly the containers with the type |
| PodDrain.AnnotationDrained | pkg/util/util.go:252-280 | k erasures of any annotation that decodes give the encoding with the first k holders drained |
| PodDrain.DrainProtocol | pkg/util/util.go:233-280 | for every annotation that decodes, whoever wrote it: after k erasures it decodes to the original with exactly k holders drained and every other device in place, the next request is the k-th holder's, and after as many steps as there are holders nothing is found |
| Allocation.FilterEligible | pkg/util/util.go:80-100 | the pods of the node whose total device count is the amount asked for, in order; a panic exactly when some pod of the node is malformed |
| Allocation.OldestOf | pkg/util/util.go:101-117 | a least time among the eligible, ties broken as the loop does |
| Allocation.TimeMeaning | pkg/util/util.go:120-136 | for every text: the number it is the decimal form of, and the largest one when missing, overlong, malformed or overflowing |
| Allocation.WrittenTime | pkg/util/util.go:120-136 | a time the scheduler wrote is read back |
| Allocation.EligibleMeaning | pkg/util/util.go:88-99 | a pod is eligible exactly when its annotation names the node and its devices over all containers are as many as asked for |
| Allocation.OlderFirst | pkg/util/util.go:80-118 | a pod of another node is never chosen, nor one whose written time is later than another eligible pod's |
| Allocation.FinishedLast | pkg/util/util.go:295-321 | the time mark of a finished pod reads as the largest time |
| Allocation.GetOldestPod | pkg/util/util.go:80-118 | an eligible pod with the least predicate time, missing and malformed times last |
| Allocation.Cluster.GetPendingPod | pkg/util/util.go:58-70 | an oldest eligible pod of the cluster, none exactly when none is eligible; the listing error exactly when the listing fails |
| Allocation.Cluster.PatchPodAnnotations | pkg/util/util.go:347-369 | only that pod's annotations change, and only the given keys |
| Allocation.Cluster.ReleaseNodeLock | pkg/util/nodelock/nodelock.go:66-97 | the lock annotation is gone, everything else as before |
| Allocation.Cluster.PodAllocationFailed | pkg/util/util.go:309-321 | phase failed, time last, lock released |
| Allocation.Cluster.PodAllocationTrySuccess | pkg/util/util.go:282-307 | nothing while a GPU is left in the annotation, otherwise phase success and lock released |
| Allocation.Cluster.ServeMig | pkg/plugin/server.go:391-411 | the MIG branch with its three error exits |
| Allocation.Cluster.ServeFromAnnotation | pkg/plugin/server.go:412-440 | the annotation branch with each of its exits, the one that keeps the lock included |
| Allocation.Cluster.Allocate | pkg/plugin/server.go:364-493 | the new state and the outcome of a call on a pod `getOldestPod` may return |
| Allocation.EarlyOutcome | pkg/plugin/server.go:364-387 | which calls end before or for want of a pod, and how |
| Allocation.MigOutcome | pkg/plugin/server.go:390-410 | a MIG call on a chosen pod succeeds if and only if the response can be built, every device is known and sharing does not limit the request to one; otherwise it is refused |
| Allocation.CountsAgree | pkg/plugin/server.go:421-425 | the total count and the next request's count agree if and only if one container holds all devices and all are of NVIDIA type |
| Allocation.SuccessCondition | pkg/plugin/server.go:412-440 | a non-MIG call on a chosen pod succeeds if and only if one container the pod has holds all its devices, all NVIDIA, and response and patch go through |
| Allocation.OtherOutcomes | pkg/plugin/server.go:412-436 | a non-MIG call ends with the lock kept if and only if only the response fails, with a panic if and only if the pod lacks the container, and is refused otherwise |
| Allocation.ErasedOnlyHolder | pkg/util/util.go:252-307 | erasing the only holder leaves an annotation with no device and without the word that would hold success back |
| Allocation.SuccessMeans | pkg/plugin/server.go:364-493 | after a successful non-MIG call nothing is left to allocate, the phase is success and the lock is free |
| Allocation.SuccessState | pkg/plugin/server.go:431-492 | the whole new state of a success: only that pod's allocation annotation is rewritten, and not at all for MIG, then the success step |
| Allocation.SpreadKept | pkg/plugin/server.go:412-440 | a call on a pod whose devices are not all NVIDIA and in one container serves nothing from it and leaves its annotation, so it stays such a pod |
| Allocation.SpreadNeverServed | pkg/plugin/server.go:364-493 | over any run such a pod is never served by a non-MIG call |
| Allocation.TwoContainersRefused | pkg/plugin/server.go:421-425 | a pod with one GPU in each of two containers is chosen for a request of two, refused, marked failed and the node unlocked |
| Allocation.LockAfterCall | pkg/plugin/server.go:364-493 | for every outcome: error exits that release end unlocked with the pod failed, success ends unlocked exactly when no GPU is left, the other exits change nothing, no other pod changes |
| Allocation.MarksText | pkg/util/util.go:282-321 | the marks spelled out: phase, last time and freed lock, with success held back exactly while the word GPU is in the annotation |
| Allocation.ExhaustedKept | pkg/util/util.go:80-118 | every step keeps an exhausted pod exhausted and no call asking for devices works on it |
| Allocation.ExhaustedForever | pkg/util/util.go:80-118 | over any run an exhausted pod is never chosen for a positive request |
| Allocation.ServedOnce | pkg/plugin/server.go:364-493 | over any run, after a non-MIG success for a pod no later call asking for devices works on it |
| NodeLock.ReplayMore | pkg/util/nodelock/nodelock.go:34-97 | others' writes compose |
| NodeLock.SameButFor | pkg/util/nodelock/nodelock.go:34-123 | nodes that differ in one key only still do after any writes of others |
| NodeLock.ApiServer.Update | pkg/util/nodelock/nodelock.go:45-46 | goes through only from the current version; a conflict has no effect |
| NodeLock.UpdateWithRetry | pkg/util/nodelock/nodelock.go:44-63 | on success exactly the edit on top of what others wrote; on failure only what others wrote, after exactly six failed calls |
| NodeLock.SetNodeLock | pkg/util/nodelock/nodelock.go:34-64 | on success the lock stamped on top of others' writes, and it was free at some moment of the call; otherwise no change of its own: the lock is on the node, or the first read or all six tries failed |
| NodeLock.ReleaseNodeLock | pkg/util/nodelock/nodelock.go:66-97 | on success the lock removed from what others wrote, whoever held it; a failure after the first read or all six tries failed |
| NodeLock.LockNode | pkg/util/nodelock/nodelock.go:99-123 | every other annotation is exactly what others made it, and on success the lock is stamped on top; a fresh stamp and a lock that is no time are left alone; undisturbed, it succeeds exactly on a free lock and on one older than five minutes |
| LockProtocol.ConsistentKept | pkg/util/nodelock/nodelock.go:34-123 | every step keeps copies old or current and a first write's copy lock-free, and a client's step changes only the lock key |
| LockProtocol.OthersUnaffected | pkg/util/nodelock/nodelock.go:34-123 | over every interleaving the other annotations end as exactly the others' writes, none lost, none invented |
| LockProtocol.CallsEnd | pkg/util/nodelock/nodelock.go:47-62 | every API call brings a call closer to its end, at most 25 for a lock call and 12 for a release |
| LockProtocol.FiveRounds | pkg/util/nodelock/nodelock.go:47-92 | a failed write is followed by another round until five have failed |
| LockProtocol.GuardedKept | pkg/util/nodelock/nodelock.go:34-97 | a disciplined step keeps at most one holder, whose lock is on the node |
| LockProtocol.MutualExclusion | pkg/util/nodelock/nodelock.go:34-123 | over every run without takeover, blind release or blind lock write, at most one client holds the lock in every state |
| LockProtocol.IdleStart | pkg/util/nodelock/nodelock.go:99-107 | idle clients are a good start, whatever is on the node |
| LockProtocol.TakeoverIffExpired | pkg/util/nodelock/nodelock.go:108-121 | a lock call takes over exactly a stamp more than five minutes old, and goes on to lock exactly when there is none |
| LockProtocol.FirstTryExclusion | pkg/util/nodelock/nodelock.go:34-123 | from idle clients, whatever is on the node, at most one ever holds while every lock call succeeds on its first update, none takes over by expiry and callers release only what they hold |
| LockProtocol.WriteKeepsIff | pkg/util/nodelock/nodelock.go:41-58 | a lock write that goes through keeps exclusion if and only if its copy showed the lock free |
| LockProtocol.FreshStart | pkg/util/nodelock/nodelock.go:34-97 | idle clients on a node without the lock are a start from which the lock is tracked |
| LockProtocol.TrackedKept | pkg/util/nodelock/nodelock.go:34-97 | polite steps without a blind lock write keep the lock on the node exactly while somebody holds it |
| LockProtocol.ExclusionIff | pkg/util/nodelock/nodelock.go:34-97 | over every run of polite callers, every state is exclusive if and only if every lock write that goes through starts from a copy that showed the lock free |
| LockProtocol.CallRefines | pkg/util/nodelock/nodelock.go:34-97 | a setNodeLock or release call of any client, interleaved with any steps of others, ends with exactly its edit on top of what the others wrote, or with only that: the contract of the sequential methods |
| LockProtocol.LockCallRefines | pkg/util/nodelock/nodelock.go:99-123 | the same for a whole LockNode call with its takeover: no other annotation changed, and on success the lock stamped on top of what the others wrote |
| LockProtocol.RetryBreaksExclusion | pkg/util/nodelock/nodelock.go:47-58 | a run of two polite LockNode callers, without expiry, at whose end both hold the lock |
| Feedback.CheckBlocking | cmd/vgpu-monitor/feedback.go:30-44 | true exactly when the first used device has active work of higher priority |
| Feedback.HasHigher | cmd/vgpu-monitor/feedback.go:35-41 | the search for higher-priority work on a used device stays within the entry for every priority |
| Feedback.CheckPriority | cmd/vgpu-monitor/feedback.go:46-63 | true exactly when some used device has higher-priority work or more than one slot of the same priority; an index panic exactly for a negative priority on a used device |
| Feedback.ContainerLister.CountSlots | cmd/vgpu-monitor/feedback.go:74-84 | the table gains exactly the valid slots of one active container, or panics exactly when its priority has no entry |
| Feedback.ContainerLister.AgeOne | cmd/vgpu-monitor/feedback.go:69-88 | one container aged, its slots counted if it stays active, or the panic |
| Feedback.ContainerLister.AgeAndCount | cmd/vgpu-monitor/feedback.go:65-88 | in any order: every container aged, and the table holds per device the number of active slots of each priority, unless some container makes it panic |
| Feedback.ContainerLister.React | cmd/vgpu-monitor/feedback.go:89-119 | blocking and switch of one container set or cleared, or the panic |
| Feedback.ContainerLister.Observe | cmd/vgpu-monitor/feedback.go:65-120 | for every priority: exactly when the call panics; otherwise the state after is a function of the state before, so independent of visiting order |
| Feedback.ObservedMeaning | cmd/vgpu-monitor/feedback.go:65-120 | kernel count negative iff blocked, switch on iff contended, blocked implies contended, priority 0 never blocked |
| Feedback.ObservedMoves | cmd/vgpu-monitor/feedback.go:69-104 | for every priority: an unblocked container's recent kernel ages by one and a negative count is cleared, blocking writes -1 over 0 or more, and slots and priority stay |
| Feedback.BlockedMeaning | cmd/vgpu-monitor/feedback.go:30-44 | blocked if and only if the first device in use is used by an active container of higher priority |
| Feedback.ContendedMeaning | cmd/vgpu-monitor/feedback.go:46-63 | contended if and only if some device is used by a higher priority, or twice by its own |
| Feedback.SaneMeaning | cmd/vgpu-monitor/feedback.go:30-88 | the call panics if and only if an active container with another priority than 0 or 1 has a device, or one with a negative priority has a device in use |
| Feedback.WorkMeans | cmd/vgpu-monitor/feedback.go:66-88 | work is there iff an active container of the priority has the device in a slot, more than one iff two slots do |
| Feedback.QuietFixed | cmd/vgpu-monitor/feedback.go:65-120 | the all-zero state is a fixed point |
| Feedback.BoundAfter | cmd/vgpu-monitor/feedback.go:69-88 | the largest kernel count falls by one a call |
| Feedback.SaneKept | cmd/vgpu-monitor/feedback.go:65-120 | after a call that does not panic the next does not either |
| Feedback.Converges | cmd/vgpu-monitor/feedback.go:65-120 | with counts at most M, max(1, M) calls or more leave every count and switch at 0, and none of the calls panics if the first does not |
| Feedback.CountsDown | cmd/vgpu-monitor/feedback.go:69-88 | the bound is tight: a priority-0 container counts down by exactly one a call |
| MigConfig.DeepCopyMigConfig | pkg/plugin/server.go:970-983 | equal contents in a map of its own |
| MigConfig.IndexDevices | pkg/plugin/server.go:1005-1010 | every listed device is indexed by the last spec that lists it |
| MigConfig.SourceMeaning | pkg/plugin/server.go:996-1017 | a single spec without devices describes every device; otherwise the last that lists it, and none exactly when none does |
| MigConfig.ProcessMigConfigs | pkg/plugin/server.go:985-1027 | fails exactly when a device has no spec; otherwise one spec per index with the source's contents and maps shared with nothing |
| MigConfig.SelectTemplate | pkg/plugin/server.go:908-933 | the first entry whose models match decides, by the group in the UUID |
| MigConfig.SelectMeaning | pkg/plugin/server.go:908-933 | the first entry with a matching model decides alone; nothing without a match, a readable UUID or the group |
| MigConfig.FindGroupMeaning | pkg/plugin/server.go:918-929 | a group is found exactly when some entry has it, and the first such entry counts |
| MigConfig.ModelMeaning | pkg/plugin/server.go:816-823 | a type matches exactly when some model name occurs in it |
| MigConfig.NoBracket | pkg/util/util.go:539-542 | no opening bracket: no template |
| MigConfig.NeverClosed | pkg/util/util.go:544-548 | no closing bracket before the next opening one: no template |
| MigConfig.NoDash | pkg/util/util.go:550-554 | no dash between the brackets: no template |
| MigConfig.GroupAndNumber | pkg/util/util.go:556-566 | otherwise the trimmed text before the first dash and the number up to the next, unless blank or malformed |
| MigConfig.Plugin.NeedsReset | pkg/plugin/server.go:937-947 | a reset is needed exactly when some template entry is missing or different |
| MigConfig.Plugin.Rewrite | pkg/plugin/server.go:949-958 | the map becomes exactly the template, in place |
| MigConfig.Plugin.FindOwner | pkg/plugin/server.go:934-936 | the first spec that lists the device |
| MigConfig.Plugin.ResetSpec | pkg/plugin/server.go:949-958 | one spec is reset and, as no maps are shared, every other keeps its counts |
| MigConfig.Plugin.GenerateMigTemplate | pkg/plugin/server.go:904-967 | new state and answer as a function of the old state, with no sharing introduced |
| MigConfig.GeneratedLocal | pkg/plugin/server.go:904-967 | every index stays in exactly one spec and no other device's spec changes |
| MigConfig.NothingGenerated | pkg/plugin/server.go:904-967 | without a template or a spec for the device nothing changes, and only the former answers -1 |
| MigConfig.TemplateSatisfied | pkg/plugin/server.go:937-958 | a rewritten map satisfies its template if and only if the template does not contradict itself |
| MigConfig.TemplateCountsMeaning | pkg/plugin/server.go:954-957 | a rewritten map has exactly the template's names, each with the count of its last entry |
| MigConfig.GeneratedMeaning | pkg/plugin/server.go:904-967 | panic iff the device has no counts and the template is not empty; otherwise reset asked for iff the template is not satisfied, map equal to the template after a reset, template satisfied afterwards and no reset on an identical call iff it is coherent |
| MigConfig.RunLocal | pkg/plugin/server.go:904-967 | over any calls every index stays in one spec, a device not asked for keeps its spec and one without counts never gets any |
| MigConfig.LastTemplateHolds | pkg/plugin/server.go:904-967 | over any calls a device with counts ends satisfying the last coherent template asked for on it; on one without, the call panics iff the template is not empty |
| MigConfig.ExtractWritten | pkg/util/util.go:538-567 | group and position written into a UUID are read back |
| PciConfig.GetVendorSpecificCapability | pkg/vgpu/pciutil.go:115-149 | the first vendor-specific capability before a zero, a repeat or a broken ID; nothing exactly when there is none |
| PciConfig.SliceAt | pkg/vgpu/pciutil.go:139-142 | the capability's bytes, or the slice panic when its end wraps |
| PciConfig.SearchEnds | pkg/vgpu/pciutil.go:119-148 | where the walk stops decides the search: no capability is found later, and at most one first |
| PciConfig.SearchAlong | pkg/vgpu/pciutil.go:125-146 | along any list of positions linked from byte 0x34 through the second byte of each, what the search finds and where it stops |
| PciConfig.StatusBit | pkg/vgpu/pciutil.go:120-122 | the capability list is there exactly when bit 4 of the status byte at 0x06 is set |
| PciConfig.CapabilityBytes | pkg/vgpu/pciutil.go:129-141 | the bytes from the position on, as many as its third byte says |
| PciConfig.CapabilityBounded | pkg/vgpu/pciutil.go:139-142 | the slice exists if and only if position plus length is at most 255 |
| PciConfig.ChainShort | pkg/vgpu/pciutil.go:119-148 | the chain is alive for at most 255 positions, so the walk ends for every configuration space |
| Vgpu.EndedStays | pkg/vgpu/vgpu.go:119-124 | the place where the walk ends is unique |
| Vgpu.HaltsWithin | pkg/vgpu/vgpu.go:119-124 | the walk ends if and only if it does so within as many steps as the buffer has bytes |
| Vgpu.ReadField | pkg/vgpu/vgpu.go:130-146 | the bytes up to an 8-bit bound, the index panic, and where the next field starts |
| Vgpu.NulsTrimmed | pkg/vgpu/vgpu.go:135-140 | NULs around a field are dropped, whatever is inside |
| Vgpu.GetInfo | pkg/vgpu/vgpu.go:108-153 | the result is what the record the walk ends at yields |
| Vgpu.PanicIff | pkg/vgpu/vgpu.go:118-150 | exactly when reading panics once the walk has ended: off the end, or a version field near the end of the 8-bit range past the buffer; up to 234 bytes only the former |
| Vgpu.WalkReaches | pkg/vgpu/vgpu.go:119-124 | on well-chained records the walk reaches the first record with id 0 |
| Vgpu.NoWrap | pkg/vgpu/vgpu.go:126-150 | 22 bytes before the end of the 8-bit range no sum wraps |
| Vgpu.InfoExact | pkg/vgpu/vgpu.go:108-153 | for well-chained records of at most 191 bytes, version and branch are exactly the next two 10-byte fields without NULs |
| Vgpu.InfoAlong | pkg/vgpu/vgpu.go:108-153 | along any records linked from byte 5 by their length bytes to one with id 0: the two 10-byte fields behind its header |
| Vgpu.CapabilityFits | pkg/vgpu/pciutil.go:139-142 | a capability from position 64 or later is at most 191 bytes long |
| Vgpu.VersionInConfig | pkg/vgpu/vgpu.go:66-153 | from a configuration space: with a capability found at position 64 or later and well-chained records, version and branch are exactly the two fields behind its first record with id 0, at their place in the configuration space |
| Vgpu.ZeroLengthLoops | pkg/vgpu/vgpu.go:119-124 | a zero-length record with non-zero id makes the walk endless |
| Vgpu.ShortestSignature | pkg/vgpu/vgpu.go:93-124 | among capabilities with the signature exactly those of five bytes are indexed past the end at once |
| Vgpu.SignatureText | pkg/vgpu/vgpu.go:93-105 | the signature is the letters VF behind three bytes |
| Wildcard.WildCardToRegexp | api/config/v1/resources.go:166-179 | the loop writes the quoted literals separated by ".*" |
| Wildcard.CompiledText | api/config/v1/resources.go:168-179 | everything up to the first star quoted, ".*", then the same for the rest |
| Wildcard.QuoteText | api/config/v1/resources.go:175-176 | a backslash before each of the fourteen special characters and before no other |
| Wildcard.ParseJoined | api/config/v1/resources.go:166-179 | the compiled text parses as the literals separated by any-strings, for all literals |
| Wildcard.MatchPlaces | api/config/v1/resources.go:161-179 | a match of a whole string places the literals across it |
| Wildcard.PlacesMatch | api/config/v1/resources.go:161-179 | literals placed across a string are a match of it |
| Wildcard.CompilationPreservesMeaning | api/config/v1/resources.go:161-179 | searching with the compiled pattern succeeds if and only if the literals occur in order, without overlap, with no newline between two of them |
| Wildcard.PlacedMeaning | api/config/v1/resources.go:161-179 | what it means for literals to occur so, position by position |
| Wildcard.NewlineFree | api/config/v1/resources.go:161-179 | on newline-free strings, if and only if they occur in order without overlap |
| Wildcard.NewlineStops | api/config/v1/resources.go:166-179 | a concrete pattern that does not match across a newline |
| DeviceEntries.ListMemoryDevices | pkg/plugin/server.go:656-680 | the list is one entry per factor mebibytes of each GPU |
| DeviceEntries.EntryText | pkg/plugin/server.go:669-679 | the entries of a GPU one by one |
| DeviceEntries.EntriesCount | pkg/plugin/server.go:656-680 | its length is the sum of the floored quotients |
| DeviceEntries.EntryIdInjective | pkg/plugin/server.go:672-679 | GPU and number can be read off an entry ID, whatever the GPU IDs look like |
| DeviceEntries.EntriesDistinct | pkg/plugin/server.go:656-680 | GPUs with different IDs give pairwise different entries |
| DeviceEntries.CountCovers | pkg/plugin/server.go:669 | the memory is exactly what the list covers and what it leaves over, which is less than one factor per GPU |
| DeviceEntries.AdviceFrom | pkg/plugin/server.go:68-71 | there is advice exactly from 60001 entries on |
| DeviceEntries.AdviceExceeds | pkg/plugin/server.go:68-75 | the advised factor is larger than the current one and the exact rounded-up quotient |
| DeviceEntries.AdviceBound | pkg/plugin/server.go:68-75 | listing again leaves fewer entries than the limit plus the number of GPUs, at most the limit from factor 1 |
| DeviceEntries.AdviceEnoughIff | pkg/plugin/server.go:68-75 | the advised factor is enough when the old leftovers, or the most the GPUs can leave over, are less than it; and, in terms of memory, exactly when the old leftovers are less than the new ones, the room the rounding made and one new entry |
| DeviceEntries.AdviceSettles | pkg/plugin/server.go:68-75 | taking the advice round by round ends, after at most one round per 60000 MiB of the node, with no more advice |
| DeviceEntries.AdviceTooSmall | pkg/plugin/server.go:68-75 | a node of eight GPUs for which the advice from factor 10 leaves 60001 entries |
| DeviceEntries.AdviceJustEnough | pkg/plugin/server.go:68-75 | a node with the same number of GPUs, entries, leftovers and advice for which it is enough, so none of these decides |
| HealthXids.NewHealthCheckXids | pkg/rm/health.go:257-277 | exactly the numbers named, or only 0 as soon as a keyword occurs |
| HealthXids.TokenText | pkg/rm/health.go:260-274 | for every token and any white space around it: everything, one XID, or nothing |
| HealthXids.GetDisabledHealthCheckXids | pkg/rm/health.go:217-250 | the merged map, and an XID is disabled if and only if the precedence rule ignores it |
| HealthXids.Precedence | pkg/rm/health.go:184-277 | disabled iff the enable list has neither all, 0 nor the XID, and the disable list has all, 0 or the XID or it is hardcoded |
| HealthXids.IgnoresMeaning | pkg/rm/health.go:209-250 | the precedence rule over the tokens and the six hardcoded numbers themselves |
| MpsLimits.Tally | pkg/mps/daemon.go:253-260 | the number of replicas per index, and the memory of one of its devices |
| MpsLimits.PerDevicePinnedDeviceMemoryLimits | pkg/mps/daemon.go:253-271 | the limit is the largest whole number of MiB whose product with the replica count fits the memory of some device of the index, of each of them when they report the same |
| MpsLimits.LimitText | pkg/mps/daemon.go:262-269 | limit times replicas in bytes fits the memory, and one MiB more each does not |
| MpsLimits.ShareByDivision | pkg/mps/daemon.go:262-269 | dividing twice loses nothing against that largest share |
| MpsLimits.GetUuids | pkg/rm/devices.go:163-176 | every UUID once, in any order |
| MpsLimits.ActiveThreadPercentage | pkg/mps/daemon.go:273-280 | never divides by zero; with r replicas of every GPU it is the largest percentage with r times it at most 100 |

## Left out

- Vgpu.GetInfo: requires that the walk ends, since the source does not terminate otherwise; `HaltsWithin` says when that is.
- Replication.UpdateDeviceMapWithReplicas: states the resulting map only; when a rename takes the name of an unlisted resource the source also writes into the input's inner map, which the two then share.
- Replication.ReplicationConserves: needs distinct names, no colliding rename and strippable IDs.
- Allocation.Cluster.Allocate: API writes other than the two flagged ones succeed; environment variables, mounts and directories of the response are not modelled.
- Allocation.Cluster.PatchPodAnnotations: a failing patch is only modelled for the erasure; the same holds for `PodAllocationFailed` and `PodAllocationTrySuccess`, which log such a failure and go on.
- Allocation.Cluster.ReleaseNodeLock: succeeds; its conflicts, retries and failures are in `NodeLock`.
- Allocation.LockAfterCall: the exit at pkg/plugin/server.go:428-430 returns without releasing the lock; it is modelled as it is and therefore not among the exits that end unlocked.
- Allocation.ServedOnce: outside steps may delete the pod or change any other annotation, but not rewrite its allocation annotation.
- Allocation.SpreadNeverServed: the same; a MIG request that happens to choose the pod is not excluded.
- LockProtocol.MutualExclusion: no claim for runs with a takeover, which releases whoever holds; others do not write the lock key.
- LockProtocol.ExclusionIff: the same two restrictions, and callers that already hold do not lock again.
- NodeLock.SetNodeLock: a node without any annotation map, on which the source writes to a nil map, is not modelled.
- Feedback.ContainerLister.Observe: each container has a record of its own; what a panicking call has written before it dies is not stated.
- DeviceEntries.ListMemoryDevices: the factor is positive; the source divides by it.
- DeviceEntries.AdviceBound: for nodes whose memory does not overflow the 64-bit product of the advice, as are `AdviceEnoughIff` and `AdviceSettles`; the plugin warns only once per start, so a round of advice is a restart.
- MpsLimits.PerDevicePinnedDeviceMemoryLimits: when devices of one index report different memory sizes, map order decides which of them the limit fits.
- MpsLimits.ActiveThreadPercentage: with different replica numbers per GPU the percentage follows the average and may exceed 100 over one GPU's replicas.
- The second result of splitting an annotated ID, the replica number.
- Appending to `required` in place: the result is a new sequence, so aliasing of its backing array is not captured.
- Lower-casing and trimming beyond ASCII; invalid UTF-8; regular expressions beyond the fragment the compiler emits.
- How a device reference is recognised as UUID or index: the classification is an input.
- The lists for cores and for split counts in `apiDevices`, and core scaling in floating point.
- The event loop of `checkHealth`, and parsing of MIG UUIDs from the driver.
- `DecodeNodeDevices`, asking `nvidia-smi` for MIG UUIDs, and applying a MIG configuration.
- `alignedAlloc`, whose algorithm is in an external library.
- NVML, CUDA, CDI, gRPC, the Kubernetes API beyond pods' and nodes' annotations, shared-memory layout, metrics, labels, JSON and YAML, the command line, logging.
