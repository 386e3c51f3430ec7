# Verified models of the Fast React core

This project models seven pieces of the repository and proves, for all inputs
and all runs, what they are for. `dafny verify dfyconfig.toml` checks it with
Dafny 4.11.

| Modules | What they model |
|---|---|
| `Keys`, `Prefixes`, `Traversal`, `Positions`, `Contents`, `ChildrenKeys`, `AnswerKeys`, `KeyCollisions` | `React.Children`: the depth-first traversal that pushes into one shared array, the names it builds, and the keys of the elements it returns, for every kind of answer |
| `GraphSearch` | two searches over possibly cyclic object graphs that share one mutable `seen` set |
| `FiberArena`, `FiberLaws` | the generation-stamped fiber arena and its current / work-in-progress alternates |
| `TaskHeap`, `MockScheduler`, `SchedulerLaws`, `SchedulerEffects`, `WorkLoop` | the mock scheduler underneath the wrapper: binary heaps, timers, host timeout, virtual clock, and the loop that calls tasks |
| `Shadow`, `ShadowLaws` | the wrapper's shadow task records and its numbered copy of the yield log |
| `DelayedDrain`, `DrainLaws`, `DrainEvidence`, `GuardedChain` | the delayed act/root drain: validation, promotion, arbitrary callback, evidence re-check, consumption; and the guard around callback chains |
| `LazyPayload`, `ThenableResolution` | settlement of lazy payloads and of thenables, with racing and re-entrant user code |
| `PublicRoots` | the public root facade and its registry of containers |
| `Elements` | the production paths of `jsx`, `createElement`, `cloneElement` and key replacement |

Code that updates objects step by step is modelled by classes whose methods
rewrite fields in place. Each of those methods is proved equal to a function on
the old state, and the laws are proved about the functions. The two searches
are proved against plain reachability, the heaps against sorted lists, and the
`React.Children` traversal against a list of leaves with their paths, in which
names are not yet strings and nothing is shared.

## What the proofs found

Five statements that the code suggests are not true of it in general. For each,
the model keeps the code as it is; the project proves the exact condition and
shows an input at which the statement fails.

* **Keys of `map` with array answers can collide.** The single `/` between an
  outer and an inner name is meant to be recognisable because every other run of
  slashes is lengthened. It is not when an outer name ends in `/`. Two outer
  names give some common key if and only if one of them ends in `/` and the
  other continues it with `/` and the name of a node with an explicit key
  (`Prefixes.NestedKeysCollide`); `ChildrenKeys.MapKeysDistinctExactly` lifts
  this to whole results, `Prefixes.TrailingSlashClashes` shows that every
  name ending in `/` has such a partner, and `KeyCollisions.ClashingTree` is a
  list of two elements for which it happens.
* **So can keys with other answers, without any trailing slash.** Elements that
  bring keys of their own always get different keys if and only if no leaf's
  name is another's behind a `/` (`KeyCollisions.SingleAnswersDistinctExactly`,
  with the input in `KeyCollisions.BehindTree`); arrays mixed with unchanged
  children if and only if, besides, no name lies inside an array that answers
  for another (`KeyCollisions.ArrayOrOwnAnswersDistinctExactly`). For one given
  callback of any kind, `AnswerKeys.AnswerKeysDistinctExactly` says when.
* **An accepted delayed task need not be promoted.** Nothing expires between
  acceptance and expiration, and the second validation can never reject, but the
  first check after advancing the clock can: with immediate priority the task
  expires before it starts; with no host timeout armed (a ready task was waiting
  when it was scheduled, or the timeout was cleared) or one armed too late the
  timers are not advanced; a silenced scheduler does not advance its clock; and
  a scheduler that believes its host callback to be scheduled after a `reset`
  does not request it. `SchedulerLaws.PromotionExactly` gives the condition and
  `DrainLaws.ImmediateTaskIsNotPromoted` and `DrainLaws.UnarmedTaskIsNotPromoted`
  are runs of the wrapped scheduler that lead there.
* **Consumption can fail after the evidence was found to hold.** The re-check
  covers the JSON text of some fields of a record. Two claims that consumption
  also rejects are not among them; an object that JSON writes as `true`, `false`
  or a kind goes unnoticed; and nothing looks at whether the array of records
  can still be shortened, so that `shift` throws if it was sealed (which
  validation allows from the start) or frozen. These are all the ways
  (`DrainLaws.ConsumptionFailsExactly`). With a bad record, those before it are
  already gone; `DrainLaws.UnsignedClaimFails`, `DrainLaws.DisguisedFieldFails`
  and `DrainLaws.LockedArrayFails` are drains that end so.
* **`link_alternates` does not unlink a third partner.** It keeps alternates
  reciprocal if and only if it is rejected or both endpoints are free for each
  other (`FiberLaws.LinkKeepsExactly`); `FiberLaws.RelinkingBreaksPairs` is a run
  after which `create_work_in_progress` fails on a live fiber.

## Model

| member | source | states |
|---|---|---|
| Keys.UnescapeInverts | packages/react/children-helper.js:1246-1257 | Escaping an explicit key loses nothing: `=0`/`=2` decoding gives the key back, for every string |
| Keys.UnescapeExact | packages/react/children-helper.js:1246-1257 | A string that decodes is the escape of what it decodes to, so escaped keys are exactly the decodable strings |
| Keys.Base36RoundTrip | packages/react/children-helper.js:1235-1244 | The base-36 text of an index reads back as that index |
| Keys.Base36Exact | packages/react/children-helper.js:1235-1244 | Only the canonical numeral (no leading zero) reads as an index, so no two texts name one index |
| Keys.DecodePathName | packages/react/children-helper.js:1162-1257 | Every name the traversal builds decodes to the list of explicit keys and indexes it was built from |
| Keys.DecodePathExact | packages/react/children-helper.js:1162-1257 | A string decodes to a path if and only if it is that path's name |
| Keys.PathNameInjective | packages/react/children-helper.js:1162-1257 | Nodes at different paths have different names |
| Prefixes.CollisionClashes | packages/react/children-helper.js:1106-1141 | When two nested keys coincide, outer and inner names agree or the outer names clash |
| Prefixes.ClashCollides | packages/react/children-helper.js:1106-1141 | Two outer names that clash do have inner names that give one and the same key |
| Prefixes.NestedKeysCollide | packages/react/children-helper.js:1106-1141 | For different outer names: some inner names give the same key if and only if the outer names clash |
| Prefixes.NestedKeyInjective | packages/react/children-helper.js:1106-1141 | Outer and inner name are both recovered from the key when neither outer name ends in a slash |
| Prefixes.NestedKeyDecodes | packages/react/children-helper.js:1106-1141 | A nested key is itself readable as a leaf name if and only if the outer name is that of a node with an explicit key |
| Prefixes.TrailingSlashClashes | packages/react/children-helper.js:1106-1141 | Every leaf name ending in a slash clashes with another leaf name, so excluding trailing slashes is what injectivity needs |
| Positions.LeavesArePositions | packages/react/children-helper.js:1061-1098 | Without an error, the leaves are exactly the positions, in order, that hold null, undefined, a boolean, a primitive, an element or a portal once wrappers are resolved; the first three are given as null, and the path is that of keys and indexes on the way |
| Positions.ErrorExactly | packages/react/children-helper.js:1082-1218 | There is an error if and only if some position holds a rejected lazy or thenable or an object that is no child |
| Positions.FirstErrorWins | packages/react/children-helper.js:1161-1221 | The error is that of the first such position, and exactly the leaves before it have been visited |
| Traversal.WalkLeaves | packages/react/children-helper.js:1061-1104 | The callback is only ever given null, primitives, elements and portals, each at a path below the traversed node |
| Traversal.Mapper.MapIntoArray | packages/react/children-helper.js:1053-1222 | The traversal appends exactly what the callback's answers contribute for the leaves in depth-first order, calls the callback on those leaves with consecutive indexes, stops at the first error, and returns the number of leaves |
| Traversal.Mapper.MapItems | packages/react/children-helper.js:1161-1203 | The same for the loops over an array and over an iterator |
| Traversal.Mapper.InvokeCallback | packages/react/children-helper.js:1100-1159 | The same for one leaf: one callback call, one count, the answer pushed under the leaf's name |
| Traversal.Mapper.PushAnswer | packages/react/children-helper.js:1106-1156 | What is pushed for an answer: nothing for null and undefined, a re-keyed element, the kept leaves of an array, anything else unchanged |
| Traversal.DeliverCollects | packages/react/children-helper.js:1040-1051 | A run that starts with an empty array and count 0 produces the collected items, and its calls are the leaves in order, cut short only by an error |
| Traversal.MapChildren | packages/react/children-helper.js:1040-1051 | `map` returns null and undefined unchanged, otherwise the collected items or the first error; without error the callback saw every leaf once, in order |
| Traversal.ToArray | packages/react/children-helper.js:1023-1029 | `toArray` returns the non-null leaves in order, elements keyed by their names, and an empty array for null and undefined |
| Traversal.Count | packages/react/children-helper.js:1016-1022 | `count` is the number of leaves, and 0 for null and undefined |
| Traversal.CollectIdentity | packages/react/children-helper.js:1023-1029 | With the identity callback, answering for the leaves is keeping them |
| Contents.ToArrayContents | packages/react/children-helper.js:1023-1029 | But for the keys of elements, `toArray` returns the children that are not null, in order |
| Contents.MapContents | packages/react/children-helper.js:1106-1156 | But for the keys of elements, `map` returns what its answers contribute in order: arrays their non-null children at any depth, null and undefined nothing, anything else itself |
| Contents.MapOfNothing | packages/react/children-helper.js:1040-1043 | Null and undefined children come back unchanged from `map` and give `toArray` an empty array |
| Contents.MapThrows | packages/react/children-helper.js:1100-1121 | The first answer that throws ends `map` with its error |
| Contents.MapSuspends | packages/react/children-helper.js:1082-1218 | If no answer throws, the error of `map` is that of the traversal |
| Contents.KeysAreRead | packages/react/children-helper.js:1235-1244 | Every kind of object can carry a key, which then names it; all other values are named by their index |
| Contents.KeyTexts | packages/react/children-helper.js:1235-1257 | The texts themselves, on an example of each form of name |
| ChildrenKeys.LeafPathsDistinct | packages/react/children-helper.js:1162-1203 | In a tree whose siblings repeat no explicit key, no two leaves have the same path |
| ChildrenKeys.ToArrayKeysDistinct | packages/react/children-helper.js:1023-1029 | For every such tree, all elements that `toArray` returns have different keys |
| ChildrenKeys.ToArrayAgain | packages/react/children-helper.js:1023-1029 | `toArray` of a `toArray` result keeps length, order and all other values and renames an element with key k to `.$` + escaped k |
| ChildrenKeys.ToArrayIterated | packages/react/children-helper.js:1023-1029 | The same for any number of further applications |
| ChildrenKeys.IteratedKeysDistinct | packages/react/children-helper.js:1023-1029 | Distinct element keys stay distinct under any number of applications |
| ChildrenKeys.WrappersAreInvisible | packages/react/children-helper.js:1082-1091 | Any number of fulfilled lazies and thenables around a node leave its leaves and their names unchanged, at any path |
| ChildrenKeys.ToArrayIgnoresWrappers | packages/react/children-helper.js:1205-1214 | Wrapping the whole input does not change `toArray` |
| ChildrenKeys.IterablesWalkLikeArrays | packages/react/children-helper.js:1164-1203 | Replacing iterables by arrays of the same items, at any depth, changes no leaf and no name |
| ChildrenKeys.IterablesMapLikeArrays | packages/react/children-helper.js:1040-1051 | So `map` gives the same result for them |
| ChildrenKeys.MapKeysDistinct | packages/react/children-helper.js:1106-1141 | When every answer is an array without repeated explicit sibling keys and no outer names clash, all element keys in the result differ |
| ChildrenKeys.ClashIsReached | packages/react/children-helper.js:1106-1141 | Whenever two outer names clash, some such array answers give two elements one key |
| ChildrenKeys.MapKeysDistinctExactly | packages/react/children-helper.js:1106-1141 | All such answers give distinct keys if and only if no outer names clash |
| ChildrenKeys.AnswerKeysDistinct | packages/react/children-helper.js:1106-1121 | The elements of one array answer without repeated explicit sibling keys get different keys |
| AnswerKeys.OverlapExactly | packages/react/children-helper.js:1103-1141 | Keys of two pushed elements, plain or nested, are equal if and only if their origins overlap: the same one, a nested key read as the name of a node, or outer names that continue each other |
| AnswerKeys.PushedKeys | packages/react/children-helper.js:1106-1141 | The keys pushed for an answer are those of its origins: the leaf's name, the answer's own key in front of it, or names in an array below it |
| AnswerKeys.AnswerKeysDistinctExactly | packages/react/children-helper.js:1100-1156 | For any callback: all element keys differ if and only if no origins of two leaves' elements overlap |
| KeyCollisions.BehindExactly | packages/react/children-helper.js:1132-1140 | Some key put in front of a name gives another name if and only if the other ends in a slash and that name, with no lone slash before |
| KeyCollisions.SingleAnswersDistinctExactly | packages/react/children-helper.js:1122-1141 | All callbacks that answer with elements, or anything but arrays, give distinct keys if and only if no leaf's name is behind another's |
| KeyCollisions.ArrayOrOwnAnswersDistinctExactly | packages/react/children-helper.js:1106-1141 | All callbacks that answer with arrays or add no key of their own give distinct keys if and only if no names clash and none is inside another |
| KeyCollisions.MixedAnswersCollide | packages/react/children-helper.js:1106-1141 | Of any two leaves, an array for one and an element keyed by its name for the other give one key twice |
| KeyCollisions.ClashingTree | packages/react/children-helper.js:1106-1141 | A concrete list and array answers with distinct sibling keys whose result has two equal keys |
| KeyCollisions.BehindTree | packages/react/children-helper.js:1122-1141 | A concrete list and element answers, without a trailing slash, whose result has two equal keys |
| GraphSearch.FindFrom | packages/react/private-act-dispatcher-gate.js:1359-1393 | Null means every object seen so far is free of claims and points only at seen objects; a claim comes with the steps that lead to it; and the rest of a depth-first list of things to do is answered as if this value had been done |
| GraphSearch.FindBlockedTrueClaim | packages/react/private-act-dispatcher-gate.js:1359-1393 | On any finite, possibly cyclic graph the search ends, returns null if and only if no reachable object holds a listed key that is true, and otherwise names a real path to one: the first in the depth-first order of a plain to-do list |
| GraphSearch.NothingReachable | packages/react/private-act-dispatcher-gate.js:1359-1393 | A claim-free set of objects closed under references contains everything reachable from it |
| GraphSearch.DeepFrozenFrom | packages/react/children-helper.js:1761-1792 | True means every object seen so far is frozen data pointing only at seen objects, even for objects still being visited; false comes with a reachable culprit |
| GraphSearch.IsDeepFrozenDataGraph | packages/react/children-helper.js:1761-1792 | True if and only if every reachable object is frozen and has only data properties |
| FiberArena.FiberArena.CreateFiber | crates/fast-react-core/src/fiber_arena.rs:56-75 | A new fiber takes the last vacated slot or a new one, under that slot's generation |
| FiberArena.FiberArena.ReplaceFiberNode | crates/fast-react-core/src/fiber_arena.rs:269-283 | The fiber's slot then holds the given node without its deletion list and nothing else changes; stale ids and nodes with another id are errors that change nothing |
| FiberArena.FiberArena.ReclaimFiber | crates/fast-react-core/src/fiber_arena.rs:244-267 | Reclaiming refuses linked and retained fibers without changing anything; otherwise it empties the slot, advances its generation and frees it |
| FiberArena.FiberArena.LinkAlternates | crates/fast-react-core/src/fiber_alternate.rs:6-21 | Both endpoints point at each other afterwards; every rejection leaves the arena unchanged |
| FiberArena.FiberArena.CreateWorkInProgress | crates/fast-react-core/src/fiber_alternate.rs:23-51 | The existing partner or a new fiber becomes a clone of current that points back; every rejection leaves the arena unchanged |
| FiberLaws.WipNeverFails | crates/fast-react-core/src/fiber_alternate.rs:23-51 | While alternates are paired off, the call succeeds exactly for live fibers |
| FiberLaws.WipEffect | crates/fast-react-core/src/fiber_alternate.rs:23-51 | Only the partner's node and current's alternate field change, and both directions of the link hold |
| FiberLaws.WipFields | crates/fast-react-core/src/fiber.rs:511-524 | The partner's fields one by one: new props; current's tag, key, mode, index and remembered state; no neighbours, effects or deletions; pointing back |
| FiberLaws.CreateEffect | crates/fast-react-core/src/fiber_arena.rs:56-75 | A new fiber's id and fields one by one, in the last vacated slot or a new one; no other fiber changes |
| FiberLaws.ReclaimSucceedsExactly | crates/fast-react-core/src/fiber_arena.rs:244-262 | A fiber can be reclaimed if and only if it is live, has no return, child, sibling, alternate or deletions, no deletion list retains it, and its slot has generations left |
| FiberLaws.ReclaimEffect | crates/fast-react-core/src/fiber_arena.rs:259-267 | Its id is then stale, its slot is the next to be used at the next generation, and no other fiber changes |
| FiberLaws.LinkSucceedsExactly | crates/fast-react-core/src/fiber_alternate.rs:6-16 | Linking succeeds if and only if both are live, different, and equal in tag and key |
| FiberLaws.LiveExactly | crates/fast-react-core/src/fiber_arena.rs:77-101 | An id is valid if and only if it names an occupied slot of this arena at the slot's generation |
| FiberLaws.LinkKeepsExactly | crates/fast-react-core/src/fiber_alternate.rs:6-21 | Linking keeps alternates paired off if and only if it is rejected or each endpoint is unpaired or already paired with the other |
| FiberLaws.RelinkingBreaksPairs | crates/fast-react-core/src/fiber_alternate.rs:6-51 | A concrete run that links one fiber twice, after which a live fiber cannot get a work-in-progress |
| FiberLaws.EveryRunIsPaired | crates/fast-react-core/src/fiber_alternate.rs:6-111 | After any run from an empty arena the alternate relation is a fixed-point-free involution on live fibers with equal tag and key, and create_work_in_progress fails on no live fiber |
| FiberLaws.PingPong | crates/fast-react-core/src/fiber_alternate.rs:23-51 | Repeated calls return the same partner, a call on the partner returns the original, and no slot is added |
| FiberLaws.WipGrowth | crates/fast-react-core/src/fiber_alternate.rs:23-51 | The number of live fibers grows by one on the first call for an unpaired fiber and by none otherwise |
| FiberLaws.ReclaimedIsGone | crates/fast-react-core/src/fiber_arena.rs:244-267 | A reclaimed id is never live again and is nobody's alternate, whatever runs later and whoever gets its slot |
| TaskHeap.MinHeap.Push | packages/scheduler/cjs/scheduler-unstable_mock.production.js:70-84 | Pushing keeps heap order and inserts the node into the sorted contents |
| TaskHeap.MinHeap.Peek | packages/scheduler/cjs/scheduler-unstable_mock.production.js:86-88 | Null for an empty heap, otherwise a least node |
| TaskHeap.MinHeap.Pop | packages/scheduler/cjs/scheduler-unstable_mock.production.js:90-126 | Popping takes the first of the sorted contents, leaves the rest of them and keeps heap order |
| TaskHeap.LeqExactly | packages/scheduler/cjs/scheduler-unstable_mock.production.js:128-131 | One node comes before another if and only if its sort index is smaller, or equal with a smaller id |
| TaskHeap.PopOrder | packages/scheduler/cjs/scheduler-unstable_mock.production.js:90-131 | Nodes are popped by sort index, and among equal ones by id |
| TaskHeap.SortedIsUnique | packages/scheduler/cjs/scheduler-unstable_mock.production.js:128-131 | The comparison leaves exactly one sorted arrangement of given nodes |
| MockScheduler.Scheduler.AdvanceTimersTo | packages/scheduler/cjs/scheduler-unstable_mock.production.js:133-147 | The heap loop moves timers exactly as the list-based definition does, in pop order |
| MockScheduler.Scheduler.HandleTimeoutAt | packages/scheduler/cjs/scheduler-unstable_mock.production.js:149-163 | Firing the host timeout advances the timers, then requests a host callback or the next timeout |
| MockScheduler.Scheduler.UnstableAdvanceTime | packages/scheduler/cjs/scheduler-unstable_mock.production.js:1024-1034 | The clock moves unless silenced; a due timeout is fired and then cleared, even if it was just requested again |
| MockScheduler.Scheduler.UnstableScheduleCallback | packages/scheduler/cjs/scheduler-unstable_mock.production.js:1215-1284 | A task enters the timer or ready queue by its start, with its priority's expiration; a timeout is armed only for the first timer of a scheduler without ready tasks |
| MockScheduler.Scheduler.ResetAll | packages/scheduler/cjs/scheduler-unstable_mock.production.js:1009-1022 | Reset throws while flushing and otherwise clears clock, host requests and log, but neither queue nor the scheduled flags |
| SchedulerLaws.AdvanceTimersEffect | packages/scheduler/cjs/scheduler-unstable_mock.production.js:133-147 | Exactly the live due timers get their expiration as sort index and a place among the ready tasks; no other field of any task changes |
| SchedulerLaws.ScheduleOk | packages/scheduler/cjs/scheduler-unstable_mock.production.js:1215-1284 | Scheduling keeps both queues sorted, duplicate-free and consistent with the tasks |
| SchedulerLaws.WorkOk | packages/scheduler/cjs/scheduler-unstable_mock.production.js:165-226 | Every single step of the work loop, in whatever order, keeps that invariant, the set of tasks, the clock and the log |
| SchedulerEffects.Timeouts | packages/scheduler/cjs/scheduler-unstable_mock.production.js:1234-1252 | The timeouts of the five priorities, and the normal one for any other |
| SchedulerEffects.ScheduleEffect | packages/scheduler/cjs/scheduler-unstable_mock.production.js:1220-1284 | The new task's start, expiration, sort index and queue, and that no other task changes |
| SchedulerEffects.DelayedRequest | packages/scheduler/cjs/scheduler-unstable_mock.production.js:1264-1275 | A delayed task arms the host timeout for its start if and only if nothing is ready and all timers start later |
| SchedulerEffects.UndelayedRequest | packages/scheduler/cjs/scheduler-unstable_mock.production.js:1276-1283 | An undelayed one requests a host callback if and only if none is scheduled and no work is being performed |
| SchedulerEffects.AdvanceEffect | packages/scheduler/cjs/scheduler-unstable_mock.production.js:1024-1034 | A silenced clock stands still; otherwise it moves, and a due timeout fires, promotes timers and is gone |
| SchedulerEffects.HandleTimeoutEffect | packages/scheduler/cjs/scheduler-unstable_mock.production.js:149-163 | The timeout requests a host callback for ready tasks, or else itself for the next timer's start |
| SchedulerEffects.EnterAndLeave | packages/scheduler/cjs/scheduler-unstable_mock.production.js:165-180 | Entering and leaving work set their flags, and entering drops a scheduled host timeout |
| SchedulerEffects.BeginAndEnd | packages/scheduler/cjs/scheduler-unstable_mock.production.js:1089-1104 | A flush starts only with a requested host callback, which is kept while more work remains |
| SchedulerEffects.LoopStops | packages/scheduler/cjs/scheduler-unstable_mock.production.js:186-209 | The loop stops at an unexpired task without time or when asked to yield, at a throwing callback, and at a continuation while painting is asked for |
| SchedulerEffects.LoopEnds | packages/scheduler/cjs/scheduler-unstable_mock.production.js:218-226 | Without ready tasks it requests the next timer's start |
| SchedulerEffects.CancelledIsNeverCalled | packages/scheduler/cjs/scheduler-unstable_mock.production.js:182-226 | A task without a callback is never called unless a callback gives it one |
| SchedulerEffects.ContinuationIsNext | packages/scheduler/cjs/scheduler-unstable_mock.production.js:196-209 | If nothing else changed, the same task is called next with the continuation as its callback |
| WorkLoop.LoopCallsTheFirst | packages/scheduler/cjs/scheduler-unstable_mock.production.js:182-226 | The loop keeps the invariant, and each task it calls is live, expired unless time remains, and before every other ready task by (expiration, id), whatever the callbacks do |
| WorkLoop.CalledFirst | packages/scheduler/cjs/scheduler-unstable_mock.production.js:128-131 | In numbers: every other ready task expires later than the one called, or at the same time and has no smaller id |
| WorkLoop.FlushCallsTheFirst | packages/scheduler/cjs/scheduler-unstable_mock.production.js:165-226 | The same for a whole flush |
| WorkLoop.ExpiredLoopCalls | packages/scheduler/cjs/scheduler-unstable_mock.production.js:182-226 | With callbacks that leave the queues alone, a loop over expired work ends and calls exactly the expired tasks listed in pop order |
| WorkLoop.ExpiredMembers | packages/scheduler/cjs/scheduler-unstable_mock.production.js:182-226 | That list holds exactly the live ready tasks that have expired |
| WorkLoop.ExpiredInOrder | packages/scheduler/cjs/scheduler-unstable_mock.production.js:182-226 | Each of them once, sorted by (expiration, id) |
| WorkLoop.ExpiredOrder | packages/scheduler/cjs/scheduler-unstable_mock.production.js:128-131 | In numbers: earlier expirations first, smaller ids among equal ones |
| SchedulerLaws.AdvanceTimeOk | packages/scheduler/cjs/scheduler-unstable_mock.production.js:1024-1034 | Advancing the clock keeps that invariant |
| SchedulerLaws.AdvanceKeepsTasks | packages/scheduler/cjs/scheduler-unstable_mock.production.js:1024-1034 | Advancing the clock changes nothing of a task but its sort index |
| SchedulerLaws.PromotionExactly | packages/scheduler/unstable_mock.js:3793-3808 | A waiting delayed task passes the promotion check after the clock is advanced to its expiration if and only if the scheduler can promote it |
| Shadow.ShadowState.FindShadowTaskRecord | packages/scheduler/unstable_mock.js:564-572 | The backward search finds the last record of the task, or none if there is none |
| Shadow.ShadowState.YieldLogSnapshot | packages/scheduler/unstable_mock.js:5174-5231 | The snapshot's values always equal the scheduler's yielded values; the log is renumbered only if it differed |
| Shadow.ShadowState.MatchesScheduler | packages/scheduler/unstable_mock.js:5200-5218 | The comparison loop answers true if and only if all values agree in order |
| Shadow.WrappedScheduler.ScheduleCallback | packages/scheduler/unstable_mock.js:375-380 | The scheduler schedules and the shadow records the returned task under the next schedule order |
| Shadow.WrappedScheduler.CancelCallback | packages/scheduler/unstable_mock.js:381-386 | The scheduler drops the task's callback and the shadow marks the task's last record, if it has one |
| Shadow.WrappedScheduler.LogValue | packages/scheduler/unstable_mock.js:395-411 | The shadow log gains exactly what the scheduler's log gained, which is nothing when silenced |
| Shadow.WrappedScheduler.Reset | packages/scheduler/unstable_mock.js:387-394 | Scheduler and shadow are reset together, or neither when reset throws |
| ShadowLaws.RunRecordsOk | packages/scheduler/unstable_mock.js:546-577 | In every run schedule orders are 1, 2, ... without gaps and no task has two records |
| ShadowLaws.ScheduledTaskIsFound | packages/scheduler/unstable_mock.js:546-577 | A task scheduled since the last reset is found, under its own order, after any further run |
| ShadowLaws.ArrangementIsUnique | packages/scheduler/unstable_mock.js:5353-5359 | With unique schedule orders, two sorted arrangements of the same summaries are equal |
| ShadowLaws.SnapshotIsTheSortedOne | packages/scheduler/unstable_mock.js:5286-5294 | In every reachable state the task snapshot is a permutation of the records' summaries sorted by (sortIndex, scheduleOrder), and the only one |
| ShadowLaws.SnapshotOrder | packages/scheduler/unstable_mock.js:5353-5359 | In numbers: summaries come by sort index, and among equal ones by schedule order |
| ShadowLaws.SnapshotDescribes | packages/scheduler/unstable_mock.js:5296-5351 | The snapshot says of every recorded task its own fields, whether it has expired, and whether it can still be called |
| ShadowLaws.CancelEffect | packages/scheduler/unstable_mock.js:557-562 | Cancelling drops the task's callback and marks its record, and changes no other |
| ShadowLaws.CancelledStays | packages/scheduler/unstable_mock.js:557-562 | A cancelled task is shown as cancelled until the next reset, whatever continuation it gets |
| ShadowLaws.LogEffect | packages/scheduler/unstable_mock.js:395-411 | An unsilenced log appends its value to both logs, under the next number |
| ShadowLaws.AddedValues | packages/scheduler/unstable_mock.js:5167-5172 | What a mutation added are the values at the end, or all values of a log that got shorter |
| ShadowLaws.ClearEffect | packages/scheduler/unstable_mock.js:586-589 | Clearing empties both logs, numbers itself and keeps numbering entries |
| ShadowLaws.ResetEffect | packages/scheduler/unstable_mock.js:574-584 | Unless it throws, reset starts clock and all numbers afresh and keeps the scheduler's queues and flags |
| ShadowLaws.RunLogOk | packages/scheduler/unstable_mock.js:5150-5231 | In every run sequence numbers strictly increase along the log |
| ShadowLaws.NumbersAreNeverReissued | packages/scheduler/unstable_mock.js:5150-5231 | Between resets every number is given out once and in order, and the log only shows entries given out |
| ShadowLaws.WrapperStaysInSync | packages/scheduler/unstable_mock.js:387-417 | If all changes of the log go through the wrapper, the shadow equals the log after every run and a snapshot never resynchronises |
| DelayedDrain.Drainer.CheckNestedEvidence | packages/scheduler/unstable_mock.js:2708-2778 | The loops accept if and only if queue, arrays, entries in order, callbacks and signatures are those captured |
| DelayedDrain.Drainer.ConsumeRecords | packages/scheduler/unstable_mock.js:4507-4545 | Without error the consumed records are all of the array's in order and the array is empty; with a bad record, exactly the records up to and including it have been removed; if `shift` throws, none is consumed |
| DelayedDrain.Drainer.Drain | packages/scheduler/unstable_mock.js:1373-1484 | The drain, calling arbitrary code on the objects in between, has exactly the outcome the definition gives |
| DelayedDrain.Drainer.CallAndConsume | packages/scheduler/unstable_mock.js:1177-1190 | The same for the part from the scheduled callback on |
| DrainLaws.AcceptedTiming | packages/scheduler/unstable_mock.js:3083-3141 | After acceptance at `now` nothing pending is expired at any time before the task's expiration, and at that time exactly the task is |
| DrainLaws.ProducedIsAccepted | packages/scheduler/unstable_mock.js:2496-2654 | Metadata is accepted in the scene it was produced in if and only if no other pending task is delayed, or expired by the task's expiration |
| DrainLaws.AdvanceKeepsExpiredError | packages/scheduler/unstable_mock.js:3850-4021 | Advancing the clock changes no answer of the expired-work validation |
| DrainLaws.PromotedIsAccepted | packages/scheduler/unstable_mock.js:1441-1456 | Once promoted, an accepted task is never rejected by the second validation |
| DrainLaws.DrainReachesCallback | packages/scheduler/unstable_mock.js:1409-1456 | An accepted drain calls the callback if the scheduler can promote the task and fails with the promotion rejection if it cannot |
| DrainLaws.DrainReturnsExactly | packages/scheduler/unstable_mock.js:1373-1484 | The drain returns if and only if the metadata is accepted, the task can be promoted, no callback throws, the evidence still holds, the array of records is neither sealed nor frozen, and no record is rejected |
| DrainLaws.DrainConsumesCaptured | packages/scheduler/unstable_mock.js:2680-2778 | If it returns, the consumed records are the very ones captured when the metadata was produced, in order, with the same signed fields; the counts agree and none remain |
| DrainEvidence.DrainSeesChanges | packages/scheduler/unstable_mock.js:2708-2778 | Whatever the scheduled callback does: a drain that returns found the act queue's array, tasks, callbacks and signatures and the root records' array, entries and signed fields as they were when the metadata was produced; if any of it changed, the drain fails with a mismatch |
| DrainEvidence.EvidenceExactly | packages/scheduler/unstable_mock.js:2680-2778 | Produced evidence holds if and only if none of that has changed |
| DrainEvidence.SignatureExactly | packages/scheduler/unstable_mock.js:2846-2874 | Two records have one signature if and only if they go by the same kind and all signed fields read alike in JSON |
| DrainEvidence.EmptiedActQueueFails | packages/scheduler/unstable_mock.js:2731-2750 | A concrete drain whose callback empties the act queue fails |
| DrainEvidence.GuardIsInstalled | packages/scheduler/unstable_mock.js:4042-4051 | When the scheduled callback runs, its task's callback is the guard, and nothing else has changed |
| DrainEvidence.AcceptedExactly | packages/scheduler/unstable_mock.js:2876-3249 | Delayed metadata is accepted if and only if its task is live and recorded as produced, times and priorities agree and lie ahead, no other task could expire with it, the root metadata fits, and the evidence holds |
| DrainEvidence.ProducedExactly | packages/scheduler/unstable_mock.js:2496-2654 | Metadata is produced if and only if the task is live and waits, times agree, no other task expires by its expiration, and the root metadata fits and counts the act queue; and what it then says |
| DrainEvidence.RecordFitsExactly | packages/scheduler/unstable_mock.js:4346-4391 | A record is accepted if and only if its kind is one of the eight, it is accepted, every claim is false and every policy true |
| DrainEvidence.FailedShift | packages/scheduler/unstable_mock.js:4511-4512 | A failed shift leaves a frozen array alone and moves a sealed one's entries forward |
| DrainLaws.ProducedSignatures | packages/scheduler/unstable_mock.js:1711-1807 | Produced evidence is complete and holds only accepted signatures |
| DrainLaws.RecordAccepted | packages/scheduler/unstable_mock.js:4346-4387 | A record is accepted if and only if its signature is, no signed field only looks right in JSON, and it makes no unsigned claim |
| DrainLaws.ConsumptionFailsExactly | packages/scheduler/unstable_mock.js:4507-4545 | When the evidence holds after the callback, consumption fails if and only if the array of records is sealed or frozen or a captured record has an unsigned claim or a field that only looks right in JSON |
| DrainLaws.UnsignedClaimFails | packages/scheduler/unstable_mock.js:4507-4545 | A concrete drain whose callback sets an unsigned claim on the second record fails on it |
| DrainLaws.DisguisedFieldFails | packages/scheduler/unstable_mock.js:4507-4545 | A concrete drain whose callback puts a Boolean object into the second record fails on it |
| DrainLaws.LockedArrayFails | packages/scheduler/unstable_mock.js:4507-4545 | A concrete drain whose callback seals or freezes the array of records fails without consuming any |
| DrainLaws.ImmediateTaskIsNotPromoted | packages/scheduler/unstable_mock.js:1441-1445 | A concrete run: a delayed immediate task is accepted by every validation and then fails promotion |
| DrainLaws.UnarmedTaskIsNotPromoted | packages/scheduler/unstable_mock.js:1441-1445 | A concrete run: a delayed task behind a waiting one is accepted and then fails promotion |
| GuardedChain.AcceptableExactly | packages/scheduler/unstable_mock.js:4268-4312 | The only freedom of an acceptable callback is its label |
| GuardedChain.GuardShapeFields | packages/scheduler/unstable_mock.js:4084-4120 | A guard identifies itself as its callback does and makes no claim |
| GuardedChain.GuardsAreAcceptable | packages/scheduler/unstable_mock.js:4053-4120 | The guard of an acceptable callback is acceptable, and so is every continuation a guard returns |
| GuardedChain.GuardIsInvisible | packages/scheduler/unstable_mock.js:4042-4082 | While all continuations are acceptable, the guarded chain makes the same calls in the same states and ends the same way, at any length |
| GuardedChain.GuardStopsAtFirstUnacceptable | packages/scheduler/unstable_mock.js:4053-4082 | Otherwise it makes exactly the calls up to the one returning the first unacceptable continuation, then throws without calling it |
| GuardedChain.GuardRefusesExactly | packages/scheduler/unstable_mock.js:4053-4082 | The guarded chain is refused if and only if the unguarded one is or meets an unacceptable continuation |
| LazyPayload.Lazy.Initialize | packages/react/wrapper-object.js:220-250 | The initializer, with any user code run by the loader and by `then`, does exactly what the reference definition says and returns or throws accordingly |
| LazyPayload.InitAnswers | packages/react/wrapper-object.js:220-250 | The initializer returns a fulfilled payload's module, throws a rejected one's error and a pending one's thenable, and lets throws of the loader and of `then` through |
| LazyPayload.SettlingSettles | packages/react/wrapper-object.js:225-237 | A settling callback on an unsettled payload leaves exactly its own value or error |
| LazyPayload.FirstLoad | packages/react/wrapper-object.js:220-250 | A new payload suspends on the loader's thenable, is settled by it, and then answers with that |
| LazyPayload.EveryRunIsAPath | packages/react/wrapper-object.js:220-250 | In every run, with racing and re-entrant callbacks, the status only moves -1 to 0 to 1 or 2, or -1 directly to 1 or 2, with a fitting result each time |
| LazyPayload.SettledForGood | packages/react/wrapper-object.js:225-238 | Once 1 or 2, neither status nor result nor the number of loader calls changes again |
| LazyPayload.OnlyThrowingLeavesUninitialized | packages/react/wrapper-object.js:220-250 | An initializer call leaves the payload uninitialized only if the loader or `then` threw |
| LazyPayload.LoaderIsNotCalledAgain | packages/react/wrapper-object.js:220-250 | After an initializer call in which neither threw, the loader is never called again |
| LazyPayload.PlainLoaderIsCalledOnce | packages/react/wrapper-object.js:220-250 | A loader that does not call back is called exactly once by a first call that does not throw |
| ThenableResolution.Thenable.ResolveThenable | packages/react/children-helper.js:1259-1295 | Reading a thenable, with any user code run by `then`, including code that writes the thenable's own fields, does exactly what the reference definition says |
| ThenableResolution.SettlingSettles | packages/react/children-helper.js:1270-1283 | A settling callback on a pending thenable leaves exactly its own value or reason |
| ThenableResolution.FirstRead | packages/react/children-helper.js:1265-1294 | A thenable read for the first time suspends, is settled by its callbacks, and then answers with that |
| ThenableResolution.FirstSettlementWins | packages/react/children-helper.js:1265-1284 | Once a thenable is settled, by whatever came before, every later read answers that settlement until user code writes the fields itself |
| ThenableResolution.AttachedOnce | packages/react/children-helper.js:1265-1284 | For a thenable that had no status and is not written, callbacks are attached at most once |
| ThenableResolution.CustomStatusSuspends | packages/react/children-helper.js:1265-1294 | Reading never overwrites a status string of the user's own, and suspends if and only if `then` does not itself leave a settled status |
| ThenableResolution.TrackedPendingSuspends | packages/react/children-helper.js:1265-1294 | A thenable whose user keeps 'pending' in it gets no callbacks, and reading it suspends as long as user code writes nothing |
| ThenableResolution.WritingThenAnswers | packages/react/children-helper.js:1286-1294 | If `then` writes a fulfilled status and a value, that same read returns the value |
| ThenableResolution.ReadAnswersSettlement | packages/react/children-helper.js:1286-1294 | A read returns, throws or suspends exactly as the thenable is fulfilled, rejected or neither once `then` is done |
| PublicRoots.Facade.CreateRoot | packages/react-dom/client.js:171-182 | A container is registered and a fresh root made only if no check and no adapter call throws; otherwise nothing changes |
| PublicRoots.Facade.Render | packages/react-dom/client.js:185-208 | Rendering throws after unmount, clears output only if some is mounted, and leaves everything unchanged when it throws |
| PublicRoots.Facade.Unmount | packages/react-dom/client.js:210-223 | The first unmount releases the container; a repeated one does nothing |
| PublicRoots.EveryRunIsExact | packages/react-dom/client.js:171-227 | Over all interleavings a container is registered if and only if one not-unmounted root holds it, never two; each root's trace has clear only directly after a render and nothing after unmount |
| PublicRoots.CreateSucceedsExactly | packages/react-dom/client.js:769-783 | In every reachable state creation for an eligible container succeeds if and only if no not-unmounted root holds it |
| PublicRoots.CreateEffect | packages/react-dom/client.js:171-183 | In every reachable state, creating on a container that no not-unmounted root holds gives a fresh root that holds it, and changes no other |
| PublicRoots.CreateFails | packages/react-dom/client.js:174-182 | Refused arguments, ineligible or registered containers and a throwing adapter fail and change nothing |
| PublicRoots.RenderEffect | packages/react-dom/client.js:188-207 | Rendering an element mounts it; rendering null clears exactly when output is mounted; no other root changes |
| PublicRoots.RenderFails | packages/react-dom/client.js:188-207 | Refused arguments and elements, and a throwing adapter, fail and change nothing |
| PublicRoots.UnmountEffect | packages/react-dom/client.js:210-223 | Unmounting tells the adapter, marks the root, releases the container, and a new root can be created on it; a throw changes nothing |
| PublicRoots.OneLife | packages/react-dom/client.js:171-227 | One container from creation over rendering and unmounting to a second root |
| PublicRoots.UnmountedRootIsInert | packages/react-dom/client.js:210-223 | Whatever happens later, unmounting an old root again cannot release a newer root's container, and rendering it throws |
| Elements.JsxProd | packages/react/element-factory.js:89-111 | The loop copies every property but `key`; a `key` property overrides the key argument unless undefined |
| Elements.CreateElementImpl | packages/react/element-factory.js:113-190 | Key, own properties, children and defaults make the element the definition gives |
| Elements.FillDefaults | packages/react/element-factory.js:169-176 | Exactly the properties that are missing or undefined take their default |
| Elements.CloneElementImpl | packages/react/element-factory.js:192-256 | Cloning nothing is an error; otherwise config overrides the element's properties, key and ref, with undefined key and ref ignored |
| Elements.CreatedParts | packages/react/element-factory.js:113-190 | The parts of a created element: key, ref, one child unwrapped or several as a list, own properties but the reserved three, and defaults for what is missing |
| Elements.JsxParts | packages/react/element-factory.js:89-111 | The parts of a jsx element: all properties but `key`, the ref, and the key given apart unless the properties have one |
| Elements.ClonedParts | packages/react/element-factory.js:192-256 | The parts of a clone: what config gives, and the element's own for the rest |
| Elements.KeyText | packages/react/element-factory.js:92-96 | Keys that are undefined, null or arrays, as texts |
| Elements.TargetsAgreeExactly | packages/react/element-factory.js:89-190 | Without default props the two JSX targets build equal elements if and only if the properties carry neither `__self` nor `__source` and no differing key of their own |
| Elements.TargetsAgreeUnlessDefaulted | packages/react/element-factory.js:89-190 | With default props, and none of the reserved properties, they agree if and only if no default is filled in |
| Elements.CloneComposes | packages/react/element-factory.js:192-256 | Cloning with c1 and then c2 equals cloning once with their merge, in which an undefined key or ref of c2 falls back to c1 |
| Elements.CloneComposesWithChildren | packages/react/element-factory.js:192-256 | The same when both clonings also pass child arguments |
| Elements.ReplaceKeyIsClone | packages/react/element-factory.js:258-273 | Replacing the key is cloning with that key alone |

## Left out

- Development-mode behaviour (warnings, key validation, debug stacks, frozen props), profiling, error texts and error codes.
- The report builders and the long lists of false flags around all modelled functions; a drain's report is modelled by its counts, its records and their signed fields.
- Strings are sequences of characters; UTF-16 code units, Unicode and the coercion of keys that are not strings are not modelled.
- Children: iterators whose own code throws, holes and getters in arrays, and user code that changes a tree while it is traversed. A lazy or thenable yields the same outcome whenever it is visited in one traversal. `map`'s callback is a function of the child and its index, so state it keeps across calls is represented only through the index.
- Children: `forEach` and `only` (they add no behaviour to `map`), and the `context` argument.
- Graph searches: getters and proxies; an object's keys, values and descriptors are fixed during a search. The deep-frozen search treats functions as values, as the code does.
- Fibers: setting children, deletion lists, lanes and the topology validator appear as edits that keep a node's id, tag, key and alternate.
- Scheduler times are exact reals; floating-point rounding, NaN and infinity are not modelled. Priorities other than the five known ones take the normal timeout, as in the code.
- Scheduler: yield expectations, paint state and priority contexts; when to stop is given to the work loop as a predicate on the state. The work loop (`WorkLoop`) is modelled on values, not on the heaps in place, because the callbacks it calls may do anything to the scheduler, and for a number of rounds, because they may go on for ever. In runs of the wrapper its steps occur singly and in any order (`MockScheduler.WorkStep`), which allows more runs than the code has.
- Drain: the scheduler's own expired-task drain, with the scheduled callback in it, is one piece of arbitrary code that may rewrite every object and the scheduler; the act-queue drain is another. That the first one runs the guard around the callback is the subject of `GuardedChain`.
- Drain: brands, versions, targets and claim fields of metadata, queues and act tasks are summed up by one flag each; the JSON signature of an act task by a number. Arrays whose elements or length were locked one by one, replaced `shift` methods, getters that answer differently each time, and values that JSON cannot write are not modelled. Snapshots taken for the report (which may renumber the shadow log) are not repeated in the drain. The producer for renderer roots is not modelled, nor are metadata objects that did not come from the producer.
- Lazies: user code that writes the fields of the private payload object; thenables' public fields may be written.
- Lazies: a module without a `default` property; the modelled value is the default export.
- Lazies: LazyPayload.EveryRunIsAPath also covers settle callbacks that are called before any loader has handed them out, which the code cannot do.
- Public roots: adapter, private roots and DOM are environment that returns or throws; adapter code that calls back into the facade, hydration and the root's other methods are not modelled.
- Elements: property order, inherited properties (`for ... in` without an own-property check in `jsx`), symbols, and the conversion errors of unusual keys. The owner field does not exist on production elements.
