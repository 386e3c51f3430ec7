// Draining delayed act/root work through the mock scheduler's diagnostics
// (packages/scheduler/unstable_mock.js:1143-1196, 1373-1484, 2496-2778,
// 2876-3249, 3251-3314, 3850-4021, 4346-4387, 4507-4545, 4832-4858).
//
// Metadata is produced from accepted root work, captured evidence and all.  The
// drain validates it, advances the clock, runs the scheduled callback, checks the
// evidence again and then consumes the root records.  The callback is arbitrary
// code: it may rewrite every object and the scheduler itself.
module DelayedDrain {
  import opened Wrappers
  import opened MockScheduler
  import opened SchedulerLaws
  import opened Shadow

  type ObjectId = nat

  // ---------- the objects that user code can reach ----------

  // The value of a boolean claim field.  A disguised value is an object that JSON
  // writes as a boolean but that is none.
  datatype Flag = False | True | Absent | DisguisedFlag(b: bool)

  // The same for a kind field.
  datatype Kind = Kind(text: string) | DisguisedKind(text: string)

  // A root work record.  The last two fields stand for the claims that the
  // checks read but the signature does not cover.
  datatype RootRecord = RootRecord(
    recordKind: Option<Kind>, kind: Option<Kind>, rootWorkRecordKind: Option<Kind>,
    accepted: Flag, target: seq<Option<string>>, publicClaims: seq<Flag>, executionClaims: seq<Flag>,
    policies: seq<Flag>, packageClaim: bool, flushClaim: bool)

  // A task of the act queue, its fields summed up by a signature.
  datatype ActTask = ActTask(callback: Option<nat>, signature: nat, rejected: bool)

  // What Object.seal and Object.freeze have been applied to an array.
  datatype Integrity = Open | Sealed | Frozen

  datatype JsArray = JsArray(entries: seq<ObjectId>, integrity: Integrity)

  datatype ActQueue = ActQueue(records: ObjectId, rejected: bool)

  // Metadata of expired act/root work; `rejected` sums up brand, version, target,
  // claim and policy fields.
  datatype ExpiredMetadata = ExpiredMetadata(
    rejected: bool, callbackHandle: int, priority: Option<int>,
    actQueue: ObjectId, expectedPending: Option<nat>, rootWorkRecords: ObjectId)

  // Identifiers missing from a map stand for values of another type.
  datatype Objects = Objects(
    metadata: map<ObjectId, ExpiredMetadata>, queues: map<ObjectId, ActQueue>, arrays: map<ObjectId, JsArray>,
    records: map<ObjectId, RootRecord>, actTasks: map<ObjectId, ActTask>,
    branded: set<nat>, acceptable: set<nat>)

  datatype Scene = Scene(w: World, o: Objects)

  // ---------- root records ----------

  const ACCEPTED_KINDS: set<string> := {
    "RootLaneSchedulingSnapshot", "UpdateContainerResult", "RootScheduleUpdateRecord", "RootTaskScheduleRecord",
    "SchedulerCallbackRequest", "RootSchedulerCallbackExecutionRecord",
    "HostRootFinishedWorkPendingCommitRecordForCanary", "HostRootFinishedWorkCommitHandoffRecordForCanary" }

  function RecordKind(r: RootRecord): Option<Kind> {
    if r.recordKind.Some? then r.recordKind else if r.kind.Some? then r.kind else r.rootWorkRecordKind
  }

  datatype Signature =
    | NotObject
    | Signed(kind: Option<string>, accepted: Flag, target: seq<Option<string>>,
             publicClaims: seq<Flag>, executionClaims: seq<Flag>, policies: seq<Flag>)

  function RecordSignature(o: Objects, id: ObjectId): Signature {
    if id !in o.records then NotObject
    else
      var r := o.records[id];
      Signed(if RecordKind(r).Some? then Some(RecordKind(r).value.text) else None, Json(r.accepted), r.target,
             JsonAll(r.publicClaims), JsonAll(r.executionClaims), JsonAll(r.policies))
  }

  // The signature is a JSON text, in which disguises do not show.
  function Json(flag: Flag): Flag {
    match flag
    case DisguisedFlag(b) => if b then True else False
    case _ => flag
  }

  function JsonAll(flags: seq<Flag>): seq<Flag> {
    seq(|flags|, i requires 0 <= i < |flags| => Json(flags[i]))
  }

  predicate AllFlags(flags: seq<Flag>, flag: Flag) {
    forall i :: 0 <= i < |flags| ==> flags[i] == flag
  }

  datatype Rejection =
    | MetadataRejected | ActQueueRejected | StaleActQueue
    | RecordsNotArray | RecordsFrozen | RecordsEmpty
    | RecordNotObject | RecordBadKind | RecordNotAccepted | RecordPublicClaim | RecordExecutionClaim | RecordPolicy
    | StaleCallbackHandle | HandleNotFunction | HandleNotBranded | HandleRejected
    | UnsupportedPriority | PriorityMismatch
    | NotExpired | NoneExpired | NotExpiredPending | AmbiguousExpired
    | ScheduledTimeInvalid | DelayInvalid | DelayMismatch | StartMismatch | ExpirationMismatch | TimeoutMismatch
    | NotDelayedPending | NoneDelayed | NotDelayedOrExpired | AmbiguousDelayed
    | ExpiredMetadataMissing | CallbackHandleMismatch | PendingCountMismatch
    | NotProduced | SourceMismatch | EvidenceMismatch
    | PromotionFailed | Promoted(reason: Rejection) | ShiftThrew | CallbackThrew | ActDrainThrew

  // getRejectedExpiredActRootWorkRecordReason
  function RecordError(o: Objects, id: ObjectId): Option<Rejection> {
    if id !in o.records then Some(RecordNotObject)
    else
      var r := o.records[id];
      if RecordKind(r).None? || RecordKind(r).value.DisguisedKind? || RecordKind(r).value.text !in ACCEPTED_KINDS then Some(RecordBadKind)
      else if r.accepted != True then Some(RecordNotAccepted)
      else if !AllFlags(r.publicClaims, False) || r.packageClaim then Some(RecordPublicClaim)
      else if !AllFlags(r.executionClaims, False) || r.flushClaim then Some(RecordExecutionClaim)
      else if !AllFlags(r.policies, True) then Some(RecordPolicy)
      else None
  }

  // validateExpiredActRootWorkRecords
  function RecordsError(o: Objects, list: ObjectId): Option<Rejection> {
    if list !in o.arrays then Some(RecordsNotArray)
    else if o.arrays[list].integrity.Frozen? then Some(RecordsFrozen)
    else if o.arrays[list].entries == [] then Some(RecordsEmpty)
    else FirstRecordError(o, o.arrays[list].entries)
  }

  function FirstRecordError(o: Objects, entries: seq<ObjectId>): Option<Rejection> {
    if entries == [] then None
    else if RecordError(o, entries[0]).Some? then RecordError(o, entries[0])
    else FirstRecordError(o, entries[1..])
  }

  // Array.prototype.shift on a sealed array moves the entries forward before it
  // throws, on a frozen array it throws at once.
  function AfterFailedShift(a: JsArray): seq<ObjectId>
    requires a.entries != []
  {
    if a.integrity.Sealed? then a.entries[1..] + [a.entries[|a.entries| - 1]] else a.entries
  }

  // consumeAcceptedExpiredActRootWorkRecords, by its first failure
  function ConsumptionError(o: Objects, list: ObjectId): Option<Rejection>
    requires list in o.arrays
  {
    var a := o.arrays[list];
    if a.entries != [] && !a.integrity.Open? then Some(ShiftThrew) else FirstRecordError(o, a.entries)
  }

  // ---------- the act queue ----------

  function ActQueueError(o: Objects, queue: ObjectId): Option<Rejection> {
    if queue !in o.queues || o.queues[queue].rejected then Some(ActQueueRejected)
    else if o.queues[queue].records !in o.arrays then Some(ActQueueRejected)
    else
      var entries := o.arrays[o.queues[queue].records].entries;
      if entries == [] then Some(StaleActQueue)
      else if exists i :: 0 <= i < |entries| && (entries[i] !in o.actTasks || o.actTasks[entries[i]].rejected) then
        Some(ActQueueRejected)
      else None
  }

  function PendingCount(o: Objects, queue: ObjectId): nat
    requires ActQueueError(o, queue).None?
  {
    |o.arrays[o.queues[queue].records].entries|
  }

  function TaskCallback(o: Objects, id: ObjectId): Option<nat> {
    if id in o.actTasks then o.actTasks[id].callback else None
  }

  function TaskSignature(o: Objects, id: ObjectId): Option<nat> {
    if id in o.actTasks then Some(o.actTasks[id].signature) else None
  }

  // ---------- which shadow records are pending ----------

  predicate PendingRecord(w: World, i: nat) {
    && i < |w.sh.taskRecords| && !w.sh.taskRecords[i].cancelled
    && w.sh.taskRecords[i].task in w.s.q.tasks
    && w.s.q.tasks[w.sh.taskRecords[i].task].callback.Function?
  }

  function TaskAt(w: World, i: nat): Task
    requires i < |w.sh.taskRecords| && w.sh.taskRecords[i].task in w.s.q.tasks
  {
    w.s.q.tasks[w.sh.taskRecords[i].task]
  }

  // getExpiredPendingShadowTaskRecords, as positions
  function ExpiredPending(w: World, time: Time): set<nat> {
    set i: nat | 0 <= i < |w.sh.taskRecords| && PendingRecord(w, i) && TaskAt(w, i).expirationTime <= time
  }

  // getPotentialDelayedOrExpiredShadowTaskRecords, as positions
  function DelayedOrExpired(w: World, time: Time, target: Time): set<nat> {
    set i: nat | 0 <= i < |w.sh.taskRecords| && PendingRecord(w, i)
                 && (TaskAt(w, i).startTime > time || TaskAt(w, i).expirationTime <= time
                     || TaskAt(w, i).expirationTime <= target)
  }

  // ---------- validation ----------

  // What both validations ask of the callback handle: a live record whose task
  // has a function to call.
  function HandleError(w: World, handle: int): Option<Rejection> {
    match FindIndex(w.sh.taskRecords, handle)
    case None => Some(StaleCallbackHandle)
    case Some(i) =>
      FindIndexBound(w.sh.taskRecords, handle);
      if w.sh.taskRecords[i].cancelled || handle !in w.s.q.tasks || w.s.q.tasks[handle].callback.Null? then
        Some(StaleCallbackHandle)
      else if !w.s.q.tasks[handle].callback.Function? then Some(HandleNotFunction)
      else None
  }

  function PriorityError(w: World, handle: int, claimed: Option<int>): Option<Rejection>
    requires handle in w.s.q.tasks
  {
    var priority := w.s.q.tasks[handle].priority;
    if priority !in {IMMEDIATE, USER_BLOCKING, NORMAL, LOW, IDLE} then Some(UnsupportedPriority)
    else if claimed.Some? && claimed.value != priority then Some(PriorityMismatch)
    else None
  }

  // validateExpiredActRootWorkMetadata
  function ExpiredError(c: Scene, id: ObjectId, time: Time): Option<Rejection> {
    if id !in c.o.metadata || c.o.metadata[id].rejected then Some(MetadataRejected)
    else
      var m := c.o.metadata[id];
      if ActQueueError(c.o, m.actQueue).Some? then ActQueueError(c.o, m.actQueue)
      else if m.expectedPending.Some? && m.expectedPending.value != PendingCount(c.o, m.actQueue) then Some(StaleActQueue)
      else if RecordsError(c.o, m.rootWorkRecords).Some? then RecordsError(c.o, m.rootWorkRecords)
      else if HandleError(c.w, m.callbackHandle).Some? then HandleError(c.w, m.callbackHandle)
      else
        var task := c.w.s.q.tasks[m.callbackHandle];
        var index := FindIndex(c.w.sh.taskRecords, m.callbackHandle).value;
        if task.callback.id !in c.o.branded then Some(HandleNotBranded)
        else if PriorityError(c.w, m.callbackHandle, m.priority).Some? then
          PriorityError(c.w, m.callbackHandle, m.priority)
        else if task.expirationTime > time then Some(NotExpired)
        else if ExpiredPending(c.w, time) == {} then Some(NoneExpired)
        else if index !in ExpiredPending(c.w, time) then Some(NotExpiredPending)
        else if |ExpiredPending(c.w, time)| > 1 then Some(AmbiguousExpired)
        else None
  }

  // The delayed metadata the producer returns.  It is frozen.
  datatype Delayed = Delayed(
    callbackHandle: int, priority: int, scheduledTime: Time, delay: Time, startTime: Time, expirationTime: Time,
    timeout: Time, expired: ObjectId)

  // createDelayedActRootWorkNestedSourceEvidence
  datatype Evidence = Evidence(
    actQueue: ObjectId, actArray: ObjectId, actRecords: seq<ObjectId>, actCallbacks: seq<Option<nat>>,
    actSignatures: seq<Option<nat>>,
    rootArray: ObjectId, rootRecords: seq<ObjectId>, rootSignatures: seq<Signature>)

  // What the producer keeps about the metadata, out of reach of user code.
  datatype Source = Source(delayed: Delayed, recordIndex: nat, scheduleOrder: int, evidence: Evidence)

  function Capture(o: Objects, queue: ObjectId, root: ObjectId): Evidence
    requires ActQueueError(o, queue).None? && root in o.arrays
  {
    var actArray := o.queues[queue].records;
    var acts, roots := o.arrays[actArray].entries, o.arrays[root].entries;
    Evidence(queue, actArray, acts,
             seq(|acts|, i requires 0 <= i < |acts| => TaskCallback(o, acts[i])),
             seq(|acts|, i requires 0 <= i < |acts| => TaskSignature(o, acts[i])),
             root, roots,
             seq(|roots|, i requires 0 <= i < |roots| => RecordSignature(o, roots[i])))
  }

  datatype Produced = Refused(reason: Rejection) | Accepted(source: Source)

  // Producing delayed metadata from accepted root metadata.  The scheduled time
  // and delay options are given; None takes the source's default.
  function Produce(c: Scene, expired: ObjectId, scheduled: Option<Time>, delay: Option<Time>): Produced {
    if expired !in c.o.metadata then Refused(MetadataRejected)
    else
      var m := c.o.metadata[expired];
      if HandleError(c.w, m.callbackHandle).Some? then Refused(HandleError(c.w, m.callbackHandle).value)
      else
        var task, now := c.w.s.q.tasks[m.callbackHandle], c.w.s.now;
        var scheduledTime := if scheduled.Some? then scheduled.value else now;
        var delayMs := if delay.Some? then delay.value else task.startTime - scheduledTime;
        if task.callback.id !in c.o.acceptable then Refused(HandleRejected)
        else if PriorityError(c.w, m.callbackHandle, None).Some? then
          Refused(PriorityError(c.w, m.callbackHandle, None).value)
        else if scheduledTime < 0.0 then Refused(ScheduledTimeInvalid)
        else if delayMs <= 0.0 then Refused(DelayInvalid)
        else if task.startTime - scheduledTime != delayMs then Refused(DelayMismatch)
        else if task.startTime <= now || task.expirationTime <= now || task.sortIndex != task.startTime then
          Refused(NotDelayedPending)
        else if ExpiredError(c, expired, task.expirationTime).Some? then
          Refused(ExpiredError(c, expired, task.expirationTime).value)
        else if m.expectedPending != Some(PendingCount(c.o, m.actQueue)) then Refused(PendingCountMismatch)
        else
          var index := FindIndex(c.w.sh.taskRecords, m.callbackHandle).value;
          FindIndexBound(c.w.sh.taskRecords, m.callbackHandle);
          Accepted(Source(
            Delayed(m.callbackHandle, task.priority, scheduledTime, delayMs, task.startTime, task.expirationTime,
                    task.expirationTime - task.startTime, expired),
            index, c.w.sh.taskRecords[index].scheduleOrder,
            Capture(c.o, m.actQueue, m.rootWorkRecords)))
  }

  // The evidence still describes the objects: same arrays, same entries in the
  // same order, same callbacks and signatures.
  predicate EvidenceHolds(o: Objects, e: Evidence) {
    && e.actQueue in o.queues && o.queues[e.actQueue].records == e.actArray
    && e.actArray in o.arrays && o.arrays[e.actArray].entries == e.actRecords
    && (forall i :: 0 <= i < |e.actRecords| && i < |e.actCallbacks| && i < |e.actSignatures| ==>
          TaskCallback(o, e.actRecords[i]) == e.actCallbacks[i]
          && TaskSignature(o, e.actRecords[i]) == e.actSignatures[i])
    && e.rootArray in o.arrays && o.arrays[e.rootArray].entries == e.rootRecords
    && (forall i :: 0 <= i < |e.rootRecords| && i < |e.rootSignatures| ==>
          RecordSignature(o, e.rootRecords[i]) == e.rootSignatures[i])
  }

  // getRejectedDelayedActRootWorkMetadataProducerSourceReason: the metadata still
  // refers to the captured queue and array, and the evidence holds.
  predicate SourceHolds(o: Objects, source: Source) {
    && source.delayed.expired in o.metadata
    && o.metadata[source.delayed.expired].actQueue == source.evidence.actQueue
    && o.metadata[source.delayed.expired].rootWorkRecords == source.evidence.rootArray
    && EvidenceHolds(o, source.evidence)
  }

  function TaskOrder(w: World, index: nat): int {
    if index < |w.sh.taskRecords| then w.sh.taskRecords[index].scheduleOrder else 0
  }

  // validateDelayedActRootWorkMetadata
  function DelayedError(c: Scene, source: Source, now: Time): Option<Rejection> {
    var d := source.delayed;
    if HandleError(c.w, d.callbackHandle).Some? then HandleError(c.w, d.callbackHandle)
    else
      var task := c.w.s.q.tasks[d.callbackHandle];
      var index := FindIndex(c.w.sh.taskRecords, d.callbackHandle).value;
      if task.callback.id !in c.o.acceptable then Some(HandleRejected)
      else if PriorityError(c.w, d.callbackHandle, Some(d.priority)).Some? then
        PriorityError(c.w, d.callbackHandle, Some(d.priority))
      else if d.scheduledTime < 0.0 then Some(ScheduledTimeInvalid)
      else if d.delay <= 0.0 then Some(DelayInvalid)
      else if task.startTime - d.scheduledTime != d.delay then Some(DelayMismatch)
      else if d.startTime != task.startTime then Some(StartMismatch)
      else if d.expirationTime != task.expirationTime then Some(ExpirationMismatch)
      else if d.timeout != task.expirationTime - task.startTime then Some(TimeoutMismatch)
      else if task.startTime <= now || task.expirationTime <= now || task.sortIndex != task.startTime then
        Some(NotDelayedPending)
      else
        var candidates := DelayedOrExpired(c.w, now, task.expirationTime);
        if candidates == {} then Some(NoneDelayed)
        else if index !in candidates then Some(NotDelayedOrExpired)
        else if |candidates| > 1 then Some(AmbiguousDelayed)
        else if d.expired !in c.o.metadata then Some(ExpiredMetadataMissing)
        else if c.o.metadata[d.expired].callbackHandle != d.callbackHandle then Some(CallbackHandleMismatch)
        else if ExpiredError(c, d.expired, task.expirationTime).Some? then
          ExpiredError(c, d.expired, task.expirationTime)
        else if index != source.recordIndex || TaskOrder(c.w, index) != source.scheduleOrder then Some(SourceMismatch)
        else if !SourceHolds(c.o, source) then Some(EvidenceMismatch)
        else None
  }

  // ---------- the drain, by reference ----------

  // Arbitrary code: what it leaves behind, and whether it threw.
  datatype Effect = Done(after: Scene) | Threw(after: Scene)

  type Code = Scene -> Effect

  // The scene with the clock at the task's expiration.
  function Advanced(c: Scene, source: Source): Scene {
    c.(w := c.w.(s := AdvanceTime(c.w.s, source.delayed.expirationTime - c.w.s.now)))
  }

  // The scene in which the task calls the guard installed in place of its callback.
  function Guarded(c: Scene, task: int, guard: nat): Scene {
    if task !in c.w.s.q.tasks then c
    else
      var q := c.w.s.q;
      c.(w := c.w.(s := c.w.s.(q := q.(tasks := q.tasks[task := q.tasks[task].(callback := Function(guard))]))))
  }

  function WithEntries(c: Scene, list: ObjectId, entries: seq<ObjectId>): Scene
    requires list in c.o.arrays
  {
    c.(o := c.o.(arrays := c.o.arrays[list := c.o.arrays[list].(entries := entries)]))
  }

  function Emptied(c: Scene, list: ObjectId): Scene {
    if list in c.o.arrays then WithEntries(c, list, []) else c
  }

  datatype Report = Report(pendingBefore: nat, consumed: seq<ObjectId>, signatures: seq<Signature>, remaining: nat)

  datatype Outcome = Failed(reason: Rejection) | Drained(report: Report)

  function Signatures(o: Objects, entries: seq<ObjectId>): seq<Signature> {
    seq(|entries|, i requires 0 <= i < |entries| => RecordSignature(o, entries[i]))
  }

  lemma {:induction false} FirstErrorIsNoShift(o: Objects, entries: seq<ObjectId>)
    ensures FirstRecordError(o, entries) != Some(ShiftThrew)
  {
    if entries != [] { FirstErrorIsNoShift(o, entries[1..]); }
  }

  lemma OnlyRecordsMatter(before: Objects, after: Objects, id: ObjectId)
    requires after.records == before.records
    ensures RecordError(after, id) == RecordError(before, id) && RecordSignature(after, id) == RecordSignature(before, id)
  {
  }

  // What happens once the scheduled callback is done.
  function Finish(c: Scene, source: Source, actDrain: Code): Outcome {
    var list := source.evidence.rootArray;
    if !SourceHolds(c.o, source) then Failed(EvidenceMismatch)
    else
      var entries := c.o.arrays[list].entries;
      if ConsumptionError(c.o, list).Some? then Failed(ConsumptionError(c.o, list).value)
      else if actDrain(Emptied(c, list)).Threw? then Failed(ActDrainThrew)
      else Drained(Report(|entries|, entries, Signatures(c.o, entries), 0))
  }

  function DrainOf(c: Scene, source: Source, guard: nat, callback: Code, actDrain: Code): Outcome {
    if DelayedError(c, source, c.w.s.now).Some? then Failed(DelayedError(c, source, c.w.s.now).value)
    else
      var ready, handle := Advanced(c, source), source.delayed.callbackHandle;
      var expired := ExpiredError(ready, source.delayed.expired, ready.w.s.now);
      if !PromotedTo(c.w.s, ready.w.s, handle) then Failed(PromotionFailed)
      else if expired.Some? then Failed(Promoted(expired.value))
      else CallAndFinish(Guarded(ready, handle, guard), source, callback, actDrain)
  }

  function CallAndFinish(c: Scene, source: Source, callback: Code, actDrain: Code): Outcome {
    match callback(c)
    case Threw(_) => Failed(CallbackThrew)
    case Done(after) => Finish(after, source, actDrain)
  }

  // ---------- the drain ----------

  class Drainer {
    var scene: Scene

    constructor (scene: Scene)
      ensures this.scene == scene
    {
      this.scene := scene;
    }

    // The loops of getRejectedDelayedActRootWorkNestedSourceReason.
    method CheckNestedEvidence(e: Evidence) returns (holds: bool)
      requires |e.actCallbacks| == |e.actSignatures| == |e.actRecords| && |e.rootSignatures| == |e.rootRecords|
      ensures holds <==> EvidenceHolds(scene.o, e)
    {
      var o := scene.o;
      if e.actQueue !in o.queues || o.queues[e.actQueue].records != e.actArray || e.actArray !in o.arrays { return false; }
      var acts := o.arrays[e.actArray].entries;
      if |acts| != |e.actRecords| { return false; }
      for index := 0 to |acts|
        invariant acts[..index] == e.actRecords[..index]
        invariant forall i :: 0 <= i < index ==>
                    TaskCallback(o, acts[i]) == e.actCallbacks[i] && TaskSignature(o, acts[i]) == e.actSignatures[i]
      {
        if acts[index] != e.actRecords[index] { return false; }
        if TaskCallback(o, acts[index]) != e.actCallbacks[index] { return false; }
        if TaskSignature(o, acts[index]) != e.actSignatures[index] { return false; }
      }
      assert acts == e.actRecords;
      if e.rootArray !in o.arrays { return false; }
      var roots := o.arrays[e.rootArray].entries;
      if |roots| != |e.rootRecords| { return false; }
      for index := 0 to |roots|
        invariant roots[..index] == e.rootRecords[..index]
        invariant forall i :: 0 <= i < index ==> RecordSignature(o, roots[i]) == e.rootSignatures[i]
      {
        if roots[index] != e.rootRecords[index] { return false; }
        if RecordSignature(o, roots[index]) != e.rootSignatures[index] { return false; }
      }
      assert roots == e.rootRecords;
      holds := true;
    }

    // consumeAcceptedExpiredActRootWorkRecords.  A record that is rejected here
    // has been taken off the array already, with all those before it.
    method ConsumeRecords(list: ObjectId)
      returns (consumed: seq<ObjectId>, signatures: seq<Signature>, error: Option<Rejection>)
      requires list in scene.o.arrays
      modifies this
      ensures error == ConsumptionError(old(scene.o), list)
      ensures consumed <= old(scene.o.arrays[list].entries)
      ensures error.None? ==> consumed == old(scene.o.arrays[list].entries)
      ensures signatures == Signatures(old(scene.o), consumed)
      ensures error.None? ==> scene == Emptied(old(scene), list)
      ensures error == Some(ShiftThrew) ==>
                consumed == [] && scene == WithEntries(old(scene), list, AfterFailedShift(old(scene.o.arrays[list])))
      ensures error.Some? && error.value != ShiftThrew ==>
                && |consumed| < |old(scene.o.arrays[list].entries)|
                && RecordError(old(scene.o), old(scene.o.arrays[list].entries)[|consumed|]) == error
                && scene == WithEntries(old(scene), list, old(scene.o.arrays[list].entries)[|consumed| + 1..])
    {
      hide RecordError, RecordSignature;
      consumed, signatures, error := [], [], None;
      ghost var all := scene.o.arrays[list].entries;
      FirstErrorIsNoShift(scene.o, all);
      while scene.o.arrays[list].entries != []
        invariant list in scene.o.arrays && error == None
        invariant scene.o.arrays[list].integrity == old(scene.o.arrays[list].integrity)
        invariant consumed != [] ==> scene.o.arrays[list].integrity.Open?
        invariant |consumed| <= |all| && consumed == all[..|consumed|]
        invariant scene == WithEntries(old(scene), list, all[|consumed|..])
        invariant FirstRecordError(old(scene.o), all) == FirstRecordError(old(scene.o), all[|consumed|..])
        invariant signatures == Signatures(old(scene.o), consumed)
        decreases |scene.o.arrays[list].entries|
      {
        var entries := scene.o.arrays[list].entries;
        if !scene.o.arrays[list].integrity.Open? {
          error := Some(ShiftThrew);
          scene := WithEntries(scene, list, AfterFailedShift(scene.o.arrays[list]));
          return;
        }
        var record := entries[0];
        scene := WithEntries(scene, list, entries[1..]);
        assert entries[1..] == all[|consumed| + 1..];
        OnlyRecordsMatter(old(scene.o), scene.o, record);
        error := RecordError(scene.o, record);
        if error.Some? { return; }
        signatures := signatures + [RecordSignature(scene.o, record)];
        consumed := consumed + [record];
      }
    }

    method Drain(source: Source, guard: nat, callback: Code, actDrain: Code) returns (r: Outcome)
      requires ValidEvidence(source.evidence)
      modifies this
      ensures r == DrainOf(old(scene), source, guard, callback, actDrain)
    {
      var error := DelayedError(scene, source, scene.w.s.now);
      if error.Some? { return Failed(error.value); }
      var before, d := scene.w.s, source.delayed;
      scene := Advanced(scene, source);
      if !PromotedTo(before, scene.w.s, d.callbackHandle) { return Failed(PromotionFailed); }
      error := ExpiredError(scene, d.expired, scene.w.s.now);
      if error.Some? { return Failed(Promoted(error.value)); }
      var list := scene.o.metadata[d.expired].rootWorkRecords;
      scene := Guarded(scene, d.callbackHandle, guard);
      r := CallAndConsume(source, list, callback, actDrain);
    }

    // The rest of the drain, from the scheduled callback on.
    method CallAndConsume(source: Source, list: ObjectId, callback: Code, actDrain: Code) returns (r: Outcome)
      requires ValidEvidence(source.evidence) && list == source.evidence.rootArray
      modifies this
      ensures r == CallAndFinish(old(scene), source, callback, actDrain)
    {
      hide RecordError, RecordSignature, FirstRecordError;
      var d := source.delayed;
      match callback(scene) {
        case Threw(after) =>
          scene := after;
          return Failed(CallbackThrew);
        case Done(after) =>
          scene := after;
      }
      var evidence := source.evidence;
      if d.expired !in scene.o.metadata
         || scene.o.metadata[d.expired].actQueue != evidence.actQueue
         || scene.o.metadata[d.expired].rootWorkRecords != evidence.rootArray {
        return Failed(EvidenceMismatch);
      }
      var holds := CheckNestedEvidence(evidence);
      if !holds { return Failed(EvidenceMismatch); }
      ghost var checked := scene;
      var pendingBefore := |scene.o.arrays[list].entries|;
      var consumed, signatures;
      var error;
      consumed, signatures, error := ConsumeRecords(list);
      if error.Some? { return Failed(error.value); }
      assert consumed == checked.o.arrays[list].entries;
      var report := Report(pendingBefore, consumed, signatures, |scene.o.arrays[list].entries|);
      match actDrain(scene) {
        case Threw(after) =>
          scene := after;
          return Failed(ActDrainThrew);
        case Done(after) =>
          scene := after;
      }
      r := Drained(report);
    }
  }

  // The captured lists have one entry per captured record.
  predicate ValidEvidence(e: Evidence) {
    |e.actCallbacks| == |e.actSignatures| == |e.actRecords| && |e.rootSignatures| == |e.rootRecords|
  }
}
