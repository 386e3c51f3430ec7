// What the delayed drain promises, whatever the scheduled callback does.
module DrainLaws {
  import opened Wrappers
  import opened TaskHeap
  import opened MockScheduler
  import opened SchedulerLaws
  import opened Shadow
  import opened ShadowLaws
  import opened DelayedDrain

  // ---------- acceptance and time ----------

  lemma Singleton(s: set<nat>, x: nat)
    requires x in s && |s| <= 1
    ensures s == {x}
  {
    var rest := s - {x};
    assert |s| == |rest| + 1;
  }

  // Between now and the expiration of an accepted task nothing expires, and at
  // its expiration exactly that task does.
  lemma AcceptedTiming(c: Scene, source: Source)
    requires DelayedError(c, source, c.w.s.now).None?
    ensures var w, handle := c.w, source.delayed.callbackHandle;
            && FindIndex(w.sh.taskRecords, handle).Some?
            && DelayedPending(w.s, handle, w.s.now)
            && (forall t :: w.s.now <= t < w.s.q.tasks[handle].expirationTime ==> ExpiredPending(w, t) == {})
            && ExpiredPending(w, w.s.q.tasks[handle].expirationTime) == {FindIndex(w.sh.taskRecords, handle).value}
  {
    var w, handle := c.w, source.delayed.callbackHandle;
    FindIndexBound(w.sh.taskRecords, handle);
    var index := FindIndex(w.sh.taskRecords, handle).value;
    var expiration := w.s.q.tasks[handle].expirationTime;
    var candidates := DelayedOrExpired(w, w.s.now, expiration);
    Singleton(candidates, index);
    forall t | w.s.now <= t < expiration ensures ExpiredPending(w, t) == {} {
      assert ExpiredPending(w, t) <= candidates;
    }
    forall i | i in ExpiredPending(w, expiration) ensures i == index {
      assert i in candidates;
    }
    assert index in ExpiredPending(w, expiration);
  }

  // Metadata is accepted in the scene it was produced in exactly when no other
  // pending task is delayed, or expired by the task's expiration.
  lemma ProducedIsAccepted(p: Scene, expired: ObjectId, scheduled: Option<Time>, delay: Option<Time>)
    requires Produce(p, expired, scheduled, delay).Accepted?
    ensures var source := Produce(p, expired, scheduled, delay).source;
            DelayedError(p, source, p.w.s.now).None?
            <==> |DelayedOrExpired(p.w, p.w.s.now, source.delayed.expirationTime)| == 1
  {
    var source := Produce(p, expired, scheduled, delay).source;
    var m := p.o.metadata[expired];
    FindIndexBound(p.w.sh.taskRecords, m.callbackHandle);
    var index := FindIndex(p.w.sh.taskRecords, m.callbackHandle).value;
    var candidates := DelayedOrExpired(p.w, p.w.s.now, source.delayed.expirationTime);
    assert index in candidates;
    CaptureHolds(p.o, m.actQueue, m.rootWorkRecords);
    assert SourceHolds(p.o, source);
    if |candidates| == 1 { Singleton(candidates, index); } else { NotASingleton(candidates, index); }
  }

  lemma NotASingleton(s: set<nat>, x: nat)
    requires x in s && |s| != 1
    ensures |s| > 1
  {
    assert |s - {x}| == |s| - 1;
  }

  lemma CaptureHolds(o: Objects, queue: ObjectId, root: ObjectId)
    requires ActQueueError(o, queue).None? && root in o.arrays
    ensures EvidenceHolds(o, Capture(o, queue, root))
  {
  }

  // The same records and tasks, up to the tasks' sort indexes.
  ghost predicate SameTasks(w: World, v: World) {
    && v.sh == w.sh && v.s.q.tasks.Keys == w.s.q.tasks.Keys
    && forall id :: id in w.s.q.tasks ==>
         v.s.q.tasks[id] == w.s.q.tasks[id].(sortIndex := v.s.q.tasks[id].sortIndex)
  }

  lemma SameTasksSameHandle(w: World, v: World, handle: int, claimed: Option<int>, time: Time)
    requires SameTasks(w, v)
    ensures HandleError(v, handle) == HandleError(w, handle)
    ensures handle in w.s.q.tasks ==> PriorityError(v, handle, claimed) == PriorityError(w, handle, claimed)
    ensures ExpiredPending(v, time) == ExpiredPending(w, time)
  {
    FindIndexBound(w.sh.taskRecords, handle);
    hide FindIndex;
  }

  // Advancing the clock changes nothing the expired-work validation looks at.
  lemma AdvanceKeepsExpiredError(c: Scene, source: Source, id: ObjectId, time: Time)
    requires StateOk(c.w.s)
    ensures ExpiredError(Advanced(c, source), id, time) == ExpiredError(c, id, time)
  {
    var after := Advanced(c, source);
    AdvanceKeepsTasks(c.w.s, source.delayed.expirationTime - c.w.s.now);
    if id in c.o.metadata {
      var m := c.o.metadata[id];
      SameTasksSameHandle(c.w, after.w, m.callbackHandle, m.priority, time);
      hide AdvanceTime, ActQueueError, RecordsError, ExpiredPending, PriorityError, StateOk, HandleError;
    }
  }

  // So once the task is promoted, the second validation cannot reject.
  lemma PromotedIsAccepted(c: Scene, source: Source)
    requires StateOk(c.w.s) && DelayedError(c, source, c.w.s.now).None?
    requires PromotedTo(c.w.s, Advanced(c, source).w.s, source.delayed.callbackHandle)
    ensures ExpiredError(Advanced(c, source), source.delayed.expired, Advanced(c, source).w.s.now).None?
  {
    AdvanceKeepsExpiredError(c, source, source.delayed.expired, source.delayed.expirationTime);
  }

  // ---------- when the drain returns ----------

  // The scene the scheduled callback is called in.
  function CallbackScene(c: Scene, source: Source, guard: nat): Scene {
    Guarded(Advanced(c, source), source.delayed.callbackHandle, guard)
  }

  // Up to the callback, the drain fails exactly when the metadata is rejected or
  // the scheduler cannot promote the task.
  lemma DrainReachesCallback(c: Scene, source: Source, guard: nat, callback: Code, actDrain: Code)
    requires StateOk(c.w.s)
    ensures var accepted := DelayedError(c, source, c.w.s.now).None?;
            var handle := source.delayed.callbackHandle;
            && (accepted ==> handle in c.w.s.q.tasks)
            && (accepted && !CanPromote(c.w.s, handle) ==>
                  DrainOf(c, source, guard, callback, actDrain) == Failed(PromotionFailed))
            && (accepted && CanPromote(c.w.s, handle) ==>
                  DrainOf(c, source, guard, callback, actDrain)
                  == CallAndFinish(CallbackScene(c, source, guard), source, callback, actDrain))
  {
    hide DrainOf, DelayedError, CallAndFinish, CallbackScene, StateOk, PromotedTo, CanPromote, AdvanceTime;
    if DelayedError(c, source, c.w.s.now).None? {
      AcceptedIsPending(c, source);
      PromotionExactly(c.w.s, source.delayed.callbackHandle);
      AfterPromotion(c, source, guard, callback, actDrain);
    }
  }

  lemma AcceptedIsPending(c: Scene, source: Source)
    requires DelayedError(c, source, c.w.s.now).None?
    ensures DelayedPending(c.w.s, source.delayed.callbackHandle, c.w.s.now)
    ensures source.delayed.expirationTime == c.w.s.q.tasks[source.delayed.callbackHandle].expirationTime
  {
    AcceptedTiming(c, source);
  }

  lemma AfterPromotion(c: Scene, source: Source, guard: nat, callback: Code, actDrain: Code)
    requires StateOk(c.w.s) && DelayedError(c, source, c.w.s.now).None?
    ensures DrainOf(c, source, guard, callback, actDrain)
            == if PromotedTo(c.w.s, Advanced(c, source).w.s, source.delayed.callbackHandle)
               then CallAndFinish(CallbackScene(c, source, guard), source, callback, actDrain)
               else Failed(PromotionFailed)
  {
    if PromotedTo(c.w.s, Advanced(c, source).w.s, source.delayed.callbackHandle) { PromotedIsAccepted(c, source); }
    hide AdvanceTime, ExpiredError, DelayedError, StateOk, CallAndFinish, Guarded, PromotedTo;
  }

  // The drain returns exactly when the metadata is accepted, the scheduler can
  // promote the task, neither callback throws, the evidence still holds after
  // the scheduled callback, entries can still be taken off the records array, and
  // no record fails its last check.
  lemma DrainReturnsExactly(c: Scene, source: Source, guard: nat, callback: Code, actDrain: Code)
    requires StateOk(c.w.s)
    ensures DrainOf(c, source, guard, callback, actDrain).Drained? <==>
            && DelayedError(c, source, c.w.s.now).None?
            && source.delayed.callbackHandle in c.w.s.q.tasks
            && CanPromote(c.w.s, source.delayed.callbackHandle)
            && callback(CallbackScene(c, source, guard)).Done?
            && var after := callback(CallbackScene(c, source, guard)).after;
               && SourceHolds(after.o, source)
               && (source.evidence.rootRecords == [] || after.o.arrays[source.evidence.rootArray].integrity.Open?)
               && FirstRecordError(after.o, source.evidence.rootRecords).None?
               && actDrain(Emptied(after, source.evidence.rootArray)).Done?
  {
    DrainReachesCallback(c, source, guard, callback, actDrain);
    hide DelayedError, CallbackScene, StateOk, CanPromote;
  }

  // If it returns, the records it consumed are the ones captured when the metadata
  // was produced in scene p: the same objects in the same order with the same
  // signed fields, all of them, and none remain.
  lemma DrainConsumesCaptured(p: Scene, expired: ObjectId, scheduled: Option<Time>, delay: Option<Time>,
                              c: Scene, guard: nat, callback: Code, actDrain: Code)
    requires Produce(p, expired, scheduled, delay).Accepted?
    ensures var source := Produce(p, expired, scheduled, delay).source;
            var r := DrainOf(c, source, guard, callback, actDrain);
            var captured := p.o.arrays[p.o.metadata[expired].rootWorkRecords].entries;
            r.Drained? ==>
              && r.report.consumed == captured
              && r.report.signatures == Signatures(p.o, captured)
              && r.report.pendingBefore == |captured| == |r.report.consumed|
              && captured != []
              && r.report.remaining == 0
  {
    var source := Produce(p, expired, scheduled, delay).source;
    ProducedEvidence(p, expired, scheduled, delay);
    DrainedReports(c, source, guard, callback, actDrain);
  }

  lemma ProducedEvidence(p: Scene, expired: ObjectId, scheduled: Option<Time>, delay: Option<Time>)
    requires Produce(p, expired, scheduled, delay).Accepted?
    ensures var e := Produce(p, expired, scheduled, delay).source.evidence;
            && ValidEvidence(e) && e.rootRecords == p.o.arrays[p.o.metadata[expired].rootWorkRecords].entries
            && e.rootRecords != [] && e.rootSignatures == Signatures(p.o, e.rootRecords)
  {
    hide HandleError, PriorityError, FirstRecordError, RecordSignature, FindIndex, ExpiredPending, ActQueueError;
  }

  // A drain that returns reports what the evidence holds.
  lemma DrainedReports(c: Scene, source: Source, guard: nat, callback: Code, actDrain: Code)
    requires ValidEvidence(source.evidence)
    ensures var r, e := DrainOf(c, source, guard, callback, actDrain), source.evidence;
            r.Drained? ==> r.report == Report(|e.rootRecords|, e.rootRecords, e.rootSignatures, 0)
  {
    hide DelayedError, ExpiredError, AdvanceTime, PromotedTo, RecordSignature, FirstRecordError, Guarded;
    var r, e := DrainOf(c, source, guard, callback, actDrain), source.evidence;
    if r.Drained? {
      var after := callback(CallbackScene(c, source, guard)).after;
      assert EvidenceHolds(after.o, e);
      assert r.report.signatures == Signatures(after.o, e.rootRecords) == e.rootSignatures;
    }
  }

  // ---------- the last check can still fail ----------

  // The claims that are checked but not signed.
  predicate UnsignedClaim(o: Objects, id: ObjectId) {
    id in o.records && (o.records[id].packageClaim || o.records[id].flushClaim)
  }

  // A signed field that only looks right in JSON.
  predicate Disguised(o: Objects, id: ObjectId) {
    && id in o.records
    && var r := o.records[id];
       || (RecordKind(r).Some? && RecordKind(r).value.DisguisedKind?)
       || r.accepted.DisguisedFlag?
       || exists flag :: flag in r.publicClaims + r.executionClaims + r.policies && flag.DisguisedFlag?
  }

  // Accepted means: a signature that is fine and tells the truth, and no unsigned claim.
  predicate SignatureAccepted(s: Signature) {
    && s.Signed? && s.kind.Some? && s.kind.value in ACCEPTED_KINDS && s.accepted == True
    && AllFlags(s.publicClaims, False) && AllFlags(s.executionClaims, False) && AllFlags(s.policies, True)
  }

  lemma RecordAccepted(o: Objects, id: ObjectId)
    ensures RecordError(o, id).None? <==>
            SignatureAccepted(RecordSignature(o, id)) && !UnsignedClaim(o, id) && !Disguised(o, id)
  {
    if id in o.records {
      var r := o.records[id];
      FlagsInJson(r.publicClaims, False);
      FlagsInJson(r.executionClaims, False);
      FlagsInJson(r.policies, True);
      hide AllFlags, JsonAll;
      assert forall flag :: flag in r.publicClaims + r.executionClaims + r.policies <==>
               flag in r.publicClaims || flag in r.executionClaims || flag in r.policies;
    }
  }

  lemma FlagsInJson(flags: seq<Flag>, flag: Flag)
    requires flag in {False, True}
    ensures AllFlags(flags, flag) <==> AllFlags(JsonAll(flags), flag) && forall f :: f in flags ==> !f.DisguisedFlag?
  {
    if AllFlags(JsonAll(flags), flag) && forall f :: f in flags ==> !f.DisguisedFlag? {
      forall i | 0 <= i < |flags| ensures flags[i] == flag { assert flags[i] in flags && JsonAll(flags)[i] == flag; }
    }
    if AllFlags(flags, flag) {
      forall i | 0 <= i < |flags| ensures JsonAll(flags)[i] == flag {}
    }
  }

  lemma {:induction false} FirstErrorAt(o: Objects, entries: seq<ObjectId>)
    ensures FirstRecordError(o, entries).None? <==> forall i :: 0 <= i < |entries| ==> RecordError(o, entries[i]).None?
  {
    if entries != [] {
      FirstErrorAt(o, entries[1..]);
      assert forall i :: 1 <= i < |entries| ==> entries[i] == entries[1..][i - 1];
    }
  }

  // Produced evidence only holds accepted signatures.
  lemma ProducedSignatures(p: Scene, expired: ObjectId, scheduled: Option<Time>, delay: Option<Time>)
    requires Produce(p, expired, scheduled, delay).Accepted?
    ensures var e := Produce(p, expired, scheduled, delay).source.evidence;
            && ValidEvidence(e)
            && forall i :: 0 <= i < |e.rootSignatures| ==> SignatureAccepted(e.rootSignatures[i])
  {
    var e := Produce(p, expired, scheduled, delay).source.evidence;
    FirstErrorAt(p.o, e.rootRecords);
    forall i | 0 <= i < |e.rootSignatures| ensures SignatureAccepted(e.rootSignatures[i]) {
      RecordAccepted(p.o, e.rootRecords[i]);
    }
  }

  // When the evidence holds after the callback, consumption fails exactly when the
  // records array was sealed or frozen, or the callback left one of the captured
  // records with an unsigned claim or a disguised field.
  lemma ConsumptionFailsExactly(p: Scene, expired: ObjectId, scheduled: Option<Time>, delay: Option<Time>, o: Objects)
    requires Produce(p, expired, scheduled, delay).Accepted?
    requires SourceHolds(o, Produce(p, expired, scheduled, delay).source)
    ensures var e := Produce(p, expired, scheduled, delay).source.evidence;
            ConsumptionError(o, e.rootArray).Some? <==>
            || !o.arrays[e.rootArray].integrity.Open?
            || exists i :: 0 <= i < |e.rootRecords| && (UnsignedClaim(o, e.rootRecords[i]) || Disguised(o, e.rootRecords[i]))
  {
    var e := Produce(p, expired, scheduled, delay).source.evidence;
    ProducedEvidence(p, expired, scheduled, delay);
    ProducedSignatures(p, expired, scheduled, delay);
    FirstErrorAt(o, e.rootRecords);
    hide Produce, ExpiredError, RecordError, RecordSignature, UnsignedClaim, Disguised;
    forall i | 0 <= i < |e.rootRecords|
      ensures RecordError(o, e.rootRecords[i]).None? <==>
              !UnsignedClaim(o, e.rootRecords[i]) && !Disguised(o, e.rootRecords[i])
    {
      RecordAccepted(o, e.rootRecords[i]);
      assert RecordSignature(o, e.rootRecords[i]) == e.rootSignatures[i];
    }
  }

  // ---------- promotion can fail ----------

  // One queue with one task, one array with two accepted records.
  const RECORD := RootRecord(Some(Kind("RootTaskScheduleRecord")), None, None, True, [], [False], [False], [True], false, false)

  function SampleObjects(handle: int): Objects {
    Objects(map[0 := ExpiredMetadata(false, handle, None, 0, Some(1), 2)],
            map[0 := ActQueue(1, false)],
            map[1 := JsArray([0], Open), 2 := JsArray([0, 1], Open)],
            map[0 := RECORD, 1 := RECORD], map[0 := ActTask(None, 0, false)], {7}, {7})
  }

  // Scheduling an immediate task with a delay: it expires before it starts.
  const IMMEDIATE_RUN: seq<Event> := [ScheduleCall(IMMEDIATE, Function(7), Some(10.0))]

  // Scheduling a delayed task while a long task is waiting: no timeout is armed.
  const UNARMED_RUN: seq<Event> := [ScheduleCall(IDLE, Function(8), None), ScheduleCall(NORMAL, Function(7), Some(10.0))]

  lemma ImmediateState()
    ensures Run(START, IMMEDIATE_RUN)
            == World(State(0.0, 2, Queues(map[1 := Task(1, Function(7), IMMEDIATE, 10.0, 9.0, 10.0)], [], [Entry(10.0, 1)]),
                           Some(10.0), false, false, true, false, false, false, []),
                     INITIAL_SHADOW.(nextScheduleOrder := 2, taskRecords := [Record(1, 1, false)]))
  {
  }

  lemma UnarmedState()
    ensures Run(START, UNARMED_RUN)
            == World(State(0.0, 3,
                           Queues(map[1 := Task(1, Function(8), IDLE, 0.0, 1073741823.0, 1073741823.0),
                                      2 := Task(2, Function(7), NORMAL, 10.0, 5010.0, 10.0)],
                                  [Entry(1073741823.0, 1)], [Entry(10.0, 2)]),
                           None, true, true, false, false, false, false, []),
                     INITIAL_SHADOW.(nextScheduleOrder := 3, taskRecords := [Record(1, 1, false), Record(2, 2, false)]))
  {
    var w1 := Step(START, UNARMED_RUN[0]);
    assert UNARMED_RUN[1..][1..] == [];
    assert Run(w1, UNARMED_RUN[1..]) == Step(w1, UNARMED_RUN[1]);
  }

  lemma SampleObjectsValid(handle: int)
    ensures var o := SampleObjects(handle);
            && ActQueueError(o, 0).None? && PendingCount(o, 0) == 1 && RecordsError(o, 2).None?
            && EvidenceHolds(o, Capture(o, 0, 2))
            && Capture(o, 0, 2).actQueue == 0 && Capture(o, 0, 2).rootArray == 2
  {
    var o := SampleObjects(handle);
    assert RecordError(o, 0).None? && RecordError(o, 1).None?;
    FirstErrorAt(o, [0, 1]);
  }

  // A delayed task that is the only candidate is accepted by both checks.
  lemma OnlyCandidateIsAccepted(w: World, handle: int, index: nat)
    requires FindIndex(w.sh.taskRecords, handle) == Some(index) && index < |w.sh.taskRecords|
    requires !w.sh.taskRecords[index].cancelled && handle in w.s.q.tasks
    requires var task := w.s.q.tasks[handle];
             && task.callback == Function(7) && task.priority in {IMMEDIATE, USER_BLOCKING, NORMAL, LOW, IDLE}
             && DelayedPending(w.s, handle, w.s.now) && w.s.now >= 0.0
             && ExpiredPending(w, task.expirationTime) == {index}
             && DelayedOrExpired(w, w.s.now, task.expirationTime) == {index}
    ensures var c := Scene(w, SampleObjects(handle));
            && Produce(c, 0, None, None).Accepted?
            && Produce(c, 0, None, None).source.delayed.callbackHandle == handle
            && DelayedError(c, Produce(c, 0, None, None).source, w.s.now).None?
  {
    var c := Scene(w, SampleObjects(handle));
    SampleObjectsValid(handle);
    hide ActQueueError, RecordsError, EvidenceHolds, Capture, ExpiredPending, DelayedOrExpired, FindIndex;
    assert ExpiredError(c, 0, w.s.q.tasks[handle].expirationTime).None?;
    assert Produce(c, 0, None, None).Accepted?;
  }

  // Accepted but not promoted: the drain fails before the callback runs.
  lemma NotPromotedFails(events: seq<Event>, handle: int, guard: nat, callback: Code, actDrain: Code)
    requires var c := Scene(Run(START, events), SampleObjects(handle));
             && Produce(c, 0, None, None).Accepted?
             && DelayedError(c, Produce(c, 0, None, None).source, c.w.s.now).None?
             && Produce(c, 0, None, None).source.delayed.callbackHandle == handle
             && handle in c.w.s.q.tasks && !CanPromote(c.w.s, handle)
    ensures var c := Scene(Run(START, events), SampleObjects(handle));
            DrainOf(c, Produce(c, 0, None, None).source, guard, callback, actDrain) == Failed(PromotionFailed)
  {
    var c := Scene(Run(START, events), SampleObjects(handle));
    var source := Produce(c, 0, None, None).source;
    RunRecordsOk(START, events);
    DrainReachesCallback(c, source, guard, callback, actDrain);
    hide Produce, DelayedError, DrainOf, Run;
  }

  // Both are accepted and neither is promoted: the drain rejects after the clock
  // has moved, although the metadata was accepted.
  lemma ImmediateTaskIsNotPromoted(guard: nat, callback: Code, actDrain: Code)
    ensures var c := Scene(Run(START, IMMEDIATE_RUN), SampleObjects(1));
            && Produce(c, 0, None, None).Accepted?
            && var source := Produce(c, 0, None, None).source;
               DelayedError(c, source, c.w.s.now).None?
               && DrainOf(c, source, guard, callback, actDrain) == Failed(PromotionFailed)
  {
    ImmediateState();
    var w := Run(START, IMMEDIATE_RUN);
    assert ExpiredPending(w, 9.0) == {0};
    assert DelayedOrExpired(w, 0.0, 9.0) == {0};
    hide ExpiredPending, DelayedOrExpired, SampleObjects, DrainOf, Produce, DelayedError, Run;
    OnlyCandidateIsAccepted(w, 1, 0);
    NotPromotedFails(IMMEDIATE_RUN, 1, guard, callback, actDrain);
  }

  lemma UnarmedTaskIsNotPromoted(guard: nat, callback: Code, actDrain: Code)
    ensures var c := Scene(Run(START, UNARMED_RUN), SampleObjects(2));
            && Produce(c, 0, None, None).Accepted?
            && var source := Produce(c, 0, None, None).source;
               DelayedError(c, source, c.w.s.now).None?
               && DrainOf(c, source, guard, callback, actDrain) == Failed(PromotionFailed)
  {
    UnarmedState();
    var w := Run(START, UNARMED_RUN);
    assert ExpiredPending(w, 5010.0) == {1};
    assert DelayedOrExpired(w, 0.0, 5010.0) == {1};
    OnlyCandidateIsAccepted(w, 2, 1);
    NotPromotedFails(UNARMED_RUN, 2, guard, callback, actDrain);
  }

  // ---------- consumption can fail ----------

  // A delayed task of normal priority, scheduled while nothing waits.
  const PROMOTABLE_RUN: seq<Event> := [ScheduleCall(NORMAL, Function(7), Some(10.0))]

  lemma PromotableState()
    ensures Run(START, PROMOTABLE_RUN)
            == World(State(0.0, 2, Queues(map[1 := Task(1, Function(7), NORMAL, 10.0, 5010.0, 10.0)], [], [Entry(10.0, 1)]),
                           Some(10.0), false, false, true, false, false, false, []),
                     INITIAL_SHADOW.(nextScheduleOrder := 2, taskRecords := [Record(1, 1, false)]))
  {
  }

  // Its drain reaches the scheduled callback, which still sees the sample objects.
  lemma PromotableReachesCallback(guard: nat, callback: Code, actDrain: Code)
    ensures var c := Scene(Run(START, PROMOTABLE_RUN), SampleObjects(1));
            && Produce(c, 0, None, None).Accepted?
            && var source := Produce(c, 0, None, None).source;
               && source.delayed.expired == 0
               && source.evidence == SampleEvidence()
               && CallbackScene(c, source, guard).o == SampleObjects(1)
               && DrainOf(c, source, guard, callback, actDrain)
                  == CallAndFinish(CallbackScene(c, source, guard), source, callback, actDrain)
  {
    hide *;
    PromotableIsAccepted();
    var c := Scene(Run(START, PROMOTABLE_RUN), SampleObjects(1));
    SampleIsCaptured(c);
    var source := Produce(c, 0, None, None).source;
    DrainReachesCallback(c, source, guard, callback, actDrain);
    GuardKeepsObjects(c, source, guard);
  }

  lemma PromotableIsAccepted()
    ensures var w := Run(START, PROMOTABLE_RUN);
            var c := Scene(w, SampleObjects(1));
            && StateOk(w.s) && 1 in w.s.q.tasks && CanPromote(w.s, 1)
            && Produce(c, 0, None, None).Accepted?
            && Produce(c, 0, None, None).source.delayed.callbackHandle == 1
            && DelayedError(c, Produce(c, 0, None, None).source, w.s.now).None?
  {
    PromotableState();
    StartRecordsOk();
    RunRecordsOk(START, PROMOTABLE_RUN);
    var w := Run(START, PROMOTABLE_RUN);
    assert ExpiredPending(w, 5010.0) == {0};
    assert DelayedOrExpired(w, 0.0, 5010.0) == {0};
    hide ExpiredPending, DelayedOrExpired, SampleObjects, Produce, DelayedError, Run, StateOk;
    OnlyCandidateIsAccepted(w, 1, 0);
  }

  function SampleEvidence(): Evidence {
    var signature := RecordSignature(SampleObjects(1), 0);
    Evidence(0, 1, [0], [None], [Some(0)], 2, [0, 1], [signature, signature])
  }

  lemma SampleIsCaptured(c: Scene)
    requires c.o == SampleObjects(1) && Produce(c, 0, None, None).Accepted?
    ensures Produce(c, 0, None, None).source.delayed.expired == 0
    ensures Produce(c, 0, None, None).source.evidence == SampleEvidence()
  {
    hide HandleError, PriorityError, FindIndex, ExpiredPending, RecordsError;
    var e := Produce(c, 0, None, None).source.evidence;
    assert e.rootSignatures == SampleEvidence().rootSignatures;
  }

  lemma GuardKeepsObjects(c: Scene, source: Source, guard: nat)
    ensures CallbackScene(c, source, guard).o == c.o
  {
  }

  // The sample objects after a callback put `record` in place of the second one.
  function SecondReplaced(record: RootRecord): Objects {
    SampleObjects(1).(records := map[0 := RECORD, 1 := record])
  }

  function Leaving(o: Objects): Code {
    (c: Scene) => Done(c.(o := o))
  }

  // Objects in which the evidence still holds, although consumption fails.
  lemma BrokenConsumption(o: Objects, reason: Rejection, guard: nat, actDrain: Code)
    requires o.metadata == SampleObjects(1).metadata
    requires EvidenceHolds(o, SampleEvidence()) && ConsumptionError(o, 2) == Some(reason)
    ensures var c := Scene(Run(START, PROMOTABLE_RUN), SampleObjects(1));
            && Produce(c, 0, None, None).Accepted?
            && DrainOf(c, Produce(c, 0, None, None).source, guard, Leaving(o), actDrain) == Failed(reason)
  {
    PromotableReachesCallback(guard, Leaving(o), actDrain);
    hide Produce, DrainOf, Run, CallbackScene, EvidenceHolds, ConsumptionError, RecordSignature;
  }

  // Setting a claim that is not signed on the second record: the drain fails after
  // the first record has been consumed.
  lemma UnsignedClaimFails(guard: nat, actDrain: Code)
    ensures var c := Scene(Run(START, PROMOTABLE_RUN), SampleObjects(1));
            && Produce(c, 0, None, None).Accepted?
            && DrainOf(c, Produce(c, 0, None, None).source, guard,
                       Leaving(SecondReplaced(RECORD.(packageClaim := true))), actDrain)
               == Failed(RecordPublicClaim)
  {
    var o := SecondReplaced(RECORD.(packageClaim := true));
    SecondFails(o);
    assert RecordError(o, 1) == Some(RecordPublicClaim);
    BrokenConsumption(o, RecordPublicClaim, guard, actDrain);
  }

  // A Boolean object where the second record had true.
  lemma DisguisedFieldFails(guard: nat, actDrain: Code)
    ensures var c := Scene(Run(START, PROMOTABLE_RUN), SampleObjects(1));
            && Produce(c, 0, None, None).Accepted?
            && DrainOf(c, Produce(c, 0, None, None).source, guard,
                       Leaving(SecondReplaced(RECORD.(accepted := DisguisedFlag(true)))), actDrain)
               == Failed(RecordNotAccepted)
  {
    var o := SecondReplaced(RECORD.(accepted := DisguisedFlag(true)));
    SecondFails(o);
    assert RecordError(o, 1) == Some(RecordNotAccepted);
    BrokenConsumption(o, RecordNotAccepted, guard, actDrain);
  }

  lemma SecondFails(o: Objects)
    requires o == SecondReplaced(RECORD.(packageClaim := true)) || o == SecondReplaced(RECORD.(accepted := DisguisedFlag(true)))
    ensures EvidenceHolds(o, SampleEvidence()) && ConsumptionError(o, 2) == RecordError(o, 1)
  {
    assert RecordError(o, 0).None? && RecordError(o, 1).Some?;
    assert [0, 1][1..] == [1] && [1][1..] == [] && o.arrays[2].entries == [0, 1];
    assert FirstRecordError(o, [1]) == RecordError(o, 1);
    assert FirstRecordError(o, [0, 1]) == FirstRecordError(o, [1]);
    assert RecordSignature(o, 0) == RecordSignature(o, 1) == RecordSignature(SampleObjects(1), 0);
  }

  // Freezing or sealing the array of records: nothing is consumed.
  lemma LockedArrayFails(integrity: Integrity, guard: nat, actDrain: Code)
    requires !integrity.Open?
    ensures var c := Scene(Run(START, PROMOTABLE_RUN), SampleObjects(1));
            var o := c.o.(arrays := c.o.arrays[2 := JsArray([0, 1], integrity)]);
            && Produce(c, 0, None, None).Accepted?
            && DrainOf(c, Produce(c, 0, None, None).source, guard, Leaving(o), actDrain) == Failed(ShiftThrew)
  {
    var o := SampleObjects(1).(arrays := SampleObjects(1).arrays[2 := JsArray([0, 1], integrity)]);
    assert RecordSignature(o, 0) == RecordSignature(o, 1) == RecordSignature(SampleObjects(1), 0);
    BrokenConsumption(o, ShiftThrew, guard, actDrain);
  }
}
