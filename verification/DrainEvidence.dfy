// What the delayed drain's checks mean, in terms of the objects themselves
// (packages/scheduler/unstable_mock.js:2680-2778, 2876-3249, 3850-4021).
module DrainEvidence {
  import opened Wrappers
  import opened MockScheduler
  import opened SchedulerLaws
  import opened Shadow
  import opened ShadowLaws
  import opened DelayedDrain
  import opened DrainLaws

  // ---------- unchanged objects ----------

  // JSON writes both values alike.
  predicate SameInJson(a: Flag, b: Flag) {
    && (a in {True, DisguisedFlag(true)} <==> b in {True, DisguisedFlag(true)})
    && (a in {False, DisguisedFlag(false)} <==> b in {False, DisguisedFlag(false)})
  }

  predicate AllSameInJson(a: seq<Flag>, b: seq<Flag>) {
    |a| == |b| && forall i :: 0 <= i < |a| ==> SameInJson(a[i], b[i])
  }

  // The kind a record goes by: the first of three fields that is given.
  predicate GoesBy(r: RootRecord, text: string) {
    if r.recordKind.Some? then r.recordKind.value.text == text
    else if r.kind.Some? then r.kind.value.text == text
    else r.rootWorkRecordKind.Some? && r.rootWorkRecordKind.value.text == text
  }

  ghost predicate SameRecord(a: RootRecord, b: RootRecord) {
    && (forall text :: GoesBy(a, text) <==> GoesBy(b, text))
    && SameInJson(a.accepted, b.accepted) && a.target == b.target
    && AllSameInJson(a.publicClaims, b.publicClaims)
    && AllSameInJson(a.executionClaims, b.executionClaims)
    && AllSameInJson(a.policies, b.policies)
  }

  // The act queue still has its array, with the same tasks in the same order and the
  // same callbacks and signatures.
  ghost predicate SameActQueue(p: Objects, o: Objects, queue: ObjectId)
    requires queue in p.queues && p.queues[queue].records in p.arrays
  {
    var list := p.queues[queue].records;
    && queue in o.queues && o.queues[queue].records == list
    && list in o.arrays && o.arrays[list].entries == p.arrays[list].entries
    && forall id :: id in p.arrays[list].entries ==>
         && (id in o.actTasks <==> id in p.actTasks)
         && (id in p.actTasks && id in o.actTasks ==>
               o.actTasks[id].callback == p.actTasks[id].callback && o.actTasks[id].signature == p.actTasks[id].signature)
  }

  // The array of root records has the same records in the same order, and they have
  // the same signed fields.
  ghost predicate SameRoots(p: Objects, o: Objects, list: ObjectId)
    requires list in p.arrays
  {
    && list in o.arrays && o.arrays[list].entries == p.arrays[list].entries
    && forall id :: id in p.arrays[list].entries ==>
         && (id in o.records <==> id in p.records)
         && (id in p.records && id in o.records ==> SameRecord(p.records[id], o.records[id]))
  }

  ghost predicate Unchanged(p: Objects, o: Objects, expired: ObjectId)
    requires expired in p.metadata && p.metadata[expired].actQueue in p.queues
    requires p.queues[p.metadata[expired].actQueue].records in p.arrays
    requires p.metadata[expired].rootWorkRecords in p.arrays
  {
    var m := p.metadata[expired];
    && expired in o.metadata
    && o.metadata[expired].actQueue == m.actQueue && o.metadata[expired].rootWorkRecords == m.rootWorkRecords
    && SameActQueue(p, o, m.actQueue)
    && SameRoots(p, o, m.rootWorkRecords)
  }

  // ---------- what the signature covers ----------

  lemma SameJson(a: Flag, b: Flag)
    ensures Json(a) == Json(b) <==> SameInJson(a, b)
  {
  }

  lemma SameJsonAll(a: seq<Flag>, b: seq<Flag>)
    ensures JsonAll(a) == JsonAll(b) <==> AllSameInJson(a, b)
  {
    if JsonAll(a) == JsonAll(b) {
      assert |JsonAll(a)| == |a| && |JsonAll(b)| == |b|;
      forall i | 0 <= i < |a| ensures SameInJson(a[i], b[i]) {
        assert JsonAll(a)[i] == Json(a[i]) && JsonAll(b)[i] == Json(b[i]);
        SameJson(a[i], b[i]);
      }
    }
    if AllSameInJson(a, b) {
      forall i | 0 <= i < |a| ensures Json(a[i]) == Json(b[i]) { SameJson(a[i], b[i]); }
    }
  }

  lemma SameKinds(a: RootRecord, b: RootRecord)
    ensures (forall text :: GoesBy(a, text) <==> GoesBy(b, text)) <==>
            (RecordKind(a).None? <==> RecordKind(b).None?)
            && (RecordKind(a).Some? && RecordKind(b).Some? ==> RecordKind(a).value.text == RecordKind(b).value.text)
  {
    assert forall text :: GoesBy(a, text) <==> RecordKind(a).Some? && RecordKind(a).value.text == text;
    assert forall text :: GoesBy(b, text) <==> RecordKind(b).Some? && RecordKind(b).value.text == text;
    if RecordKind(a).Some? { assert GoesBy(a, RecordKind(a).value.text); }
    if RecordKind(b).Some? { assert GoesBy(b, RecordKind(b).value.text); }
  }

  // Two records have the same signature exactly when their signed fields agree.
  lemma SignatureExactly(p: Objects, o: Objects, id: ObjectId)
    ensures RecordSignature(o, id) == RecordSignature(p, id) <==>
            (id in o.records <==> id in p.records)
            && (id in p.records && id in o.records ==> SameRecord(p.records[id], o.records[id]))
  {
    if id in p.records && id in o.records {
      var a, b := p.records[id], o.records[id];
      SameKinds(a, b);
      SameJson(a.accepted, b.accepted);
      SameJsonAll(a.publicClaims, b.publicClaims);
      SameJsonAll(a.executionClaims, b.executionClaims);
      SameJsonAll(a.policies, b.policies);
      hide Json, JsonAll, AllSameInJson, SameInJson, GoesBy, RecordKind;
    }
  }

  // ---------- the re-check ----------

  lemma CapturedActs(p: Objects, o: Objects, queue: ObjectId, root: ObjectId)
    requires ActQueueError(p, queue).None? && root in p.arrays
    ensures var e := Capture(p, queue, root);
            SameActQueue(p, o, queue) <==>
            && e.actQueue in o.queues && o.queues[e.actQueue].records == e.actArray
            && e.actArray in o.arrays && o.arrays[e.actArray].entries == e.actRecords
            && (forall i :: 0 <= i < |e.actRecords| ==>
                  TaskCallback(o, e.actRecords[i]) == e.actCallbacks[i]
                  && TaskSignature(o, e.actRecords[i]) == e.actSignatures[i])
  {
    var e := Capture(p, queue, root);
    var entries := p.arrays[p.queues[queue].records].entries;
    assert e.actRecords == entries;
    forall i | 0 <= i < |entries|
      ensures TaskCallback(o, entries[i]) == e.actCallbacks[i] && TaskSignature(o, entries[i]) == e.actSignatures[i] <==>
              && (entries[i] in o.actTasks <==> entries[i] in p.actTasks)
              && (entries[i] in p.actTasks && entries[i] in o.actTasks ==>
                    o.actTasks[entries[i]].callback == p.actTasks[entries[i]].callback
                    && o.actTasks[entries[i]].signature == p.actTasks[entries[i]].signature)
    {
      assert e.actCallbacks[i] == TaskCallback(p, entries[i]) && e.actSignatures[i] == TaskSignature(p, entries[i]);
    }
    hide TaskCallback, TaskSignature, Capture, ActQueueError;
    forall id | id in entries ensures exists i :: 0 <= i < |entries| && entries[i] == id {}
  }

  lemma CapturedRoots(p: Objects, o: Objects, queue: ObjectId, root: ObjectId)
    requires ActQueueError(p, queue).None? && root in p.arrays
    ensures var e := Capture(p, queue, root);
            SameRoots(p, o, root) <==>
            && e.rootArray in o.arrays && o.arrays[e.rootArray].entries == e.rootRecords
            && (forall i :: 0 <= i < |e.rootRecords| ==> RecordSignature(o, e.rootRecords[i]) == e.rootSignatures[i])
  {
    var e := Capture(p, queue, root);
    var entries := p.arrays[root].entries;
    assert e.rootRecords == entries;
    forall i | 0 <= i < |entries|
      ensures RecordSignature(o, entries[i]) == e.rootSignatures[i] <==>
              (entries[i] in o.records <==> entries[i] in p.records)
              && (entries[i] in p.records && entries[i] in o.records ==> SameRecord(p.records[entries[i]], o.records[entries[i]]))
    {
      assert e.rootSignatures[i] == RecordSignature(p, entries[i]);
      SignatureExactly(p, o, entries[i]);
    }
    hide RecordSignature, Capture, ActQueueError, SameRecord;
    forall id | id in entries ensures exists i :: 0 <= i < |entries| && entries[i] == id {}
  }

  lemma ProducedFromQueues(p: Scene, expired: ObjectId, scheduled: Option<Time>, delay: Option<Time>)
    requires Produce(p, expired, scheduled, delay).Accepted?
    ensures expired in p.o.metadata
    ensures var m, source := p.o.metadata[expired], Produce(p, expired, scheduled, delay).source;
            && ActQueueError(p.o, m.actQueue).None? && m.rootWorkRecords in p.o.arrays
            && source.delayed.expired == expired
            && source.evidence == Capture(p.o, m.actQueue, m.rootWorkRecords)
  {
    hide HandleError, PriorityError, FindIndex, ExpiredPending, FirstRecordError, Capture;
  }

  // The evidence of produced metadata holds exactly while nothing of what it was
  // produced from has changed.
  lemma EvidenceExactly(p: Scene, expired: ObjectId, scheduled: Option<Time>, delay: Option<Time>, o: Objects)
    requires Produce(p, expired, scheduled, delay).Accepted?
    ensures expired in p.o.metadata && p.o.metadata[expired].actQueue in p.o.queues
    ensures p.o.queues[p.o.metadata[expired].actQueue].records in p.o.arrays
    ensures p.o.metadata[expired].rootWorkRecords in p.o.arrays
    ensures SourceHolds(o, Produce(p, expired, scheduled, delay).source) <==> Unchanged(p.o, o, expired)
  {
    ProducedFromQueues(p, expired, scheduled, delay);
    var m, source := p.o.metadata[expired], Produce(p, expired, scheduled, delay).source;
    CapturedActs(p.o, o, m.actQueue, m.rootWorkRecords);
    CapturedRoots(p.o, o, m.actQueue, m.rootWorkRecords);
    CapturedLengths(p.o, m.actQueue, m.rootWorkRecords);
    hide Produce, Capture, TaskCallback, TaskSignature, RecordSignature, SameActQueue, SameRoots;
  }

  lemma CapturedLengths(o: Objects, queue: ObjectId, root: ObjectId)
    requires ActQueueError(o, queue).None? && root in o.arrays
    ensures var e := Capture(o, queue, root);
            && e.actQueue == queue && e.rootArray == root
            && |e.actCallbacks| == |e.actSignatures| == |e.actRecords| && |e.rootSignatures| == |e.rootRecords|
  {
  }

  // So whatever the scheduled callback does: a drain that returns found the act queue
  // and the root records as they were when the metadata was produced, and a drain
  // whose callback changed any of it fails with a mismatch.
  lemma DrainSeesChanges(p: Scene, expired: ObjectId, scheduled: Option<Time>, delay: Option<Time>,
                         c: Scene, guard: nat, callback: Code, actDrain: Code)
    requires Produce(p, expired, scheduled, delay).Accepted? && StateOk(c.w.s)
    ensures expired in p.o.metadata && p.o.metadata[expired].actQueue in p.o.queues
    ensures p.o.queues[p.o.metadata[expired].actQueue].records in p.o.arrays
    ensures p.o.metadata[expired].rootWorkRecords in p.o.arrays
    ensures var source := Produce(p, expired, scheduled, delay).source;
            var r, effect := DrainOf(c, source, guard, callback, actDrain), callback(CallbackScene(c, source, guard));
            && (r.Drained? ==> effect.Done? && Unchanged(p.o, effect.after.o, expired))
            && (DelayedError(c, source, c.w.s.now).None? && source.delayed.callbackHandle in c.w.s.q.tasks
                && CanPromote(c.w.s, source.delayed.callbackHandle)
                && effect.Done? && !Unchanged(p.o, effect.after.o, expired) ==>
                  r == Failed(EvidenceMismatch))
  {
    var source := Produce(p, expired, scheduled, delay).source;
    var effect := callback(CallbackScene(c, source, guard));
    EvidenceExactly(p, expired, scheduled, delay, effect.after.o);
    DrainReachesCallback(c, source, guard, callback, actDrain);
    DrainReturnsExactly(c, source, guard, callback, actDrain);
    hide Produce, DrainOf, DelayedError, CanPromote, StateOk, Unchanged, CallbackScene;
  }

  // When the scheduled callback runs, its task calls the guard; nothing else has
  // changed since the clock was advanced.
  lemma GuardIsInstalled(c: Scene, source: Source, guard: nat)
    requires source.delayed.callbackHandle in c.w.s.q.tasks && StateOk(c.w.s)
    ensures var scene, ready, handle := CallbackScene(c, source, guard), Advanced(c, source), source.delayed.callbackHandle;
            && handle in scene.w.s.q.tasks && scene.w.s.q.tasks[handle].callback == Function(guard)
            && scene.o == c.o && scene.w.sh == c.w.sh
            && scene.w.s.now == ready.w.s.now
            && scene.w.s.q.tasks.Keys == ready.w.s.q.tasks.Keys
            && forall id :: id in ready.w.s.q.tasks && id != handle ==> scene.w.s.q.tasks[id] == ready.w.s.q.tasks[id]
  {
    AdvanceKeepsTasks(c.w.s, source.delayed.expirationTime - c.w.s.now);
    hide AdvanceTime, StateOk;
  }

  // A scheduled callback that empties the act queue makes the drain fail.
  lemma EmptiedActQueueFails(guard: nat, actDrain: Code)
    ensures var c := Scene(Run(START, PROMOTABLE_RUN), SampleObjects(1));
            var o := c.o.(arrays := c.o.arrays[1 := JsArray([], Open)]);
            && Produce(c, 0, None, None).Accepted?
            && DrainOf(c, Produce(c, 0, None, None).source, guard, Leaving(o), actDrain) == Failed(EvidenceMismatch)
  {
    PromotableIsAccepted();
    var c := Scene(Run(START, PROMOTABLE_RUN), SampleObjects(1));
    var o := c.o.(arrays := c.o.arrays[1 := JsArray([], Open)]);
    DrainSeesChanges(c, 0, None, None, c, guard, Leaving(o), actDrain);
    hide Run, Produce, DrainOf, DelayedError, CanPromote, StateOk, CallbackScene;
    assert !SameActQueue(c.o, o, 0);
  }

  // ---------- acceptance ----------

  // The last record of the task, at position k, is live and can be called.
  ghost predicate LiveAt(w: World, handle: int, k: nat) {
    var records := w.sh.taskRecords;
    && k < |records| && records[k].task == handle && (forall j :: k < j < |records| ==> records[j].task != handle)
    && !records[k].cancelled && handle in w.s.q.tasks && w.s.q.tasks[handle].callback.Function?
  }

  // Some other recorded task that can be called is delayed, or has expired by then.
  ghost predicate OtherCandidate(w: World, k: nat, now: Time, target: Time) {
    exists i :: && 0 <= i < |w.sh.taskRecords| && i != k && !w.sh.taskRecords[i].cancelled
                && w.sh.taskRecords[i].task in w.s.q.tasks
                && var task := w.s.q.tasks[w.sh.taskRecords[i].task];
                   task.callback.Function? && (task.startTime > now || task.expirationTime <= now || task.expirationTime <= target)
  }

  ghost predicate ActQueueFits(o: Objects, queue: ObjectId, expected: Option<nat>) {
    && queue in o.queues && !o.queues[queue].rejected && o.queues[queue].records in o.arrays
    && var entries := o.arrays[o.queues[queue].records].entries;
       && entries != [] && (forall id :: id in entries ==> id in o.actTasks && !o.actTasks[id].rejected)
       && (expected.Some? ==> expected.value == |entries|)
  }

  ghost predicate RootsFit(o: Objects, list: ObjectId) {
    && list in o.arrays && o.arrays[list].integrity != Frozen && o.arrays[list].entries != []
    && forall id :: id in o.arrays[list].entries ==> RecordFits(o, id)
  }

  // Every claim false and every policy true, by values that really are booleans.
  ghost predicate RecordFits(o: Objects, id: ObjectId) {
    && id in o.records
    && var r := o.records[id];
       && HasAcceptedKind(r)
       && r.accepted == True
       && (forall flag :: flag in r.publicClaims + r.executionClaims ==> flag == False)
       && (forall flag :: flag in r.policies ==> flag == True)
       && !r.packageClaim && !r.flushClaim
  }

  predicate HasAcceptedKind(r: RootRecord) {
    var accepted := { Kind("RootLaneSchedulingSnapshot"), Kind("UpdateContainerResult"), Kind("RootScheduleUpdateRecord"),
                      Kind("RootTaskScheduleRecord"), Kind("SchedulerCallbackRequest"),
                      Kind("RootSchedulerCallbackExecutionRecord"),
                      Kind("HostRootFinishedWorkPendingCommitRecordForCanary"),
                      Kind("HostRootFinishedWorkCommitHandoffRecordForCanary") };
    if r.recordKind.Some? then r.recordKind.value in accepted
    else if r.kind.Some? then r.kind.value in accepted
    else r.rootWorkRecordKind.Some? && r.rootWorkRecordKind.value in accepted
  }

  lemma RecordFitsExactly(o: Objects, id: ObjectId)
    ensures RecordError(o, id).None? <==> RecordFits(o, id)
  {
    if id in o.records {
      var r := o.records[id];
      KindFitsExactly(r);
      FlagsExactly(r.publicClaims, False);
      FlagsExactly(r.executionClaims, False);
      FlagsExactly(r.policies, True);
      hide AllFlags, HasAcceptedKind, RecordKind;
      assert forall flag :: flag in r.publicClaims + r.executionClaims <==> flag in r.publicClaims || flag in r.executionClaims;
    }
  }

  lemma KindFitsExactly(r: RootRecord)
    ensures HasAcceptedKind(r) <==>
            RecordKind(r).Some? && RecordKind(r).value.Kind? && RecordKind(r).value.text in ACCEPTED_KINDS
  {
  }

  lemma FlagsExactly(flags: seq<Flag>, flag: Flag)
    ensures AllFlags(flags, flag) <==> forall f :: f in flags ==> f == flag
  {
    if forall f :: f in flags ==> f == flag {
      forall i | 0 <= i < |flags| ensures flags[i] == flag { assert flags[i] in flags; }
    }
  }

  lemma RootsFitExactly(o: Objects, list: ObjectId)
    ensures RecordsError(o, list).None? <==> RootsFit(o, list)
  {
    if list in o.arrays {
      var entries := o.arrays[list].entries;
      FirstErrorAt(o, entries);
      forall i | 0 <= i < |entries| ensures RecordError(o, entries[i]).None? <==> RecordFits(o, entries[i]) {
        RecordFitsExactly(o, entries[i]);
      }
      hide RecordError, RecordFits, FirstRecordError;
      if RecordsError(o, list).None? {
        forall id | id in entries ensures RecordFits(o, id) {
          var i :| 0 <= i < |entries| && entries[i] == id;
        }
      }
      if RootsFit(o, list) {
        forall i | 0 <= i < |entries| ensures RecordError(o, entries[i]).None? { assert entries[i] in entries; }
      }
    }
  }

  lemma ActQueueFitsExactly(o: Objects, queue: ObjectId, expected: Option<nat>)
    ensures ActQueueFits(o, queue, expected) <==>
            ActQueueError(o, queue).None? && (expected.Some? ==> expected.value == PendingCount(o, queue))
  {
    if queue in o.queues && o.queues[queue].records in o.arrays {
      var entries := o.arrays[o.queues[queue].records].entries;
      assert forall id :: id in entries <==> exists i :: 0 <= i < |entries| && entries[i] == id;
    }
  }

  lemma LiveExactly(w: World, handle: int)
    ensures HandleError(w, handle).None? <==> exists k: nat :: LiveAt(w, handle, k)
    ensures forall k: nat :: LiveAt(w, handle, k) ==> FindIndex(w.sh.taskRecords, handle) == Some(k)
  {
    FindIndexBound(w.sh.taskRecords, handle);
    hide FindIndex;
    if HandleError(w, handle).None? { assert LiveAt(w, handle, FindIndex(w.sh.taskRecords, handle).value); }
  }

  // What the delayed metadata, the task and its record must agree on.
  ghost predicate TimingFits(w: World, d: Delayed) {
    && d.callbackHandle in w.s.q.tasks
    && var task := w.s.q.tasks[d.callbackHandle];
       && task.priority in {1, 2, 3, 4, 5} && task.priority == d.priority
       && d.scheduledTime >= 0.0 && d.delay > 0.0 && task.startTime == d.scheduledTime + d.delay
       && d.startTime == task.startTime && d.expirationTime == task.expirationTime
       && d.timeout == task.expirationTime - task.startTime
       && task.startTime > w.s.now && task.expirationTime > w.s.now && task.sortIndex == task.startTime
  }

  ghost predicate ExpiredMetadataFits(c: Scene, d: Delayed) {
    && d.expired in c.o.metadata && d.callbackHandle in c.w.s.q.tasks
    && var m, task := c.o.metadata[d.expired], c.w.s.q.tasks[d.callbackHandle];
       && !m.rejected && m.callbackHandle == d.callbackHandle
       && (m.priority.Some? ==> m.priority.value == task.priority)
       && task.callback.Function? && task.callback.id in c.o.acceptable && task.callback.id in c.o.branded
       && ActQueueFits(c.o, m.actQueue, m.expectedPending)
       && RootsFit(c.o, m.rootWorkRecords)
  }

  // Delayed metadata is accepted exactly when its task is live and recorded where the
  // producer saw it, all times and priorities agree and lie in the future, no other
  // task could expire with it, the root metadata fits, and the evidence holds.
  lemma AcceptedExactly(c: Scene, source: Source)
    ensures DelayedError(c, source, c.w.s.now).None? <==>
            && LiveAt(c.w, source.delayed.callbackHandle, source.recordIndex)
            && c.w.sh.taskRecords[source.recordIndex].scheduleOrder == source.scheduleOrder
            && TimingFits(c.w, source.delayed)
            && !OtherCandidate(c.w, source.recordIndex, c.w.s.now, source.delayed.expirationTime)
            && ExpiredMetadataFits(c, source.delayed)
            && SourceHolds(c.o, source)
  {
    var d, w := source.delayed, c.w;
    LiveExactly(w, d.callbackHandle);
    if d.expired in c.o.metadata {
      ActQueueFitsExactly(c.o, c.o.metadata[d.expired].actQueue, c.o.metadata[d.expired].expectedPending);
      RootsFitExactly(c.o, c.o.metadata[d.expired].rootWorkRecords);
    }
    if HandleError(w, d.callbackHandle).None? {
      var k: nat :| LiveAt(w, d.callbackHandle, k);
      if TimingFits(w, d) { CandidatesExactly(w, d.callbackHandle, k); }
      hide ActQueueError, RecordsError, ActQueueFits, RootsFit, HandleError, FindIndex, SourceHolds, OtherCandidate,
           DelayedOrExpired, ExpiredPending;
    }
  }

  // For a task still waiting: it is the only candidate exactly if there is no other,
  // and then it is the only one to expire with it.
  lemma CandidatesExactly(w: World, handle: int, k: nat)
    requires LiveAt(w, handle, k) && w.s.q.tasks[handle].startTime > w.s.now
    ensures var target := w.s.q.tasks[handle].expirationTime;
            var candidates := DelayedOrExpired(w, w.s.now, target);
            && k in candidates && (|candidates| > 1 <==> OtherCandidate(w, k, w.s.now, target))
            && k in ExpiredPending(w, target)
            && (!OtherCandidate(w, k, w.s.now, target) ==> |ExpiredPending(w, target)| == 1)
  {
    var target := w.s.q.tasks[handle].expirationTime;
    var candidates, expired := DelayedOrExpired(w, w.s.now, target), ExpiredPending(w, target);
    assert k in candidates && k in expired;
    if OtherCandidate(w, k, w.s.now, target) {
      var i :| && 0 <= i < |w.sh.taskRecords| && i != k && !w.sh.taskRecords[i].cancelled
               && w.sh.taskRecords[i].task in w.s.q.tasks
               && var task := w.s.q.tasks[w.sh.taskRecords[i].task];
                  task.callback.Function? && (task.startTime > w.s.now || task.expirationTime <= w.s.now || task.expirationTime <= target);
      assert i in candidates;
      if |candidates| <= 1 { Singleton(candidates, k); }
    } else {
      forall i | i in candidates ensures i == k {}
      assert candidates == {k};
      forall i | i in expired ensures i == k { assert i in candidates; }
      assert expired == {k};
    }
  }

  // ---------- production ----------

  ghost predicate OtherExpires(w: World, k: nat, target: Time) {
    exists i :: && 0 <= i < |w.sh.taskRecords| && i != k && !w.sh.taskRecords[i].cancelled
                && w.sh.taskRecords[i].task in w.s.q.tasks
                && var task := w.s.q.tasks[w.sh.taskRecords[i].task];
                   task.callback.Function? && task.expirationTime <= target
  }

  // What is recorded of a task produced at position k: the scheduled time is the
  // option or now, the delay is the option or what remains until the start.
  function DelayedFor(p: Scene, expired: ObjectId, scheduled: Option<Time>, delay: Option<Time>): Delayed
    requires expired in p.o.metadata && p.o.metadata[expired].callbackHandle in p.w.s.q.tasks
  {
    var handle := p.o.metadata[expired].callbackHandle;
    var task := p.w.s.q.tasks[handle];
    var scheduledTime := match scheduled case Some(time) => time case None => p.w.s.now;
    var delayMs := match delay case Some(ms) => ms case None => task.startTime - scheduledTime;
    Delayed(handle, task.priority, scheduledTime, delayMs, task.startTime, task.expirationTime,
            task.expirationTime - task.startTime, expired)
  }

  // Metadata is produced exactly when the task is live and waits, the times agree, no
  // other task expires by its expiration, and the root metadata fits and counts the
  // act queue; the source then describes just that.
  lemma ProducedExactly(p: Scene, expired: ObjectId, scheduled: Option<Time>, delay: Option<Time>)
    ensures Produce(p, expired, scheduled, delay).Accepted? <==>
            && expired in p.o.metadata && p.o.metadata[expired].callbackHandle in p.w.s.q.tasks
            && var m, d := p.o.metadata[expired], DelayedFor(p, expired, scheduled, delay);
               && TimingFits(p.w, d) && ExpiredMetadataFits(p, d) && m.expectedPending.Some?
               && exists k: nat :: LiveAt(p.w, d.callbackHandle, k) && !OtherExpires(p.w, k, d.expirationTime)
    ensures Produce(p, expired, scheduled, delay).Accepted? ==>
              && expired in p.o.metadata && p.o.metadata[expired].callbackHandle in p.w.s.q.tasks
              && var source := Produce(p, expired, scheduled, delay).source;
                 && source.delayed == DelayedFor(p, expired, scheduled, delay)
                 && LiveAt(p.w, source.delayed.callbackHandle, source.recordIndex)
                 && source.scheduleOrder == p.w.sh.taskRecords[source.recordIndex].scheduleOrder
  {
    if expired in p.o.metadata {
      var m := p.o.metadata[expired];
      LiveExactly(p.w, m.callbackHandle);
      ActQueueFitsExactly(p.o, m.actQueue, m.expectedPending);
      RootsFitExactly(p.o, m.rootWorkRecords);
      if HandleError(p.w, m.callbackHandle).None? {
        var k: nat :| LiveAt(p.w, m.callbackHandle, k);
        ExpiringExactly(p.w, m.callbackHandle, k);
      }
      hide ActQueueError, RecordsError, ActQueueFits, RootsFit, HandleError, FindIndex, Capture, OtherExpires, ExpiredPending;
    }
  }

  lemma ExpiringExactly(w: World, handle: int, k: nat)
    requires LiveAt(w, handle, k)
    ensures var target := w.s.q.tasks[handle].expirationTime;
            k in ExpiredPending(w, target) && (|ExpiredPending(w, target)| > 1 <==> OtherExpires(w, k, target))
  {
    var target := w.s.q.tasks[handle].expirationTime;
    var expired := ExpiredPending(w, target);
    assert k in expired;
    if OtherExpires(w, k, target) {
      var i :| && 0 <= i < |w.sh.taskRecords| && i != k && !w.sh.taskRecords[i].cancelled
               && w.sh.taskRecords[i].task in w.s.q.tasks
               && var task := w.s.q.tasks[w.sh.taskRecords[i].task];
                  task.callback.Function? && task.expirationTime <= target;
      assert i in expired;
      if |expired| <= 1 { Singleton(expired, k); }
    } else {
      forall i | i in expired ensures i == k {}
      assert expired == {k};
    }
  }

  // A shift that throws leaves a frozen array alone; in a sealed one every entry has
  // moved one place forward and the last is there twice.
  lemma FailedShift(a: JsArray)
    requires a.entries != [] && a.integrity != Open
    ensures var after := AfterFailedShift(a);
            && |after| == |a.entries|
            && (a.integrity == Frozen ==> after == a.entries)
            && (a.integrity == Sealed ==>
                  && (forall i :: 0 <= i < |after| - 1 ==> after[i] == a.entries[i + 1])
                  && after[|after| - 1] == a.entries[|a.entries| - 1])
  {
  }
}
