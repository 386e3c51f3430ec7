// What single operations of the mock scheduler do, field by field
// (packages/scheduler/cjs/scheduler-unstable_mock.production.js:133-240, 998-1047,
// 1215-1284).
module SchedulerEffects {
  import opened Wrappers
  import opened TaskHeap
  import opened MockScheduler
  import opened SchedulerLaws
  import opened WorkLoop

  // ---------- scheduling ----------

  // Immediate tasks have expired when they are due; any unknown priority is normal.
  lemma Timeouts(priority: int)
    ensures Timeout(1) == -1.0 && Timeout(2) == 250.0 && Timeout(3) == 5000.0
    ensures Timeout(4) == 10000.0 && Timeout(5) == 1073741823.0
    ensures priority !in {1, 2, 4, 5} ==> Timeout(priority) == 5000.0
  {
  }

  // A delay counts when it is positive.  The task starts after it, expires its
  // priority's timeout later, and waits among the timers by its start or among the
  // ready tasks by its expiration.  No other task changes.
  lemma ScheduleEffect(s: State, priority: int, callback: Callback, delay: Option<Time>)
    requires StateOk(s)
    ensures var after, id := Schedule(s, priority, callback, delay), s.nextId;
            var delayed := delay.Some? && delay.value > 0.0;
            var startTime := if delayed then s.now + delay.value else s.now;
            && after.nextId == id + 1 && after.now == s.now && after.yielded == s.yielded
            && id !in s.q.tasks && after.q.tasks.Keys == s.q.tasks.Keys + {id}
            && (forall other :: other in s.q.tasks ==> after.q.tasks[other] == s.q.tasks[other])
            && after.q.tasks[id].id == id && after.q.tasks[id].callback == callback
            && after.q.tasks[id].priority == priority && after.q.tasks[id].startTime == startTime
            && after.q.tasks[id].expirationTime == startTime + Timeout(priority)
            && after.q.tasks[id].sortIndex == (if delayed then startTime else startTime + Timeout(priority))
            && (forall other :: InQueue(after.q.timers, other) <==> InQueue(s.q.timers, other) || (delayed && other == id))
            && (forall other :: InQueue(after.q.ready, other) <==> InQueue(s.q.ready, other) || (!delayed && other == id))
  {
    var after, id := Schedule(s, priority, callback, delay), s.nextId;
    var task := NewTask(s, priority, callback, delay);
    var delayed := task.startTime > s.now;
    var entry := Entry(task.sortIndex, id);
    EnqueuedQueues(s.q, task, delayed);
    hide Insert, QueuesOk;
    assert after.q == Enqueue(s.q, task, delayed);
  }

  lemma EnqueuedQueues(q: Queues, task: Task, delayed: bool)
    ensures var after := Enqueue(q, task, delayed);
            && (forall other :: InQueue(after.timers, other) <==> InQueue(q.timers, other) || (delayed && other == task.id))
            && (forall other :: InQueue(after.ready, other) <==> InQueue(q.ready, other) || (!delayed && other == task.id))
  {
    var after := Enqueue(q, task, delayed);
    InsertedMembers(Entry(task.sortIndex, task.id), if delayed then q.timers else q.ready);
    hide Insert;
  }

  lemma InsertedMembers(e: Entry, queue: seq<Entry>)
    ensures forall id :: InQueue(Insert(e, queue), id) <==> InQueue(queue, id) || id == e.order
  {
    MembersOfInsert(e, queue);
    hide Insert;
    forall id ensures InQueue(Insert(e, queue), id) <==> InQueue(queue, id) || id == e.order {
      InQueueByMember(queue, id);
      InQueueByMember(Insert(e, queue), id);
      assert e in Insert(e, queue);
    }
  }

  // Scheduling a delayed task arms the host timeout for its start exactly if no
  // task is ready and all timers start later; it requests no host callback.
  lemma DelayedRequest(s: State, priority: int, callback: Callback, ms: Time)
    requires StateOk(s) && ms > 0.0
    ensures var after, startTime := Schedule(s, priority, callback, Some(ms)), s.now + ms;
            var armed := s.q.ready == [] && forall e :: e in s.q.timers ==> startTime < e.sortIndex;
            && after.timeout == (if armed then Some(startTime) else s.timeout)
            && after.isHostTimeoutScheduled == (armed || s.isHostTimeoutScheduled)
            && after.callbackRequested == s.callbackRequested
            && after.isHostCallbackScheduled == s.isHostCallbackScheduled
  {
    var entry := Entry(s.now + ms, s.nextId);
    forall e | e in s.q.timers ensures e.order < s.nextId { assert TimerEntry(s.q.tasks, e); }
    assert forall i :: 0 <= i < |s.q.timers| ==> s.q.timers[i] in s.q.timers;
    InsertedFirst(entry, s.q.timers);
    hide Insert, IsSorted, StateOk, Schedule, Enqueue, NewTask;
    DelayedArms(s, priority, callback, ms);
  }

  lemma DelayedArms(s: State, priority: int, callback: Callback, ms: Time)
    requires ms > 0.0
    ensures var entry, q := Entry(s.now + ms, s.nextId), Enqueue(s.q, NewTask(s, priority, callback, Some(ms)), true);
            && q.ready == s.q.ready && q.timers == Insert(entry, s.q.timers)
            && Schedule(s, priority, callback, Some(ms)) == ArmTimeout(s.(nextId := s.nextId + 1, q := q), entry, ms)
  {
    hide Insert, Timeout, ArmTimeout;
    assert (s.now + ms) - s.now == ms;
  }

  // Scheduling an undelayed one requests a host callback unless one is scheduled
  // or work is being performed, and leaves the timeout alone.
  lemma UndelayedRequest(s: State, priority: int, callback: Callback, delay: Option<Time>)
    requires delay.None? || delay.value <= 0.0
    ensures var after, free := Schedule(s, priority, callback, delay), !s.isHostCallbackScheduled && !s.isPerformingWork;
            && after.timeout == s.timeout && after.isHostTimeoutScheduled == s.isHostTimeoutScheduled
            && after.callbackRequested == (free || s.callbackRequested)
            && after.isHostCallbackScheduled == (free || s.isHostCallbackScheduled)
  {
    hide Enqueue, Timeout;
  }

  lemma InsertedFirst(e: Entry, queue: seq<Entry>)
    requires IsSorted(queue) && forall i :: 0 <= i < |queue| ==> queue[i].order < e.order
    ensures Insert(e, queue) != []
    ensures Insert(e, queue)[0] == e <==> forall i :: 0 <= i < |queue| ==> e.sortIndex < queue[i].sortIndex
  {
    forall i | 0 <= i < |queue| ensures Leq(e, queue[i]) <==> e.sortIndex < queue[i].sortIndex {
      LeqExactly(e, queue[i]);
    }
    if queue != [] && Leq(e, queue[0]) {
      forall i | 0 <= i < |queue| ensures Leq(e, queue[i]) { LeqTotalOrder(e, queue[0], queue[i]); }
    }
  }

  // ---------- the clock ----------

  // A silenced scheduler stands still.  Otherwise the clock moves, and a timeout
  // that is due is gone afterwards, having promoted the timers that are due.
  lemma AdvanceEffect(s: State, ms: Time)
    ensures var after := AdvanceTime(s, ms);
            && (s.silenced ==> after == s)
            && (!s.silenced ==> after.now == s.now + ms)
            && (!s.silenced && (s.timeout.None? || s.timeout.value > s.now + ms) ==> after == s.(now := s.now + ms))
            && (!s.silenced && s.timeout.Some? && s.timeout.value <= s.now + ms ==>
                  && after.timeout == None && !after.isHostTimeoutScheduled
                  && after.q == AdvanceTimers(s.q, s.now + ms)
                  && (after.q.ready != [] && !s.isHostCallbackScheduled ==>
                        after.callbackRequested && after.isHostCallbackScheduled)
                  && (after.q.ready == [] || s.isHostCallbackScheduled ==>
                        after.callbackRequested == s.callbackRequested
                        && after.isHostCallbackScheduled == s.isHostCallbackScheduled))
  {
    hide AdvanceTimers;
  }

  // The host timeout itself: with nothing ready it is requested again, for the
  // start of the next timer.
  lemma HandleTimeoutEffect(s: State, t: Time)
    ensures var after := HandleTimeout(s, t);
            && !after.isHostTimeoutScheduled && after.q == AdvanceTimers(s.q, t)
            && (!s.isHostCallbackScheduled && after.q.ready != [] ==>
                  after.callbackRequested && after.isHostCallbackScheduled && after.timeout == s.timeout)
            && (!s.isHostCallbackScheduled && after.q.ready == [] && after.q.timers != []
                && after.q.timers[0].order in after.q.tasks ==>
                  after.timeout == Some(s.now + (after.q.tasks[after.q.timers[0].order].startTime - t)))
            && (s.isHostCallbackScheduled || (after.q.ready == [] && after.q.timers == []) ==>
                  after.timeout == s.timeout && after.callbackRequested == s.callbackRequested)
  {
    hide AdvanceTimers;
  }

  // ---------- the work loop's steps ----------

  // Entering and leaving work; entering drops a scheduled host timeout.
  lemma EnterAndLeave(s: State)
    ensures var entered := Work(s, EnterWork);
            && entered.isPerformingWork && !entered.isHostCallbackScheduled && !entered.isHostTimeoutScheduled
            && entered.timeout == (if s.isHostTimeoutScheduled then None else s.timeout)
            && entered.q == s.q && entered.callbackRequested == s.callbackRequested && entered.isFlushing == s.isFlushing
    ensures Work(s, LeaveWork) == s.(isPerformingWork := false)
  {
  }

  // A flush starts only with a requested host callback, which is kept while more
  // work remains.
  lemma BeginAndEnd(s: State, more: bool)
    ensures Work(s, BeginFlush) == s.(isFlushing := s.isFlushing || s.callbackRequested)
    ensures Work(s, EndFlush(more)) == s.(isFlushing := false, callbackRequested := s.callbackRequested && more)
  {
  }

  // A task that has not expired is left alone without time, or when the host asks to
  // yield; a callback that throws ends the loop; and so does a continuation while
  // painting is asked for.
  lemma LoopStops(s: State, time: Time, mode: Mode, body: Body, n: nat)
    requires n > 0 && HasNext(s)
    ensures var id, trace := s.q.ready[0].order, Loop(s, time, mode, body, n);
            var task := s.q.tasks[id];
            && (task.expirationTime > time && (!mode.hasTime || mode.stops(s)) ==> trace == Trace([], s, HasMore))
            && (task.callback.Function? && (task.expirationTime <= time || (mode.hasTime && !mode.stops(s))) ==>
                  var effect := body(id, task.expirationTime <= time, Work(s, TakeCallback));
                  && trace.calls != [] && trace.calls[0] == Call(id, s, time)
                  && (effect.Threw? ==> trace == Trace([Call(id, s, time)], effect.after, Aborted))
                  && (effect.Continued? && mode.paints ==> |trace.calls| == 1 && trace.end == HasMore))
  {
    hide Work;
  }

  // After its last task the loop requests the next timer's start.
  lemma LoopEnds(s: State, time: Time, mode: Mode, body: Body, n: nat)
    requires n > 0 && s.q.ready == []
    ensures var trace := Loop(s, time, mode, body, n);
            && trace.calls == [] && trace.end == Drained
            && (s.q.timers != [] && s.q.timers[0].order in s.q.tasks ==>
                  trace.after.timeout == Some(s.now + (s.q.tasks[s.q.timers[0].order].startTime - time)))
            && (s.q.timers == [] ==> trace.after.timeout == s.timeout)
  {
  }

  // ---------- cancelled tasks and continuations ----------

  ghost predicate StaysCancelled(body: Body, id: int) {
    forall task, expired, s :: WithoutCallback(s, id) ==> WithoutCallback(body(task, expired, s).after, id)
  }

  predicate WithoutCallback(s: State, id: int) {
    id in s.q.tasks && s.q.tasks[id].callback.Null?
  }

  // A cancelled task is never called, unless a callback gives it a new callback.
  lemma {:induction false} CancelledIsNeverCalled(s: State, time: Time, mode: Mode, body: Body, n: nat, id: int)
    requires WithoutCallback(s, id) && StaysCancelled(body, id)
    ensures forall i :: 0 <= i < |Loop(s, time, mode, body, n).calls| ==> Loop(s, time, mode, body, n).calls[i].task != id
    decreases n
  {
    hide Work, WithoutCallback, Finished;
    if n > 0 && HasNext(s) {
      var first := s.q.ready[0].order;
      var task := s.q.tasks[first];
      StepsKeepCancelled(s, id, first, Null, time);
      if task.expirationTime > time && (!mode.hasTime || mode.stops(s)) {
      } else if !task.callback.Function? {
        CancelledIsNeverCalled(Work(s, PopReady), time, mode, body, n - 1, id);
      } else {
        LiveIsOther(s, first, id);
        var r := body(first, task.expirationTime <= time, Work(s, TakeCallback));
        if r.Continued? {
          ContinuedKeepsCancelled(r.after, id, first, r.continuation);
          var next := Work(Work(r.after, SetContinuation(first, r.continuation)), AdvanceDueTimers(r.after.now));
          CancelledIsNeverCalled(next, r.after.now, mode, body, n - 1, id);
        } else if r.Returned? {
          ReturnedKeepsCancelled(r.after, id, first);
          var next := Work(Finished(r.after, first), AdvanceDueTimers(r.after.now));
          CancelledIsNeverCalled(next, r.after.now, mode, body, n - 1, id);
        }
      }
    }
  }

  lemma LiveIsOther(s: State, other: int, id: int)
    requires WithoutCallback(s, id) && other in s.q.tasks && s.q.tasks[other].callback.Function?
    ensures other != id
  {
  }

  lemma ContinuedKeepsCancelled(after: State, id: int, other: int, k: Callback)
    requires WithoutCallback(after, id) && other != id
    ensures WithoutCallback(Work(Work(after, SetContinuation(other, k)), AdvanceDueTimers(after.now)), id)
  {
    hide *;
    StepsKeepCancelled(after, id, other, k, after.now);
    StepsKeepCancelled(Work(after, SetContinuation(other, k)), id, other, k, after.now);
  }

  lemma ReturnedKeepsCancelled(after: State, id: int, other: int)
    requires WithoutCallback(after, id)
    ensures WithoutCallback(Work(Finished(after, other), AdvanceDueTimers(after.now)), id)
  {
    hide Work, WithoutCallback;
    StepsKeepCancelled(after, id, other, Null, after.now);
    StepsKeepCancelled(Finished(after, other), id, other, Null, after.now);
  }

  lemma StepsKeepCancelled(s: State, id: int, other: int, callback: Callback, time: Time)
    requires WithoutCallback(s, id)
    ensures WithoutCallback(Work(s, PopReady), id) && WithoutCallback(Work(s, TakeCallback), id)
    ensures other != id ==> WithoutCallback(Work(s, SetContinuation(other, callback)), id)
    ensures WithoutCallback(Work(s, AdvanceDueTimers(time)), id)
  {
    WorkFields(s, PopReady);
    WorkFields(s, TakeCallback);
    WorkFields(s, SetContinuation(other, callback));
    WorkFields(s, AdvanceDueTimers(time));
    hide Work;
    AdvanceKeepsCancelled(s.q, id, time);
  }

  lemma {:induction false} AdvanceKeepsCancelled(q: Queues, id: int, time: Time)
    requires id in q.tasks && q.tasks[id].callback.Null?
    ensures var after := AdvanceTimers(q, time); id in after.tasks && after.tasks[id].callback.Null?
    decreases |q.timers|
  {
    if q.timers != [] && q.timers[0].order in q.tasks {
      var first, rest := q.timers[0].order, q.(timers := q.timers[1..]);
      hide Insert;
      if q.tasks[first].callback.Null? {
        AdvanceKeepsCancelled(rest, id, time);
      } else if q.tasks[first].startTime <= time {
        AdvanceKeepsCancelled(Promote(rest, first), id, time);
      }
    }
  }

  // A continuation is what the task is called with next, at once if nothing else
  // changed: same task, the new callback, one round later.
  lemma ContinuationIsNext(s: State, time: Time, mode: Mode, body: Body, n: nat, k: nat)
    requires n > 1 && HasNext(s) && NothingDue(s.q, time) && !mode.paints && s.now == time
    requires var id := s.q.ready[0].order;
             var taken := Work(s, TakeCallback);
             && s.q.tasks[id].callback.Function? && s.q.tasks[id].expirationTime <= time
             && s.q.tasks[id].sortIndex == s.q.tasks[id].expirationTime
             && body(id, true, taken) == Continued(taken, Function(k))
    ensures var calls, id := Loop(s, time, mode, body, n).calls, s.q.ready[0].order;
            && |calls| >= 2 && calls[0].task == id && calls[1].task == id
            && calls[1].state.q.tasks == s.q.tasks[id := s.q.tasks[id].(callback := Function(k))]
            && calls[1].state.q.ready == s.q.ready
  {
    var id := s.q.ready[0].order;
    var taken := Work(s, TakeCallback);
    var continued := Work(taken, SetContinuation(id, Function(k)));
    var next := Work(continued, AdvanceDueTimers(time));
    WorkFields(s, TakeCallback);
    WorkFields(taken, SetContinuation(id, Function(k)));
    WorkFields(continued, AdvanceDueTimers(time));
    hide Work;
    assert continued.q.tasks == s.q.tasks[id := s.q.tasks[id].(callback := Function(k))];
    StillNothingDue(s.q, continued.q, time);
    NothingDueKeeps(continued.q, time);
    assert next.q.tasks == continued.q.tasks && next.q.ready == s.q.ready;
    assert Loop(s, time, mode, body, n) == After(Call(id, s, time), Loop(next, time, mode, body, n - 1));
    assert Loop(next, time, mode, body, n - 1).calls[0] == Call(id, next, time);
  }

  lemma StillNothingDue(q: Queues, r: Queues, time: Time)
    requires NothingDue(q, time) && q.ready != [] && q.ready[0].order in q.tasks && r.timers == q.timers
    requires q.tasks[q.ready[0].order].callback.Function?
    requires r.tasks.Keys == q.tasks.Keys
    requires forall id :: id in q.tasks ==> r.tasks[id].startTime == q.tasks[id].startTime
    requires forall id :: id in q.tasks && q.tasks[id].callback.Null? ==> r.tasks[id].callback.Null?
    ensures NothingDue(r, time)
  {
  }
}
