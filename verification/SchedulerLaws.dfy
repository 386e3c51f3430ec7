// What the mock scheduler's operations keep, and when advancing the clock to a
// delayed task's expiration turns it into expired work.
module SchedulerLaws {
  import opened Wrappers
  import opened TaskHeap
  import opened MockScheduler

  // ---------- the invariant ----------

  ghost predicate InQueue(queue: seq<Entry>, id: int) {
    exists i :: 0 <= i < |queue| && queue[i].order == id
  }

  ghost predicate DistinctOrders(queue: seq<Entry>) {
    forall i, j :: 0 <= i < j < |queue| ==> queue[i].order != queue[j].order
  }

  ghost predicate TimerEntry(tasks: map<int, Task>, e: Entry) {
    e.order in tasks && e.sortIndex == tasks[e.order].sortIndex == tasks[e.order].startTime
  }

  ghost predicate ReadyEntry(tasks: map<int, Task>, e: Entry) {
    e.order in tasks && e.sortIndex == tasks[e.order].sortIndex == tasks[e.order].expirationTime
  }

  ghost predicate QueuesOk(q: Queues) {
    && IsSorted(q.timers) && IsSorted(q.ready) && DistinctOrders(q.timers) && DistinctOrders(q.ready)
    && (forall e :: e in q.timers ==> TimerEntry(q.tasks, e))
    && (forall e :: e in q.ready ==> ReadyEntry(q.tasks, e))
    && (forall id :: id in q.tasks ==> TaskOk(q, id))
  }

  // A task expires its priority's timeout after its start; a live task that is
  // not queued by expiration is waiting among the timers.
  ghost predicate TaskOk(q: Queues, id: int)
    requires id in q.tasks
  {
    var task := q.tasks[id];
    && task.id == id
    && task.expirationTime == task.startTime + Timeout(task.priority)
    && (task.sortIndex == task.startTime || task.sortIndex == task.expirationTime)
    && (!task.callback.Null? && task.sortIndex != task.expirationTime ==> InQueue(q.timers, id))
  }

  ghost predicate StateOk(s: State) {
    QueuesOk(s.q) && forall id :: id in s.q.tasks ==> id < s.nextId
  }

  // ---------- queue facts ----------

  lemma MembersOfInsert(e: Entry, queue: seq<Entry>)
    ensures forall x :: x in Insert(e, queue) <==> x == e || x in queue
  {
    InsertMembers(e, queue);
    forall x ensures x in Insert(e, queue) <==> x == e || x in queue {
      assert x in Insert(e, queue) <==> x in multiset(Insert(e, queue));
      assert x in queue <==> x in multiset(queue);
    }
  }

  lemma {:induction false} InsertDistinct(e: Entry, queue: seq<Entry>)
    requires DistinctOrders(queue) && !InQueue(queue, e.order)
    ensures DistinctOrders(Insert(e, queue))
  {
    if queue != [] && !Leq(e, queue[0]) {
      var rest := queue[1..];
      forall i | 0 <= i < |rest| ensures rest[i].order != e.order && rest[i].order != queue[0].order {
        assert rest[i] == queue[i + 1];
      }
      InsertDistinct(e, rest);
      MembersOfInsert(e, rest);
      forall x | x in Insert(e, rest) ensures x.order != queue[0].order {
        assert x == e || x in rest;
      }
    }
  }

  lemma InQueueByMember(queue: seq<Entry>, id: int)
    ensures InQueue(queue, id) <==> exists e :: e in queue && e.order == id
  {
    if e :| e in queue && e.order == id {
      var i :| 0 <= i < |queue| && queue[i] == e;
    }
  }

  // ---------- advancing the timers ----------

  ghost predicate DueTimer(q: Queues, id: int, t: Time) {
    id in q.tasks && InQueue(q.timers, id) && !q.tasks[id].callback.Null? && q.tasks[id].startTime <= t
  }

  // Exactly the live due timers change, and they only get their expiration as
  // sort index and a place among the ready tasks.
  ghost predicate TimersAdvanced(q: Queues, after: Queues, t: Time) {
    && after.tasks.Keys == q.tasks.Keys
    && (forall id :: id in q.tasks ==>
          after.tasks[id] == if DueTimer(q, id, t) then q.tasks[id].(sortIndex := q.tasks[id].expirationTime)
                             else q.tasks[id])
    && (forall id :: InQueue(after.ready, id) <==> InQueue(q.ready, id) || DueTimer(q, id, t))
  }

  lemma DropHeadOk(q: Queues)
    requires QueuesOk(q) && q.timers != []
    requires q.timers[0].order in q.tasks && q.tasks[q.timers[0].order].callback.Null?
    ensures var rest := q.(timers := q.timers[1..]);
            QueuesOk(rest) && forall id :: InQueue(rest.timers, id) <==> InQueue(q.timers, id) && id != q.timers[0].order
  {
    var rest := q.(timers := q.timers[1..]);
    TailOrders(q.timers);
    forall id | id in rest.tasks ensures TaskOk(rest, id) { assert TaskOk(q, id); }
  }

  lemma TailOrders(queue: seq<Entry>)
    requires queue != [] && DistinctOrders(queue)
    ensures forall id :: InQueue(queue[1..], id) <==> InQueue(queue, id) && id != queue[0].order
  {
    forall id ensures InQueue(queue[1..], id) <==> InQueue(queue, id) && id != queue[0].order {
      if InQueue(queue, id) && id != queue[0].order {
        var i :| 0 <= i < |queue| && queue[i].order == id;
        assert queue[1..][i - 1] == queue[i];
      }
      if i :| 0 <= i < |queue[1..]| && queue[1..][i].order == id {
        assert queue[i + 1].order == id;
      }
    }
  }

  lemma PromoteOk(q: Queues)
    requires QueuesOk(q) && q.timers != [] && q.timers[0].order in q.tasks
    ensures var id := q.timers[0].order;
            var after := Promote(q.(timers := q.timers[1..]), id);
            && QueuesOk(after) && !InQueue(q.ready, id)
            && after.timers == q.timers[1..]
            && (forall x :: InQueue(after.ready, x) <==> InQueue(q.ready, x) || x == id)
            && forall x :: InQueue(after.timers, x) <==> InQueue(q.timers, x) && x != id
  {
    var head := q.timers[0];
    var id := head.order;
    var task := q.tasks[id];
    var entry := Entry(task.expirationTime, id);
    assert head in q.timers && TaskOk(q, id);
    NotReady(q, head);
    TailOrders(q.timers);
    InsertSorts(entry, q.ready);
    InsertDistinct(entry, q.ready);
    MembersOfInsert(entry, q.ready);
    var after := Promote(q.(timers := q.timers[1..]), id);
    forall x ensures InQueue(after.ready, x) <==> InQueue(q.ready, x) || x == id {
      InQueueByMember(after.ready, x);
      InQueueByMember(q.ready, x);
      assert entry in after.ready;
    }
    forall e | e in after.timers ensures TimerEntry(after.tasks, e) {
      assert e in q.timers;
      var i :| 0 <= i < |after.timers| && after.timers[i] == e;
      assert q.timers[i + 1] == e;
    }
    forall e | e in after.ready ensures ReadyEntry(after.tasks, e) {
      if e != entry { InQueueByMember(q.ready, e.order); }
    }
    forall x | x in after.tasks ensures TaskOk(after, x) { assert TaskOk(q, x); }
  }

  // A timer whose start differs from its expiration is not among the ready tasks.
  lemma NotReady(q: Queues, e: Entry)
    requires QueuesOk(q) && e in q.timers
    ensures !InQueue(q.ready, e.order)
  {
    if InQueue(q.ready, e.order) {
      InQueueByMember(q.ready, e.order);
      var r :| r in q.ready && r.order == e.order;
      assert TaskOk(q, e.order);
      assert TimerEntry(q.tasks, e) && ReadyEntry(q.tasks, r);
      TimeoutIsNotZero(q.tasks[e.order].priority);
    }
  }

  lemma TimeoutIsNotZero(priority: int)
    ensures Timeout(priority) != 0.0
    ensures Timeout(priority) < 0.0 <==> priority == IMMEDIATE
  {
  }

  lemma {:induction false} AdvanceTimersEffect(q: Queues, t: Time)
    requires QueuesOk(q)
    ensures QueuesOk(AdvanceTimers(q, t)) && TimersAdvanced(q, AdvanceTimers(q, t), t)
    decreases |q.timers|
  {
    if q.timers != [] {
      var head := q.timers[0];
      var id := head.order;
      assert head in q.timers && InQueue(q.timers, id);
      if q.tasks[id].callback.Null? {
        DropHeadOk(q);
        AdvanceTimersEffect(q.(timers := q.timers[1..]), t);
      } else if q.tasks[id].startTime <= t {
        PromoteOk(q);
        AdvanceTimersEffect(Promote(q.(timers := q.timers[1..]), id), t);
      } else {
        forall x ensures !DueTimer(q, x, t) {
          if InQueue(q.timers, x) {
            var i :| 0 <= i < |q.timers| && q.timers[i].order == x;
            assert q.timers[i] in q.timers && (i == 0 || Leq(head, q.timers[i]));
          }
        }
      }
    }
  }

  // ---------- every operation keeps the invariant ----------

  lemma EnqueueOk(q: Queues, task: Task, delayed: bool)
    requires QueuesOk(q) && task.id !in q.tasks
    requires task.expirationTime == task.startTime + Timeout(task.priority)
    requires task.sortIndex == if delayed then task.startTime else task.expirationTime
    ensures QueuesOk(Enqueue(q, task, delayed))
    ensures Enqueue(q, task, delayed).tasks == q.tasks[task.id := task]
  {
    var entry := Entry(task.sortIndex, task.id);
    var after := Enqueue(q, task, delayed);
    var queue := if delayed then q.timers else q.ready;
    forall id | InQueue(q.timers, id) || InQueue(q.ready, id) ensures id in q.tasks {
      InQueueByMember(q.timers, id);
      InQueueByMember(q.ready, id);
    }
    InsertSorts(entry, queue);
    InsertDistinct(entry, queue);
    MembersOfInsert(entry, queue);
    forall id | id in after.tasks ensures TaskOk(after, id) {
      if id != task.id {
        assert TaskOk(q, id);
        InQueueByMember(q.timers, id);
      }
      InQueueByMember(after.timers, id);
    }
  }

  lemma ScheduleOk(s: State, priority: int, callback: Callback, delay: Option<Time>)
    requires StateOk(s)
    ensures StateOk(Schedule(s, priority, callback, delay))
  {
    var task := NewTask(s, priority, callback, delay);
    EnqueueOk(s.q, task, task.startTime > s.now);
  }

  lemma CancelOk(s: State, id: int)
    requires StateOk(s)
    ensures StateOk(Cancel(s, id))
  {
    if id in s.q.tasks {
      var after := Cancel(s, id).q;
      forall x | x in after.tasks ensures TaskOk(after, x) { assert TaskOk(s.q, x); }
    }
  }

  lemma AdvanceTimeOk(s: State, ms: Time)
    requires StateOk(s)
    ensures StateOk(AdvanceTime(s, ms))
  {
    AdvanceTimersEffect(s.q, s.now + ms);
    hide AdvanceTimers, QueuesOk, DueTimer;
  }

  lemma WithCallbackOk(q: Queues, id: int, callback: Callback)
    requires QueuesOk(q)
    requires callback.Null? || (id in q.tasks ==> q.tasks[id].sortIndex == q.tasks[id].expirationTime)
    ensures QueuesOk(WithCallback(q, id, callback)) && WithCallback(q, id, callback).tasks.Keys == q.tasks.Keys
  {
    var after := WithCallback(q, id, callback);
    forall x | x in q.tasks ensures TaskOk(after, x) { assert TaskOk(q, x); }
  }

  lemma PopReadyOk(q: Queues)
    requires QueuesOk(q) && q.ready != []
    ensures QueuesOk(q.(ready := q.ready[1..]))
  {
    var after := q.(ready := q.ready[1..]);
    forall x | x in q.tasks ensures TaskOk(after, x) { assert TaskOk(q, x); }
  }

  lemma WorkQueuesOk(q: Queues, step: WorkStep)
    requires QueuesOk(q)
    ensures QueuesOk(WorkQueues(q, step)) && WorkQueues(q, step).tasks.Keys == q.tasks.Keys
  {
    hide QueuesOk, AdvanceTimers, WithCallback;
    if step.AdvanceDueTimers? { AdvanceTimersEffect(q, step.due); }
    if step.TakeCallback? && q.ready != [] { WithCallbackOk(q, q.ready[0].order, Null); }
    if step.PopReady? && q.ready != [] { PopReadyOk(q); }
    if step.SetContinuation? && step.id in q.tasks && q.tasks[step.id].sortIndex == q.tasks[step.id].expirationTime {
      WithCallbackOk(q, step.id, step.callback);
    }
  }

  // Running tasks keeps the invariant too, creates and loses no task and leaves
  // the log and the clock to the tasks themselves.
  lemma WorkOk(s: State, step: WorkStep)
    requires StateOk(s)
    ensures var after := Work(s, step);
            StateOk(after) && after.q.tasks.Keys == s.q.tasks.Keys && after.yielded == s.yielded && after.now == s.now
  {
    hide QueuesOk, WorkQueues, Work;
    WorkFields(s, step);
    WorkQueuesOk(s.q, step);
  }

  lemma WorkFields(s: State, step: WorkStep)
    ensures var after := Work(s, step);
            && after.q == WorkQueues(s.q, step)
            && after.nextId == s.nextId && after.yielded == s.yielded && after.now == s.now
  {
    hide WorkQueues;
  }

  // ---------- promotion of a delayed task ----------

  // The wrapper's test for a task that still waits for a start in the future
  // (packages/scheduler/unstable_mock.js:3065-3082).
  predicate DelayedPending(s: State, id: int, now: Time) {
    && id in s.q.tasks
    && var task := s.q.tasks[id];
       task.callback.Function? && task.startTime > now && task.expirationTime > now && task.sortIndex == task.startTime
  }

  // What the promotion evidence demands after the clock was advanced to the
  // task's expiration (packages/scheduler/unstable_mock.js:3802-3808).
  predicate PromotedTo(before: State, after: State, id: int) {
    && id in before.q.tasks && id in after.q.tasks
    && var task, now' := before.q.tasks[id], after.q.tasks[id];
       && after.now == task.expirationTime
       && task.sortIndex == task.startTime
       && now'.sortIndex == task.expirationTime
       && now'.expirationTime <= after.now
       && now'.callback.Function?
       && after.callbackRequested
  }

  // A condition on the scheduler before the call: it is not silenced, a host
  // timeout is armed no later than the expiration, the task starts no later than
  // it expires, and a host callback is requested or can be.
  predicate CanPromote(s: State, id: int)
    requires id in s.q.tasks
  {
    var task := s.q.tasks[id];
    && !s.silenced
    && s.timeout.Some? && s.timeout.value <= task.expirationTime
    && task.priority != IMMEDIATE
    && (s.callbackRequested || !s.isHostCallbackScheduled)
  }

  // Advancing the clock to a delayed task's expiration makes it expired work
  // exactly when CanPromote holds.
  lemma PromotionExactly(s: State, id: int)
    requires StateOk(s) && DelayedPending(s, id, s.now)
    ensures PromotedTo(s, AdvanceTime(s, s.q.tasks[id].expirationTime - s.now), id) <==> CanPromote(s, id)
  {
    var task := s.q.tasks[id];
    var t := task.expirationTime;
    assert TaskOk(s.q, id);
    TimeoutIsNotZero(task.priority);
    AdvanceTimersEffect(s.q, t);
    var after := AdvanceTimers(s.q, t);
    assert DueTimer(s.q, id, t) <==> task.startTime <= t;
    assert s.now + (t - s.now) == t;
    hide AdvanceTimers;
    if task.startTime <= t {
      assert InQueue(after.ready, id);
      assert after.ready != [];
    }
  }

  // Nothing but the queues' bookkeeping changes while the clock is advanced:
  // callbacks, starts and expirations stay.
  lemma AdvanceKeepsTasks(s: State, ms: Time)
    requires StateOk(s)
    ensures var after := AdvanceTime(s, ms);
            after.q.tasks.Keys == s.q.tasks.Keys
            && forall id :: id in s.q.tasks ==>
                 after.q.tasks[id] == s.q.tasks[id].(sortIndex := after.q.tasks[id].sortIndex)
  {
    AdvanceTimersEffect(s.q, s.now + ms);
    hide AdvanceTimers, QueuesOk, DueTimer;
  }
}
