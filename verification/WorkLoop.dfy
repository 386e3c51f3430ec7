// The mock scheduler's work loop
// (packages/scheduler/cjs/scheduler-unstable_mock.production.js:165-226): which
// tasks it calls, and in which order.
//
// A task's callback is arbitrary code on the scheduler's state.  Such code may
// schedule tasks for ever, so a trace covers a number of rounds.
module WorkLoop {
  import opened TaskHeap
  import opened MockScheduler
  import opened SchedulerLaws

  datatype Effect =
    | Returned(after: State)                           // no continuation
    | Continued(after: State, continuation: Callback)
    | Threw(after: State)

  // Given the task, whether it has expired, and the state it finds.
  type Body = (int, bool, State) -> Effect

  // `hasTimeRemaining`, shouldYieldForPaint, and shouldYieldToHost
  datatype Mode = Mode(hasTime: bool, paints: bool, stops: State -> bool)

  // A call, with the state before it and the loop's current time.
  datatype Call = Call(task: int, state: State, time: Time)

  datatype End = Drained | HasMore | Aborted | Unfinished

  datatype Trace = Trace(calls: seq<Call>, after: State, end: End)

  predicate HasNext(s: State) {
    s.q.ready != [] && s.q.ready[0].order in s.q.tasks
  }

  // The task is popped if it is still the first one.
  function Finished(s: State, id: int): State {
    if s.q.ready != [] && s.q.ready[0].order == id then Work(s, PopReady) else s
  }

  // workLoop, from its loop on
  function Loop(s: State, time: Time, mode: Mode, body: Body, n: nat): Trace
    decreases n
  {
    if n == 0 then Trace([], s, Unfinished)
    else if !HasNext(s) then Trace([], Work(s, RequestNextTimeout(time)), Drained)
    else
      var id := s.q.ready[0].order;
      var task := s.q.tasks[id];
      if task.expirationTime > time && (!mode.hasTime || mode.stops(s)) then Trace([], s, HasMore)
      else if !task.callback.Function? then Loop(Work(s, PopReady), time, mode, body, n - 1)
      else
        var call := Call(id, s, time);
        match body(id, task.expirationTime <= time, Work(s, TakeCallback))
        case Threw(after) => Trace([call], after, Aborted)
        case Continued(after, k) =>
          var next := Work(Work(after, SetContinuation(id, k)), AdvanceDueTimers(after.now));
          if mode.paints then Trace([call], next, HasMore) else After(call, Loop(next, after.now, mode, body, n - 1))
        case Returned(after) =>
          After(call, Loop(Work(Finished(after, id), AdvanceDueTimers(after.now)), after.now, mode, body, n - 1))
  }

  function After(call: Call, rest: Trace): Trace {
    rest.(calls := [call] + rest.calls)
  }

  // flushWork
  function FlushWork(s: State, time: Time, mode: Mode, body: Body, n: nat): Trace {
    var trace := Loop(Work(Work(s, EnterWork), AdvanceDueTimers(time)), time, mode, body, n);
    trace.(after := Work(trace.after, LeaveWork))
  }

  // ---------- every call ----------

  ghost predicate KeepsScheduler(body: Body) {
    forall id, expired, s :: StateOk(s) ==> StateOk(body(id, expired, s).after)
  }

  // The task called is live, has expired unless time remains, and no ready task
  // comes before it by (expiration, id).
  ghost predicate CallsTheFirst(call: Call, mode: Mode) {
    var q := call.state.q;
    && HasNext(call.state) && q.ready[0].order == call.task && q.tasks[call.task].callback.Function?
    && (q.tasks[call.task].expirationTime <= call.time || mode.hasTime)
    && forall e :: e in q.ready ==>
         && e.order in q.tasks
         && Leq(Entry(q.tasks[call.task].expirationTime, call.task), Entry(q.tasks[e.order].expirationTime, e.order))
  }

  lemma {:induction false} LoopCallsTheFirst(s: State, time: Time, mode: Mode, body: Body, n: nat)
    requires StateOk(s) && KeepsScheduler(body)
    ensures var trace := Loop(s, time, mode, body, n);
            StateOk(trace.after) && forall i :: 0 <= i < |trace.calls| ==> CallsTheFirst(trace.calls[i], mode)
    decreases n
  {
    hide Work, QueuesOk, CallsTheFirst;
    if n > 0 {
      WorkOk(s, RequestNextTimeout(time));
      if HasNext(s) {
        var id := s.q.ready[0].order;
        var task := s.q.tasks[id];
        if task.expirationTime > time && (!mode.hasTime || mode.stops(s)) {
        } else if !task.callback.Function? {
          WorkOk(s, PopReady);
          LoopCallsTheFirst(Work(s, PopReady), time, mode, body, n - 1);
        } else {
          FirstIsCalled(s, time, mode);
          WorkOk(s, TakeCallback);
          var effect := body(id, task.expirationTime <= time, Work(s, TakeCallback));
          if effect.Continued? {
            NextRound(Work(effect.after, SetContinuation(id, effect.continuation)), effect.after, id, effect.continuation);
            var next := Work(Work(effect.after, SetContinuation(id, effect.continuation)), AdvanceDueTimers(effect.after.now));
            LoopCallsTheFirst(next, effect.after.now, mode, body, n - 1);
          } else if effect.Returned? {
            NextRound(Finished(effect.after, id), effect.after, id, Null);
            var next := Work(Finished(effect.after, id), AdvanceDueTimers(effect.after.now));
            LoopCallsTheFirst(next, effect.after.now, mode, body, n - 1);
          }
        }
      }
    }
  }

  lemma FirstIsCalled(s: State, time: Time, mode: Mode)
    requires StateOk(s) && HasNext(s)
    requires var task := s.q.tasks[s.q.ready[0].order];
             task.callback.Function? && (task.expirationTime <= time || mode.hasTime)
    ensures CallsTheFirst(Call(s.q.ready[0].order, s, time), mode)
  {
    var head := s.q.ready[0];
    forall e | e in s.q.ready ensures Leq(head, e) {
      var i :| 0 <= i < |s.q.ready| && s.q.ready[i] == e;
      if i == 0 { LeqTotalOrder(head, head, head); }
    }
    assert head in s.q.ready;
  }

  lemma NextRound(s: State, after: State, id: int, k: Callback)
    requires StateOk(after) && (s == Finished(after, id) || s == Work(after, SetContinuation(id, k)))
    ensures StateOk(Work(s, AdvanceDueTimers(after.now)))
  {
    hide Work, StateOk;
    WorkOk(after, PopReady);
    WorkOk(after, SetContinuation(id, k));
    WorkOk(s, AdvanceDueTimers(after.now));
  }

  // In numbers: every other ready task expires later, or at the same time and has a
  // greater id.
  lemma CalledFirst(call: Call, mode: Mode, e: Entry)
    requires CallsTheFirst(call, mode) && e in call.state.q.ready
    ensures var tasks := call.state.q.tasks;
            && call.task in tasks && e.order in tasks
            && (tasks[call.task].expirationTime < tasks[e.order].expirationTime
                || (tasks[call.task].expirationTime == tasks[e.order].expirationTime && call.task <= e.order))
  {
    var tasks := call.state.q.tasks;
    LeqExactly(Entry(tasks[call.task].expirationTime, call.task), Entry(tasks[e.order].expirationTime, e.order));
  }

  // Every flush, whatever its callbacks do to the scheduler through its own
  // operations: each call takes the first live task.
  lemma FlushCallsTheFirst(s: State, time: Time, mode: Mode, body: Body, n: nat)
    requires StateOk(s) && KeepsScheduler(body)
    ensures var trace := FlushWork(s, time, mode, body, n);
            StateOk(trace.after) && forall i :: 0 <= i < |trace.calls| ==> CallsTheFirst(trace.calls[i], mode)
  {
    hide Work, StateOk, Loop, CallsTheFirst;
    WorkOk(s, EnterWork);
    WorkOk(Work(s, EnterWork), AdvanceDueTimers(time));
    var ready := Work(Work(s, EnterWork), AdvanceDueTimers(time));
    LoopCallsTheFirst(ready, time, mode, body, n);
    WorkOk(Loop(ready, time, mode, body, n).after, LeaveWork);
  }

  // ---------- all calls together ----------

  // The live tasks that have expired, in pop order.
  function ExpiredTasks(q: Queues, time: Time): seq<int>
    decreases |q.ready|
  {
    if q.ready == [] || q.ready[0].order !in q.tasks || q.tasks[q.ready[0].order].expirationTime > time then []
    else
      var id := q.ready[0].order;
      (if q.tasks[id].callback.Function? then [id] else []) + ExpiredTasks(q.(ready := q.ready[1..]), time)
  }

  function Tasks(calls: seq<Call>): seq<int> {
    seq(|calls|, i requires 0 <= i < |calls| => calls[i].task)
  }

  // Callbacks that leave queues and clock alone, such as ones that only log.
  ghost predicate LeavesQueues(body: Body) {
    forall id, expired, s ::
      var r := body(id, expired, s); r.Returned? && r.after.q == s.q && r.after.now == s.now
  }

  // No live timer is due.
  ghost predicate NothingDue(q: Queues, time: Time) {
    forall e :: e in q.timers ==> e.order in q.tasks && (q.tasks[e.order].callback.Null? || q.tasks[e.order].startTime > time)
  }

  lemma {:induction false} NothingDueKeeps(q: Queues, time: Time)
    requires NothingDue(q, time)
    ensures var after := AdvanceTimers(q, time);
            after.ready == q.ready && after.tasks == q.tasks && NothingDue(after, time)
    decreases |q.timers|
  {
    if q.timers != [] {
      var rest := q.(timers := q.timers[1..]);
      assert q.timers[0] in q.timers;
      assert NothingDue(rest, time);
      if q.tasks[q.timers[0].order].callback.Null? { NothingDueKeeps(rest, time); }
    }
  }

  // The expired tasks do not depend on the callbacks of tasks outside the queue.
  lemma {:induction false} SameExpired(q: Queues, r: Queues, time: Time)
    requires q.ready == r.ready
    requires forall e :: e in q.ready ==> e.order in q.tasks && e.order in r.tasks && q.tasks[e.order] == r.tasks[e.order]
    ensures ExpiredTasks(q, time) == ExpiredTasks(r, time)
    decreases |q.ready|
  {
    if q.ready != [] {
      assert q.ready[0] in q.ready;
      SameExpired(q.(ready := q.ready[1..]), r.(ready := r.ready[1..]), time);
    }
  }

  // What a round needs of the queues.
  ghost predicate Settled(q: Queues) {
    DistinctOrders(q.ready) && forall e :: e in q.ready ==> e.order in q.tasks
  }

  // A flush of expired work, with callbacks that leave the queues alone, calls
  // exactly the live expired tasks, each once, in order.
  lemma {:induction false} ExpiredLoopCalls(s: State, mode: Mode, body: Body, n: nat)
    requires Settled(s.q) && NothingDue(s.q, s.now) && LeavesQueues(body) && !mode.hasTime && n > |s.q.ready|
    ensures Tasks(Loop(s, s.now, mode, body, n).calls) == ExpiredTasks(s.q, s.now)
    ensures Loop(s, s.now, mode, body, n).end in {Drained, HasMore}
    decreases n
  {
    if HasNext(s) {
      assert s.q.ready[0] in s.q.ready;
      var id := s.q.ready[0].order;
      var task := s.q.tasks[id];
      if task.expirationTime <= s.now {
        var next := if task.callback.Function? then Popped(s, body) else Work(s, PopReady);
        PoppedQueues(s, body);
        PopQueues(s);
        ExpiredLoopCalls(next, mode, body, n - 1);
        SameExpired(s.q.(ready := s.q.ready[1..]), next.q, s.now);
        hide Work, ExpiredTasks, Settled, NothingDue;
        if task.callback.Function? {
          OneMoreCall(Call(id, s, s.now), Loop(next, s.now, mode, body, n - 1));
          LoopStep(s, mode, body, n);
        }
        ExpiredStep(s.q, s.now);
      }
    }
  }

  // The state after one round of a task that returns.
  function Popped(s: State, body: Body): State
    requires HasNext(s)
  {
    var id := s.q.ready[0].order;
    var after := body(id, s.q.tasks[id].expirationTime <= s.now, Work(s, TakeCallback)).after;
    Work(Finished(after, id), AdvanceDueTimers(after.now))
  }

  lemma LoopStep(s: State, mode: Mode, body: Body, n: nat)
    requires HasNext(s) && LeavesQueues(body) && n > 0
    requires var task := s.q.tasks[s.q.ready[0].order]; task.callback.Function? && task.expirationTime <= s.now
    ensures Loop(s, s.now, mode, body, n)
            == After(Call(s.q.ready[0].order, s, s.now), Loop(Popped(s, body), s.now, mode, body, n - 1))
  {
    WorkFields(s, TakeCallback);
    hide Work, Finished;
  }

  lemma ExpiredStep(q: Queues, time: Time)
    requires q.ready != [] && q.ready[0].order in q.tasks && q.tasks[q.ready[0].order].expirationTime <= time
    ensures var id := q.ready[0].order;
            ExpiredTasks(q, time)
            == (if q.tasks[id].callback.Function? then [id] else []) + ExpiredTasks(q.(ready := q.ready[1..]), time)
  {
  }

  lemma OneMoreCall(call: Call, rest: Trace)
    ensures Tasks(After(call, rest).calls) == [call.task] + Tasks(rest.calls)
  {
  }

  lemma PopQueues(s: State)
    requires HasNext(s) && Settled(s.q) && NothingDue(s.q, s.now)
    ensures var next := Work(s, PopReady);
            && next.now == s.now && next.q == s.q.(ready := s.q.ready[1..])
            && Settled(next.q) && NothingDue(next.q, s.now)
  {
    WorkFields(s, PopReady);
    hide Work;
  }

  lemma PoppedQueues(s: State, body: Body)
    requires HasNext(s) && Settled(s.q) && NothingDue(s.q, s.now) && LeavesQueues(body)
    ensures var next, id := Popped(s, body), s.q.ready[0].order;
            && next.now == s.now && next.q.ready == s.q.ready[1..]
            && next.q.tasks == s.q.tasks[id := s.q.tasks[id].(callback := Null)]
            && Settled(next.q) && NothingDue(next.q, s.now)
  {
    var id := s.q.ready[0].order;
    WorkFields(s, TakeCallback);
    var taken := Work(s, TakeCallback);
    var after := body(id, s.q.tasks[id].expirationTime <= s.now, taken).after;
    WorkFields(after, PopReady);
    var finished := Finished(after, id);
    WorkFields(finished, AdvanceDueTimers(after.now));
    hide Work;
    assert finished.q == taken.q.(ready := s.q.ready[1..]);
    NothingDueKeeps(finished.q, s.now);
  }

  // Exactly the live expired tasks are among them.
  lemma {:induction false} ExpiredMembers(q: Queues, time: Time)
    requires QueuesOk(q)
    ensures forall id :: id in ExpiredTasks(q, time) <==>
              InQueue(q.ready, id) && id in q.tasks && q.tasks[id].callback.Function? && q.tasks[id].expirationTime <= time
    decreases |q.ready|
  {
    if q.ready != [] {
      var head := q.ready[0];
      assert head in q.ready;
      FirstExpiresFirst(q);
      PopReadyOk(q);
      TailOrders(q.ready);
      ExpiredMembers(q.(ready := q.ready[1..]), time);
      assert InQueue(q.ready, head.order);
      hide QueuesOk, Leq, InQueue;
      if q.tasks[head.order].expirationTime > time {
        forall id | InQueue(q.ready, id) ensures q.tasks[id].expirationTime > time {
          LaterExpires(head, q.tasks[id].expirationTime, id, time);
        }
      }
    }
  }

  lemma FirstExpiresFirst(q: Queues)
    requires QueuesOk(q) && q.ready != []
    ensures forall id :: InQueue(q.ready, id) ==>
              id in q.tasks && Leq(q.ready[0], Entry(q.tasks[id].expirationTime, id))
    ensures q.ready[0].order in q.tasks && q.ready[0] == Entry(q.tasks[q.ready[0].order].expirationTime, q.ready[0].order)
  {
    var head := q.ready[0];
    forall id | InQueue(q.ready, id) ensures id in q.tasks && Leq(head, Entry(q.tasks[id].expirationTime, id)) {
      var i :| 0 <= i < |q.ready| && q.ready[i].order == id;
      assert q.ready[i] in q.ready && ReadyEntry(q.tasks, q.ready[i]);
      if i == 0 { LeqTotalOrder(head, head, head); }
    }
    assert head in q.ready && ReadyEntry(q.tasks, head);
  }

  // Each once, and sorted by (expiration, id).
  ghost predicate InOrder(tasks: map<int, Task>, ids: seq<int>) {
    forall i, j :: 0 <= i < j < |ids| ==>
      && ids[i] in tasks && ids[j] in tasks && ids[i] != ids[j]
      && Leq(Entry(tasks[ids[i]].expirationTime, ids[i]), Entry(tasks[ids[j]].expirationTime, ids[j]))
  }

  lemma {:induction false} ExpiredInOrder(q: Queues, time: Time)
    requires QueuesOk(q)
    ensures InOrder(q.tasks, ExpiredTasks(q, time))
    decreases |q.ready|
  {
    if q.ready != [] && q.ready[0].order in q.tasks && q.tasks[q.ready[0].order].expirationTime <= time {
      var rest := q.(ready := q.ready[1..]);
      FirstExpiresFirst(q);
      PopReadyOk(q);
      TailOrders(q.ready);
      ExpiredInOrder(rest, time);
      ExpiredMembers(rest, time);
      ExpiredStep(q, time);
      hide QueuesOk, Leq, InQueue, ExpiredTasks;
      if q.tasks[q.ready[0].order].callback.Function? {
        PrependInOrder(q.tasks, q.ready[0].order, ExpiredTasks(rest, time));
      } else {
        assert [] + ExpiredTasks(rest, time) == ExpiredTasks(rest, time);
      }
    }
  }

  lemma PrependInOrder(tasks: map<int, Task>, id: int, ids: seq<int>)
    requires InOrder(tasks, ids) && id in tasks
    requires forall x :: x in ids ==>
               x in tasks && x != id && Leq(Entry(tasks[id].expirationTime, id), Entry(tasks[x].expirationTime, x))
    ensures InOrder(tasks, [id] + ids)
  {
    var all := [id] + ids;
    forall i | 0 <= i < |all| ensures all[i] in tasks {
      if i > 0 { assert all[i] == ids[i - 1] && ids[i - 1] in ids; }
    }
    forall i, j | 0 <= i < j < |all|
      ensures all[i] != all[j]
      ensures Leq(Entry(tasks[all[i]].expirationTime, all[i]), Entry(tasks[all[j]].expirationTime, all[j]))
    {
      assert all[j] == ids[j - 1] && ids[j - 1] in ids;
      if i > 0 { assert all[i] == ids[i - 1]; }
    }
    assert InOrder(tasks, all);
  }

  // In numbers: earlier expirations come first, and among equal ones smaller ids.
  lemma ExpiredOrder(q: Queues, time: Time, i: nat, j: nat)
    requires QueuesOk(q) && i < j < |ExpiredTasks(q, time)|
    ensures var ids := ExpiredTasks(q, time);
            && ids[i] in q.tasks && ids[j] in q.tasks
            && (q.tasks[ids[i]].expirationTime < q.tasks[ids[j]].expirationTime
                || (q.tasks[ids[i]].expirationTime == q.tasks[ids[j]].expirationTime && ids[i] < ids[j]))
  {
    var ids := ExpiredTasks(q, time);
    ExpiredInOrder(q, time);
    LeqExactly(Entry(q.tasks[ids[i]].expirationTime, ids[i]), Entry(q.tasks[ids[j]].expirationTime, ids[j]));
  }

  lemma LaterExpires(head: Entry, expiration: Time, id: int, time: Time)
    requires Leq(head, Entry(expiration, id)) && head.sortIndex > time
    ensures expiration > time
  {
  }
}
