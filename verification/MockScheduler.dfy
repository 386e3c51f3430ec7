// The mock scheduler that the wrapper observes
// (packages/scheduler/cjs/scheduler-unstable_mock.production.js): its two task
// queues, host timeout and virtual clock.  Times are exact reals.
//
// The class works on heaps in place.  Its methods are specified by functions on a
// value in which each queue is listed in pop order.
module MockScheduler {
  import opened Wrappers
  import opened TaskHeap

  type Time = real

  const IMMEDIATE := 1
  const USER_BLOCKING := 2
  const NORMAL := 3
  const LOW := 4
  const IDLE := 5

  function Timeout(priority: int): Time {
    if priority == IMMEDIATE then -1.0
    else if priority == USER_BLOCKING then 250.0
    else if priority == IDLE then 1073741823.0
    else if priority == LOW then 10000.0
    else 5000.0
  }

  // task.callback: null, a function, or something else
  datatype Callback = Null | Function(id: nat) | NotCallable

  datatype Task = Task(id: int, callback: Callback, priority: int, startTime: Time, expirationTime: Time, sortIndex: Time)

  // The task objects and the two queues.
  datatype Queues = Queues(tasks: map<int, Task>, ready: seq<Entry>, timers: seq<Entry>)

  // `timeout` is the host timeout's time when one is requested;
  // `callbackRequested` says that a host callback is.
  datatype State = State(
    now: Time, nextId: nat, q: Queues,
    timeout: Option<Time>, callbackRequested: bool,
    isHostCallbackScheduled: bool, isHostTimeoutScheduled: bool, isPerformingWork: bool,
    isFlushing: bool, silenced: bool, yielded: seq<nat>)

  const INITIAL := State(0.0, 1, Queues(map[], [], []), None, false, false, false, false, false, false, [])

  // Queue entries name tasks.
  predicate Named(q: Queues) {
    && (forall i :: 0 <= i < |q.ready| ==> q.ready[i].order in q.tasks.Keys)
    && (forall i :: 0 <= i < |q.timers| ==> q.timers[i].order in q.tasks.Keys)
  }

  // ---------- the operations, by reference ----------

  // Moving a due timer to the ready queue.
  function Promote(q: Queues, id: int): Queues
    requires id in q.tasks
  {
    var timer := q.tasks[id];
    q.(tasks := q.tasks[id := timer.(sortIndex := timer.expirationTime)],
       ready := Insert(Entry(timer.expirationTime, id), q.ready))
  }

  function AdvanceTimers(q: Queues, t: Time): Queues
    decreases |q.timers|
  {
    if q.timers == [] || q.timers[0].order !in q.tasks then q
    else
      var id, rest := q.timers[0].order, q.timers[1..];
      if q.tasks[id].callback.Null? then AdvanceTimers(q.(timers := rest), t)
      else if q.tasks[id].startTime <= t then AdvanceTimers(Promote(q.(timers := rest), id), t)
      else q
  }

  function RequestTimeout(s: State, ms: Time): State {
    s.(timeout := Some(s.now + ms))
  }

  function HandleTimeout(s: State, t: Time): State {
    var s1 := s.(isHostTimeoutScheduled := false, q := AdvanceTimers(s.q, t));
    if s1.isHostCallbackScheduled then s1
    else if s1.q.ready != [] then s1.(isHostCallbackScheduled := true, callbackRequested := true)
    else if s1.q.timers != [] && s1.q.timers[0].order in s1.q.tasks then
      RequestTimeout(s1, s1.q.tasks[s1.q.timers[0].order].startTime - t)
    else s1
  }

  function AdvanceTime(s: State, ms: Time): State {
    if s.silenced then s
    else
      var s1 := s.(now := s.now + ms);
      if s1.timeout.Some? && s1.timeout.value <= s1.now then HandleTimeout(s1, s1.now).(timeout := None)
      else s1
  }

  // `delay` is None when the options carry no positive delay.
  function NewTask(s: State, priority: int, callback: Callback, delay: Option<Time>): Task {
    var startTime := if delay.Some? && delay.value > 0.0 then s.now + delay.value else s.now;
    var expirationTime := startTime + Timeout(priority);
    Task(s.nextId, callback, priority, startTime, expirationTime,
         if startTime > s.now then startTime else expirationTime)
  }

  function Enqueue(q: Queues, task: Task, delayed: bool): Queues {
    var entry := Entry(task.sortIndex, task.id);
    var tasks := q.tasks[task.id := task];
    if delayed then Queues(tasks, q.ready, Insert(entry, q.timers))
    else Queues(tasks, Insert(entry, q.ready), q.timers)
  }

  // The host timeout is (re)requested only for the next timer of a scheduler
  // without ready tasks.
  function ArmTimeout(s: State, timer: Entry, ms: Time): State {
    if s.q.ready == [] && s.q.timers != [] && s.q.timers[0] == timer then
      RequestTimeout(s.(isHostTimeoutScheduled := true), ms)
    else s
  }

  function RequestCallback(s: State): State {
    if !s.isHostCallbackScheduled && !s.isPerformingWork then
      s.(isHostCallbackScheduled := true, callbackRequested := true)
    else s
  }

  function Schedule(s: State, priority: int, callback: Callback, delay: Option<Time>): State {
    var task := NewTask(s, priority, callback, delay);
    var delayed := task.startTime > s.now;
    var s1 := s.(nextId := s.nextId + 1, q := Enqueue(s.q, task, delayed));
    if delayed then ArmTimeout(s1, Entry(task.sortIndex, task.id), task.startTime - s.now)
    else RequestCallback(s1)
  }

  function Cancel(s: State, id: int): State {
    if id in s.q.tasks then s.(q := s.q.(tasks := s.q.tasks[id := s.q.tasks[id].(callback := Null)])) else s
  }

  function Log(s: State, value: nat): State {
    if s.silenced then s else s.(yielded := s.yielded + [value])
  }

  function ClearLog(s: State): State {
    s.(yielded := [])
  }

  // reset throws while flushing; it leaves both queues and the two "scheduled"
  // flags alone.
  function Reset(s: State): State {
    if s.isFlushing then s
    else s.(now := 0.0, callbackRequested := false, timeout := None, yielded := [])
  }

  // ---------- running tasks, step by step ----------

  // What the flush functions and the work loop do to the scheduler between the
  // calls that the running tasks themselves make.
  datatype WorkStep =
    | BeginFlush
    | EnterWork                            // flushWork's entry
    | TakeCallback                         // the next task's callback is taken to be called
    | SetContinuation(id: int, callback: Callback)
    | PopReady
    | AdvanceDueTimers(due: Time)
    | RequestNextTimeout(at: Time)
    | LeaveWork
    | EndFlush(hasMoreWork: bool)

  function WithCallback(q: Queues, id: int, callback: Callback): Queues {
    if id in q.tasks then q.(tasks := q.tasks[id := q.tasks[id].(callback := callback)]) else q
  }

  function WorkQueues(q: Queues, step: WorkStep): Queues {
    match step
    case TakeCallback => if q.ready == [] then q else WithCallback(q, q.ready[0].order, Null)
    case SetContinuation(id, callback) =>
      // the task that ran came from the ready queue
      if id in q.tasks && q.tasks[id].sortIndex == q.tasks[id].expirationTime then WithCallback(q, id, callback) else q
    case PopReady => if q.ready == [] then q else q.(ready := q.ready[1..])
    case AdvanceDueTimers(t) => AdvanceTimers(q, t)
    case _ => q
  }

  function WorkTimeout(s: State, step: WorkStep): Option<Time> {
    if step.EnterWork? && s.isHostTimeoutScheduled then None
    else if step.RequestNextTimeout? && s.q.timers != [] && s.q.timers[0].order in s.q.tasks then
      Some(s.now + (s.q.tasks[s.q.timers[0].order].startTime - step.at))
    else s.timeout
  }

  function Work(s: State, step: WorkStep): State {
    s.(q := WorkQueues(s.q, step),
       timeout := WorkTimeout(s, step),
       callbackRequested := s.callbackRequested && (step.EndFlush? ==> step.hasMoreWork),
       isHostCallbackScheduled := s.isHostCallbackScheduled && !step.EnterWork?,
       isHostTimeoutScheduled := s.isHostTimeoutScheduled && !step.EnterWork?,
       isPerformingWork := step.EnterWork? || (s.isPerformingWork && !step.LeaveWork?),
       isFlushing := (step.BeginFlush? && s.callbackRequested) || (s.isFlushing && !step.EndFlush?))
  }

  lemma InsertNamed(e: Entry, queue: seq<Entry>, ids: set<int>)
    requires e.order in ids && forall i :: 0 <= i < |queue| ==> queue[i].order in ids
    ensures forall i :: 0 <= i < |Insert(e, queue)| ==> Insert(e, queue)[i].order in ids
  {
    InsertMembers(e, queue);
    forall i | 0 <= i < |Insert(e, queue)| ensures Insert(e, queue)[i].order in ids {
      assert Insert(e, queue)[i] in multiset(queue) + multiset{e};
    }
  }

  // ---------- the class ----------

  class Scheduler {
    var now: Time
    var nextId: nat
    var tasks: map<int, Task>
    const taskQueue: MinHeap
    const timerQueue: MinHeap
    var timeout: Option<Time>
    var callbackRequested: bool
    var isHostCallbackScheduled: bool
    var isHostTimeoutScheduled: bool
    var isPerformingWork: bool
    var isFlushing: bool
    var silenced: bool
    var yielded: seq<nat>

    constructor ()
      ensures Valid() && Abs() == INITIAL
      ensures fresh(taskQueue) && fresh(timerQueue)
    {
      now, nextId, tasks := 0.0, 1, map[];
      taskQueue := new MinHeap();
      timerQueue := new MinHeap();
      timeout, callbackRequested, isHostCallbackScheduled := None, false, false;
      isHostTimeoutScheduled, isPerformingWork, isFlushing, silenced, yielded := false, false, false, false, [];
    }

    ghost predicate Valid()
      reads this`tasks, taskQueue, timerQueue
    {
      taskQueue != timerQueue && taskQueue.Valid() && timerQueue.Valid() && Named(AbsQueues())
    }

    ghost function AbsQueues(): Queues
      reads this`tasks, taskQueue, timerQueue
    {
      Queues(tasks, Sorted(taskQueue.nodes), Sorted(timerQueue.nodes))
    }

    ghost function Abs(): State
      reads this, taskQueue, timerQueue
    {
      State(now, nextId, AbsQueues(), timeout, callbackRequested,
            isHostCallbackScheduled, isHostTimeoutScheduled, isPerformingWork, isFlushing, silenced, yielded)
    }

    method AdvanceTimersTo(currentTime: Time)
      requires Valid()
      modifies this`tasks, taskQueue, timerQueue
      ensures Valid() && AbsQueues() == AdvanceTimers(old(AbsQueues()), currentTime)
    {
      hide Sorted, Insert, Leq, Compare, Ordered;
      var first := timerQueue.Peek();
      while first.Some?
        invariant Valid()
        invariant first == if timerQueue.nodes == [] then None else Some(timerQueue.nodes[0])
        invariant AdvanceTimers(AbsQueues(), currentTime) == AdvanceTimers(old(AbsQueues()), currentTime)
        decreases |timerQueue.nodes|
      {
        RootIsFirst(timerQueue.nodes);
        ghost var q := AbsQueues();
        var id := first.value.order;
        assert id == q.timers[0].order && id in q.tasks.Keys;
        var timer := tasks[id];
        if timer.callback.Null? {
          var _ := timerQueue.Pop();
          assert AbsQueues() == q.(timers := q.timers[1..]);
        } else if timer.startTime <= currentTime {
          var _ := timerQueue.Pop();
          InsertNamed(Entry(timer.expirationTime, id), q.ready, q.tasks.Keys);
          tasks := tasks[id := timer.(sortIndex := timer.expirationTime)];
          taskQueue.Push(Entry(timer.expirationTime, id));
          assert AbsQueues() == Promote(q.(timers := q.timers[1..]), id);
        } else {
          return;
        }
        first := timerQueue.Peek();
      }
      RootIsFirst(timerQueue.nodes);
    }

    method HandleTimeoutAt(currentTime: Time)
      requires Valid()
      modifies this, taskQueue, timerQueue
      ensures Valid() && Abs() == HandleTimeout(old(Abs()), currentTime)
    {
      hide AdvanceTimers, Sorted, Insert, Leq, Compare, Ordered, IsSorted;
      isHostTimeoutScheduled := false;
      AdvanceTimersTo(currentTime);
      if !isHostCallbackScheduled {
        RootIsFirst(taskQueue.nodes);
        RootIsFirst(timerQueue.nodes);
        var firstTask := taskQueue.Peek();
        if firstTask.Some? {
          isHostCallbackScheduled := true;
          callbackRequested := true;
        } else {
          var firstTimer := timerQueue.Peek();
          if firstTimer.Some? {
            assert firstTimer.value == AbsQueues().timers[0];
            timeout := Some(now + (tasks[firstTimer.value.order].startTime - currentTime));
          }
        }
      }
    }

    method UnstableAdvanceTime(ms: Time)
      requires Valid()
      modifies this, taskQueue, timerQueue
      ensures Valid() && Abs() == AdvanceTime(old(Abs()), ms)
    {
      hide HandleTimeout, Sorted, Ordered, Named;
      if silenced { return; }
      now := now + ms;
      if timeout.Some? && timeout.value <= now {
        HandleTimeoutAt(now);
        timeout := None;
      }
    }

    method UnstableScheduleCallback(priority: int, callback: Callback, delay: Option<Time>) returns (id: int)
      requires Valid()
      modifies this, taskQueue, timerQueue
      ensures Valid() && Abs() == Schedule(old(Abs()), priority, callback, delay)
      ensures id == old(nextId)
    {
      hide Sorted, Timeout, Enqueue, Named, Ordered, ArmTimeout, AbsQueues;
      var currentTime := now;
      var startTime := if delay.Some? && delay.value > 0.0 then currentTime + delay.value else currentTime;
      var expirationTime := startTime + Timeout(priority);
      id := nextId;
      nextId := nextId + 1;
      if startTime > currentTime {
        EnqueueTask(Task(id, callback, priority, startTime, expirationTime, startTime), true);
        RequestHostTimeoutFor(Entry(startTime, id), startTime - currentTime);
      } else {
        EnqueueTask(Task(id, callback, priority, startTime, expirationTime, expirationTime), false);
        if !isHostCallbackScheduled && !isPerformingWork {
          isHostCallbackScheduled := true;
          callbackRequested := true;
        }
      }
    }

    method RequestHostTimeoutFor(timer: Entry, ms: Time)
      requires Valid()
      modifies this`timeout, this`isHostTimeoutScheduled
      ensures Valid() && Abs() == ArmTimeout(old(Abs()), timer, ms)
    {
      RootIsFirst(taskQueue.nodes);
      RootIsFirst(timerQueue.nodes);
      hide Sorted, Named, Ordered;
      var firstTask := taskQueue.Peek();
      var firstTimer := timerQueue.Peek();
      if firstTask.None? && firstTimer == Some(timer) {
        if isHostTimeoutScheduled {
          timeout := None;
        } else {
          isHostTimeoutScheduled := true;
        }
        timeout := Some(now + ms);
      }
    }

    method EnqueueTask(task: Task, delayed: bool)
      requires Valid()
      modifies this`tasks, taskQueue, timerQueue
      ensures Valid() && AbsQueues() == Enqueue(old(AbsQueues()), task, delayed)
    {
      hide Sorted, Insert, Leq, Compare, Ordered;
      ghost var q := AbsQueues();
      var entry := Entry(task.sortIndex, task.id);
      tasks := tasks[task.id := task];
      InsertNamed(entry, q.timers, tasks.Keys);
      InsertNamed(entry, q.ready, tasks.Keys);
      if delayed { timerQueue.Push(entry); } else { taskQueue.Push(entry); }
    }

    method UnstableCancelCallback(id: int)
      requires Valid() && id in tasks
      modifies this`tasks
      ensures Valid() && Abs() == Cancel(old(Abs()), id)
    {
      tasks := tasks[id := tasks[id].(callback := Null)];
    }

    method LogValue(value: nat)
      requires Valid()
      modifies this`yielded
      ensures Valid() && Abs() == Log(old(Abs()), value)
    {
      if silenced { return; }
      yielded := yielded + [value];
    }

    method UnstableClearLog() returns (values: seq<nat>)
      requires Valid()
      modifies this`yielded
      ensures Valid() && Abs() == ClearLog(old(Abs())) && values == old(yielded)
    {
      values := yielded;
      yielded := [];
    }

    method ResetAll() returns (threw: bool)
      requires Valid()
      modifies this`now, this`callbackRequested, this`timeout, this`yielded
      ensures Valid() && Abs() == Reset(old(Abs())) && threw == old(isFlushing)
    {
      if isFlushing { return true; }
      now, callbackRequested, timeout, yielded := 0.0, false, None, [];
      threw := false;
    }
  }
}
