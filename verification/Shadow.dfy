// The wrapper's shadow of the mock scheduler
// (packages/scheduler/unstable_mock.js:366-466, 546-589, 5150-5231, 5286-5359):
// a record per scheduled task and a numbered copy of the yield log.
module Shadow {
  import opened Wrappers
  import opened TaskHeap
  import opened MockScheduler

  // A task object is identified by its id, which the scheduler never reuses.
  datatype Record = Record(scheduleOrder: int, task: int, cancelled: bool)

  datatype YieldEntry = YieldEntry(sequence: nat, value: nat)

  datatype Shadow = Shadow(
    nextScheduleOrder: int, taskRecords: seq<Record>,
    nextYieldSequence: nat, nextClearOrder: nat, lastClearOrder: nat, yieldLogEntries: seq<YieldEntry>)

  const INITIAL_SHADOW := Shadow(1, [], 1, 1, 0, [])

  // ---------- task records ----------

  // The last record of a task.
  function FindIndex(records: seq<Record>, task: int): Option<nat> {
    if records == [] then None
    else if records[|records| - 1].task == task then Some(|records| - 1)
    else FindIndex(records[..|records| - 1], task)
  }

  function Recorded(sh: Shadow, task: int): Shadow {
    sh.(taskRecords := sh.taskRecords + [Record(sh.nextScheduleOrder, task, false)],
        nextScheduleOrder := sh.nextScheduleOrder + 1)
  }

  lemma {:induction false} FindIndexBound(records: seq<Record>, task: int)
    ensures match FindIndex(records, task)
            case Some(i) => i < |records| && records[i].task == task
                            && forall j :: i < j < |records| ==> records[j].task != task
            case None => forall j :: 0 <= j < |records| ==> records[j].task != task
  {
    if records != [] { FindIndexBound(records[..|records| - 1], task); }
  }

  function MarkCancelled(sh: Shadow, task: int): Shadow {
    FindIndexBound(sh.taskRecords, task);
    match FindIndex(sh.taskRecords, task)
    case None => sh
    case Some(i) => sh.(taskRecords := sh.taskRecords[i := sh.taskRecords[i].(cancelled := true)])
  }

  function ResetTasks(sh: Shadow): Shadow {
    sh.(nextScheduleOrder := 1, taskRecords := [])
  }

  // ---------- the yield log ----------

  function ResetYieldLog(sh: Shadow): Shadow {
    sh.(nextYieldSequence := 1, nextClearOrder := 1, lastClearOrder := 0, yieldLogEntries := [])
  }

  function ClearYieldLog(sh: Shadow): Shadow {
    sh.(yieldLogEntries := [], lastClearOrder := sh.nextClearOrder, nextClearOrder := sh.nextClearOrder + 1)
  }

  function Numbered(values: seq<nat>, first: nat): seq<YieldEntry> {
    seq(|values|, i requires 0 <= i < |values| => YieldEntry(first + i, values[i]))
  }

  function Appended(sh: Shadow, values: seq<nat>): Shadow {
    sh.(yieldLogEntries := sh.yieldLogEntries + Numbered(values, sh.nextYieldSequence),
        nextYieldSequence := sh.nextYieldSequence + |values|)
  }

  // getMockSchedulerYieldedValuesAdded
  function Added(before: seq<nat>, after: seq<nat>): seq<nat> {
    if |after| < |before| then after else after[|before|..]
  }

  function Values(entries: seq<YieldEntry>): seq<nat> {
    seq(|entries|, i requires 0 <= i < |entries| => entries[i].value)
  }

  function Synced(sh: Shadow, yielded: seq<nat>): Shadow {
    if Values(sh.yieldLogEntries) == yielded then sh
    else Appended(sh.(yieldLogEntries := []), yielded)
  }

  // ---------- task snapshots ----------

  datatype Status = PendingCallback | CancelledTombstone | UnknownCallback

  datatype Summary = Summary(id: int, scheduleOrder: int, priority: int, startTime: Time, expirationTime: Time,
                             sortIndex: Time, expired: bool, status: Status)

  function Summarize(record: Record, tasks: map<int, Task>, time: Time): Summary
    requires record.task in tasks
  {
    var task := tasks[record.task];
    Summary(task.id, record.scheduleOrder, task.priority, task.startTime, task.expirationTime, task.sortIndex,
            task.expirationTime <= time,
            if task.callback.Null? || record.cancelled then CancelledTombstone
            else if task.callback.Function? then PendingCallback else UnknownCallback)
  }

  predicate Known(records: seq<Record>, tasks: map<int, Task>) {
    forall i :: 0 <= i < |records| ==> records[i].task in tasks
  }

  function Summaries(records: seq<Record>, tasks: map<int, Task>, time: Time): seq<Summary>
    requires Known(records, tasks)
  {
    seq(|records|, i requires 0 <= i < |records| => Summarize(records[i], tasks, time))
  }

  // compareShadowTaskSummaries orders by this entry.
  function SummaryKey(s: Summary): Entry {
    Entry(s.sortIndex, s.scheduleOrder)
  }

  function InsertSummary(x: Summary, s: seq<Summary>): seq<Summary> {
    if s == [] then [x]
    else if Leq(SummaryKey(x), SummaryKey(s[0])) then [x] + s
    else [s[0]] + InsertSummary(x, s[1..])
  }

  function SortSummaries(s: seq<Summary>): seq<Summary> {
    if s == [] then [] else InsertSummary(s[|s| - 1], SortSummaries(s[..|s| - 1]))
  }

  function TaskSnapshot(sh: Shadow, tasks: map<int, Task>, time: Time): seq<Summary>
    requires Known(sh.taskRecords, tasks)
  {
    SortSummaries(Summaries(sh.taskRecords, tasks, time))
  }

  // ---------- the shadow state object ----------

  class ShadowState {
    var nextScheduleOrder: int
    var taskRecords: seq<Record>
    var nextYieldSequence: nat
    var nextYieldLogClearOrder: nat
    var lastYieldLogClearOrder: nat
    var yieldLogEntries: seq<YieldEntry>

    constructor ()
      ensures Abs() == INITIAL_SHADOW
    {
      nextScheduleOrder, taskRecords := 1, [];
      nextYieldSequence, nextYieldLogClearOrder, lastYieldLogClearOrder, yieldLogEntries := 1, 1, 0, [];
    }

    function Abs(): Shadow
      reads this
    {
      Shadow(nextScheduleOrder, taskRecords, nextYieldSequence, nextYieldLogClearOrder, lastYieldLogClearOrder,
             yieldLogEntries)
    }

    method RecordScheduledTask(task: int)
      modifies this
      ensures Abs() == Recorded(old(Abs()), task)
    {
      taskRecords := taskRecords + [Record(nextScheduleOrder, task, false)];
      nextScheduleOrder := nextScheduleOrder + 1;
    }

    method FindShadowTaskRecord(task: int) returns (index: Option<nat>)
      ensures index == FindIndex(taskRecords, task)
      ensures index.Some? ==> index.value < |taskRecords| && taskRecords[index.value].task == task
    {
      var i := |taskRecords|;
      assert taskRecords[..i] == taskRecords;
      while i > 0
        invariant 0 <= i <= |taskRecords|
        invariant FindIndex(taskRecords, task) == FindIndex(taskRecords[..i], task)
      {
        i := i - 1;
        assert taskRecords[..i + 1][..i] == taskRecords[..i];
        if taskRecords[i].task == task { return Some(i); }
      }
      index := None;
    }

    method MarkCancelledTask(task: int)
      modifies this`taskRecords
      ensures Abs() == MarkCancelled(old(Abs()), task)
    {
      var index := FindShadowTaskRecord(task);
      if index.Some? {
        taskRecords := taskRecords[index.value := taskRecords[index.value].(cancelled := true)];
      }
    }

    method ResetShadow()
      modifies this
      ensures Abs() == ResetYieldLog(ResetTasks(old(Abs())))
    {
      nextScheduleOrder, taskRecords := 1, [];
      nextYieldSequence, nextYieldLogClearOrder, lastYieldLogClearOrder, yieldLogEntries := 1, 1, 0, [];
    }

    method ClearShadowYieldLog()
      modifies this
      ensures Abs() == ClearYieldLog(old(Abs()))
    {
      yieldLogEntries := [];
      lastYieldLogClearOrder := nextYieldLogClearOrder;
      nextYieldLogClearOrder := nextYieldLogClearOrder + 1;
    }

    method AppendValues(values: seq<nat>)
      modifies this`nextYieldSequence, this`yieldLogEntries
      ensures Abs() == Appended(old(Abs()), values)
    {
      for i := 0 to |values|
        invariant Abs() == Appended(old(Abs()), values[..i])
      {
        yieldLogEntries := yieldLogEntries + [YieldEntry(nextYieldSequence, values[i])];
        nextYieldSequence := nextYieldSequence + 1;
        assert Numbered(values[..i + 1], old(nextYieldSequence))
            == Numbered(values[..i], old(nextYieldSequence)) + [YieldEntry(old(nextYieldSequence) + i, values[i])];
      }
      assert values[..|values|] == values;
    }

    method RecordYieldLogMutation(before: seq<nat>, after: seq<nat>)
      modifies this`nextYieldSequence, this`yieldLogEntries
      ensures Abs() == Appended(old(Abs()), Added(before, after))
    {
      AppendValues(if |after| < |before| then after else after[|before|..]);
    }

    method MatchesScheduler(yielded: seq<nat>) returns (matches: bool)
      ensures matches <==> Values(yieldLogEntries) == yielded
    {
      if |yieldLogEntries| != |yielded| { return false; }
      for index := 0 to |yieldLogEntries|
        invariant forall i :: 0 <= i < index ==> yieldLogEntries[i].value == yielded[i]
      {
        if yieldLogEntries[index].value != yielded[index] { return false; }
      }
      matches := true;
    }

    // The snapshot resynchronises first when the log was changed behind its back.
    method YieldLogSnapshot(yielded: seq<nat>) returns (entries: seq<YieldEntry>)
      modifies this`nextYieldSequence, this`yieldLogEntries
      ensures Abs() == Synced(old(Abs()), yielded)
      ensures entries == yieldLogEntries && Values(entries) == yielded
    {
      var matches := MatchesScheduler(yielded);
      if !matches {
        yieldLogEntries := [];
        AppendValues(yielded);
        assert [] + Numbered(yielded, old(nextYieldSequence)) == Numbered(yielded, old(nextYieldSequence));
      }
      entries := yieldLogEntries;
    }
  }

  // ---------- the wrapped scheduler ----------

  datatype World = World(s: State, sh: Shadow)

  class WrappedScheduler {
    const source: Scheduler
    const shadow: ShadowState

    constructor ()
      ensures Valid() && fresh(source) && fresh(shadow) && fresh(source.taskQueue) && fresh(source.timerQueue)
      ensures Abs() == World(INITIAL, INITIAL_SHADOW)
    {
      source := new Scheduler();
      shadow := new ShadowState();
    }

    ghost predicate Valid()
      reads this, source, source.taskQueue, source.timerQueue
    {
      source.Valid()
    }

    ghost function Abs(): World
      reads this, source, source.taskQueue, source.timerQueue, shadow
    {
      World(source.Abs(), shadow.Abs())
    }

    method ScheduleCallback(priority: int, callback: Callback, delay: Option<Time>) returns (task: int)
      requires Valid()
      modifies source, source.taskQueue, source.timerQueue, shadow
      ensures Valid() && Abs() == Step(old(Abs()), ScheduleCall(priority, callback, delay))
      ensures task == old(source.nextId)
    {
      task := source.UnstableScheduleCallback(priority, callback, delay);
      shadow.RecordScheduledTask(task);
    }

    method CancelCallback(task: int)
      requires Valid() && task in source.tasks
      modifies source, shadow
      ensures Valid() && Abs() == Step(old(Abs()), CancelCall(task))
    {
      source.UnstableCancelCallback(task);
      shadow.MarkCancelledTask(task);
    }

    method Reset() returns (threw: bool)
      requires Valid()
      modifies source, shadow
      ensures Valid() && Abs() == Step(old(Abs()), ResetCall)
    {
      threw := source.ResetAll();
      if threw { return; }
      shadow.ResetShadow();
    }

    method LogValue(value: nat)
      requires Valid()
      modifies source, shadow
      ensures Valid() && Abs() == Step(old(Abs()), LogCall(value))
    {
      var before := source.yielded;
      source.LogValue(value);
      shadow.RecordYieldLogMutation(before, source.yielded);
    }

    method ClearLog() returns (values: seq<nat>)
      requires Valid()
      modifies source, shadow
      ensures Valid() && Abs() == Step(old(Abs()), ClearCall)
      ensures values == old(source.yielded)
    {
      values := source.UnstableClearLog();
      shadow.ClearShadowYieldLog();
    }

    method Snapshot() returns (entries: seq<YieldEntry>)
      requires Valid()
      modifies shadow
      ensures Valid() && Abs() == Step(old(Abs()), SnapshotCall)
      ensures Values(entries) == source.yielded && entries == shadow.yieldLogEntries
    {
      entries := shadow.YieldLogSnapshot(source.yielded);
    }
  }

  // Calls on the wrapper, steps of the scheduler running its tasks, and Source...
  // calls that bypass the wrapper.
  datatype Event =
    | ScheduleCall(priority: int, callback: Callback, delay: Option<Time>)
    | CancelCall(task: int)
    | ResetCall
    | LogCall(value: nat)
    | ClearCall
    | SnapshotCall
    | AdvanceCall(ms: Time)
    | WorkEvent(step: WorkStep)
    | SilenceCall(silenced: bool)          // unstable_setDisableYieldValue
    | SourceLog(value: nat)
    | SourceClear
    | SourceReset

  function Step(w: World, e: Event): World {
    match e
    case ScheduleCall(priority, callback, delay) =>
      World(Schedule(w.s, priority, callback, delay), Recorded(w.sh, w.s.nextId))
    case CancelCall(task) => World(Cancel(w.s, task), MarkCancelled(w.sh, task))
    case ResetCall => if w.s.isFlushing then w else World(Reset(w.s), ResetYieldLog(ResetTasks(w.sh)))
    case LogCall(value) => World(Log(w.s, value), Appended(w.sh, Added(w.s.yielded, Log(w.s, value).yielded)))
    case ClearCall => World(MockScheduler.ClearLog(w.s), ClearYieldLog(w.sh))
    case SnapshotCall => World(w.s, Synced(w.sh, w.s.yielded))
    case AdvanceCall(ms) => World(AdvanceTime(w.s, ms), w.sh)
    case WorkEvent(step) => World(Work(w.s, step), w.sh)
    case SilenceCall(silenced) => World(w.s.(silenced := silenced), w.sh)
    case SourceLog(value) => World(Log(w.s, value), w.sh)
    case SourceClear => World(MockScheduler.ClearLog(w.s), w.sh)
    case SourceReset => World(MockScheduler.Reset(w.s), w.sh)
  }
}
