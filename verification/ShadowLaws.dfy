// What the shadow state promises over whole runs.
module ShadowLaws {
  import opened Wrappers
  import opened TaskHeap
  import opened MockScheduler
  import opened SchedulerLaws
  import opened Shadow

  function Run(w: World, events: seq<Event>): World
    decreases |events|
  {
    if events == [] then w else Run(Step(w, events[0]), events[1..])
  }

  const START := World(INITIAL, INITIAL_SHADOW)

  // ---------- schedule orders ----------

  // Records are numbered 1, 2, ... without gaps, one per task.
  ghost predicate RecordsOk(w: World) {
    var records := w.sh.taskRecords;
    && StateOk(w.s)
    && w.sh.nextScheduleOrder == |records| + 1
    && (forall i :: 0 <= i < |records| ==> records[i].scheduleOrder == i + 1 && records[i].task in w.s.q.tasks)
    && (forall i, j :: 0 <= i < j < |records| ==> records[i].task != records[j].task)
  }

  lemma StepRecordsOk(w: World, e: Event)
    requires RecordsOk(w)
    ensures RecordsOk(Step(w, e))
  {
    match e {
      case ScheduleCall(priority, callback, delay) =>
        ScheduleOk(w.s, priority, callback, delay);
        var task := NewTask(w.s, priority, callback, delay);
        EnqueueOk(w.s.q, task, task.startTime > w.s.now);
        hide Enqueue, QueuesOk;
      case CancelCall(task) =>
        CancelOk(w.s, task);
        FindIndexBound(w.sh.taskRecords, task);
      case AdvanceCall(ms) =>
        AdvanceTimeOk(w.s, ms);
        AdvanceKeepsTasks(w.s, ms);
        hide AdvanceTime, StateOk;
      case WorkEvent(step) =>
        WorkOk(w.s, step);
        hide Work, StateOk;
      case _ =>
    }
  }

  lemma {:induction false} RunRecordsOk(w: World, events: seq<Event>)
    requires RecordsOk(w)
    ensures RecordsOk(Run(w, events))
    decreases |events|
  {
    if events != [] {
      StepRecordsOk(w, events[0]);
      RunRecordsOk(Step(w, events[0]), events[1..]);
    }
  }

  // Looking up the task of any record finds that record.
  lemma LookupFindsRecord(w: World, i: nat)
    requires RecordsOk(w) && i < |w.sh.taskRecords|
    ensures FindIndex(w.sh.taskRecords, w.sh.taskRecords[i].task) == Some(i)
  {
    FindIndexBound(w.sh.taskRecords, w.sh.taskRecords[i].task);
  }

  predicate NoReset(events: seq<Event>) {
    forall i :: 0 <= i < |events| ==> !events[i].ResetCall?
  }

  // Until the next reset, records stay where they are.
  lemma {:induction false} RecordsStay(w: World, events: seq<Event>, i: nat)
    requires RecordsOk(w) && NoReset(events) && i < |w.sh.taskRecords|
    ensures var records := Run(w, events).sh.taskRecords;
            i < |records| && records[i].task == w.sh.taskRecords[i].task
            && records[i].scheduleOrder == w.sh.taskRecords[i].scheduleOrder
    decreases |events|
  {
    if events != [] {
      var next := Step(w, events[0]);
      StepRecordsOk(w, events[0]);
      if events[0].CancelCall? { FindIndexBound(w.sh.taskRecords, events[0].task); }
      RecordsStay(next, events[1..], i);
    }
  }

  // A task scheduled through the wrapper is found, with its order, after any run
  // without a reset.
  lemma ScheduledTaskIsFound(before: seq<Event>, priority: int, callback: Callback, delay: Option<Time>, after: seq<Event>)
    requires NoReset(after)
    ensures var w := Run(START, before);
            var v := Run(Step(w, ScheduleCall(priority, callback, delay)), after);
            && FindIndex(v.sh.taskRecords, w.s.nextId) == Some(|w.sh.taskRecords|)
            && |w.sh.taskRecords| < |v.sh.taskRecords|
            && v.sh.taskRecords[|w.sh.taskRecords|].scheduleOrder == w.sh.nextScheduleOrder
  {
    var w := Run(START, before);
    RunRecordsOk(START, before);
    var e := ScheduleCall(priority, callback, delay);
    var next := Step(w, e);
    StepRecordsOk(w, e);
    var i := |w.sh.taskRecords|;
    assert next.sh.taskRecords[i] == Record(w.sh.nextScheduleOrder, w.s.nextId, false);
    RecordsStay(next, after, i);
    RunRecordsOk(next, after);
    LookupFindsRecord(Run(next, after), i);
  }

  // ---------- task snapshots ----------

  lemma StartRecordsOk()
    ensures RecordsOk(START)
  {
  }

  predicate SortedSummaries(s: seq<Summary>) {
    forall i, j :: 0 <= i < j < |s| ==> Leq(SummaryKey(s[i]), SummaryKey(s[j]))
  }

  lemma {:induction false} InsertSummaryMembers(x: Summary, s: seq<Summary>)
    ensures multiset(InsertSummary(x, s)) == multiset(s) + multiset{x}
  {
    if s != [] {
      assert s == [s[0]] + s[1..];
      InsertSummaryMembers(x, s[1..]);
    }
  }

  lemma {:induction false} InsertSummarySorts(x: Summary, s: seq<Summary>)
    requires SortedSummaries(s)
    ensures SortedSummaries(InsertSummary(x, s))
  {
    if s != [] {
      if Leq(SummaryKey(x), SummaryKey(s[0])) {
        forall i | 0 <= i < |s| ensures Leq(SummaryKey(x), SummaryKey(s[i])) {
          LeqTotalOrder(SummaryKey(x), SummaryKey(s[0]), SummaryKey(s[i]));
        }
      } else {
        var rest := InsertSummary(x, s[1..]);
        InsertSummarySorts(x, s[1..]);
        InsertSummaryMembers(x, s[1..]);
        forall y | y in rest ensures Leq(SummaryKey(s[0]), SummaryKey(y)) {
          assert y in multiset(rest);
        }
        hide InsertSummary, Compare;
        assert forall i :: 0 <= i < |rest| ==> rest[i] in rest;
      }
    }
  }

  lemma {:induction false} SortSummariesSorts(s: seq<Summary>)
    ensures SortedSummaries(SortSummaries(s)) && multiset(SortSummaries(s)) == multiset(s)
  {
    if s != [] {
      var n := |s| - 1;
      SortSummariesSorts(s[..n]);
      InsertSummarySorts(s[n], SortSummaries(s[..n]));
      InsertSummaryMembers(s[n], SortSummaries(s[..n]));
      assert s == s[..n] + [s[n]];
    }
  }

  // Members of one list with equal keys are equal when schedule orders are unique.
  ghost predicate Keyed(s: seq<Summary>) {
    forall x, y :: x in s && y in s && x.scheduleOrder == y.scheduleOrder ==> x == y
  }

  // With unique schedule orders there is one arrangement sorted by (sortIndex,
  // scheduleOrder) and no other.
  lemma {:induction false} ArrangementIsUnique(s: seq<Summary>, t: seq<Summary>)
    requires SortedSummaries(s) && SortedSummaries(t) && multiset(s) == multiset(t) && Keyed(s)
    ensures s == t
    decreases |s|
  {
    assert |s| == |multiset(s)| == |multiset(t)| == |t|;
    if s != [] {
      FirstSummary(s, t);
      TailSummaries(s);
      TailSummaries(t);
      ArrangementIsUnique(s[1..], t[1..]);
    }
  }

  lemma TailSummaries(s: seq<Summary>)
    requires s != []
    ensures s == [s[0]] + s[1..] && multiset(s[1..]) == multiset(s) - multiset{s[0]}
  {
    assert s == [s[0]] + s[1..];
  }

  lemma FirstSummary(s: seq<Summary>, t: seq<Summary>)
    requires s != [] && t != [] && multiset(s) == multiset(t)
    requires SortedSummaries(s) && SortedSummaries(t) && Keyed(s)
    ensures s[0] == t[0]
  {
    assert s[0] in multiset(t) && t[0] in multiset(s);
    var i :| 0 <= i < |t| && t[i] == s[0];
    var j :| 0 <= j < |s| && s[j] == t[0];
    LeqTotalOrder(SummaryKey(s[0]), SummaryKey(t[0]), SummaryKey(s[0]));
    assert s[0] in s && t[0] in s;
  }

  // In every reachable world, for any time: the task snapshot is a sorted
  // arrangement of the records' summaries, and the only one.
  lemma SnapshotIsTheSortedOne(events: seq<Event>, time: Time, other: seq<Summary>)
    ensures var w := Run(START, events);
            && Known(w.sh.taskRecords, w.s.q.tasks)
            && var snapshot := TaskSnapshot(w.sh, w.s.q.tasks, time);
               var summaries := Summaries(w.sh.taskRecords, w.s.q.tasks, time);
               && SortedSummaries(snapshot) && multiset(snapshot) == multiset(summaries)
               && (SortedSummaries(other) && multiset(other) == multiset(summaries) ==> other == snapshot)
  {
    hide Run, StateOk;
    var w := Run(START, events);
    StartRecordsOk();
    RunRecordsOk(START, events);
    var summaries := Summaries(w.sh.taskRecords, w.s.q.tasks, time);
    SortSummariesSorts(summaries);
    if SortedSummaries(other) && multiset(other) == multiset(summaries) {
      assert Keyed(other) by {
        forall x, y | x in other && y in other && x.scheduleOrder == y.scheduleOrder ensures x == y {
          assert x in multiset(other) && y in multiset(other);
          assert x in summaries && y in summaries;
        }
      }
      hide SortSummaries, Summaries;
      ArrangementIsUnique(other, SortSummaries(summaries));
    }
  }

  // In numbers: by sort index, and among equal ones by schedule order.
  lemma SnapshotOrder(events: seq<Event>, time: Time, i: nat, j: nat)
    requires Known(Run(START, events).sh.taskRecords, Run(START, events).s.q.tasks)
    requires var w := Run(START, events); i < j < |TaskSnapshot(w.sh, w.s.q.tasks, time)|
    ensures var w := Run(START, events);
            var x, y := TaskSnapshot(w.sh, w.s.q.tasks, time)[i], TaskSnapshot(w.sh, w.s.q.tasks, time)[j];
            x.sortIndex < y.sortIndex || (x.sortIndex == y.sortIndex && x.scheduleOrder <= y.scheduleOrder)
  {
    hide Run;
    var w := Run(START, events);
    var snapshot := TaskSnapshot(w.sh, w.s.q.tasks, time);
    SnapshotIsTheSortedOne(events, time, []);
    LeqExactly(SummaryKey(snapshot[i]), SummaryKey(snapshot[j]));
  }

  // What a snapshot says of each task: its own fields, whether it has expired, and
  // whether it can still be called.
  lemma SnapshotDescribes(events: seq<Event>, time: Time, k: nat)
    requires k < |Run(START, events).sh.taskRecords|
    ensures var w := Run(START, events);
            && Known(w.sh.taskRecords, w.s.q.tasks)
            && var record := w.sh.taskRecords[k];
               var task := w.s.q.tasks[record.task];
               exists x :: && x in TaskSnapshot(w.sh, w.s.q.tasks, time)
                           && x.id == task.id == record.task && x.scheduleOrder == k + 1
                           && x.priority == task.priority && x.startTime == task.startTime
                           && x.expirationTime == task.expirationTime && x.sortIndex == task.sortIndex
                           && (x.expired <==> task.expirationTime <= time)
                           && (x.status == PendingCallback <==> task.callback.Function? && !record.cancelled)
                           && (x.status == CancelledTombstone <==> task.callback.Null? || record.cancelled)
  {
    hide Run, StateOk;
    StartRecordsOk();
    RunRecordsOk(START, events);
    var w := Run(START, events);
    SnapshotIsTheSortedOne(events, time, []);
    var summaries := Summaries(w.sh.taskRecords, w.s.q.tasks, time);
    RecordedTaskId(w, k);
    var x := Summarize(w.sh.taskRecords[k], w.s.q.tasks, time);
    assert summaries[k] == x && x in multiset(summaries);
    assert x in multiset(TaskSnapshot(w.sh, w.s.q.tasks, time));
  }

  lemma RecordedTaskId(w: World, k: nat)
    requires RecordsOk(w) && k < |w.sh.taskRecords|
    ensures w.sh.taskRecords[k].task in w.s.q.tasks
    ensures w.s.q.tasks[w.sh.taskRecords[k].task].id == w.sh.taskRecords[k].task
  {
    assert TaskOk(w.s.q, w.sh.taskRecords[k].task);
  }

  // ---------- cancelling ----------

  ghost predicate Cancelled(w: World, task: int) {
    var records := w.sh.taskRecords;
    FindIndex(records, task).Some? && FindIndex(records, task).value < |records| && records[FindIndex(records, task).value].cancelled
  }

  // A cancelled task stays cancelled until the next reset, even if it is given a
  // continuation later; the wrapper then still shows it as cancelled.
  lemma {:induction false} CancelledStays(w: World, task: int, events: seq<Event>)
    requires RecordsOk(w) && NoReset(events) && Cancelled(w, task)
    ensures Cancelled(Run(w, events), task)
    decreases |events|
  {
    if events != [] {
      StepRecordsOk(w, events[0]);
      CancelledStep(w, task, events[0]);
      CancelledStays(Step(w, events[0]), task, events[1..]);
    }
  }

  lemma CancelledStep(w: World, task: int, e: Event)
    requires RecordsOk(w) && !e.ResetCall? && Cancelled(w, task)
    ensures Cancelled(Step(w, e), task)
  {
    hide Schedule, AdvanceTime, Work, StateOk;
    FindIndexBound(w.sh.taskRecords, task);
    var i := FindIndex(w.sh.taskRecords, task).value;
    var next := Step(w, e);
    FindIndexBound(next.sh.taskRecords, task);
    if e.CancelCall? { FindIndexBound(w.sh.taskRecords, e.task); }
    if e.ScheduleCall? { NewTaskIsNew(w, i); }
    assert next.sh.taskRecords[i].task == task && next.sh.taskRecords[i].cancelled;
  }

  lemma NewTaskIsNew(w: World, i: nat)
    requires RecordsOk(w) && i < |w.sh.taskRecords|
    ensures w.sh.taskRecords[i].task != w.s.nextId
  {
  }

  // Cancelling a task with a record drops its callback and marks that record only.
  lemma CancelEffect(w: World, i: nat)
    requires RecordsOk(w) && i < |w.sh.taskRecords|
    ensures var task := w.sh.taskRecords[i].task;
            var next := Step(w, CancelCall(task));
            && Cancelled(next, task)
            && next.s.q.tasks == w.s.q.tasks[task := w.s.q.tasks[task].(callback := Null)]
            && next.sh.taskRecords == w.sh.taskRecords[i := w.sh.taskRecords[i].(cancelled := true)]
  {
    var task := w.sh.taskRecords[i].task;
    LookupFindsRecord(w, i);
    var next := Step(w, CancelCall(task));
    FindIndexBound(next.sh.taskRecords, task);
    assert next.sh.taskRecords[i].task == task;
  }

  // ---------- logging, clearing, resetting ----------

  // An unsilenced log adds its value at the end of both logs, under the next number.
  lemma LogEffect(w: World, value: nat)
    ensures var next := Step(w, LogCall(value));
            && (w.s.silenced ==> next.s == w.s && next.sh.yieldLogEntries == w.sh.yieldLogEntries)
            && (!w.s.silenced ==>
                  && next.s.yielded == w.s.yielded + [value]
                  && next.sh.yieldLogEntries == w.sh.yieldLogEntries + [YieldEntry(w.sh.nextYieldSequence, value)]
                  && next.sh.nextYieldSequence == w.sh.nextYieldSequence + 1)
  {
    assert (w.s.yielded + [value])[|w.s.yielded|..] == [value];
  }

  // What a mutation of the log is taken to have added: the new values at the end, or
  // all values of a log that got shorter.
  lemma AddedValues(before: seq<nat>, more: seq<nat>, shorter: seq<nat>)
    ensures Added(before, before + more) == more
    ensures |shorter| < |before| ==> Added(before, shorter) == shorter
  {
  }

  // Clearing empties both logs, goes on numbering entries, and numbers itself.
  lemma ClearEffect(w: World)
    ensures var next := Step(w, ClearCall);
            && next.s.yielded == [] && next.sh.yieldLogEntries == []
            && next.sh.nextYieldSequence == w.sh.nextYieldSequence
            && next.sh.lastClearOrder == w.sh.nextClearOrder < next.sh.nextClearOrder
  {
  }

  // Resetting, unless it throws, starts all numbers and the clock afresh; tasks stay
  // in the scheduler's queues, with its flags, but lose their records.
  lemma ResetEffect(w: World)
    ensures var next := Step(w, ResetCall);
            && (w.s.isFlushing ==> next == w)
            && (!w.s.isFlushing ==>
                  && next.sh == Shadow(1, [], 1, 1, 0, [])
                  && next.s.now == 0.0 && !next.s.callbackRequested && next.s.timeout == None && next.s.yielded == []
                  && next.s.q == w.s.q && next.s.nextId == w.s.nextId
                  && next.s.isHostCallbackScheduled == w.s.isHostCallbackScheduled
                  && next.s.isHostTimeoutScheduled == w.s.isHostTimeoutScheduled
                  && next.s.isPerformingWork == w.s.isPerformingWork && next.s.silenced == w.s.silenced)
    ensures w.s.isFlushing ==> MockScheduler.Reset(w.s) == w.s
  {
  }

  // ---------- the yield log ----------

  // Numbers grow along the log and stay below the next number.
  predicate LogOk(sh: Shadow) {
    && (forall i, j :: 0 <= i < j < |sh.yieldLogEntries| ==>
          sh.yieldLogEntries[i].sequence < sh.yieldLogEntries[j].sequence)
    && (forall i :: 0 <= i < |sh.yieldLogEntries| ==> sh.yieldLogEntries[i].sequence < sh.nextYieldSequence)
  }

  lemma {:induction false} RunLogOk(w: World, events: seq<Event>)
    requires LogOk(w.sh)
    ensures LogOk(Run(w, events).sh)
    decreases |events|
  {
    if events != [] {
      StepLogOk(w, events[0]);
      RunLogOk(Step(w, events[0]), events[1..]);
    }
  }

  lemma StepLogOk(w: World, e: Event)
    requires LogOk(w.sh)
    ensures LogOk(Step(w, e).sh)
  {
    hide Schedule, AdvanceTime, Summaries, Work;
    if e.CancelCall? { FindIndexBound(w.sh.taskRecords, e.task); }
  }

  // The entries a step appends.
  function Issued(w: World, e: Event): seq<YieldEntry> {
    match e
    case LogCall(value) => Numbered(Added(w.s.yielded, Log(w.s, value).yielded), w.sh.nextYieldSequence)
    case SnapshotCall =>
      if Values(w.sh.yieldLogEntries) == w.s.yielded then [] else Numbered(w.s.yielded, w.sh.nextYieldSequence)
    case _ => []
  }

  function RunIssued(w: World, events: seq<Event>): seq<YieldEntry>
    decreases |events|
  {
    if events == [] then [] else Issued(w, events[0]) + RunIssued(Step(w, events[0]), events[1..])
  }

  lemma StepIssues(w: World, e: Event)
    requires !e.ResetCall?
    ensures var next, issued := Step(w, e).sh, Issued(w, e);
            && next.nextYieldSequence == w.sh.nextYieldSequence + |issued|
            && (forall i :: 0 <= i < |issued| ==> issued[i].sequence == w.sh.nextYieldSequence + i)
            && forall y :: y in next.yieldLogEntries ==> y in w.sh.yieldLogEntries || y in issued
  {
    hide Schedule, AdvanceTime, Work;
    if e.CancelCall? { FindIndexBound(w.sh.taskRecords, e.task); }
  }

  // Between resets every number is given out once and in order, whatever happens
  // to the log in between, and the log only ever shows entries given out.
  lemma {:induction false} NumbersAreNeverReissued(w: World, events: seq<Event>)
    requires NoReset(events)
    ensures var issued, sh := RunIssued(w, events), Run(w, events).sh;
            && (forall i :: 0 <= i < |issued| ==> issued[i].sequence == w.sh.nextYieldSequence + i)
            && sh.nextYieldSequence == w.sh.nextYieldSequence + |issued|
            && forall y :: y in sh.yieldLogEntries ==> y in w.sh.yieldLogEntries || y in issued
    decreases |events|
  {
    if events != [] {
      StepIssues(w, events[0]);
      NumbersAreNeverReissued(Step(w, events[0]), events[1..]);
    }
  }

  predicate InSync(w: World) {
    Values(w.sh.yieldLogEntries) == w.s.yielded
  }

  // Every change of the log goes through the wrapper.
  predicate ThroughWrapper(events: seq<Event>) {
    forall i :: 0 <= i < |events| ==> !events[i].SourceLog? && !events[i].SourceClear? && !events[i].SourceReset?
  }

  lemma StepInSync(w: World, e: Event)
    requires InSync(w) && !e.SourceLog? && !e.SourceClear? && !e.SourceReset?
    ensures InSync(Step(w, e))
  {
    match e {
      case LogCall(value) =>
        var added := Added(w.s.yielded, Log(w.s, value).yielded);
        var entries := w.sh.yieldLogEntries;
        assert Values(entries + Numbered(added, w.sh.nextYieldSequence)) == Values(entries) + added;
      case CancelCall(task) => FindIndexBound(w.sh.taskRecords, task);
      case WorkEvent(step) =>
        WorkFields(w.s, step);
        hide Work;
      case _ =>
    }
  }

  // Then the log is always in step, and taking a snapshot never renumbers it.
  lemma {:induction false} WrapperStaysInSync(w: World, events: seq<Event>)
    requires InSync(w) && ThroughWrapper(events)
    ensures var v := Run(w, events);
            InSync(v) && Step(v, SnapshotCall) == v && Issued(v, SnapshotCall) == []
    decreases |events|
  {
    if events != [] {
      StepInSync(w, events[0]);
      WrapperStaysInSync(Step(w, events[0]), events[1..]);
    }
  }
}
