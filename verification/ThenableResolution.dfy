// resolveThenable (packages/react/children-helper.js:1259-1295): reading a thenable
// found among children.  Its `then` is user code; it may call the callbacks it was
// given, and those of earlier calls, any number of times, may read the thenable
// again, and may write the thenable's own fields.
module ThenableResolution {
  import opened Wrappers

  // thenable.status: not a string, or a string
  datatype Status = Absent | Pending | Fulfilled(value: nat) | Rejected(reason: nat) | Custom(text: string)

  datatype Action =
    | Fulfil(value: nat)      // a settling callback is called with a value
    | Reject(reason: nat)     // or with a reason
    | Read(subscribe: Script)
    | Write(status: Status)   // user code assigns the status, and value or reason with it

  datatype Script = Script(actions: seq<Action>, threw: Option<nat>)

  datatype Outcome = Value(value: nat) | Threw(reason: nat) | Suspends

  // The status, and how often settling callbacks were attached.
  datatype State = State(status: Status, attached: nat)

  // A settling callback has an effect only while the status is pending.
  function Settle(s: State, status: Status): State {
    if s.status.Pending? then s.(status := status) else s
  }

  function Answered(status: Status): Outcome {
    match status
    case Fulfilled(value) => Value(value)
    case Rejected(reason) => Threw(reason)
    case _ => Suspends
  }

  function Act(s: State, a: Action): State
    decreases a, 1
  {
    match a
    case Fulfil(value) => if s.attached == 0 then s else Settle(s, Fulfilled(value))
    case Reject(reason) => if s.attached == 0 then s else Settle(s, Rejected(reason))
    case Read(script) => Resolve(s, script).0
    case Write(status) => s.(status := status)
  }

  function ActAll(s: State, actions: seq<Action>): State
    decreases actions, 0
  {
    if actions == [] then s
    else Act(ActAll(s, actions[..|actions| - 1]), actions[|actions| - 1])
  }

  function Resolve(s: State, script: Script): (State, Outcome)
    decreases script, 1
  {
    if s.status.Fulfilled? || s.status.Rejected? then (s, Answered(s.status))
    else
      var subscribed := if s.status.Absent? then State(Pending, s.attached + 1) else s;
      var done := ActAll(subscribed, script.actions);
      (done, if script.threw.Some? then Threw(script.threw.value) else Answered(done.status))
  }

  class Thenable {
    var status: Status
    var attached: nat

    constructor (status: Status)
      ensures Abs() == State(status, 0)
    {
      this.status, attached := status, 0;
    }

    function Abs(): State
      reads this
    {
      State(status, attached)
    }

    method ResolveThenable(script: Script) returns (outcome: Outcome)
      modifies this
      ensures (Abs(), outcome) == Resolve(old(Abs()), script)
      decreases script, 1
    {
      match status {
        case Fulfilled(value) => return Value(value);
        case Rejected(reason) => return Threw(reason);
        case Absent => status, attached := Pending, attached + 1;
        case _ =>
      }
      Perform(script.actions);
      if script.threw.Some? { return Threw(script.threw.value); }
      outcome := Answered(status);
    }

    method Perform(actions: seq<Action>)
      modifies this
      ensures Abs() == ActAll(old(Abs()), actions)
      decreases actions, 0
    {
      var i := 0;
      assert actions[..0] == [];
      while i < |actions|
        invariant 0 <= i <= |actions|
        invariant Abs() == ActAll(old(Abs()), actions[..i])
      {
        assert actions[..i + 1][..i] == actions[..i];
        PerformOne(actions[i]);
        i := i + 1;
      }
      assert actions[..|actions|] == actions;
    }

    method PerformOne(action: Action)
      modifies this
      ensures Abs() == Act(old(Abs()), action)
      decreases action, 2
    {
      match action {
        case Fulfil(value) => if attached > 0 && status.Pending? { status := Fulfilled(value); }
        case Reject(reason) => if attached > 0 && status.Pending? { status := Rejected(reason); }
        case Read(script) => var _ := ResolveThenable(script);
        case Write(newStatus) => status := newStatus;
      }
    }
  }

  // No user code writes the thenable's fields, at any depth.
  predicate NoWrites(actions: seq<Action>) {
    forall i :: 0 <= i < |actions| ==> NoWrite(actions[i])
  }

  predicate NoWrite(a: Action) {
    match a
    case Read(script) => NoWrites(script.actions)
    case Write(_) => false
    case _ => true
  }

  // Where a status can get to without such writes, and how often callbacks get
  // attached on the way.
  predicate Progress(before: State, after: State) {
    match before.status
    case Absent => (after.status.Absent? && after.attached == before.attached)
                   || (after.status.Pending? && after.attached == before.attached + 1)
                   || ((after.status.Fulfilled? || after.status.Rejected?) && after.attached == before.attached + 1)
    case Pending => (after.status.Pending? || after.status.Fulfilled? || after.status.Rejected?)
                    && after.attached == before.attached
    case _ => after == before
  }

  lemma {:induction false} ActProgress(s: State, a: Action)
    requires NoWrite(a)
    ensures Progress(s, Act(s, a))
    decreases a, 1
  {
    match a
    case Read(script) => ResolveProgress(s, script);
    case _ =>
  }

  lemma {:induction false} ActAllProgress(s: State, actions: seq<Action>)
    requires NoWrites(actions)
    ensures Progress(s, ActAll(s, actions))
    decreases actions, 0
  {
    if actions != [] {
      var n := |actions| - 1;
      ActAllProgress(s, actions[..n]);
      ActProgress(ActAll(s, actions[..n]), actions[n]);
    }
  }

  lemma {:induction false} ResolveProgress(s: State, script: Script)
    requires NoWrites(script.actions)
    ensures Progress(s, Resolve(s, script).0)
    decreases script, 1
  {
    if !s.status.Fulfilled? && !s.status.Rejected? {
      ActAllProgress(if s.status.Absent? then State(Pending, s.attached + 1) else s, script.actions);
    }
  }

  // Whatever happened before, writes included: once the thenable is settled, only a
  // write can change what every later read answers.
  lemma FirstSettlementWins(start: Status, before: seq<Action>, after: seq<Action>, script: Script)
    requires NoWrites(after)
    ensures var s := ActAll(State(start, 0), before);
            s.status.Fulfilled? || s.status.Rejected? ==>
              && ActAll(s, after) == s
              && Resolve(ActAll(s, after), script) == (s, Answered(s.status))
  {
    ActAllProgress(ActAll(State(start, 0), before), after);
  }

  // For a thenable that never had a status and is not written, callbacks are
  // attached at most once.
  lemma AttachedOnce(actions: seq<Action>)
    requires NoWrites(actions)
    ensures ActAll(State(Absent, 0), actions).attached <= 1
  {
    ActAllProgress(State(Absent, 0), actions);
  }

  // A status string of the user's own is never overwritten by reading.  The read
  // suspends exactly unless `then` itself leaves a settled status behind; code that
  // writes no fields cannot.
  lemma CustomStatusSuspends(s: State, before: seq<Action>, script: Script)
    requires s.status.Custom? && NoWrites(before) && script.threw.None?
    ensures ActAll(s, before) == s
    ensures Resolve(s, script).1 == Suspends <==>
            !ActAll(s, script.actions).status.Fulfilled? && !ActAll(s, script.actions).status.Rejected?
    ensures NoWrites(script.actions) ==> Resolve(s, script) == (s, Suspends)
  {
    ActAllProgress(s, before);
    if NoWrites(script.actions) { ActAllProgress(s, script.actions); }
  }

  // The same for a thenable whose user keeps 'pending' in it before it is first read.
  lemma TrackedPendingSuspends(before: seq<Action>, script: Script)
    requires NoWrites(before) && NoWrites(script.actions) && script.threw.None?
    ensures ActAll(State(Pending, 0), before) == State(Pending, 0)
    ensures Resolve(State(Pending, 0), script) == (State(Pending, 0), Suspends)
  {
    NothingAttached(State(Pending, 0), before);
    NothingAttached(State(Pending, 0), script.actions);
  }

  lemma {:induction false} NothingAttached(s: State, actions: seq<Action>)
    requires s == State(Pending, 0) && NoWrites(actions)
    ensures ActAll(s, actions) == s
    decreases actions, 0
  {
    if actions != [] {
      var n := |actions| - 1;
      NothingAttached(s, actions[..n]);
      NothingSettles(s, actions[n]);
    }
  }

  lemma {:induction false} NothingSettles(s: State, a: Action)
    requires s == State(Pending, 0) && NoWrite(a)
    ensures Act(s, a) == s
    decreases a, 1
  {
    match a
    case Read(script) => NothingAttached(s, script.actions);
    case _ =>
  }

  // A settling callback on a pending thenable leaves exactly its own value or reason,
  // once callbacks are attached.
  lemma SettlingSettles(s: State, value: nat, reason: nat)
    requires s.status.Pending? && s.attached > 0
    ensures Act(s, Fulfil(value)) == s.(status := Fulfilled(value))
    ensures Act(s, Reject(reason)) == s.(status := Rejected(reason))
  {
  }

  // A thenable read for the first time suspends, is settled by its callbacks, and then
  // answers.
  lemma FirstRead(value: nat, reason: nat, again: Script)
    ensures var (first, outcome) := Resolve(State(Absent, 0), Script([], None));
            && outcome == Suspends && first == State(Pending, 1)
            && Resolve(Act(first, Fulfil(value)), again).1 == Value(value)
            && Resolve(Act(first, Reject(reason)), again).1 == Threw(reason)
  {
  }

  // `then` may settle such a thenable itself by writing its fields: the read then
  // answers at once, from either kind of status.
  lemma WritingThenAnswers(start: Status, value: nat)
    requires start.Custom? || start.Pending?
    ensures Resolve(State(start, 0), Script([Write(Fulfilled(value))], None)) == (State(Fulfilled(value), 0), Value(value))
  {
    var s, write := State(start, 0), Write(Fulfilled(value));
    assert [write][..0] == [];
    assert ActAll(s, [write]) == Act(ActAll(s, []), write);
  }

  // A read that does not throw from `then` itself returns or throws exactly when
  // the thenable is settled once `then` is done.
  lemma ReadAnswersSettlement(s: State, script: Script)
    requires script.threw.None?
    ensures var (after, outcome) := Resolve(s, script);
            && (outcome.Value? <==> after.status.Fulfilled?)
            && (outcome.Threw? <==> after.status.Rejected?)
            && (outcome.Value? ==> after.status == Fulfilled(outcome.value))
            && (outcome.Threw? ==> after.status == Rejected(outcome.reason))
  {
  }
}
