// Settlement of lazy payloads (packages/react/wrapper-object.js:106-133, 220-250).
//
// While the initializer runs the loader, and while it subscribes to the loader's
// thenable, user code may settle the payload, any number of times, and may call
// the initializer again.  A script says what such code does; scripts nest.
module LazyPayload {
  import opened Wrappers

  datatype Result = Loader | Module(value: nat) | Failure(error: nat) | Thenable(id: nat)

  datatype Payload = Payload(status: int, result: Result)

  datatype Action =
    | Fulfil(value: nat)       // a settle callback is called with a module
    | Reject(error: nat)       // a settle callback is called with an error
    | Initialize(attempt: Attempt)

  datatype Script = Script(actions: seq<Action>, threw: Option<nat>)

  // What happens if this call of the initializer reaches the loader: the loader
  // runs and returns thenable `id` or throws, then `then` runs and may throw.
  datatype Attempt = Attempt(loader: Script, id: nat, subscribe: Script)

  // The payload, how often the loader was called, and every value the payload's
  // fields were given, in order.
  datatype State = State(payload: Payload, loaderCalls: nat, writes: seq<Payload>)

  const FRESH := State(Payload(-1, Loader), 0, [])

  datatype Answer = Returns(value: nat) | Throws(result: Result) | LoaderThrew(error: nat)

  // ---------- by reference ----------

  function Write(s: State, p: Payload): State {
    s.(payload := p, writes := s.writes + [p])
  }

  function Settle(s: State, p: Payload): State {
    if s.payload.status == 0 || s.payload.status == -1 then Write(s, p) else s
  }

  function Act(s: State, a: Action): State
    decreases a, 1
  {
    match a
    case Fulfil(value) => Settle(s, Payload(1, Module(value)))
    case Reject(error) => Settle(s, Payload(2, Failure(error)))
    case Initialize(attempt) => Init(s, attempt).0
  }

  function ActAll(s: State, actions: seq<Action>): State
    decreases actions, 0
  {
    if actions == [] then s
    else Act(ActAll(s, actions[..|actions| - 1]), actions[|actions| - 1])
  }

  function Answered(p: Payload): Answer {
    if p.status == 1 && p.result.Module? then Returns(p.result.value) else Throws(p.result)
  }

  function Init(s: State, attempt: Attempt): (State, Answer)
    decreases attempt, 1
  {
    if s.payload.status != -1 then (s, Answered(s.payload))
    else
      var loaded := ActAll(s.(loaderCalls := s.loaderCalls + 1), attempt.loader.actions);
      if attempt.loader.threw.Some? then (loaded, LoaderThrew(attempt.loader.threw.value))
      else
        var subscribed := ActAll(loaded, attempt.subscribe.actions);
        if attempt.subscribe.threw.Some? then (subscribed, LoaderThrew(attempt.subscribe.threw.value))
        else
          var done := if subscribed.payload.status == -1 then Write(subscribed, Payload(0, Thenable(attempt.id)))
                      else subscribed;
          (done, Answered(done.payload))
  }

  // ---------- the payload object ----------

  class Lazy {
    var status: int
    var result: Result
    var loaderCalls: nat
    ghost var writes: seq<Payload>

    constructor ()
      ensures Abs() == FRESH
    {
      status, result, loaderCalls, writes := -1, Loader, 0, [];
    }

    ghost function Abs(): State
      reads this
    {
      State(Payload(status, result), loaderCalls, writes)
    }

    method Assign(newStatus: int, newResult: Result)
      modifies this
      ensures Abs() == Write(old(Abs()), Payload(newStatus, newResult))
    {
      status, result := newStatus, newResult;
      writes := writes + [Payload(newStatus, newResult)];
    }

    method Perform(actions: seq<Action>)
      modifies this
      ensures Abs() == ActAll(old(Abs()), actions)
      decreases actions, 0
    {
      var i := 0;
      assert actions[..0] == [];
      while i < |actions|
        invariant 0 <= i <= |actions|
        invariant Abs() == ActAll(old(Abs()), actions[..i])
      {
        assert actions[..i + 1][..i] == actions[..i];
        PerformOne(actions[i]);
        i := i + 1;
      }
      assert actions[..|actions|] == actions;
    }

    method PerformOne(action: Action)
      modifies this
      ensures Abs() == Act(old(Abs()), action)
      decreases action, 2
    {
      match action {
        case Fulfil(value) =>
          if status == 0 || status == -1 { Assign(1, Module(value)); }
        case Reject(error) =>
          if status == 0 || status == -1 { Assign(2, Failure(error)); }
        case Initialize(attempt) =>
          var _ := Initialize(attempt);
      }
    }

    // lazyInitializerProduction
    method Initialize(attempt: Attempt) returns (answer: Answer)
      modifies this
      ensures (Abs(), answer) == Init(old(Abs()), attempt)
      decreases attempt, 1
    {
      if status == -1 {
        loaderCalls := loaderCalls + 1;
        Perform(attempt.loader.actions);
        if attempt.loader.threw.Some? { return LoaderThrew(attempt.loader.threw.value); }
        Perform(attempt.subscribe.actions);
        if attempt.subscribe.threw.Some? { return LoaderThrew(attempt.subscribe.threw.value); }
        if status == -1 { Assign(0, Thenable(attempt.id)); }
      }
      if status == 1 && result.Module? { return Returns(result.value); }
      answer := Throws(result);
    }
  }

  // ---------- what every run keeps ----------

  predicate Consistent(p: Payload) {
    match p.status
    case -1 => p.result.Loader?
    case 0 => p.result.Thenable?
    case 1 => p.result.Module?
    case 2 => p.result.Failure?
    case _ => false
  }

  // From uninitialized or pending the status moves on; a settled one never moves.
  predicate Moves(before: Payload, after: Payload) {
    && Consistent(before) && Consistent(after)
    && ((before.status == -1 && after.status in {0, 1, 2}) || (before.status == 0 && after.status in {1, 2}))
  }

  // Successive values of the payload, starting from p.
  predicate Path(p: Payload, writes: seq<Payload>) {
    if writes == [] then Consistent(p)
    else Path(p, writes[..|writes| - 1])
         && Moves(if |writes| == 1 then p else writes[|writes| - 2], writes[|writes| - 1])
  }

  // The writes recorded in `after` continue those of `before` along a path.
  predicate Continues(before: State, after: State) {
    && before.writes <= after.writes
    && Path(before.payload, after.writes[|before.writes|..])
    && after.payload == (if |after.writes| == |before.writes| then before.payload else after.writes[|after.writes| - 1])
    && (before.payload.status != -1 ==> after.loaderCalls == before.loaderCalls)
    && (before.payload.status in {1, 2} ==> after == before)
    && (before.payload.status != -1 ==> after.payload.status != -1)
  }

  lemma ContinuesSelf(s: State, calls: nat)
    requires Consistent(s.payload) && (s.payload.status != -1 ==> calls == s.loaderCalls)
    ensures Continues(s, s.(loaderCalls := calls))
  {
  }

  lemma ContinuesWrite(s: State, p: Payload)
    requires Moves(s.payload, p)
    ensures Continues(s, Write(s, p))
  {
    assert (s.writes + [p])[|s.writes|..] == [p];
    assert [p][..0] == [];
  }

  lemma {:induction false} PathConcat(p: Payload, a: seq<Payload>, b: seq<Payload>)
    requires Path(p, a) && Path(if a == [] then p else a[|a| - 1], b)
    ensures Path(p, a + b)
  {
    if b == [] {
      assert a + b == a;
    } else {
      PathConcat(p, a, b[..|b| - 1]);
      assert (a + b)[..|a + b| - 1] == a + b[..|b| - 1];
    }
  }

  lemma ContinuesThen(a: State, b: State, c: State)
    requires Continues(a, b) && Continues(b, c)
    ensures Continues(a, c)
  {
    var ab, bc := b.writes[|a.writes|..], c.writes[|b.writes|..];
    Suffixes(a.writes, b.writes, c.writes);
    assert ab != [] ==> ab[|ab| - 1] == b.writes[|b.writes| - 1];
    hide Consistent, Moves;
    PathConcat(a.payload, ab, bc);
  }

  lemma Suffixes<T>(a: seq<T>, b: seq<T>, c: seq<T>)
    requires a <= b && b <= c
    ensures a <= c && c[|a|..] == b[|a|..] + c[|b|..]
  {
  }

  lemma {:induction false} ActContinues(s: State, a: Action)
    requires Consistent(s.payload)
    ensures Continues(s, Act(s, a)) && Consistent(Act(s, a).payload)
    decreases a, 1
  {
    match a
    case Fulfil(value) =>
      ContinuesSelf(s, s.loaderCalls);
      if s.payload.status in {-1, 0} { ContinuesWrite(s, Payload(1, Module(value))); }
    case Reject(error) =>
      ContinuesSelf(s, s.loaderCalls);
      if s.payload.status in {-1, 0} { ContinuesWrite(s, Payload(2, Failure(error))); }
    case Initialize(attempt) => InitContinues(s, attempt);
  }

  lemma {:induction false} ActAllContinues(s: State, actions: seq<Action>)
    requires Consistent(s.payload)
    ensures Continues(s, ActAll(s, actions)) && Consistent(ActAll(s, actions).payload)
    decreases actions, 0
  {
    if actions == [] {
      ContinuesSelf(s, s.loaderCalls);
    } else {
      var n := |actions| - 1;
      ActAllContinues(s, actions[..n]);
      var t := ActAll(s, actions[..n]);
      ActContinues(t, actions[n]);
      ContinuesThen(s, t, Act(t, actions[n]));
    }
  }

  lemma {:induction false} InitContinues(s: State, attempt: Attempt)
    requires Consistent(s.payload)
    ensures Continues(s, Init(s, attempt).0) && Consistent(Init(s, attempt).0.payload)
    decreases attempt, 1
  {
    ContinuesSelf(s, s.loaderCalls);
    if s.payload.status == -1 {
      var called := s.(loaderCalls := s.loaderCalls + 1);
      ContinuesSelf(s, s.loaderCalls + 1);
      ActAllContinues(called, attempt.loader.actions);
      var loaded := ActAll(called, attempt.loader.actions);
      ContinuesThen(s, called, loaded);
      if attempt.loader.threw.None? {
        ActAllContinues(loaded, attempt.subscribe.actions);
        var subscribed := ActAll(loaded, attempt.subscribe.actions);
        ContinuesThen(s, loaded, subscribed);
        if attempt.subscribe.threw.None? && subscribed.payload.status == -1 {
          var p := Payload(0, Thenable(attempt.id));
          ContinuesWrite(subscribed, p);
          ContinuesThen(s, subscribed, Write(subscribed, p));
        }
      }
    }
  }

  // Over every run from a new payload, with any nesting of settle callbacks and
  // initializer calls: the status only moves -1 to 0 to 1 or 2, or -1 directly to
  // 1 or 2, and never again.
  lemma EveryRunIsAPath(actions: seq<Action>)
    ensures var s := ActAll(FRESH, actions);
            Path(FRESH.payload, s.writes) && Consistent(s.payload)
  {
    ActAllContinues(FRESH, actions);
    assert ActAll(FRESH, actions).writes[0..] == ActAll(FRESH, actions).writes;
  }

  // A settled payload ignores all later callbacks and initializer calls.
  lemma SettledForGood(before: seq<Action>, after: seq<Action>)
    requires ActAll(FRESH, before).payload.status in {1, 2}
    ensures ActAll(ActAll(FRESH, before), after) == ActAll(FRESH, before)
  {
    ActAllContinues(FRESH, before);
    ActAllContinues(ActAll(FRESH, before), after);
  }

  // After an initializer call the payload is still uninitialized only if it was
  // before and the loader or its `then` threw.
  lemma OnlyThrowingLeavesUninitialized(s: State, attempt: Attempt)
    requires Consistent(s.payload) && Init(s, attempt).0.payload.status == -1
    ensures s.payload.status == -1
    ensures attempt.loader.threw.Some? || attempt.subscribe.threw.Some?
  {
    InitContinues(s, attempt);
  }

  // So once an initializer call ended without either throwing, the loader is never
  // called again, whatever happens later.
  lemma LoaderIsNotCalledAgain(s: State, attempt: Attempt, later: seq<Action>)
    requires Consistent(s.payload) && attempt.loader.threw.None? && attempt.subscribe.threw.None?
    ensures ActAll(Init(s, attempt).0, later).loaderCalls == Init(s, attempt).0.loaderCalls
  {
    InitContinues(s, attempt);
    if Init(s, attempt).0.payload.status == -1 { OnlyThrowingLeavesUninitialized(s, attempt); }
    ActAllContinues(Init(s, attempt).0, later);
  }

  // A loader that settles nothing and does not call back into the initializer is
  // called exactly once by a first call that does not throw.
  lemma PlainLoaderIsCalledOnce(id: nat, later: seq<Action>)
    ensures var first := Init(FRESH, Attempt(Script([], None), id, Script([], None))).0;
            first.payload == Payload(0, Thenable(id)) && ActAll(first, later).loaderCalls == 1
  {
    var attempt := Attempt(Script([], None), id, Script([], None));
    LoaderIsNotCalledAgain(FRESH, attempt, later);
  }

  // ---------- answers ----------

  // A settling callback on an unsettled payload leaves exactly its own value or error.
  lemma SettlingSettles(s: State, value: nat, error: nat)
    requires s.payload.status in {-1, 0}
    ensures Act(s, Fulfil(value)).payload == Payload(1, Module(value))
    ensures Act(s, Reject(error)).payload == Payload(2, Failure(error))
  {
  }

  // The initializer returns the module of a fulfilled payload, throws the error of a
  // rejected one and the thenable of a pending one; a throw of the loader or of
  // `then` goes through.
  lemma InitAnswers(s: State, attempt: Attempt)
    requires Consistent(s.payload)
    ensures var (after, answer) := Init(s, attempt);
            && (s.payload.status == -1 && attempt.loader.threw.Some? ==>
                  answer == LoaderThrew(attempt.loader.threw.value))
            && (s.payload.status == -1 && attempt.loader.threw.None? && attempt.subscribe.threw.Some? ==>
                  answer == LoaderThrew(attempt.subscribe.threw.value))
            && (s.payload.status != -1 || (attempt.loader.threw.None? && attempt.subscribe.threw.None?) ==>
                  match after.payload.result
                  case Module(value) => answer == Returns(value)
                  case Failure(error) => answer == Throws(Failure(error))
                  case Thenable(id) => answer == Throws(Thenable(id))
                  case Loader => false)
  {
    InitContinues(s, attempt);
    if s.payload.status == -1 && attempt.loader.threw.None? && attempt.subscribe.threw.None? {
      OnlyThrowingLeaves(s, attempt);
    }
  }

  lemma OnlyThrowingLeaves(s: State, attempt: Attempt)
    requires Consistent(s.payload) && attempt.loader.threw.None? && attempt.subscribe.threw.None?
    ensures Init(s, attempt).0.payload.status != -1
  {
    InitContinues(s, attempt);
    if Init(s, attempt).0.payload.status == -1 { OnlyThrowingLeavesUninitialized(s, attempt); }
  }

  // From a new payload: suspended on the loader's thenable, then settled by it, then
  // answered.
  lemma FirstLoad(id: nat, value: nat, error: nat, again: Attempt)
    ensures var (first, answer) := Init(FRESH, Attempt(Script([], None), id, Script([], None)));
            && answer == Throws(Thenable(id))
            && Init(Act(first, Fulfil(value)), again).1 == Returns(value)
            && Init(Act(first, Reject(error)), again).1 == Throws(Failure(error))
  {
  }
}
