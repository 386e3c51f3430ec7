// The guard put around an expired act/root callback
// (packages/scheduler/unstable_mock.js:4042-4120, 4268-4312).
//
// A guarded callback calls the callback it wraps; when that returns a
// continuation, the guard checks its shape and returns it guarded in turn, or
// throws.  Callbacks are arbitrary and stateful; S is the state they act on.
module GuardedChain {
  import opened Wrappers

  // The properties the shape check reads.  Each claim is true when the callback
  // makes it; `locked` says that the brand is a locked own property, and `title`
  // is the label.
  datatype Shape = Shape(
    locked: bool, kind: string, version: int, reactTarget: string, schedulerTarget: string, title: Option<string>,
    publicClaim: bool, packageClaim: bool, executionClaim: bool, flushClaim: bool)

  const CALLBACK_KIND := "fast-react.react.private-act-queue-test-callback"
  const VERSION := 1
  const REACT_TARGET := "react@19.2.6"
  const SCHEDULER_TARGET := "scheduler@0.27.0"

  // getRejectedExpiredActRootWorkCallbackReason finds nothing
  predicate Acceptable(s: Shape) {
    && s.locked && s.kind == CALLBACK_KIND && s.version == VERSION
    && s.reactTarget == REACT_TARGET && s.schedulerTarget == SCHEDULER_TARGET && s.title.Some?
    && !s.publicClaim && !s.packageClaim && !s.executionClaim && !s.flushClaim
  }

  // definePrivateActQueueTestCallbackShape: the brand and the identifying fields
  // are copied or set, every claim is false or absent.
  function GuardShape(source: Shape): Shape {
    source.(locked := true, publicClaim := false, packageClaim := false, executionClaim := false, flushClaim := false)
  }

  // A function object: one of the user's, or a guard.
  datatype Callable = Raw(id: nat) | Guard(inner: Callable)

  datatype Outcome<S> =
    | Returned(state: S)                              // no continuation
    | Continued(state: S, continuation: Callable)
    | Threw(state: S)
    | Rejected(state: S)

  // How the user's functions behave and look, and what happens between two calls
  // of one task.
  datatype Env<!S> = Env(behave: (nat, S) -> Outcome<S>, shapes: nat -> Shape, between: S -> S)

  function ShapeOf<S>(env: Env<S>, c: Callable): Shape {
    match c
    case Raw(id) => env.shapes(id)
    case Guard(inner) => GuardShape(ShapeOf(env, inner))
  }

  function Invoke<S>(env: Env<S>, c: Callable, s: S): Outcome<S> {
    match c
    case Raw(id) => env.behave(id, s)
    case Guard(inner) =>
      var r := Invoke(env, inner, s);
      if !r.Continued? then r
      else if Acceptable(ShapeOf(env, r.continuation)) then Continued(r.state, Guard(r.continuation))
      else Rejected(r.state)
  }

  // The user's function that a call reaches.
  function Core(c: Callable): nat {
    match c
    case Raw(id) => id
    case Guard(inner) => Core(inner)
  }

  datatype Call<S> = Call(id: nat, state: S)

  datatype End<S> =
    | Finished(state: S)
    | Failed(state: S)
    | Refused(state: S)
    | Pending(next: Callable, state: S)

  datatype Trace<S> = Trace(calls: seq<Call<S>>, end: End<S>)

  // Calling a task's callback and then its continuations, at most n times.
  function Chain<S>(env: Env<S>, c: Callable, s: S, n: nat): Trace<S>
    decreases n
  {
    if n == 0 then Trace([], Pending(c, s))
    else
      var call := Call(Core(c), s);
      match Invoke(env, c, s)
      case Threw(after) => Trace([call], Failed(after))
      case Rejected(after) => Trace([call], Refused(after))
      case Returned(after) => Trace([call], Finished(after))
      case Continued(after, k) =>
        var rest := Chain(env, k, env.between(after), n - 1);
        Trace([call] + rest.calls, rest.end)
  }

  // How many calls are made until one returns an unacceptable continuation;
  // None when the chain meets none.
  function FirstUnacceptable<S>(env: Env<S>, c: Callable, s: S, n: nat): Option<nat>
    decreases n
  {
    if n == 0 then None
    else
      var r := Invoke(env, c, s);
      if !r.Continued? then None
      else if !Acceptable(ShapeOf(env, r.continuation)) then Some(1)
      else
        var m := FirstUnacceptable(env, r.continuation, env.between(r.state), n - 1);
        if m.None? then None else Some(m.value + 1)
  }

  function GuardEnd<S>(end: End<S>): End<S> {
    if end.Pending? then Pending(Guard(end.next), end.state) else end
  }

  // The only freedom an acceptable callback has is its label.
  lemma AcceptableExactly(s: Shape)
    ensures Acceptable(s) <==>
            exists title ::
              s == Shape(true, "fast-react.react.private-act-queue-test-callback", 1, "react@19.2.6", "scheduler@0.27.0",
                         Some(title), false, false, false, false)
  {
    if Acceptable(s) {
      assert s == Shape(true, "fast-react.react.private-act-queue-test-callback", 1, "react@19.2.6", "scheduler@0.27.0",
                        Some(s.title.value), false, false, false, false);
    }
  }

  // A guard identifies itself as its callback does and makes no claim, whatever the
  // callback claims.
  lemma GuardShapeFields(s: Shape)
    ensures GuardShape(s) == Shape(true, s.kind, s.version, s.reactTarget, s.schedulerTarget, s.title,
                                   false, false, false, false)
  {
  }

  // A guard of an acceptable callback is acceptable, and so is every continuation
  // a guard returns.
  lemma GuardsAreAcceptable<S>(env: Env<S>, c: Callable, s: S)
    ensures Acceptable(ShapeOf(env, c)) ==> Acceptable(ShapeOf(env, Guard(c)))
    ensures var r := Invoke(env, Guard(c), s);
            r.Continued? ==> r.continuation.Guard? && Acceptable(ShapeOf(env, r.continuation))
  {
    var r := Invoke(env, c, s);
    if r.Continued? {
      assert ShapeOf(env, Guard(r.continuation)) == GuardShape(ShapeOf(env, r.continuation));
    }
  }

  // While all continuations are acceptable, the guarded chain makes the same calls
  // in the same states and ends the same way, for chains of any length.
  lemma {:induction false} GuardIsInvisible<S>(env: Env<S>, c: Callable, s: S, n: nat)
    requires FirstUnacceptable(env, c, s, n).None?
    ensures Chain(env, Guard(c), s, n) == Trace(Chain(env, c, s, n).calls, GuardEnd(Chain(env, c, s, n).end))
    decreases n
  {
    if n > 0 {
      var r := Invoke(env, c, s);
      if r.Continued? { GuardIsInvisible(env, r.continuation, env.between(r.state), n - 1); }
    }
  }

  // Otherwise the guarded chain makes exactly the calls up to the one that
  // returned the first unacceptable continuation, then throws: that continuation
  // is never called.
  lemma {:induction false} GuardStopsAtFirstUnacceptable<S>(env: Env<S>, c: Callable, s: S, n: nat)
    requires FirstUnacceptable(env, c, s, n).Some?
    ensures var m, guarded := FirstUnacceptable(env, c, s, n).value, Chain(env, Guard(c), s, n);
            && 1 <= m <= n && m <= |Chain(env, c, s, n).calls|
            && guarded.calls == Chain(env, c, s, n).calls[..m]
            && guarded.end.Refused?
    decreases n
  {
    var r := Invoke(env, c, s);
    if Acceptable(ShapeOf(env, r.continuation)) {
      GuardStopsAtFirstUnacceptable(env, r.continuation, env.between(r.state), n - 1);
    } else {
      assert Chain(env, c, s, n).calls[..1] == [Call(Core(c), s)];
    }
  }

  // The guard never adds a refusal of its own: it refuses exactly when the
  // unguarded chain itself does, or meets an unacceptable continuation.
  lemma GuardRefusesExactly<S>(env: Env<S>, c: Callable, s: S, n: nat)
    ensures Chain(env, Guard(c), s, n).end.Refused? <==>
            FirstUnacceptable(env, c, s, n).Some? || Chain(env, c, s, n).end.Refused?
  {
    if FirstUnacceptable(env, c, s, n).Some? {
      GuardStopsAtFirstUnacceptable(env, c, s, n);
    } else {
      GuardIsInvisible(env, c, s, n);
    }
  }
}
