// The public root facade (packages/react-dom/client.js:171-227, 769-783): any number
// of roots over any number of containers share one registry of containers in use.
//
// The adapter and the private roots behind the facade are environment: every
// call into them either returns or throws.
module PublicRoots {
  type Container = nat
  type RootId = nat

  // Calls into the adapter for one root that returned normally.
  datatype AdapterCall = Rendered | Cleared | Unmounted

  datatype Root = Root(container: Container, mounted: bool, unmounted: bool, trace: seq<AdapterCall>)

  // What render is given: null, an element the facade accepts, or something else.
  datatype Element = NullElement | Supported | Unsupported

  // A call of the public interface.  `extraArguments` is an argument list the
  // facade refuses, `eligible` says that the container carries no marker and no
  // capability alias, `adapterThrows` is what the environment does.
  datatype Call =
    | CreateRoot(container: Container, extraArguments: bool, eligible: bool, adapterThrows: bool)
    | Render(root: RootId, extraArguments: bool, element: Element, adapterThrows: bool)
    | Unmount(root: RootId, extraArguments: bool, adapterThrows: bool)

  datatype Result = Done | Created(root: RootId) | Threw

  datatype State = State(registry: set<Container>, roots: seq<Root>)

  const INITIAL := State({}, [])

  // ---------- by reference ----------

  function Step(s: State, call: Call): (State, Result) {
    match call
    case CreateRoot(container, extra, eligible, throws) =>
      if extra || container in s.registry || !eligible || throws then (s, Threw)
      else (State(s.registry + {container}, s.roots + [Root(container, false, false, [])]), Created(|s.roots|))
    case Render(id, extra, element, throws) =>
      if id >= |s.roots| || extra || s.roots[id].unmounted || element.Unsupported? then (s, Threw)
      else if element.NullElement? then
        if !s.roots[id].mounted then (s, Done)
        else if throws then (s, Threw)
        else (WithRoot(s, id, s.roots[id].(mounted := false, trace := s.roots[id].trace + [Cleared])), Done)
      else if throws then (s, Threw)
      else (WithRoot(s, id, s.roots[id].(mounted := true, trace := s.roots[id].trace + [Rendered])), Done)
    case Unmount(id, extra, throws) =>
      if id >= |s.roots| || extra then (s, Threw)
      else if s.roots[id].unmounted then (s, Done)
      else if throws then (s, Threw)
      else
        var root := s.roots[id];
        var next := WithRoot(s, id, root.(mounted := false, unmounted := true, trace := root.trace + [Unmounted]));
        (next.(registry := s.registry - {root.container}), Done)
  }

  function WithRoot(s: State, id: RootId, root: Root): State
    requires id < |s.roots|
  {
    s.(roots := s.roots[id := root])
  }

  function Run(s: State, calls: seq<Call>): State
    decreases |calls|
  {
    if calls == [] then s else Run(Step(s, calls[0]).0, calls[1..])
  }

  // ---------- the facade ----------

  class Facade {
    var registry: set<Container>
    var roots: seq<Root>

    constructor ()
      ensures Abs() == INITIAL
    {
      registry, roots := {}, [];
    }

    function Abs(): State
      reads this
    {
      State(registry, roots)
    }

    method CreateRoot(container: Container, extraArguments: bool, eligible: bool, adapterThrows: bool) returns (r: Result)
      modifies this
      ensures (Abs(), r) == Step(old(Abs()), Call.CreateRoot(container, extraArguments, eligible, adapterThrows))
    {
      if extraArguments { return Threw; }
      if container in registry { return Threw; }
      if !eligible { return Threw; }
      if adapterThrows { return Threw; }
      registry := registry + {container};
      r := Created(|roots|);
      roots := roots + [Root(container, false, false, [])];
    }

    method Render(id: RootId, extraArguments: bool, element: Element, adapterThrows: bool) returns (r: Result)
      requires id < |roots|
      modifies this`roots
      ensures (Abs(), r) == Step(old(Abs()), Call.Render(id, extraArguments, element, adapterThrows))
    {
      if extraArguments { return Threw; }
      if roots[id].unmounted { return Threw; }
      if element.NullElement? {
        if roots[id].mounted {
          if adapterThrows { return Threw; }
          roots := roots[id := roots[id].(trace := roots[id].trace + [Cleared])];
          roots := roots[id := roots[id].(mounted := false)];
          assert roots == old(roots)[id := roots[id]];
        }
        return Done;
      }
      if element.Unsupported? { return Threw; }
      if adapterThrows { return Threw; }
      roots := roots[id := roots[id].(trace := roots[id].trace + [Rendered])];
      roots := roots[id := roots[id].(mounted := true)];
      assert roots == old(roots)[id := roots[id]];
      r := Done;
    }

    method Unmount(id: RootId, extraArguments: bool, adapterThrows: bool) returns (r: Result)
      requires id < |roots|
      modifies this
      ensures (Abs(), r) == Step(old(Abs()), Call.Unmount(id, extraArguments, adapterThrows))
    {
      if extraArguments { return Threw; }
      if roots[id].unmounted { return Done; }
      if adapterThrows { return Threw; }
      roots := roots[id := roots[id].(trace := roots[id].trace + [Unmounted])];
      registry := registry - {roots[id].container};
      roots := roots[id := roots[id].(mounted := false)];
      roots := roots[id := roots[id].(unmounted := true)];
      assert roots == old(roots)[id := roots[id]];
      r := Done;
    }
  }

  // ---------- what every interleaving keeps ----------

  ghost predicate Holds(s: State, id: RootId, container: Container) {
    id < |s.roots| && s.roots[id].container == container && !s.roots[id].unmounted
  }

  // A container is registered exactly when a root that is not unmounted holds it,
  // and no two such roots hold the same one.
  ghost predicate RegistryExact(s: State) {
    && (forall c :: c in s.registry <==> exists id :: Holds(s, id, c))
    && (forall i, j, c :: Holds(s, i, c) && Holds(s, j, c) ==> i == j)
  }

  // An adapter trace the facade may produce: output is cleared only directly after
  // a render, and nothing follows an unmount.
  predicate WellTraced(trace: seq<AdapterCall>) {
    && (forall i :: 0 <= i < |trace| && trace[i] == Cleared ==> i > 0 && trace[i - 1] == Rendered)
    && (forall i :: 0 <= i < |trace| - 1 ==> trace[i] != Unmounted)
  }

  // The root's flags say what its trace ended with.
  predicate RootOk(r: Root) {
    && WellTraced(r.trace)
    && (r.mounted <==> r.trace != [] && r.trace[|r.trace| - 1] == Rendered)
    && (r.unmounted <==> r.trace != [] && r.trace[|r.trace| - 1] == Unmounted)
  }

  ghost predicate Inv(s: State) {
    RegistryExact(s) && forall i :: 0 <= i < |s.roots| ==> RootOk(s.roots[i])
  }

  lemma CreateKeeps(s: State, container: Container)
    requires Inv(s) && container !in s.registry
    ensures Inv(State(s.registry + {container}, s.roots + [Root(container, false, false, [])]))
  {
    var t := State(s.registry + {container}, s.roots + [Root(container, false, false, [])]);
    var fresh' := |s.roots|;
    assert forall id, c :: Holds(t, id, c) <==> Holds(s, id, c) || (id == fresh' && c == container);
    forall c ensures c in t.registry <==> exists id :: Holds(t, id, c) {
      if c in s.registry {
        var id :| Holds(s, id, c);
        assert Holds(t, id, c);
      }
      assert Holds(t, fresh', container);
    }
  }

  lemma UnmountKeeps(s: State, id: RootId)
    requires Inv(s) && id < |s.roots| && !s.roots[id].unmounted
    ensures Inv(Step(s, Call.Unmount(id, false, false)).0)
  {
    var t := Step(s, Call.Unmount(id, false, false)).0;
    var container := s.roots[id].container;
    assert forall x, c :: Holds(t, x, c) <==> Holds(s, x, c) && x != id;
    assert Holds(s, id, container);
    forall c ensures c in t.registry <==> exists x :: Holds(t, x, c) {
      if c in t.registry {
        var x :| Holds(s, x, c);
        assert Holds(t, x, c);
      }
    }
  }

  lemma RenderKeeps(s: State, id: RootId, root: Root)
    requires Inv(s) && id < |s.roots| && RootOk(root)
    requires root.container == s.roots[id].container && root.unmounted == s.roots[id].unmounted
    ensures Inv(WithRoot(s, id, root))
  {
    var t := WithRoot(s, id, root);
    assert forall x, c :: Holds(t, x, c) <==> Holds(s, x, c);
    forall c ensures c in t.registry <==> exists x :: Holds(t, x, c) {
      if c in s.registry { var x :| Holds(s, x, c); assert Holds(t, x, c); }
    }
  }

  lemma StepKeeps(s: State, call: Call)
    requires Inv(s)
    ensures Inv(Step(s, call).0)
  {
    var t := Step(s, call).0;
    match call {
      case CreateRoot(container, extra, eligible, throws) =>
        if t != s { CreateKeeps(s, container); }
      case Unmount(id, extra, throws) =>
        if t != s { UnmountKeeps(s, id); }
      case Render(id, extra, element, throws) =>
        if t != s { RenderKeeps(s, id, t.roots[id]); }
    }
  }

  lemma {:induction false} RunKeeps(s: State, calls: seq<Call>)
    requires Inv(s)
    ensures Inv(Run(s, calls))
    decreases |calls|
  {
    if calls != [] {
      StepKeeps(s, calls[0]);
      RunKeeps(Step(s, calls[0]).0, calls[1..]);
    }
  }

  // Over all interleavings, whether or not the adapter throws.
  lemma EveryRunIsExact(calls: seq<Call>)
    ensures Inv(Run(INITIAL, calls))
  {
    RunKeeps(INITIAL, calls);
  }

  // So createRoot refuses a container, besides the checks of its own arguments,
  // exactly while another root holds it.
  lemma CreateSucceedsExactly(calls: seq<Call>, container: Container)
    ensures var s := Run(INITIAL, calls);
            Step(s, Call.CreateRoot(container, false, true, false)).1.Created?
            <==> forall id :: !Holds(s, id, container)
  {
    EveryRunIsExact(calls);
  }

  // ---------- what single calls do ----------

  // Every other root stays as it is.
  predicate OthersStay(s: State, t: State, id: RootId) {
    |s.roots| <= |t.roots| && forall i :: 0 <= i < |s.roots| && i != id ==> t.roots[i] == s.roots[i]
  }

  // A container that no mounted root holds: the new root is fresh and holds it.
  lemma CreateEffect(calls: seq<Call>, container: Container)
    requires forall id :: !Holds(Run(INITIAL, calls), id, container)
    ensures var s := Run(INITIAL, calls);
            var (t, r) := Step(s, Call.CreateRoot(container, false, true, false));
            && r == Created(|s.roots|) && |t.roots| == |s.roots| + 1
            && t.roots[|s.roots|] == Root(container, false, false, [])
            && Holds(t, |s.roots|, container) && t.registry == s.registry + {container}
            && OthersStay(s, t, |s.roots|)
  {
    CreateSucceedsExactly(calls, container);
  }

  // Creating fails, and changes nothing, for refused arguments, ineligible or held
  // containers, or a throwing adapter.
  lemma CreateFails(s: State, container: Container, extra: bool, eligible: bool, throws: bool)
    requires extra || !eligible || throws || container in s.registry
    ensures Step(s, Call.CreateRoot(container, extra, eligible, throws)) == (s, Threw)
  {
  }

  // Rendering an element, and clearing by null exactly when output is mounted.
  lemma RenderEffect(s: State, id: RootId)
    requires id < |s.roots| && !s.roots[id].unmounted
    ensures var root := s.roots[id];
            var (t, r) := Step(s, Call.Render(id, false, Supported, false));
            && r == Done && t.registry == s.registry && |t.roots| == |s.roots| && OthersStay(s, t, id)
            && t.roots[id] == Root(root.container, true, false, root.trace + [Rendered])
    ensures var root := s.roots[id];
            var (t, r) := Step(s, Call.Render(id, false, NullElement, false));
            && r == Done && t.registry == s.registry && |t.roots| == |s.roots| && OthersStay(s, t, id)
            && t.roots[id] == (if root.mounted then Root(root.container, false, false, root.trace + [Cleared]) else root)
  {
  }

  // Rendering fails, and changes nothing, for refused arguments or elements, and when
  // the adapter is called and throws.
  lemma RenderFails(s: State, id: RootId, extra: bool, element: Element, throws: bool)
    requires id < |s.roots| && !s.roots[id].unmounted
    requires extra || element.Unsupported? || (throws && (element.Supported? || s.roots[id].mounted))
    ensures Step(s, Call.Render(id, extra, element, throws)) == (s, Threw)
  {
  }

  // Unmounting marks the root, tells the adapter, releases the container, and a new
  // root can be created on it.
  lemma UnmountEffect(s: State, id: RootId)
    requires id < |s.roots| && !s.roots[id].unmounted
    ensures var root := s.roots[id];
            var (t, r) := Step(s, Call.Unmount(id, false, false));
            && r == Done && t.registry == s.registry - {root.container} && |t.roots| == |s.roots| && OthersStay(s, t, id)
            && t.roots[id] == Root(root.container, false, true, root.trace + [Unmounted])
            && Step(t, Call.CreateRoot(root.container, false, true, false)).1 == Created(|t.roots|)
    ensures Step(s, Call.Unmount(id, false, true)) == (s, Threw) && Step(s, Call.Unmount(id, true, false)) == (s, Threw)
  {
  }

  // One container through its life: rendering, unmounting, and a second root.
  lemma OneLife(container: Container)
    ensures var calls := [CreateRoot(container, false, true, false), Render(0, false, Supported, false),
                          Unmount(0, false, false), CreateRoot(container, false, true, false)];
            Run(INITIAL, calls)
            == State({container}, [Root(container, false, true, [Rendered, Unmounted]), Root(container, false, false, [])])
  {
    var s1 := Step(INITIAL, CreateRoot(container, false, true, false)).0;
    var s2 := Step(s1, Render(0, false, Supported, false)).0;
    var s3 := Step(s2, Unmount(0, false, false)).0;
    var last := [CreateRoot(container, false, true, false)];
    var tail := [Unmount(0, false, false)] + last;
    var calls := [CreateRoot(container, false, true, false), Render(0, false, Supported, false)] + tail;
    assert calls[1..] == [Render(0, false, Supported, false)] + tail && calls[1..][1..] == tail;
    assert tail[1..] == last && last[1..] == [];
    assert s1 == State({container}, [Root(container, false, false, [])]);
    RenderEffect(s1, 0);
    var none: seq<AdapterCall> := [];
    assert none + [Rendered] == [Rendered] && [Rendered] + [Unmounted] == [Rendered, Unmounted];
    assert s2.roots[0] == Root(container, true, false, [Rendered]);
    assert s2 == State({container}, [s2.roots[0]]);
    UnmountEffect(s2, 0);
    assert s3.roots == [s3.roots[0]];
    assert s3.roots == [Root(container, false, true, [Rendered, Unmounted])] && s3.registry == {};
    var s4 := Step(s3, last[0]).0;
    assert s4.registry == {container};
    assert s4.roots == [Root(container, false, true, [Rendered, Unmounted]), Root(container, false, false, [])];
    assert calls == [CreateRoot(container, false, true, false), Render(0, false, Supported, false),
                     Unmount(0, false, false), CreateRoot(container, false, true, false)];
    assert Run(INITIAL, calls) == Run(s1, calls[1..]) == Run(s2, tail) == Run(s3, last) == s4;
  }

  // ---------- stale roots ----------

  lemma {:induction false} RunKeepsUnmounted(s: State, calls: seq<Call>, id: RootId)
    requires id < |s.roots| && s.roots[id].unmounted
    ensures id < |Run(s, calls).roots| && Run(s, calls).roots[id] == s.roots[id]
    decreases |calls|
  {
    if calls != [] { RunKeepsUnmounted(Step(s, calls[0]).0, calls[1..], id); }
  }

  // An unmounted root stays as it is, and calling it again changes nothing: in
  // particular a repeated unmount cannot release a container that a newer root
  // has taken over, and render throws.
  lemma UnmountedRootIsInert(before: seq<Call>, id: RootId, after: seq<Call>, extra: bool, throws: bool, element: Element)
    requires var s := Run(INITIAL, before); id < |s.roots| && s.roots[id].unmounted
    ensures var t := Run(Run(INITIAL, before), after);
            && id < |t.roots| && t.roots[id].trace == Run(INITIAL, before).roots[id].trace
            && Step(t, Call.Unmount(id, extra, throws)).0 == t
            && Step(t, Call.Render(id, extra, element, throws)) == (t, Threw)
  {
    RunKeepsUnmounted(Run(INITIAL, before), after, id);
  }
}
