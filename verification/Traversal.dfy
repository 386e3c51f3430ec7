// React.Children traversal (packages/react/children-helper.js:998-1222).
//
// A child value is a finite tree of nested arrays, iterables, lazies and
// thenables.  Walk is the reference definition: it lists the leaves depth first,
// each with the path of explicit keys and indexes that leads to it.  Collect says
// what the answers of a callback on those leaves contribute to the result.
// Mapper.MapIntoArray is the traversal itself, with its shared output array, its
// call counter and its name strings.
module Traversal {
  import opened Wrappers
  import opened Keys
  import opened Prefixes

  // What an abrupt completion carries: a rejection reason, a suspended thenable,
  // or the error for an object that is no child.
  datatype Thrown = Reason(id: nat) | Suspended(id: nat) | InvalidObject

  // The outcome of calling a lazy's `_init`, of resolveThenable, or of a callback.
  datatype Settled = Value(node: Node) | Throws(error: Thrown)

  // A JavaScript value as the traversal sees it.  Any object may carry a key.
  datatype Node =
    | Null
    | Undefined
    | Boolean(b: bool)
    | Primitive(text: string)                        // string, number or bigint
    | Callable(id: nat)                              // function or symbol
    | Element(body: nat, elementKey: Option<string>) // body: type, props and owner
    | Portal(id: nat, portalKey: Option<string>)
    | List(listKey: Option<string>, items: seq<Node>)
    | Iterable(iterableKey: Option<string>, items: seq<Node>)
    | Lazy(lazyKey: Option<string>, outcome: Settled)
    | Thenable(thenableKey: Option<string>, outcome: Settled)
    | Plain(plainKey: Option<string>)                // any other object

  function ExplicitKey(node: Node): Option<string> {
    match node
    case Element(_, key) => key
    case Portal(_, key) => key
    case List(key, _) => key
    case Iterable(key, _) => key
    case Lazy(key, _) => key
    case Thenable(key, _) => key
    case Plain(key) => key
    case _ => None
  }

  // getElementKey, before it is printed
  function SegmentOf(node: Node, index: nat): Segment {
    match ExplicitKey(node)
    case Some(key) => Key(key)
    case None => Index(index)
  }

  // ---------- reference traversal ----------

  datatype Leaf = Leaf(child: Node, path: seq<Segment>) {
    function Name(): string { PathName(path) }
  }

  // The leaves met before the traversal ends or throws.
  datatype Visit = Visit(leaves: seq<Leaf>, error: Option<Thrown>) {
    function Then(next: Visit): Visit {
      if error.Some? then this else Visit(leaves + next.leaves, next.error)
    }
  }

  // The value a callback is given for a leaf: undefined and booleans become null.
  function LeafValue(node: Node): Node {
    if node.Undefined? || node.Boolean? then Null else node
  }

  function OneLeaf(node: Node, path: seq<Segment>): Visit {
    Visit([Leaf(LeafValue(node), if path == [] then [SegmentOf(node, 0)] else path)], None)
  }

  function Walk(node: Node, path: seq<Segment>): Visit
    decreases node, 1
  {
    match node
    case Null => OneLeaf(node, path)
    case Undefined => OneLeaf(node, path)
    case Boolean(_) => OneLeaf(node, path)
    case Primitive(_) => OneLeaf(node, path)
    case Element(_, _) => OneLeaf(node, path)
    case Portal(_, _) => OneLeaf(node, path)
    case Callable(_) => Visit([], None)
    case List(_, items) => WalkItems(items, path)
    case Iterable(_, items) => WalkItems(items, path)
    case Lazy(_, Value(inner)) => Walk(inner, path)
    case Thenable(_, Value(inner)) => Walk(inner, path)
    case Lazy(_, Throws(e)) => Visit([], Some(e))
    case Thenable(_, Throws(e)) => Visit([], Some(e))
    case Plain(_) => Visit([], Some(InvalidObject))
  }

  function WalkItems(items: seq<Node>, path: seq<Segment>): Visit
    decreases items, 0
  {
    if items == [] then Visit([], None)
    else
      var n := |items| - 1;
      WalkItems(items[..n], path).Then(Walk(items[n], path + [SegmentOf(items[n], n)]))
  }

  // ---------- reference collection ----------

  // The items pushed before the first abrupt completion.
  datatype Outcome = Outcome(items: seq<Node>, error: Option<Thrown>) {
    function Then(next: Outcome): Outcome {
      if error.Some? then this else Outcome(items + next.items, next.error)
    }
  }

  type Callback = (Node, nat) -> Settled

  // What a leaf pushes when its own value is the answer.
  function Keep(prefix: string, leaf: Leaf): seq<Node> {
    match leaf.child
    case Null => []
    case Element(body, _) => [Element(body, Some(prefix + leaf.Name()))]
    case _ => [leaf.child]
  }

  function KeepAll(prefix: string, leaves: seq<Leaf>): seq<Node> {
    if leaves == [] then []
    else KeepAll(prefix, leaves[..|leaves| - 1]) + Keep(prefix, leaves[|leaves| - 1])
  }

  // The key of an element that answers for a leaf.
  function AnswerKey(prefix: string, leaf: Leaf, key: Option<string>): string {
    if key.None? || ExplicitKey(leaf.child) == key then prefix + leaf.Name()
    else prefix + (DoubleRuns(key.value) + "/") + leaf.Name()
  }

  // What the callback's answer for a leaf pushes.
  function Emit(prefix: string, leaf: Leaf, answer: Settled): Outcome {
    match answer
    case Throws(e) => Outcome([], Some(e))
    case Value(List(_, _)) =>
      var inner := Walk(answer.node, []);
      Outcome(KeepAll(DoubleRuns(leaf.Name()) + "/", inner.leaves), inner.error)
    case Value(Null) => Outcome([], None)
    case Value(Undefined) => Outcome([], None)
    case Value(Element(body, key)) => Outcome([Element(body, Some(AnswerKey(prefix, leaf, key)))], None)
    case Value(other) => Outcome([other], None)
  }

  // The callback runs on the leaves in order, with indexes first, first + 1, ...
  function Collect(prefix: string, leaves: seq<Leaf>, callback: Callback, first: nat): Outcome {
    if leaves == [] then Outcome([], None)
    else
      var n := |leaves| - 1;
      Collect(prefix, leaves[..n], callback, first)
        .Then(Emit(prefix, leaves[n], callback(leaves[n].child, first + n)))
  }

  function Identity(child: Node, index: nat): Settled {
    Value(child)
  }

  // ---------- facts about the reference definitions ----------

  // The values callbacks are called with.
  predicate IsLeafValue(node: Node) {
    node.Null? || node.Primitive? || node.Element? || node.Portal?
  }

  predicate Extends(path: seq<Segment>, base: seq<Segment>) {
    base <= path && path != []
  }

  lemma {:induction false} WalkLeaves(node: Node, path: seq<Segment>)
    ensures forall leaf :: leaf in Walk(node, path).leaves ==> IsLeafValue(leaf.child) && Extends(leaf.path, path)
    decreases node, 1
  {
    match node
    case List(_, items) => WalkItemsLeaves(items, path);
    case Iterable(_, items) => WalkItemsLeaves(items, path);
    case Lazy(_, Value(inner)) => WalkLeaves(inner, path);
    case Thenable(_, Value(inner)) => WalkLeaves(inner, path);
    case _ =>
  }

  // Every leaf below a list starts with the segment of one of its items.
  lemma {:induction false} WalkItemsLeaves(items: seq<Node>, path: seq<Segment>)
    ensures forall leaf :: leaf in WalkItems(items, path).leaves ==>
              IsLeafValue(leaf.child) && Extends(leaf.path, path)
              && |path| < |leaf.path|
              && exists i :: 0 <= i < |items| && leaf.path[|path|] == SegmentOf(items[i], i)
    decreases items, 0
  {
    if items != [] {
      var n := |items| - 1;
      var init := items[..n];
      WalkItemsLeaves(init, path);
      WalkLeaves(items[n], path + [SegmentOf(items[n], n)]);
      forall leaf | leaf in WalkItems(items, path).leaves
        ensures IsLeafValue(leaf.child) && Extends(leaf.path, path) && |path| < |leaf.path|
        ensures exists i :: 0 <= i < |items| && leaf.path[|path|] == SegmentOf(items[i], i)
      {
        if leaf in WalkItems(init, path).leaves {
          var i :| 0 <= i < |init| && leaf.path[|path|] == SegmentOf(init[i], i);
          assert items[i] == init[i];
        } else {
          assert path + [SegmentOf(items[n], n)] <= leaf.path;
          assert leaf.path[|path|] == SegmentOf(items[n], n);
        }
      }
    }
  }

  // With the identity callback, collecting is keeping the leaves themselves.
  lemma {:induction false} CollectIdentity(prefix: string, leaves: seq<Leaf>, first: nat)
    requires forall leaf :: leaf in leaves ==> IsLeafValue(leaf.child)
    ensures Collect(prefix, leaves, Identity, first) == Outcome(KeepAll(prefix, leaves), None)
  {
    if leaves != [] { CollectIdentity(prefix, leaves[..|leaves| - 1], first); }
  }

  // ---------- what a traversal updates ----------

  // The result array, the counter captured by the callback wrapper, and a log of
  // the children the user's function was given.
  datatype Output = Output(items: seq<Node>, count: nat, calls: seq<Node>)

  datatype Delivery = Delivery(out: Output, error: Option<Thrown>)

  // `nested` is the traversal of an array that a callback returned, which uses
  // the identity callback; otherwise the user's function is called and counted.
  ghost function Deliver(out: Output, leaf: Leaf, nested: bool, prefix: string, func: Callback): Delivery {
    if nested then
      Delivery(out.(items := out.items + Keep(prefix, leaf)), None)
    else
      var e := Emit(prefix, leaf, func(leaf.child, out.count));
      Delivery(Output(out.items + e.items, out.count + 1, out.calls + [leaf.child]), e.error)
  }

  ghost function DeliverAll(out: Output, leaves: seq<Leaf>, nested: bool, prefix: string, func: Callback): Delivery {
    if leaves == [] then Delivery(out, None)
    else
      var sofar := DeliverAll(out, leaves[..|leaves| - 1], nested, prefix, func);
      if sofar.error.Some? then sofar
      else Deliver(sofar.out, leaves[|leaves| - 1], nested, prefix, func)
  }

  lemma {:induction false} DeliverConcat(out: Output, a: seq<Leaf>, b: seq<Leaf>, nested: bool, prefix: string, func: Callback)
    ensures var first := DeliverAll(out, a, nested, prefix, func);
            DeliverAll(out, a + b, nested, prefix, func)
            == if first.error.Some? then first else DeliverAll(first.out, b, nested, prefix, func)
  {
    if b == [] {
      assert a + b == a;
    } else {
      DeliverConcat(out, a, b[..|b| - 1], nested, prefix, func);
      assert (a + b)[..|a + b| - 1] == a + b[..|b| - 1];
    }
  }

  lemma DeliverOne(out: Output, leaf: Leaf, nested: bool, prefix: string, func: Callback)
    ensures DeliverAll(out, [leaf], nested, prefix, func) == Deliver(out, leaf, nested, prefix, func)
  {
    assert [leaf][..0] == [];
  }

  function Children(leaves: seq<Leaf>): seq<Node> {
    seq(|leaves|, i requires 0 <= i < |leaves| => leaves[i].child)
  }

  lemma NoChildren()
    ensures Children([]) == []
  {
  }

  lemma ChildrenAppend(leaves: seq<Leaf>, leaf: Leaf)
    ensures Children(leaves + [leaf]) == Children(leaves) + [leaf.child] && |Children(leaves)| == |leaves|
  {
  }

  // Starting from an empty result: the items are those collected, the error is the
  // collection's, and the function is given the leaves in order, all of them
  // unless an error ends the run early.
  lemma {:induction false} DeliverCollects(leaves: seq<Leaf>, prefix: string, func: Callback)
    ensures var d, got := DeliverAll(Output([], 0, []), leaves, false, prefix, func), Collect(prefix, leaves, func, 0);
            && d.out.items == got.items && d.error == got.error
            && d.out.calls <= Children(leaves) && d.out.count == |d.out.calls|
            && (d.error.None? ==> d.out.calls == Children(leaves))
  {
    hide Emit, Children;
    if leaves == [] {
      assert Children(leaves) == [] by { NoChildren(); }
    } else {
      var n := |leaves| - 1;
      DeliverCollects(leaves[..n], prefix, func);
      ChildrenAppend(leaves[..n], leaves[n]);
      assert leaves == leaves[..n] + [leaves[n]];
      assert Children(leaves) == Children(leaves[..n]) + [leaves[n].child];
    }
  }

  lemma {:induction false} DeliverKeeps(out: Output, leaves: seq<Leaf>, prefix: string, func: Callback)
    ensures DeliverAll(out, leaves, true, prefix, func)
            == Delivery(out.(items := out.items + KeepAll(prefix, leaves)), None)
  {
    if leaves != [] {
      var n := |leaves| - 1;
      DeliverKeeps(out, leaves[..n], prefix, func);
      ConcatAssociates(out.items, KeepAll(prefix, leaves[..n]), Keep(prefix, leaves[n]));
    }
  }

  // The whole effect of traversing something whose reference visit is `visit`.
  ghost predicate Traversed(before: Output, after: Output, error: Option<Thrown>,
                            visit: Visit, nested: bool, prefix: string, func: Callback) {
    var d := DeliverAll(before, visit.leaves, nested, prefix, func);
    after == d.out && error == (if d.error.Some? then d.error else visit.error)
  }

  lemma TraversedThen(s0: Output, s1: Output, s2: Output, error: Option<Thrown>,
                      v1: Visit, v2: Visit, nested: bool, prefix: string, func: Callback)
    requires Traversed(s0, s1, None, v1, nested, prefix, func)
    requires Traversed(s1, s2, error, v2, nested, prefix, func)
    ensures Traversed(s0, s2, error, v1.Then(v2), nested, prefix, func)
  {
    DeliverConcat(s0, v1.leaves, v2.leaves, nested, prefix, func);
  }

  // A failed traversal of the first part is a failed traversal of the whole.
  lemma TraversedFails(s0: Output, s1: Output, error: Option<Thrown>,
                       v1: Visit, v2: Visit, nested: bool, prefix: string, func: Callback)
    requires Traversed(s0, s1, error, v1, nested, prefix, func) && error.Some?
    ensures Traversed(s0, s1, error, v1.Then(v2), nested, prefix, func)
  {
    DeliverConcat(s0, v1.leaves, v2.leaves, nested, prefix, func);
  }

  lemma WalkNext(items: seq<Node>, index: nat, path: seq<Segment>)
    requires index < |items|
    ensures WalkItems(items[..index + 1], path)
            == WalkItems(items[..index], path).Then(Walk(items[index], path + [SegmentOf(items[index], index)]))
  {
    assert items[..index + 1][..index] == items[..index];
  }

  // Items after a failed one are not visited.
  lemma {:induction false} WalkFails(items: seq<Node>, index: nat, path: seq<Segment>, s0: Output, s1: Output,
                                     error: Option<Thrown>, nested: bool, prefix: string, func: Callback)
    requires index <= |items| && error.Some?
    requires Traversed(s0, s1, error, WalkItems(items[..index], path), nested, prefix, func)
    ensures Traversed(s0, s1, error, WalkItems(items, path), nested, prefix, func)
    decreases |items| - index
  {
    if index == |items| {
      assert items[..index] == items;
    } else {
      WalkNext(items, index, path);
      hide WalkItems, Walk;
      TraversedFails(s0, s1, error, WalkItems(items[..index], path),
                     Walk(items[index], path + [SegmentOf(items[index], index)]), nested, prefix, func);
      WalkFails(items, index + 1, path, s0, s1, error, nested, prefix, func);
    }
  }

  // One more item of a list.
  lemma ItemTraversed(items: seq<Node>, index: nat, path: seq<Segment>, s0: Output, s1: Output, s2: Output,
                      error: Option<Thrown>, nested: bool, prefix: string, func: Callback)
    requires index < |items|
    requires Traversed(s0, s1, None, WalkItems(items[..index], path), nested, prefix, func)
    requires Traversed(s1, s2, error, Walk(items[index], path + [SegmentOf(items[index], index)]), nested, prefix, func)
    ensures Traversed(s0, s2, error, WalkItems(items[..index + 1], path), nested, prefix, func)
    ensures error.Some? ==> Traversed(s0, s2, error, WalkItems(items, path), nested, prefix, func)
    ensures error.None? ==>
              |WalkItems(items[..index + 1], path).leaves|
              == |WalkItems(items[..index], path).leaves|
                 + |Walk(items[index], path + [SegmentOf(items[index], index)]).leaves|
  {
    WalkNext(items, index, path);
    hide Walk, WalkItems;
    TraversedThen(s0, s1, s2, error, WalkItems(items[..index], path),
                  Walk(items[index], path + [SegmentOf(items[index], index)]), nested, prefix, func);
    if error.Some? {
      WalkFails(items, index + 1, path, s0, s2, error, nested, prefix, func);
    }
  }

  lemma ChildName(path: seq<Segment>, child: Node, index: nat)
    ensures NamePrefix(path) + GetElementKey(child, index) == PathName(path + [SegmentOf(child, index)])
  {
    PathNameAppend(path, SegmentOf(child, index));
  }

  lemma NamePrefixOf(path: seq<Segment>)
    ensures NamePrefix(path) == if PathName(path) == "" then "." else PathName(path) + ":"
  {
    if path != [] { PathNameShape(path); }
  }

  // ---------- the traversal itself ----------

  function GetElementKey(node: Node, index: nat): string {
    SegmentText(SegmentOf(node, index))
  }

  lemma LeafKey(children: Node, path: seq<Segment>)
    ensures OneLeaf(children, path).leaves[0].Name()
            == if PathName(path) == "" then "." + GetElementKey(LeafValue(children), 0) else PathName(path)
  {
    if path == [] {
      PathNameAppend([], SegmentOf(children, 0));
      assert [] + [SegmentOf(children, 0)] == [SegmentOf(children, 0)];
    } else {
      PathNameShape(path);
    }
  }

  lemma NameOfNone()
    ensures PathName([]) == ""
  {
  }

  // A leaf that answers for itself is kept.
  lemma EmitKeeps(prefix: string, leaf: Leaf)
    requires IsLeafValue(leaf.child)
    ensures Emit(prefix, leaf, Value(leaf.child)) == Outcome(Keep(prefix, leaf), None)
  {
  }

  // One call of React.Children.map.
  class Mapper {
    var items: seq<Node>
    var count: nat
    var calls: seq<Node>
    const func: Callback

    constructor (func: Callback)
      ensures State() == Output([], 0, []) && this.func == func
    {
      items, count, calls, this.func := [], 0, [], func;
    }

    ghost function State(): Output
      reads this
    {
      Output(items, count, calls)
    }

    method MapIntoArray(children: Node, escapedPrefix: string, nameSoFar: string, nested: bool,
                        ghost path: seq<Segment>)
      returns (subtreeCount: nat, error: Option<Thrown>)
      requires nameSoFar == PathName(path)
      modifies this
      ensures Traversed(old(State()), State(), error, Walk(children, path), nested, escapedPrefix, func)
      ensures error.None? ==> subtreeCount == |Walk(children, path).leaves|
      decreases if nested then 0 else 1, children, 2
    {
      match children {
        case Lazy(_, Value(inner)) =>
          subtreeCount, error := MapIntoArray(inner, escapedPrefix, nameSoFar, nested, path);
        case Thenable(_, Value(inner)) =>
          subtreeCount, error := MapIntoArray(inner, escapedPrefix, nameSoFar, nested, path);
        case Lazy(_, Throws(e)) => subtreeCount, error := 0, Some(e);
        case Thenable(_, Throws(e)) => subtreeCount, error := 0, Some(e);
        case Plain(_) => subtreeCount, error := 0, Some(InvalidObject);
        case Callable(_) => subtreeCount, error := 0, None;
        case List(_, items) => subtreeCount, error := MapItems(items, escapedPrefix, nameSoFar, nested, path);
        case Iterable(_, items) => subtreeCount, error := MapItems(items, escapedPrefix, nameSoFar, nested, path);
        case _ => subtreeCount, error := InvokeCallback(children, escapedPrefix, nameSoFar, nested, path);
      }
    }

    // The loops over an array's indexes and over an iterator's steps.
    method MapItems(items: seq<Node>, escapedPrefix: string, nameSoFar: string, nested: bool,
                    ghost path: seq<Segment>)
      returns (subtreeCount: nat, error: Option<Thrown>)
      requires nameSoFar == PathName(path)
      modifies this
      ensures Traversed(old(State()), State(), error, WalkItems(items, path), nested, escapedPrefix, func)
      ensures error.None? ==> subtreeCount == |WalkItems(items, path).leaves|
      decreases if nested then 0 else 1, items, 0
    {
      hide Walk, PathName, Deliver, GetElementKey, SegmentOf;
      subtreeCount, error := 0, None;
      var nextNamePrefix := if nameSoFar == "" then "." else nameSoFar + ":";
      NamePrefixOf(path);
      assert items[..0] == [] && items[..|items|] == items;
      hide *;
      var index := 0;
      while index < |items|
        invariant 0 <= index <= |items|
        invariant error.None?
        invariant Traversed(old(State()), State(), error, WalkItems(items[..index], path), nested, escapedPrefix, func)
        invariant subtreeCount == |WalkItems(items[..index], path).leaves|
      {
        var child := items[index];
        var nextName := nextNamePrefix + GetElementKey(child, index);
        ChildName(path, child, index);
        ghost var done := State();
        var added;
        added, error := MapIntoArray(child, escapedPrefix, nextName, nested, path + [SegmentOf(child, index)]);
        ItemTraversed(items, index, path, old(State()), done, State(), error, nested, escapedPrefix, func);
        if error.Some? { return; }
        subtreeCount := subtreeCount + added;
        index := index + 1;
      }
    }

    method InvokeCallback(children: Node, escapedPrefix: string, nameSoFar: string, nested: bool,
                          ghost path: seq<Segment>)
      returns (subtreeCount: nat, error: Option<Thrown>)
      requires nameSoFar == PathName(path)
      requires children.Undefined? || children.Boolean? || IsLeafValue(children)
      modifies this
      ensures Traversed(old(State()), State(), error, OneLeaf(children, path), nested, escapedPrefix, func)
      ensures error.None? ==> subtreeCount == 1
      decreases if nested then 0 else 1, children, 1
    {
      hide PathName, Walk, DeliverAll, Emit;
      var child := if children.Undefined? || children.Boolean? then Null else children;
      ghost var before, leaf := State(), OneLeaf(children, path).leaves[0];
      DeliverOne(before, leaf, nested, escapedPrefix, func);
      assert OneLeaf(children, path).leaves == [leaf];
      var answer := Value(child);
      if !nested {
        answer := func(child, count);
        count, calls := count + 1, calls + [child];
      }
      var childKey := if nameSoFar == "" then "." + GetElementKey(child, 0) else nameSoFar;
      LeafKey(children, path);
      subtreeCount := 1;
      error := PushAnswer(answer, child, escapedPrefix, childKey, nested, children, leaf);
      EmitKeeps(escapedPrefix, leaf);
    }

    // What invokeCallback does with the callback's answer.
    method PushAnswer(answer: Settled, child: Node, escapedPrefix: string, childKey: string, nested: bool,
                      ghost children: Node, ghost leaf: Leaf)
      returns (error: Option<Thrown>)
      requires leaf.child == child && leaf.Name() == childKey
      requires nested ==> answer == Value(child) && !child.List?
      modifies this
      ensures count == old(count) && calls == old(calls)
      ensures items == old(items) + Emit(escapedPrefix, leaf, answer).items
      ensures error == Emit(escapedPrefix, leaf, answer).error
      decreases if nested then 0 else 1, children, 0
    {
      hide PathName, Walk, DeliverAll;
      error := None;
      match answer {
        case Throws(e) =>
          error := Some(e);
        case Value(List(_, _)) =>
          var escapedChildKey := DoubleRuns(childKey) + "/";
          ghost var start := State();
          NameOfNone();
          var _, innerError := MapIntoArray(answer.node, escapedChildKey, "", true, []);
          DeliverKeeps(start, Walk(answer.node, []).leaves, escapedChildKey, func);
          error := innerError;
        case Value(Null) =>
        case Value(Undefined) =>
        case Value(Element(body, key)) =>
          var newKey := escapedPrefix
            + (if key.None? || ExplicitKey(child) == key then "" else DoubleRuns(key.value) + "/")
            + childKey;
          NothingBetween(escapedPrefix, childKey);
          items := items + [Element(body, Some(newKey))];
        case Value(other) =>
          items := items + [other];
      }
    }
  }

  lemma NothingBetween(a: string, b: string)
    ensures a + "" + b == a + b
  {
  }

  // ---------- the exported helpers ----------

  datatype MapResult = Same(children: Node) | Items(items: seq<Node>) | Threw(error: Thrown)

  function Completed(items: seq<Node>, error: Option<Thrown>): MapResult {
    if error.Some? then Threw(error.value) else Items(items)
  }

  // React.Children.map, by reference: null and undefined come back unchanged.
  function MapOf(children: Node, func: Callback): MapResult {
    if children.Null? || children.Undefined? then Same(children)
    else
      var visit := Walk(children, []);
      var got := Collect("", visit.leaves, func, 0);
      Completed(got.items, if got.error.Some? then got.error else visit.error)
  }

  // React.Children.toArray, by reference: the leaves that are not null, with elements re-keyed by name.
  function ToArrayOf(children: Node): MapResult {
    var visit := Walk(children, []);
    Completed(KeepAll("", visit.leaves), visit.error)
  }

  method MapChildren(children: Node, func: Callback) returns (r: MapResult, calls: seq<Node>)
    ensures r == MapOf(children, func)
    ensures r.Same? ==> calls == []
    ensures r.Items? ==> calls == Children(Walk(children, []).leaves)
    ensures calls <= Children(Walk(children, []).leaves)
  {
    if children.Null? || children.Undefined? {
      return Same(children), [];
    }
    var mapper := new Mapper(func);
    var _, error := mapper.MapIntoArray(children, "", "", false, []);
    DeliverCollects(Walk(children, []).leaves, "", func);
    r, calls := Completed(mapper.items, error), mapper.calls;
  }

  method ToArray(children: Node) returns (r: MapResult)
    ensures r == ToArrayOf(children)
  {
    var calls;
    r, calls := MapChildren(children, Identity);
    WalkLeaves(children, []);
    CollectIdentity("", Walk(children, []).leaves, 0);
    if r.Same? { r := Items([]); }
    assert children.Null? || children.Undefined? ==> KeepAll("", Walk(children, []).leaves) == [];
  }

  // The callback of count returns undefined; the count is the number of its calls.
  method Count(children: Node) returns (count: nat, error: Option<Thrown>)
    ensures error == Walk(children, []).error || (error.None? && (children.Null? || children.Undefined?))
    ensures error.None? ==>
              count == if children.Null? || children.Undefined? then 0 else |Walk(children, []).leaves|
  {
    var r, calls := MapChildren(children, CountCallback);
    CollectCounting(Walk(children, []).leaves);
    count, error := |calls|, if r.Threw? then Some(r.error) else None;
  }

  function CountCallback(child: Node, index: nat): Settled {
    Value(Undefined)
  }

  lemma {:induction false} CollectCounting(leaves: seq<Leaf>)
    ensures Collect("", leaves, CountCallback, 0) == Outcome([], None)
  {
    if leaves != [] { CollectCounting(leaves[..|leaves| - 1]); }
  }
}
