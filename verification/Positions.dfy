// Which positions of a tree React.Children visits
// (packages/react/children-helper.js:1061-1098, 1161-1219), said without any
// traversal: a position is a list of indexes into nested arrays and iterables.
module Positions {
  import opened Wrappers
  import opened Keys
  import opened Traversal

  // ---------- positions ----------

  // What is found once fulfilled lazies and thenables are resolved.
  function Resolved(node: Node): Node {
    match node
    case Lazy(_, Value(inner)) => Resolved(inner)
    case Thenable(_, Value(inner)) => Resolved(inner)
    case _ => node
  }

  function ValueAt(node: Node, at: seq<nat>): Option<Node>
    decreases |at|, 1
  {
    var value := Resolved(node);
    if at == [] then Some(value)
    else if value.List? || value.Iterable? then ItemValueAt(value.items, at)
    else None
  }

  function ItemValueAt(items: seq<Node>, at: seq<nat>): Option<Node>
    decreases |at|, 0
  {
    if at == [] || at[0] >= |items| then None else ValueAt(items[at[0]], at[1..])
  }

  // The keys and indexes on the way: every item counts by its own key, as written
  // in its list, or else by its index; a lone child by those of its value.
  function PathAt(node: Node, path: seq<Segment>, at: seq<nat>): seq<Segment>
    decreases |at|, 1
  {
    var value := Resolved(node);
    if at == [] then if path == [] then [SegmentOf(value, 0)] else path
    else if value.List? || value.Iterable? then ItemPathAt(value.items, path, at)
    else path
  }

  function ItemPathAt(items: seq<Node>, path: seq<Segment>, at: seq<nat>): seq<Segment>
    decreases |at|, 0
  {
    if at == [] || at[0] >= |items| then path
    else PathAt(items[at[0]], path + [SegmentOf(items[at[0]], at[0])], at[1..])
  }

  predicate Before(a: seq<nat>, b: seq<nat>) {
    b != [] && (a == [] || a[0] < b[0] || (a[0] == b[0] && Before(a[1..], b[1..])))
  }

  // ---------- the kinds of values ----------

  predicate IsEmpty(v: Node) {
    v.Null? || v.Undefined? || v.Boolean?
  }

  predicate IsChild(v: Option<Node>) {
    v.Some? && (IsEmpty(v.value) || v.value.Primitive? || v.value.Element? || v.value.Portal?)
  }

  // A rejected lazy or thenable, or an object that is no child.
  predicate IsBad(v: Option<Node>) {
    v.Some? && (v.value.Plain? || v.value.Lazy? || v.value.Thenable?)
  }

  predicate Raises(v: Option<Node>, error: Thrown) {
    && v.Some?
    && match v.value
       case Plain(_) => error == InvalidObject
       case Lazy(_, outcome) => outcome == Throws(error)
       case Thenable(_, outcome) => outcome == Throws(error)
       case _ => false
  }

  lemma {:induction false} ResolvedIsSettled(node: Node)
    ensures var v := Resolved(node);
            (v.Lazy? ==> v.outcome.Throws?) && (v.Thenable? ==> v.outcome.Throws?)
  {
    match node
    case Lazy(_, Value(inner)) => ResolvedIsSettled(inner);
    case Thenable(_, Value(inner)) => ResolvedIsSettled(inner);
    case _ =>
  }

  // ---------- a visit, position by position ----------

  type Getter = seq<nat> -> Option<Node>
  type Namer = seq<nat> -> seq<Segment>

  // `ats` are the positions of the leaves in order; `bad` is the first bad one.
  ghost predicate Lists(get: Getter, name: Namer, visit: Visit, ats: seq<seq<nat>>, bad: Option<seq<nat>>) {
    && |ats| == |visit.leaves|
    && (forall i :: 0 <= i < |ats| ==> IsLeafOf(get(ats[i]), name(ats[i]), visit.leaves[i]))
    && (forall i, j :: 0 <= i < j < |ats| ==> Before(ats[i], ats[j]))
    && (forall i :: 0 <= i < |ats| && bad.Some? ==> Before(ats[i], bad.value))
    && (forall at :: IsChild(get(at)) && (bad.None? || Before(at, bad.value)) ==> at in ats)
    && (forall at :: IsBad(get(at)) ==> bad.Some? && (at == bad.value || Before(bad.value, at)))
    && (if bad.None? then visit.error.None?
        else IsBad(get(bad.value)) && visit.error.Some? && Raises(get(bad.value), visit.error.value))
  }

  // Undefined and booleans are given to callbacks as null.
  predicate IsLeafOf(v: Option<Node>, path: seq<Segment>, leaf: Leaf) {
    IsChild(v) && leaf.path == path && leaf.child == if IsEmpty(v.value) then Null else v.value
  }

  function Shifted(n: nat, ats: seq<seq<nat>>): seq<seq<nat>> {
    seq(|ats|, i requires 0 <= i < |ats| => [n] + ats[i])
  }

  lemma BeforeUnder(n: nat, a: seq<nat>, b: seq<nat>)
    ensures Before([n] + a, [n] + b) <==> Before(a, b)
  {
    assert ([n] + a)[1..] == a && ([n] + b)[1..] == b;
  }

  lemma ShiftedOrder(n: nat, ats: seq<seq<nat>>)
    requires forall i, j :: 0 <= i < j < |ats| ==> Before(ats[i], ats[j])
    ensures forall i, j :: 0 <= i < j < |ats| ==> Before(Shifted(n, ats)[i], Shifted(n, ats)[j])
  {
    forall i, j | 0 <= i < j < |ats| ensures Before(Shifted(n, ats)[i], Shifted(n, ats)[j]) {
      BeforeUnder(n, ats[i], ats[j]);
    }
  }

  lemma {:induction false} NodePositions(node: Node, path: seq<Segment>) returns (ats: seq<seq<nat>>, bad: Option<seq<nat>>)
    ensures Lists(at => ValueAt(node, at), at => PathAt(node, path, at), Walk(node, path), ats, bad)
    decreases node, 1
  {
    match node {
      case Lazy(_, Value(inner)) =>
        ats, bad := NodePositions(inner, path);
        SameLists(inner, node, path, ats, bad);
      case Thenable(_, Value(inner)) =>
        ats, bad := NodePositions(inner, path);
        SameLists(inner, node, path, ats, bad);
      case List(_, items) =>
        ats, bad := ItemPositions(items, path);
        ListOfItems(node, path, ats, bad);
      case Iterable(_, items) =>
        ats, bad := ItemPositions(items, path);
        ListOfItems(node, path, ats, bad);
      case _ =>
        ats, bad := OwnPosition(node, path);
    }
  }

  lemma SameLists(inner: Node, outer: Node, path: seq<Segment>, ats: seq<seq<nat>>, bad: Option<seq<nat>>)
    requires Resolved(outer) == Resolved(inner) && Walk(outer, path) == Walk(inner, path)
    requires Lists(at => ValueAt(inner, at), at => PathAt(inner, path, at), Walk(inner, path), ats, bad)
    ensures Lists(at => ValueAt(outer, at), at => PathAt(outer, path, at), Walk(outer, path), ats, bad)
  {
    hide Walk;
    SamePointwise(at => ValueAt(inner, at), at => PathAt(inner, path, at),
                  at => ValueAt(outer, at), at => PathAt(outer, path, at), Walk(inner, path), ats, bad);
  }

  lemma SamePointwise(get: Getter, name: Namer, get': Getter, name': Namer, visit: Visit,
                      ats: seq<seq<nat>>, bad: Option<seq<nat>>)
    requires Lists(get, name, visit, ats, bad)
    requires forall at :: get'(at) == get(at) && name'(at) == name(at)
    ensures Lists(get', name', visit, ats, bad)
  {
    hide IsChild, IsBad, Raises, IsLeafOf;
  }

  lemma OwnPosition(node: Node, path: seq<Segment>) returns (ats: seq<seq<nat>>, bad: Option<seq<nat>>)
    requires !node.List? && !node.Iterable? && Resolved(node) == node
    ensures Lists(at => ValueAt(node, at), at => PathAt(node, path, at), Walk(node, path), ats, bad)
  {
    ResolvedIsSettled(node);
    ats := if IsChild(Some(node)) then [[]] else [];
    bad := if IsBad(Some(node)) then Some([]) else None;
    var get: Getter, name: Namer := at => ValueAt(node, at), at => PathAt(node, path, at);
    assert forall at :: get(at) == if at == [] then Some(node) else None;
    var visit := Walk(node, path);
    assert IsChild(Some(node)) ==> visit.error.None? && |visit.leaves| == 1 && IsLeafOf(get([]), name([]), visit.leaves[0]);
    assert !IsChild(Some(node)) ==> visit.leaves == [];
    assert IsBad(Some(node)) <==> visit.error.Some?;
    assert visit.error.Some? ==> Raises(Some(node), visit.error.value);
    hide Walk;
    assert forall at :: IsChild(get(at)) ==> at in ats;
    assert Lists(get, name, visit, ats, bad);
    SamePointwise(get, name, at => ValueAt(node, at), at => PathAt(node, path, at), visit, ats, bad);
  }

  lemma ListOfItems(node: Node, path: seq<Segment>, ats: seq<seq<nat>>, bad: Option<seq<nat>>)
    requires node.List? || node.Iterable?
    requires Lists(at => ItemValueAt(node.items, at), at => ItemPathAt(node.items, path, at), WalkItems(node.items, path), ats, bad)
    ensures Lists(at => ValueAt(node, at), at => PathAt(node, path, at), Walk(node, path), ats, bad)
  {
    var visit := Walk(node, path);
    assert visit == WalkItems(node.items, path);
    hide Walk, WalkItems;
    SameBelow(at => ItemValueAt(node.items, at), at => ItemPathAt(node.items, path, at),
              at => ValueAt(node, at), at => PathAt(node, path, at), visit, ats, bad);
  }

  // The list itself, at the empty position, is neither a child nor bad.
  lemma SameBelow(get: Getter, name: Namer, get': Getter, name': Namer, visit: Visit,
                  ats: seq<seq<nat>>, bad: Option<seq<nat>>)
    requires Lists(get, name, visit, ats, bad) && get([]) == None
    requires !IsChild(get'([])) && !IsBad(get'([]))
    requires forall at :: at != [] ==> get'(at) == get(at) && name'(at) == name(at)
    ensures Lists(get', name', visit, ats, bad)
  {
    assert bad.Some? ==> bad.value != [];
    forall i | 0 <= i < |ats| ensures IsLeafOf(get'(ats[i]), name'(ats[i]), visit.leaves[i]) {
      assert IsLeafOf(get(ats[i]), name(ats[i]), visit.leaves[i]);
      assert ats[i] != [];
    }
    hide Raises, Before;
  }

  lemma {:induction false} ItemPositions(items: seq<Node>, path: seq<Segment>) returns (ats: seq<seq<nat>>, bad: Option<seq<nat>>)
    ensures Lists(at => ItemValueAt(items, at), at => ItemPathAt(items, path, at), WalkItems(items, path), ats, bad)
    decreases items, 0
  {
    if items == [] {
      ats, bad := [], None;
    } else {
      var n := |items| - 1;
      var here := path + [SegmentOf(items[n], n)];
      var first, stop := ItemPositions(items[..n], path);
      var last, end := NodePositions(items[n], here);
      ats := if stop.Some? then first else first + Shifted(n, last);
      bad := if stop.Some? then stop else if end.Some? then Some([n] + end.value) else None;
      WalkNext(items, n, path);
      assert items[..n + 1] == items;
      ItemsJoin(items, path, first, stop, last, end);
    }
  }

  lemma ItemsJoin(items: seq<Node>, path: seq<Segment>, first: seq<seq<nat>>, stop: Option<seq<nat>>,
                  last: seq<seq<nat>>, end: Option<seq<nat>>)
    requires items != []
    requires var n := |items| - 1;
             && Lists(at => ItemValueAt(items[..n], at), at => ItemPathAt(items[..n], path, at),
                      WalkItems(items[..n], path), first, stop)
             && var here := path + [SegmentOf(items[n], n)];
                Lists(at => ValueAt(items[n], at), at => PathAt(items[n], here, at), Walk(items[n], here), last, end)
    ensures var n := |items| - 1;
            var visit := WalkItems(items[..n], path).Then(Walk(items[n], path + [SegmentOf(items[n], n)]));
            Lists(at => ItemValueAt(items, at), at => ItemPathAt(items, path, at), visit,
                  if stop.Some? then first else first + Shifted(n, last),
                  if stop.Some? then stop else if end.Some? then Some([n] + end.value) else None)
  {
    var n := |items| - 1;
    var here := path + [SegmentOf(items[n], n)];
    forall at ensures ItemValueAt(items[..n], at) == if at != [] && at[0] < n then ItemValueAt(items, at) else None
              ensures at != [] && at[0] < n ==> ItemPathAt(items[..n], path, at) == ItemPathAt(items, path, at)
    {}
    forall a ensures ItemValueAt(items, [n] + a) == ValueAt(items[n], a)
             ensures ItemPathAt(items, path, [n] + a) == PathAt(items[n], here, a)
    {
      assert ([n] + a)[1..] == a;
    }
    hide ItemValueAt, ItemPathAt, ValueAt, PathAt, Walk, WalkItems;
    Join(at => ItemValueAt(items[..n], at), at => ItemPathAt(items[..n], path, at), WalkItems(items[..n], path), first, stop,
         at => ValueAt(items[n], at), at => PathAt(items[n], here, at), Walk(items[n], here), last, end,
         at => ItemValueAt(items, at), at => ItemPathAt(items, path, at), n);
  }

  // The positions of all items are those of the items before the last, and those of
  // the last one under its index.
  ghost predicate Joins(get0: Getter, name0: Namer, get1: Getter, name1: Namer, get: Getter, name: Namer, n: nat) {
    && (forall at: seq<nat> :: at != [] && at[0] < n ==> get(at) == get0(at) && name(at) == name0(at))
    && (forall at: seq<nat> :: at == [] || at[0] > n ==> get(at) == None)
    && (forall at: seq<nat> :: at == [] || at[0] >= n ==> get0(at) == None)
    && forall a: seq<nat> :: get([n] + a) == get1(a) && name([n] + a) == name1(a)
  }

  lemma Join(get0: Getter, name0: Namer, v0: Visit, first: seq<seq<nat>>, stop: Option<seq<nat>>,
             get1: Getter, name1: Namer, v1: Visit, last: seq<seq<nat>>, end: Option<seq<nat>>,
             get: Getter, name: Namer, n: nat)
    requires Lists(get0, name0, v0, first, stop) && Lists(get1, name1, v1, last, end)
    requires Joins(get0, name0, get1, name1, get, name, n)
    ensures Lists(get, name, v0.Then(v1),
                  if stop.Some? then first else first + Shifted(n, last),
                  if stop.Some? then stop else if end.Some? then Some([n] + end.value) else None)
  {
    if stop.Some? {
      JoinStopped(get0, name0, v0, first, stop.value, get1, name1, get, name, n);
    } else {
      JoinLeaves(get0, name0, v0, first, get1, name1, v1, last, end, get, name, n);
      JoinOrder(get0, name0, v0, first, get1, name1, v1, last, end, get, name, n);
      JoinComplete(get0, name0, v0, first, get1, name1, v1, last, end, get, name, n);
      hide IsLeafOf, IsChild, IsBad, Raises, Before, Joins, Shifted;
      assert |Shifted(n, last)| == |last| by { ShiftedLength(n, last); }
    }
  }

  lemma ShiftedLength(n: nat, ats: seq<seq<nat>>)
    ensures |Shifted(n, ats)| == |ats|
    ensures forall at :: at in Shifted(n, ats) <==> at != [] && at[0] == n && at[1..] in ats
  {
    forall at ensures at in Shifted(n, ats) <==> at != [] && at[0] == n && at[1..] in ats {
      if at in Shifted(n, ats) {
        var i :| 0 <= i < |ats| && Shifted(n, ats)[i] == at;
        assert at == [n] + ats[i] && at[1..] == ats[i];
      }
      if at != [] && at[0] == n && at[1..] in ats {
        var i :| 0 <= i < |ats| && ats[i] == at[1..];
        assert Shifted(n, ats)[i] == at;
      }
    }
  }

  lemma JoinStopped(get0: Getter, name0: Namer, v0: Visit, first: seq<seq<nat>>, stop: seq<nat>,
                    get1: Getter, name1: Namer, get: Getter, name: Namer, n: nat)
    requires Lists(get0, name0, v0, first, Some(stop)) && Joins(get0, name0, get1, name1, get, name, n)
    ensures Lists(get, name, v0, first, Some(stop))
  {
    assert stop != [] && stop[0] < n;
    forall i | 0 <= i < |first| ensures IsLeafOf(get(first[i]), name(first[i]), v0.leaves[i]) {
      assert IsLeafOf(get0(first[i]), name0(first[i]), v0.leaves[i]);
      assert first[i] != [] && first[i][0] < n;
    }
    forall at | IsChild(get(at)) && Before(at, stop) ensures at in first {
      assert at != [] && at[0] < n;
    }
    forall at | IsBad(get(at)) ensures at == stop || Before(stop, at) {
      assert at != [] && at[0] <= n;
    }
  }

  lemma JoinLeaves(get0: Getter, name0: Namer, v0: Visit, first: seq<seq<nat>>,
                   get1: Getter, name1: Namer, v1: Visit, last: seq<seq<nat>>, end: Option<seq<nat>>,
                   get: Getter, name: Namer, n: nat)
    requires Lists(get0, name0, v0, first, None) && Lists(get1, name1, v1, last, end)
    requires Joins(get0, name0, get1, name1, get, name, n)
    ensures var ats, visit := first + Shifted(n, last), v0.Then(v1);
            && |ats| == |visit.leaves|
            && forall i :: 0 <= i < |ats| ==> IsLeafOf(get(ats[i]), name(ats[i]), visit.leaves[i])
  {
    var ats, visit := first + Shifted(n, last), v0.Then(v1);
    forall i | 0 <= i < |ats| ensures IsLeafOf(get(ats[i]), name(ats[i]), visit.leaves[i]) {
      if i < |first| {
        assert IsLeafOf(get0(first[i]), name0(first[i]), v0.leaves[i]);
        assert first[i] != [] && first[i][0] < n;
      } else {
        var j := i - |first|;
        assert ats[i] == [n] + last[j];
        assert IsLeafOf(get1(last[j]), name1(last[j]), v1.leaves[j]);
      }
    }
  }

  lemma JoinOrder(get0: Getter, name0: Namer, v0: Visit, first: seq<seq<nat>>,
                  get1: Getter, name1: Namer, v1: Visit, last: seq<seq<nat>>, end: Option<seq<nat>>,
                  get: Getter, name: Namer, n: nat)
    requires Lists(get0, name0, v0, first, None) && Lists(get1, name1, v1, last, end)
    requires Joins(get0, name0, get1, name1, get, name, n)
    ensures var ats := first + Shifted(n, last);
            && (forall i, j :: 0 <= i < j < |ats| ==> Before(ats[i], ats[j]))
            && (end.Some? ==> forall i :: 0 <= i < |ats| ==> Before(ats[i], [n] + end.value))
  {
    var ats := first + Shifted(n, last);
    ShiftedOrder(n, last);
    forall i | 0 <= i < |first| ensures first[i] != [] && first[i][0] < n {
      assert IsLeafOf(get0(first[i]), name0(first[i]), v0.leaves[i]);
    }
    forall i, j | 0 <= i < j < |ats| ensures Before(ats[i], ats[j]) {
      if |first| <= i { assert Before(Shifted(n, last)[i - |first|], Shifted(n, last)[j - |first|]); }
    }
    if end.Some? {
      forall i | 0 <= i < |ats| ensures Before(ats[i], [n] + end.value) {
        if |first| <= i { BeforeUnder(n, last[i - |first|], end.value); }
      }
    }
  }

  lemma JoinComplete(get0: Getter, name0: Namer, v0: Visit, first: seq<seq<nat>>,
                     get1: Getter, name1: Namer, v1: Visit, last: seq<seq<nat>>, end: Option<seq<nat>>,
                     get: Getter, name: Namer, n: nat)
    requires Lists(get0, name0, v0, first, None) && Lists(get1, name1, v1, last, end)
    requires Joins(get0, name0, get1, name1, get, name, n)
    ensures var ats, visit := first + Shifted(n, last), v0.Then(v1);
            && (forall at :: IsChild(get(at)) && (end.None? || Before(at, [n] + end.value)) ==> at in ats)
            && (forall at :: IsBad(get(at)) ==> end.Some? && (at == [n] + end.value || Before([n] + end.value, at)))
            && (if end.None? then visit.error.None?
                else IsBad(get([n] + end.value)) && visit.error.Some? && Raises(get([n] + end.value), visit.error.value))
  {
    hide Raises;
    var ats := first + Shifted(n, last);
    ShiftedLength(n, last);
    hide Shifted;
    forall at | IsChild(get(at)) && (end.None? || Before(at, [n] + end.value)) ensures at in ats {
      assert at != [] && at[0] <= n;
      if at[0] < n {
        assert at in first;
      } else {
        assert at == [n] + at[1..];
        if end.Some? { BeforeUnder(n, at[1..], end.value); }
        assert at[1..] in last;
        assert at in Shifted(n, last);
      }
    }
    forall at | IsBad(get(at)) ensures end.Some? && (at == [n] + end.value || Before([n] + end.value, at)) {
      assert at != [] && at[0] <= n;
      assert !IsBad(get0(at));
      assert at == [n] + at[1..];
      assert IsBad(get1(at[1..]));
      BeforeUnder(n, end.value, at[1..]);
    }
  }

  // ---------- what is visited ----------

  // Without an error: a value and a path are a leaf exactly when some position
  // holds such a child there, every bad object shows as an error, and the leaves
  // come in the order of their positions.
  lemma LeavesArePositions(children: Node) returns (ats: seq<seq<nat>>)
    requires Walk(children, []).error.None?
    ensures var leaves := Walk(children, []).leaves;
            && |ats| == |leaves|
            && (forall i, j :: 0 <= i < j < |ats| ==> Before(ats[i], ats[j]))
            && (forall at :: at in ats <==> IsChild(ValueAt(children, at)))
            && (forall i :: 0 <= i < |ats| ==> IsLeafOf(ValueAt(children, ats[i]), PathAt(children, [], ats[i]), leaves[i]))
    ensures forall at :: !IsBad(ValueAt(children, at))
  {
    var bad;
    ats, bad := NodePositions(children, []);
    var leaves := Walk(children, []).leaves;
    hide Walk, ValueAt, PathAt;
    var get: Getter := at => ValueAt(children, at);
    forall at ensures at in ats <==> IsChild(ValueAt(children, at)) {
      assert IsChild(get(at)) ==> at in ats;
      if at in ats {
        var i :| 0 <= i < |ats| && ats[i] == at;
        assert IsLeafOf(get(ats[i]), PathAt(children, [], ats[i]), leaves[i]);
      }
    }
    forall at ensures !IsBad(ValueAt(children, at)) { assert !IsBad(get(at)); }
  }

  // There is an error exactly when some position holds a rejected wrapper or an
  // object that is no child.
  lemma ErrorExactly(children: Node)
    ensures Walk(children, []).error.Some? <==> exists at :: IsBad(ValueAt(children, at))
  {
    var ats, bad := NodePositions(children, []);
    var get: Getter := at => ValueAt(children, at);
    hide Walk, ValueAt, PathAt;
    if at :| IsBad(ValueAt(children, at)) { assert IsBad(get(at)); }
    if bad.Some? { assert IsBad(ValueAt(children, bad.value)); }
  }

  lemma {:induction false} BeforeIsStrict(a: seq<nat>, b: seq<nat>)
    ensures !(Before(a, b) && Before(b, a)) && !Before(a, a)
  {
    if a != [] && b != [] { BeforeIsStrict(a[1..], b[1..]); }
    if a != [] { BeforeIsStrict(a[1..], a[1..]); }
  }

  // It is the error of the first such position, and exactly the leaves before that
  // position have been visited, in order.
  lemma FirstErrorWins(children: Node, at: seq<nat>, error: Thrown) returns (ats: seq<seq<nat>>)
    requires IsBad(ValueAt(children, at)) && Raises(ValueAt(children, at), error)
    requires forall other :: IsBad(ValueAt(children, other)) ==> other == at || Before(at, other)
    ensures var visit := Walk(children, []);
            && visit.error == Some(error) && |ats| == |visit.leaves|
            && (forall i, j :: 0 <= i < j < |ats| ==> Before(ats[i], ats[j]))
            && (forall other :: other in ats <==> IsChild(ValueAt(children, other)) && Before(other, at))
            && (forall i :: 0 <= i < |ats| ==>
                  IsLeafOf(ValueAt(children, ats[i]), PathAt(children, [], ats[i]), visit.leaves[i]))
  {
    var bad;
    ats, bad := NodePositions(children, []);
    var visit := Walk(children, []);
    var get: Getter := at => ValueAt(children, at);
    hide Walk, ValueAt, PathAt;
    assert IsBad(get(at));
    BeforeIsStrict(at, bad.value);
    assert IsBad(ValueAt(children, bad.value));
    assert bad.value == at;
    forall other ensures other in ats <==> IsChild(ValueAt(children, other)) && Before(other, at) {
      assert IsChild(get(other)) && Before(other, at) ==> other in ats;
      if other in ats {
        var i :| 0 <= i < |ats| && ats[i] == other;
        assert IsLeafOf(get(ats[i]), PathAt(children, [], ats[i]), visit.leaves[i]);
        assert Before(ats[i], at);
      }
    }
  }
}
