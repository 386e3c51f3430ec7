// The keys of React.Children.map results for answers of every kind
// (packages/react/children-helper.js:1100-1156).
//
// An element that answers for a leaf keeps the leaf's name or gets its own key put
// in front of it; an element inside an array answer is named below the leaf.  This
// module says exactly which of these keys coincide.
module AnswerKeys {
  import opened Wrappers
  import opened Keys
  import opened Prefixes
  import opened Traversal
  import opened ChildrenKeys

  // Where the key of a pushed element comes from.
  datatype Origin = Own(name: string) | Under(outer: string, inner: string) {
    function KeyText(): string {
      if Own? then name else NestedKey(outer, inner)
    }

    predicate Proper() {
      if Own? then IsLeafName(name) else IsLeafName(inner)
    }
  }

  // ---------- which keys coincide ----------

  // b's outer name continues a's, which ends in '/', and a's inner name is the rest
  // of it put in front of b's.
  predicate Continues(a: Origin, b: Origin)
    requires a.Under? && b.Under?
  {
    Clash(a.outer, b.outer) && a.inner == NestedKey(b.outer[|a.outer| + 1..], b.inner)
  }

  predicate Overlap(a: Origin, b: Origin) {
    if a.Own? && b.Own? then a == b
    else if a.Own? then NamesKeyedNode(b.outer) && a.name == NestedKey(b.outer, b.inner)
    else if b.Own? then NamesKeyedNode(a.outer) && b.name == NestedKey(a.outer, a.inner)
    else a == b || Continues(a, b) || Continues(b, a)
  }

  lemma NameBehind(name: string, outer: string, inner: string)
    requires IsLeafName(name) && IsLeafName(inner) && name == NestedKey(outer, inner)
    ensures NamesKeyedNode(outer)
  {
    LeafNameShape(name);
    if outer != "" { DoubleRunsHead(outer); }
    assert outer != "" && outer[0] == '.';
    NestedKeyDecodes(outer, inner);
  }

  lemma ContinuesExactly(a: Origin, b: Origin)
    requires a.Under? && b.Under? && a.Proper() && b.Proper() && |a.outer| <= |b.outer|
    ensures a.KeyText() == b.KeyText() <==> a == b || Continues(a, b)
  {
    LeafNameShape(a.inner);
    LeafNameShape(b.inner);
    hide NestedKey, IsLeafName, NamesKeyedNode;
    if a.KeyText() == b.KeyText() {
      Align(a.outer, a.inner, b.outer, b.inner);
      if a != b { NameBehind(a.inner, b.outer[|a.outer| + 1..], b.inner); }
    }
    if Continues(a, b) {
      var r := b.outer[|a.outer| + 1..];
      KeyedNodeShape(r);
      ClashKeys(a.outer, r, b.inner);
      assert b.outer == a.outer + "/" + r;
    }
  }

  lemma KeyedNodeShape(s: string)
    requires NamesKeyedNode(s)
    ensures s != "" && s[0] == '.'
  {
  }

  // Two keys are equal exactly when their origins overlap.
  lemma OverlapExactly(a: Origin, b: Origin)
    requires a.Proper() && b.Proper()
    ensures a.KeyText() == b.KeyText() <==> Overlap(a, b)
  {
    if a.Under? && b.Under? {
      if |a.outer| <= |b.outer| { ContinuesExactly(a, b); } else { ContinuesExactly(b, a); }
    } else if a.KeyText() == b.KeyText() {
      if a.Own? && b.Under? { NameBehind(a.name, b.outer, b.inner); }
      if b.Own? && a.Under? { NameBehind(b.name, a.outer, a.inner); }
    }
  }

  // ---------- what an answer pushes ----------

  predicate Pushes(leaf: Leaf, answer: Settled, o: Origin) {
    && answer.Value?
    && match answer.node
       case List(_, _) =>
         o.Under? && o.outer == leaf.Name() && HasElementNamed(Walk(answer.node, []).leaves, o.inner)
       case Element(_, key) =>
         o == if key.None? || ExplicitKey(leaf.child) == key then Own(leaf.Name()) else Under(key.value, leaf.Name())
       case _ => false
  }

  predicate HasElementNamed(leaves: seq<Leaf>, name: string) {
    exists inner :: inner in leaves && inner.child.Element? && inner.Name() == name
  }

  lemma LeafNames(leaf: Leaf)
    requires leaf.path != []
    ensures IsLeafName(leaf.Name())
  {
    DecodePathName(leaf.path);
  }

  lemma PushedIsProper(leaf: Leaf, answer: Settled, o: Origin)
    requires leaf.path != [] && Pushes(leaf, answer, o)
    ensures o.Proper()
  {
    LeafNames(leaf);
    if answer.node.List? {
      var leaves := Walk(answer.node, []).leaves;
      WalkLeaves(answer.node, []);
      var inner :| inner in leaves && inner.child.Element? && inner.Name() == o.inner;
      LeafNames(inner);
    }
  }

  predicate HasKey(items: seq<Node>, key: string) {
    exists x :: x in items && x.Element? && x.elementKey == Some(key)
  }

  // The keys of the pushed elements are those of the origins, and all pushed
  // elements have a key.
  lemma PushedKeys(leaf: Leaf, answer: Settled)
    ensures forall o :: Pushes(leaf, answer, o) ==> HasKey(Emit("", leaf, answer).items, o.KeyText())
    ensures forall x :: x in Emit("", leaf, answer).items && x.Element? ==>
              x.elementKey.Some? && exists o :: Pushes(leaf, answer, o) && o.KeyText() == x.elementKey.value
  {
    if answer.Value? && answer.node.List? {
      PushedList(leaf, answer);
    } else if answer.Value? && answer.node.Element? {
      PushedElement(leaf, answer);
    }
  }

  lemma PushedElement(leaf: Leaf, answer: Settled)
    requires answer.Value? && answer.node.Element?
    ensures exists o :: Pushes(leaf, answer, o)
              && Emit("", leaf, answer).items == [Element(answer.node.body, Some(o.KeyText()))]
    ensures forall o :: Pushes(leaf, answer, o) ==> HasKey(Emit("", leaf, answer).items, o.KeyText())
  {
    var key := answer.node.elementKey;
    var o := if key.None? || ExplicitKey(leaf.child) == key then Own(leaf.Name()) else Under(key.value, leaf.Name());
    hide PathName, DoubleRuns;
    NoPrefix(leaf.Name());
    if o.Under? { NoPrefix(DoubleRuns(key.value) + "/"); }
    assert Pushes(leaf, answer, o);
    var x := Element(answer.node.body, Some(o.KeyText()));
    assert Emit("", leaf, answer).items == [x];
    assert x in Emit("", leaf, answer).items;
  }

  lemma NoPrefix(s: string)
    ensures "" + s == s
  {
  }

  lemma PushedList(leaf: Leaf, answer: Settled)
    requires answer.Value? && answer.node.List?
    ensures forall o :: Pushes(leaf, answer, o) ==> HasKey(Emit("", leaf, answer).items, o.KeyText())
    ensures forall x :: x in Emit("", leaf, answer).items && x.Element? ==>
              x.elementKey.Some? && exists o :: Pushes(leaf, answer, o) && o.KeyText() == x.elementKey.value
  {
    var leaves, prefix := Walk(answer.node, []).leaves, DoubleRuns(leaf.Name()) + "/";
    hide Walk, DoubleRuns, PathName, KeepAll;
    forall o | Pushes(leaf, answer, o) ensures HasKey(Emit("", leaf, answer).items, o.KeyText()) {
      var inner :| inner in leaves && inner.child.Element? && inner.Name() == o.inner;
      KeptElement(prefix, leaves, inner);
    }
    forall x | x in Emit("", leaf, answer).items && x.Element?
      ensures x.elementKey.Some? && exists o :: Pushes(leaf, answer, o) && o.KeyText() == x.elementKey.value
    {
      KeptFrom(prefix, leaves, x);
      var inner :| inner in leaves && inner.child.Element? && KeyedBy(x, prefix, inner);
      assert HasElementNamed(leaves, inner.Name());
      assert Pushes(leaf, answer, Under(leaf.Name(), inner.Name()));
    }
  }

  // A kept element comes from a leaf that is an element.
  lemma {:induction false} KeptFrom(prefix: string, leaves: seq<Leaf>, x: Node)
    requires x in KeepAll(prefix, leaves) && x.Element?
    ensures exists inner :: inner in leaves && inner.child.Element? && KeyedBy(x, prefix, inner)
  {
    var n := |leaves| - 1;
    if x in KeepAll(prefix, leaves[..n]) {
      KeptFrom(prefix, leaves[..n], x);
    } else {
      assert x in Keep(prefix, leaves[n]) && leaves[n] in leaves;
    }
  }

  // ---------- whole results ----------

  predicate Cross(a: seq<Node>, b: seq<Node>) {
    forall x, y :: x in a && y in b && x.Element? && y.Element? ==> x.elementKey != y.elementKey
  }

  lemma DistinctConcatExactly(a: seq<Node>, b: seq<Node>)
    ensures ElementKeysDistinct(a + b) <==> ElementKeysDistinct(a) && ElementKeysDistinct(b) && Cross(a, b)
  {
    var c := a + b;
    if ElementKeysDistinct(a) && ElementKeysDistinct(b) && Cross(a, b) { DistinctConcat(a, b); }
    if ElementKeysDistinct(c) {
      forall i, j | 0 <= i < j < |a| && a[i].Element? && a[j].Element? ensures a[i].elementKey != a[j].elementKey {
        assert c[i] == a[i] && c[j] == a[j];
      }
      forall i, j | 0 <= i < j < |b| && b[i].Element? && b[j].Element? ensures b[i].elementKey != b[j].elementKey {
        assert c[|a| + i] == b[i] && c[|a| + j] == b[j];
      }
      forall x, y | x in a && y in b && x.Element? && y.Element? ensures x.elementKey != y.elementKey {
        var i :| 0 <= i < |a| && a[i] == x;
        var j :| 0 <= j < |b| && b[j] == y;
        assert c[i] == x && c[|a| + j] == y;
      }
    }
  }

  function Pushed(leaves: seq<Leaf>, func: Callback, i: nat): Outcome
    requires i < |leaves|
  {
    Emit("", leaves[i], func(leaves[i].child, i))
  }

  ghost predicate NoErrors(leaves: seq<Leaf>, func: Callback) {
    forall i :: 0 <= i < |leaves| ==> Pushed(leaves, func, i).error.None?
  }

  lemma CollectLast(leaves: seq<Leaf>, func: Callback)
    requires leaves != [] && NoErrors(leaves, func)
    ensures var n := |leaves| - 1;
            && NoErrors(leaves[..n], func)
            && Collect("", leaves[..n], func, 0).error.None?
            && Collect("", leaves, func, 0).items == Collect("", leaves[..n], func, 0).items + Pushed(leaves, func, n).items
  {
    hide Emit, Collect;
    var init := leaves[..|leaves| - 1];
    forall i | 0 <= i < |init| ensures Pushed(init, func, i) == Pushed(leaves, func, i) {
      assert init[i] == leaves[i];
    }
    assert NoErrors(init, func);
    forall i | 0 <= i < |init| ensures Emit("", init[i], func(init[i].child, i)).error.None? {
      assert Pushed(init, func, i).error.None?;
    }
    CollectsWithoutError(init, func);
    CollectStep(leaves, func);
  }

  lemma CollectStep(leaves: seq<Leaf>, func: Callback)
    requires leaves != []
    ensures var n := |leaves| - 1;
            Collect("", leaves, func, 0) == Collect("", leaves[..n], func, 0).Then(Pushed(leaves, func, n))
  {
    hide Emit;
  }

  lemma {:induction false} CollectMembers(leaves: seq<Leaf>, func: Callback, x: Node)
    requires NoErrors(leaves, func)
    ensures x in Collect("", leaves, func, 0).items <==> exists i :: 0 <= i < |leaves| && x in Pushed(leaves, func, i).items
  {
    hide Emit;
    if leaves != [] {
      var n := |leaves| - 1;
      var init := leaves[..n];
      CollectLast(leaves, func);
      CollectMembers(init, func, x);
      forall i | 0 <= i < n ensures Pushed(init, func, i) == Pushed(leaves, func, i) { assert init[i] == leaves[i]; }
      hide Collect, Pushed;
      if i :| 0 <= i < |leaves| && x in Pushed(leaves, func, i).items && i < n {
        assert x in Pushed(init, func, i).items;
      }
      if i :| 0 <= i < |init| && x in Pushed(init, func, i).items {
        assert x in Pushed(leaves, func, i).items;
      }
    }
  }

  ghost predicate PairwiseDistinct(leaves: seq<Leaf>, func: Callback) {
    && (forall i :: 0 <= i < |leaves| ==> ElementKeysDistinct(Pushed(leaves, func, i).items))
    && forall i, j :: 0 <= i < j < |leaves| ==> Cross(Pushed(leaves, func, i).items, Pushed(leaves, func, j).items)
  }

  // The last leaf's elements are apart from those of all leaves before it.
  ghost predicate LastApart(leaves: seq<Leaf>, func: Callback)
    requires leaves != []
  {
    var n := |leaves| - 1;
    forall i :: 0 <= i < n ==> Cross(Pushed(leaves, func, i).items, Pushed(leaves, func, n).items)
  }

  lemma {:induction false} PairwiseExactly(leaves: seq<Leaf>, func: Callback)
    requires NoErrors(leaves, func)
    ensures ElementKeysDistinct(Collect("", leaves, func, 0).items) <==> PairwiseDistinct(leaves, func)
  {
    hide *;
    if leaves == [] {
      NoLeaves(func);
    } else {
      var n := |leaves| - 1;
      CollectLast(leaves, func);
      PairwiseExactly(leaves[..n], func);
      DistinctConcatExactly(Collect("", leaves[..n], func, 0).items, Pushed(leaves, func, n).items);
      CrossCollected(leaves, func);
      PairwiseLast(leaves, func);
    }
  }

  lemma NoLeaves(func: Callback)
    ensures ElementKeysDistinct(Collect("", [], func, 0).items) && PairwiseDistinct([], func)
  {
  }

  lemma PushedInit(leaves: seq<Leaf>, func: Callback, i: nat)
    requires i < |leaves| - 1
    ensures Pushed(leaves[..|leaves| - 1], func, i) == Pushed(leaves, func, i)
  {
    assert leaves[..|leaves| - 1][i] == leaves[i];
  }

  lemma PairwiseLast(leaves: seq<Leaf>, func: Callback)
    requires leaves != []
    ensures var n := |leaves| - 1;
            PairwiseDistinct(leaves, func) <==>
            && PairwiseDistinct(leaves[..n], func)
            && ElementKeysDistinct(Pushed(leaves, func, n).items)
            && LastApart(leaves, func)
  {
    hide Pushed, ElementKeysDistinct, Cross;
    var n := |leaves| - 1;
    var init := leaves[..n];
    forall i | 0 <= i < n ensures Pushed(init, func, i) == Pushed(leaves, func, i) { PushedInit(leaves, func, i); }
  }

  lemma CrossCollected(leaves: seq<Leaf>, func: Callback)
    requires leaves != [] && NoErrors(leaves, func)
    ensures var n := |leaves| - 1;
            Cross(Collect("", leaves[..n], func, 0).items, Pushed(leaves, func, n).items)
            <==> LastApart(leaves, func)
  {
    var n := |leaves| - 1;
    var init := leaves[..n];
    CollectLast(leaves, func);
    hide Emit, Collect;
    forall x ensures x in Collect("", init, func, 0).items <==> exists i :: 0 <= i < n && x in Pushed(leaves, func, i).items {
      CollectMembers(init, func, x);
      forall i | 0 <= i < n ensures Pushed(init, func, i) == Pushed(leaves, func, i) { assert init[i] == leaves[i]; }
    }
  }

  // ---------- one callback ----------

  // The callback returns something for every leaf, and arrays only ones without
  // repeated explicit sibling keys.
  predicate Answers(leaves: seq<Leaf>, func: Callback) {
    forall i :: 0 <= i < |leaves| ==> Fits(func(leaves[i].child, i))
  }

  predicate Fits(answer: Settled) {
    answer.Value? && (answer.node.List? ==> SiblingKeysDistinct(answer.node) && Walk(answer.node, []).error.None?)
  }

  ghost predicate Apart(a: Leaf, x: Settled, b: Leaf, y: Settled) {
    forall o, p :: Pushes(a, x, o) && Pushes(b, y, p) ==> !Overlap(o, p)
  }

  lemma CrossExactly(a: Leaf, x: Settled, b: Leaf, y: Settled)
    requires a.path != [] && b.path != []
    ensures Cross(Emit("", a, x).items, Emit("", b, y).items) <==> Apart(a, x, b, y)
  {
    PushedKeys(a, x);
    PushedKeys(b, y);
    hide Emit, Pushes, Overlap;
    var s, t := Emit("", a, x).items, Emit("", b, y).items;
    if Cross(s, t) {
      forall o, p | Pushes(a, x, o) && Pushes(b, y, p) ensures !Overlap(o, p) {
        PushedIsProper(a, x, o);
        PushedIsProper(b, y, p);
        OverlapExactly(o, p);
        var u :| u in s && u.Element? && u.elementKey == Some(o.KeyText());
        var v :| v in t && v.Element? && v.elementKey == Some(p.KeyText());
      }
    }
    if Apart(a, x, b, y) {
      forall u, v | u in s && v in t && u.Element? && v.Element? ensures u.elementKey != v.elementKey {
        var o :| Pushes(a, x, o) && o.KeyText() == u.elementKey.value;
        var p :| Pushes(b, y, p) && p.KeyText() == v.elementKey.value;
        PushedIsProper(a, x, o);
        PushedIsProper(b, y, p);
        OverlapExactly(o, p);
      }
    }
  }

  lemma AnswersPush(leaves: seq<Leaf>, func: Callback)
    requires Answers(leaves, func)
    ensures NoErrors(leaves, func)
    ensures forall i :: 0 <= i < |leaves| ==> ElementKeysDistinct(Pushed(leaves, func, i).items)
  {
    forall i | 0 <= i < |leaves|
      ensures Pushed(leaves, func, i).error.None? && ElementKeysDistinct(Pushed(leaves, func, i).items)
    {
      var answer := func(leaves[i].child, i);
      assert Fits(answer);
      if answer.node.List? { AnswerKeysDistinct(leaves[i], answer); }
    }
  }

  // For any callback: all elements of the result have different keys exactly when
  // no origins of two leaves' elements overlap.
  lemma AnswerKeysDistinctExactly(leaves: seq<Leaf>, func: Callback)
    requires Answers(leaves, func) && forall leaf :: leaf in leaves ==> leaf.path != []
    ensures ElementKeysDistinct(Collect("", leaves, func, 0).items) <==>
            forall i, j :: 0 <= i < j < |leaves| ==>
              Apart(leaves[i], func(leaves[i].child, i), leaves[j], func(leaves[j].child, j))
  {
    AnswersPush(leaves, func);
    PairwiseExactly(leaves, func);
    hide Collect, Emit, Apart, Cross, ElementKeysDistinct;
    forall i, j | 0 <= i < j < |leaves|
      ensures Cross(Pushed(leaves, func, i).items, Pushed(leaves, func, j).items)
              <==> Apart(leaves[i], func(leaves[i].child, i), leaves[j], func(leaves[j].child, j))
    {
      CrossExactly(leaves[i], func(leaves[i].child, i), leaves[j], func(leaves[j].child, j));
    }
  }
}
