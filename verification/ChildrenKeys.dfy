// What React.Children promises about the keys of its results.
module ChildrenKeys {
  import opened Wrappers
  import opened Keys
  import opened Prefixes
  import opened Traversal

  // ---------- distinct leaf paths ----------

  // No two children of one list carry the same explicit key.
  predicate NoRepeatedKey(items: seq<Node>) {
    forall i, j :: 0 <= i < j < |items| && ExplicitKey(items[i]).Some? ==>
      ExplicitKey(items[i]) != ExplicitKey(items[j])
  }

  predicate SiblingKeysDistinct(node: Node) {
    match node
    case List(_, items) => NoRepeatedKey(items) && forall item :: item in items ==> SiblingKeysDistinct(item)
    case Iterable(_, items) => NoRepeatedKey(items) && forall item :: item in items ==> SiblingKeysDistinct(item)
    case Lazy(_, Value(inner)) => SiblingKeysDistinct(inner)
    case Thenable(_, Value(inner)) => SiblingKeysDistinct(inner)
    case _ => true
  }

  predicate PathsDistinct(leaves: seq<Leaf>) {
    forall i, j :: 0 <= i < j < |leaves| ==> leaves[i].path != leaves[j].path
  }

  lemma SegmentsDistinct(items: seq<Node>, i: nat, j: nat)
    requires NoRepeatedKey(items) && i < j < |items|
    ensures SegmentOf(items[i], i) != SegmentOf(items[j], j)
  {
  }

  lemma {:induction false} LeafPathsDistinct(node: Node, path: seq<Segment>)
    requires SiblingKeysDistinct(node)
    ensures PathsDistinct(Walk(node, path).leaves)
    decreases node, 1
  {
    match node
    case List(_, items) => ItemPathsDistinct(items, path);
    case Iterable(_, items) => ItemPathsDistinct(items, path);
    case Lazy(_, Value(inner)) => LeafPathsDistinct(inner, path);
    case Thenable(_, Value(inner)) => LeafPathsDistinct(inner, path);
    case _ =>
  }

  lemma {:induction false} ItemPathsDistinct(items: seq<Node>, path: seq<Segment>)
    requires NoRepeatedKey(items) && forall item :: item in items ==> SiblingKeysDistinct(item)
    ensures PathsDistinct(WalkItems(items, path).leaves)
    decreases items, 0
  {
    if items != [] {
      var n := |items| - 1;
      var init, here := items[..n], path + [SegmentOf(items[n], n)];
      ItemPathsDistinct(init, path);
      LeafPathsDistinct(items[n], here);
      WalkItemsLeaves(init, path);
      WalkLeaves(items[n], here);
      var before, last := WalkItems(init, path).leaves, Walk(items[n], here).leaves;
      forall i, j | 0 <= i < |before| && 0 <= j < |last| ensures before[i].path != last[j].path {
        var k :| 0 <= k < |init| && before[i].path[|path|] == SegmentOf(init[k], k);
        SegmentsDistinct(items, k, n);
        assert before[i] in before && last[j] in last;
        assert last[j].path[|path|] == here[|path|];
      }
    }
  }

  // ---------- toArray ----------

  predicate ElementKeysDistinct(items: seq<Node>) {
    forall i, j :: 0 <= i < j < |items| && items[i].Element? && items[j].Element? ==>
      items[i].elementKey != items[j].elementKey
  }

  predicate KeyedBy(item: Node, prefix: string, leaf: Leaf) {
    item.Element? && item.elementKey == Some(prefix + leaf.Name())
  }

  // The key of a kept element is the name of one of the leaves.
  lemma {:induction false} KeptName(prefix: string, leaves: seq<Leaf>, item: Node)
    requires item in KeepAll(prefix, leaves) && item.Element?
    ensures exists i :: 0 <= i < |leaves| && KeyedBy(item, prefix, leaves[i])
  {
    var n := |leaves| - 1;
    var init := leaves[..n];
    if item in KeepAll(prefix, init) {
      KeptName(prefix, init, item);
      var i :| 0 <= i < n && KeyedBy(item, prefix, init[i]);
      assert init[i] == leaves[i];
    } else {
      assert item in Keep(prefix, leaves[n]);
      assert KeyedBy(item, prefix, leaves[n]);
    }
  }

  lemma {:induction false} KeptKeysDistinct(prefix: string, leaves: seq<Leaf>)
    requires PathsDistinct(leaves)
    ensures ElementKeysDistinct(KeepAll(prefix, leaves))
  {
    hide *;
    if leaves == [] {
      NothingKept(prefix);
    } else {
      var n := |leaves| - 1;
      var init, last := leaves[..n], leaves[n];
      assert leaves == init + [last];
      InitPathsDistinct(leaves);
      KeptKeysDistinct(prefix, init);
      KeepIsSmall(prefix, last);
      forall x, y | x in KeepAll(prefix, init) && y in Keep(prefix, last) && x.Element? && y.Element?
        ensures x.elementKey != y.elementKey
      {
        LastNameDiffers(prefix, leaves, x, y);
      }
      KeepAllAppend(prefix, init, last);
      DistinctConcat(KeepAll(prefix, init), Keep(prefix, last));
    }
  }

  lemma NothingKept(prefix: string)
    ensures ElementKeysDistinct(KeepAll(prefix, []))
  {
  }

  lemma KeepIsSmall(prefix: string, leaf: Leaf)
    ensures ElementKeysDistinct(Keep(prefix, leaf))
  {
  }

  lemma InitPathsDistinct(leaves: seq<Leaf>)
    requires leaves != [] && PathsDistinct(leaves)
    ensures PathsDistinct(leaves[..|leaves| - 1])
  {
  }

  lemma LastNameDiffers(prefix: string, leaves: seq<Leaf>, x: Node, y: Node)
    requires leaves != [] && PathsDistinct(leaves) && x.Element? && y.Element?
    requires x in KeepAll(prefix, leaves[..|leaves| - 1]) && y in Keep(prefix, leaves[|leaves| - 1])
    ensures x.elementKey != y.elementKey
  {
    hide KeepAll, Keep, PathName, KeyedBy;
    var n := |leaves| - 1;
    var init := leaves[..n];
    KeptName(prefix, init, x);
    var k :| 0 <= k < n && KeyedBy(x, prefix, init[k]);
    assert init[k] == leaves[k];
    KeptNameOfOne(prefix, leaves[n], y);
    DifferentlyKeyed(prefix, leaves[k], leaves[n], x, y);
  }

  lemma KeptNameOfOne(prefix: string, leaf: Leaf, item: Node)
    requires item in Keep(prefix, leaf) && item.Element?
    ensures KeyedBy(item, prefix, leaf)
  {
  }

  lemma DifferentlyKeyed(prefix: string, a: Leaf, b: Leaf, x: Node, y: Node)
    requires KeyedBy(x, prefix, a) && KeyedBy(y, prefix, b) && a.path != b.path
    ensures x.elementKey != y.elementKey
  {
    hide PathName;
    SamePrefix(prefix, a, b);
  }

  lemma DistinctConcat(a: seq<Node>, b: seq<Node>)
    requires ElementKeysDistinct(a) && ElementKeysDistinct(b)
    requires forall x, y :: x in a && y in b && x.Element? && y.Element? ==> x.elementKey != y.elementKey
    ensures ElementKeysDistinct(a + b)
  {
    var c := a + b;
    forall i, j | 0 <= i < j < |c| && c[i].Element? && c[j].Element? ensures c[i].elementKey != c[j].elementKey {
      if i < |a| <= j { assert c[i] in a && c[j] in b; }
    }
  }

  lemma SamePrefix(prefix: string, a: Leaf, b: Leaf)
    requires a.path != b.path
    ensures prefix + a.Name() != prefix + b.Name()
  {
    assert (prefix + a.Name())[|prefix|..] == a.Name() && (prefix + b.Name())[|prefix|..] == b.Name();
    if a.Name() == b.Name() { PathNameInjective(a.path, b.path); }
  }

  // All elements that toArray returns have different keys, for every finite tree
  // whose siblings never repeat an explicit key.
  lemma ToArrayKeysDistinct(children: Node)
    requires SiblingKeysDistinct(children) && ToArrayOf(children).Items?
    ensures ElementKeysDistinct(ToArrayOf(children).items)
  {
    LeafPathsDistinct(children, []);
    KeptKeysDistinct("", Walk(children, []).leaves);
  }

  // ---------- toArray applied to its own result ----------

  // What another toArray does to one of its results: an element with key k gets
  // the key ".$" + escaped k, everything else stays.
  function Again(item: Node): Node {
    if item.Element? && item.elementKey.Some? then
      Element(item.body, Some("." + EscapeKey(item.elementKey.value)))
    else item
  }

  function AgainAll(items: seq<Node>): seq<Node> {
    seq(|items|, i requires 0 <= i < |items| => Again(items[i]))
  }

  // Items of a toArray result: leaves that are not null, elements with a key.
  predicate IsKept(item: Node) {
    item.Primitive? || item.Portal? || (item.Element? && item.elementKey.Some?)
  }

  predicate AllKept(items: seq<Node>) {
    forall i :: 0 <= i < |items| ==> IsKept(items[i])
  }

  lemma {:induction false} KeepAllIsKept(prefix: string, leaves: seq<Leaf>)
    requires forall leaf :: leaf in leaves ==> IsLeafValue(leaf.child)
    ensures AllKept(KeepAll(prefix, leaves))
  {
    if leaves != [] { KeepAllIsKept(prefix, leaves[..|leaves| - 1]); }
  }

  lemma {:induction false} WalkKept(items: seq<Node>)
    requires AllKept(items)
    ensures WalkItems(items, []).error.None?
    ensures KeepAll("", WalkItems(items, []).leaves) == AgainAll(items)
  {
    if items != [] {
      var n := |items| - 1;
      var init, item := items[..n], items[n];
      var leaf := Leaf(item, [SegmentOf(item, n)]);
      WalkKept(init);
      KeptLeaf(item, n);
      WalkNext(items, n, []);
      assert items[..n + 1] == items && [] + leaf.path == leaf.path;
      hide *;
      assert WalkItems(items, []) == WalkItems(init, []).Then(Visit([leaf], None));
      ThenLeaf(WalkItems(init, []), leaf);
      KeepAllAppend("", WalkItems(init, []).leaves, leaf);
      AgainAppend(items);
    }
  }

  lemma ThenLeaf(before: Visit, leaf: Leaf)
    requires before.error.None?
    ensures before.Then(Visit([leaf], None)) == Visit(before.leaves + [leaf], None)
  {
  }

  lemma AgainAppend(items: seq<Node>)
    requires items != []
    ensures AgainAll(items) == AgainAll(items[..|items| - 1]) + [Again(items[|items| - 1])]
  {
  }

  lemma KeepAllAppend(prefix: string, leaves: seq<Leaf>, leaf: Leaf)
    ensures KeepAll(prefix, leaves + [leaf]) == KeepAll(prefix, leaves) + Keep(prefix, leaf)
  {
    assert (leaves + [leaf])[..|leaves|] == leaves;
  }

  lemma KeptLeaf(item: Node, n: nat)
    requires IsKept(item)
    ensures var path := [SegmentOf(item, n)];
            Walk(item, path) == Visit([Leaf(item, path)], None) && Keep("", Leaf(item, path)) == [Again(item)]
  {
    PathNameAppend([], SegmentOf(item, n));
    assert [] + [SegmentOf(item, n)] == [SegmentOf(item, n)];
    hide PathName;
    var name := PathName([SegmentOf(item, n)]);
    assert "" + name == name;
  }

  // toArray of its own result keeps length, order and all other values, and
  // only renames elements.
  lemma ToArrayAgain(children: Node, key: Option<string>)
    requires ToArrayOf(children).Items?
    ensures var items := ToArrayOf(children).items;
            AllKept(items) && ToArrayOf(List(key, items)) == Items(AgainAll(items))
  {
    WalkLeaves(children, []);
    KeepAllIsKept("", Walk(children, []).leaves);
    ToArrayOfKept(ToArrayOf(children).items, key);
  }

  lemma ToArrayOfKept(items: seq<Node>, key: Option<string>)
    requires AllKept(items)
    ensures ToArrayOf(List(key, items)) == Items(AgainAll(items)) && AllKept(AgainAll(items))
  {
    WalkKept(items);
  }

  function Iterate(items: seq<Node>, times: nat): MapResult
    decreases times
  {
    if times == 0 then Items(items)
    else match ToArrayOf(List(None, items))
      case Items(next) => Iterate(next, times - 1)
      case other => other
  }

  function Renamed(key: string, times: nat): string
    decreases times
  {
    if times == 0 then key else Renamed("." + EscapeKey(key), times - 1)
  }

  function RenamedAll(items: seq<Node>, times: nat): seq<Node>
    requires AllKept(items)
  {
    seq(|items|, i requires 0 <= i < |items| =>
      if items[i].Element? then Element(items[i].body, Some(Renamed(items[i].elementKey.value, times)))
      else items[i])
  }

  // Any number of further toArray calls: same length, order and values, and every
  // element key is renamed that many times.
  lemma {:induction false} ToArrayIterated(items: seq<Node>, times: nat)
    requires AllKept(items)
    ensures Iterate(items, times) == Items(RenamedAll(items, times))
    decreases times
  {
    if times == 0 {
      assert RenamedAll(items, 0) == items;
    } else {
      var next := AgainAll(items);
      ToArrayOfKept(items, None);
      ToArrayIterated(next, times - 1);
      RenamedOnce(items, times);
    }
  }

  lemma RenamedOnce(items: seq<Node>, times: nat)
    requires AllKept(items) && AllKept(AgainAll(items)) && times > 0
    ensures RenamedAll(AgainAll(items), times - 1) == RenamedAll(items, times)
  {
  }

  // Renaming keeps different keys different, however often it is done.
  lemma {:induction false} RenamedDistinct(a: string, b: string, times: nat)
    requires a != b
    ensures Renamed(a, times) != Renamed(b, times)
    decreases times
  {
    if times > 0 {
      EscapedKeysDiffer(a, b);
      RenamedDistinct("." + EscapeKey(a), "." + EscapeKey(b), times - 1);
    }
  }

  lemma EscapedKeysDiffer(a: string, b: string)
    requires a != b
    ensures "." + EscapeKey(a) != "." + EscapeKey(b)
  {
    UnescapeInverts(a);
    UnescapeInverts(b);
    hide EscapeChars;
    assert ("." + EscapeKey(a))[2..] == EscapeChars(a) && ("." + EscapeKey(b))[2..] == EscapeChars(b);
  }

  // So distinct element keys survive any number of toArray calls.
  lemma IteratedKeysDistinct(items: seq<Node>, times: nat)
    requires AllKept(items) && ElementKeysDistinct(items)
    ensures Iterate(items, times).Items? && ElementKeysDistinct(Iterate(items, times).items)
  {
    ToArrayIterated(items, times);
    var last := RenamedAll(items, times);
    forall i, j | 0 <= i < j < |items| && last[i].Element? && last[j].Element?
      ensures last[i].elementKey != last[j].elementKey
    {
      RenamedDistinct(items[i].elementKey.value, items[j].elementKey.value, times);
    }
  }

  // ---------- wrappers and iterables ----------

  datatype Wrapper = InLazy(key: Option<string>) | InThenable(key: Option<string>)

  function Wrap(node: Node, wrappers: seq<Wrapper>): Node {
    if wrappers == [] then node
    else match wrappers[0]
      case InLazy(key) => Lazy(key, Value(Wrap(node, wrappers[1..])))
      case InThenable(key) => Thenable(key, Value(Wrap(node, wrappers[1..])))
  }

  // Fulfilled lazies and thenables around a node are invisible at any path.
  lemma {:induction false} WrappersAreInvisible(node: Node, wrappers: seq<Wrapper>, path: seq<Segment>)
    ensures Walk(Wrap(node, wrappers), path) == Walk(node, path)
  {
    if wrappers != [] {
      WrappersAreInvisible(node, wrappers[1..], path);
    }
  }

  // So toArray does not see them around its whole input.
  lemma ToArrayIgnoresWrappers(node: Node, wrappers: seq<Wrapper>)
    ensures ToArrayOf(Wrap(node, wrappers)) == ToArrayOf(node)
  {
    WrappersAreInvisible(node, wrappers, []);
  }

  // The same tree with every iterable outside an element replaced by an array.
  function AsArrays(node: Node): Node {
    match node
    case List(key, items) => List(key, AllAsArrays(items))
    case Iterable(key, items) => List(key, AllAsArrays(items))
    case Lazy(key, Value(inner)) => Lazy(key, Value(AsArrays(inner)))
    case Thenable(key, Value(inner)) => Thenable(key, Value(AsArrays(inner)))
    case _ => node
  }

  function AllAsArrays(items: seq<Node>): seq<Node> {
    seq(|items|, i requires 0 <= i < |items| => AsArrays(items[i]))
  }

  // An array and an iterable of the same items are traversed alike, at any depth.
  lemma {:induction false} IterablesWalkLikeArrays(node: Node, path: seq<Segment>)
    ensures Walk(AsArrays(node), path) == Walk(node, path)
    decreases node, 1
  {
    match node
    case List(_, items) => ItemsWalkLikeArrays(items, path);
    case Iterable(_, items) => ItemsWalkLikeArrays(items, path);
    case Lazy(_, Value(inner)) => IterablesWalkLikeArrays(inner, path);
    case Thenable(_, Value(inner)) => IterablesWalkLikeArrays(inner, path);
    case _ =>
  }

  lemma {:induction false} ItemsWalkLikeArrays(items: seq<Node>, path: seq<Segment>)
    ensures WalkItems(AllAsArrays(items), path) == WalkItems(items, path)
    decreases items, 0
  {
    if items != [] {
      var n := |items| - 1;
      ItemsWalkLikeArrays(items[..n], path);
      assert AllAsArrays(items)[..n] == AllAsArrays(items[..n]);
      assert SegmentOf(AsArrays(items[n]), n) == SegmentOf(items[n], n);
      IterablesWalkLikeArrays(items[n], path + [SegmentOf(items[n], n)]);
    }
  }

  // So map calls its callback with the same children and gives the same result.
  lemma IterablesMapLikeArrays(node: Node, func: Callback)
    ensures MapOf(AsArrays(node), func) == MapOf(node, func)
  {
    IterablesWalkLikeArrays(node, []);
  }

  // ---------- map with array answers ----------

  // Every leaf is answered by an array whose siblings never repeat an explicit key.
  predicate AnswersAreArrays(leaves: seq<Leaf>, func: Callback) {
    forall i :: 0 <= i < |leaves| ==>
      var answer := func(leaves[i].child, i);
      answer.Value? && answer.node.List? && SiblingKeysDistinct(answer.node)
  }

  // No two outer names overlap in the way NestedKeysCollide describes.
  predicate NoClash(leaves: seq<Leaf>) {
    forall i, j :: 0 <= i < |leaves| && 0 <= j < |leaves| ==> !Clash(leaves[i].Name(), leaves[j].Name())
  }

  predicate NamesNested(key: string, leaf: Leaf, inner: seq<Segment>) {
    inner != [] && key == NestedKey(leaf.Name(), PathName(inner))
  }

  // An element pushed for a leaf with an array answer is keyed by the leaf and a
  // leaf of the answer.
  lemma EmittedName(leaf: Leaf, answer: Settled, item: Node)
    requires answer.Value? && answer.node.List?
    requires item in Emit("", leaf, answer).items && item.Element?
    ensures exists inner :: item.elementKey.Some? && NamesNested(item.elementKey.value, leaf, inner)
  {
    var inner := Walk(answer.node, []).leaves;
    KeptName(DoubleRuns(leaf.Name()) + "/", inner, item);
    var i :| 0 <= i < |inner| && KeyedBy(item, DoubleRuns(leaf.Name()) + "/", inner[i]);
    WalkLeaves(answer.node, []);
    assert inner[i] in inner;
    assert NamesNested(item.elementKey.value, leaf, inner[i].path);
  }

  lemma {:induction false} CollectedName(leaves: seq<Leaf>, func: Callback, item: Node)
    requires AnswersAreArrays(leaves, func)
    requires item in Collect("", leaves, func, 0).items && item.Element?
    ensures exists i, inner :: 0 <= i < |leaves| && item.elementKey.Some?
              && NamesNested(item.elementKey.value, leaves[i], inner)
  {
    var n := |leaves| - 1;
    var init := leaves[..n];
    if item in Collect("", init, func, 0).items {
      assert AnswersAreArrays(init, func) by {
        forall i | 0 <= i < n ensures func(init[i].child, i).Value? { assert init[i] == leaves[i]; }
      }
      CollectedName(init, func, item);
      var i, inner :| 0 <= i < n && NamesNested(item.elementKey.value, init[i], inner);
      assert init[i] == leaves[i];
    } else {
      EmittedName(leaves[n], func(leaves[n].child, n), item);
    }
  }

  // When every answer is an array without repeated explicit sibling keys and no
  // two outer names clash, all elements of the result have different keys.
  lemma {:induction false} MapArrayKeysDistinct(leaves: seq<Leaf>, func: Callback)
    requires PathsDistinct(leaves) && AnswersAreArrays(leaves, func) && NoClash(leaves)
    requires forall leaf :: leaf in leaves ==> leaf.path != []
    ensures ElementKeysDistinct(Collect("", leaves, func, 0).items)
  {
    hide *;
    if leaves == [] {
      NothingCollected(func);
    } else {
      var n := |leaves| - 1;
      var init, answer := leaves[..n], func(leaves[n].child, n);
      InitPathsDistinct(leaves);
      InitAnswers(leaves, func);
      MapArrayKeysDistinct(init, func);
      var before, last := Collect("", init, func, 0), Emit("", leaves[n], answer);
      AnswerKeysDistinct(leaves[n], answer);
      forall x, y | x in before.items && y in last.items && x.Element? && y.Element?
        ensures x.elementKey != y.elementKey
      {
        LastAnswerDiffers(leaves, func, x, y);
      }
      DistinctConcat(before.items, last.items);
      CollectsLast(leaves, func);
    }
  }

  lemma NothingCollected(func: Callback)
    ensures ElementKeysDistinct(Collect("", [], func, 0).items)
  {
  }

  lemma CollectsLast(leaves: seq<Leaf>, func: Callback)
    requires leaves != []
    ensures var n := |leaves| - 1;
            var before, last := Collect("", leaves[..n], func, 0), Emit("", leaves[n], func(leaves[n].child, n));
            Collect("", leaves, func, 0).items == before.items
            || Collect("", leaves, func, 0).items == before.items + last.items
  {
  }

  lemma InitAnswers(leaves: seq<Leaf>, func: Callback)
    requires leaves != [] && AnswersAreArrays(leaves, func) && NoClash(leaves)
    ensures var n := |leaves| - 1;
            && AnswersAreArrays(leaves[..n], func) && NoClash(leaves[..n])
            && var answer := func(leaves[n].child, n);
               answer.Value? && answer.node.List? && SiblingKeysDistinct(answer.node)
  {
    var n := |leaves| - 1;
    forall i | 0 <= i < n ensures func(leaves[..n][i].child, i) == func(leaves[i].child, i) {}
  }

  lemma AnswerKeysDistinct(leaf: Leaf, answer: Settled)
    requires answer.Value? && answer.node.List? && SiblingKeysDistinct(answer.node)
    ensures ElementKeysDistinct(Emit("", leaf, answer).items)
  {
    LeafPathsDistinct(answer.node, []);
    KeptKeysDistinct(DoubleRuns(leaf.Name()) + "/", Walk(answer.node, []).leaves);
  }

  lemma LastAnswerDiffers(leaves: seq<Leaf>, func: Callback, x: Node, y: Node)
    requires leaves != [] && PathsDistinct(leaves) && AnswersAreArrays(leaves, func) && NoClash(leaves)
    requires forall leaf :: leaf in leaves ==> leaf.path != []
    requires x.Element? && y.Element?
    requires var n := |leaves| - 1;
             x in Collect("", leaves[..n], func, 0).items && y in Emit("", leaves[n], func(leaves[n].child, n)).items
    ensures x.elementKey != y.elementKey
  {
    hide Emit, Collect, Clash, NestedKey;
    var n := |leaves| - 1;
    var init := leaves[..n];
    CollectedName(init, func, x);
    EmittedName(leaves[n], func(leaves[n].child, n), y);
    var k, p :| 0 <= k < n && NamesNested(x.elementKey.value, init[k], p);
    var q :| NamesNested(y.elementKey.value, leaves[n], q);
    assert init[k] == leaves[k];
    DifferentOuter(leaves[k], p, leaves[n], q);
  }

  lemma DifferentOuter(a: Leaf, p: seq<Segment>, b: Leaf, q: seq<Segment>)
    requires a.path != b.path && p != [] && q != []
    requires !Clash(a.Name(), b.Name()) && !Clash(b.Name(), a.Name())
    ensures NestedKey(a.Name(), PathName(p)) != NestedKey(b.Name(), PathName(q))
  {
    DecodePathName(p);
    DecodePathName(q);
    if a.Name() == b.Name() { PathNameInjective(a.path, b.path); }
    if NestedKey(a.Name(), PathName(p)) == NestedKey(b.Name(), PathName(q)) {
      CollisionClashes(a.Name(), PathName(p), b.Name(), PathName(q));
    }
  }

  // React.Children.map over a tree without repeated explicit sibling keys.
  lemma MapKeysDistinct(children: Node, func: Callback)
    requires SiblingKeysDistinct(children) && MapOf(children, func).Items?
    requires AnswersAreArrays(Walk(children, []).leaves, func) && NoClash(Walk(children, []).leaves)
    ensures ElementKeysDistinct(MapOf(children, func).items)
  {
    LeafPathsDistinct(children, []);
    WalkLeaves(children, []);
    MapArrayKeysDistinct(Walk(children, []).leaves, func);
  }

  // ---------- the clash condition is exact ----------

  // Items whose traversal meets an element at path `q`.
  function ItemsAt(q: seq<Segment>, body: nat): seq<Node>
    requires q != []
    decreases |q|
  {
    var key := if q[0].Key? then Some(q[0].text) else None;
    var inner := if |q| == 1 then Element(body, key) else List(key, ItemsAt(q[1..], body));
    (if q[0].Key? then [] else Nulls(q[0].position)) + [inner]
  }

  function Nulls(n: nat): seq<Node> {
    seq(n, _ => Null)
  }

  lemma {:induction false} WalkNulls(n: nat, path: seq<Segment>)
    ensures WalkItems(Nulls(n), path).error.None?
  {
    if n > 0 {
      WalkNulls(n - 1, path);
      assert Nulls(n)[..n - 1] == Nulls(n - 1);
    }
  }

  predicate MeetsElement(visit: Visit, path: seq<Segment>, body: nat) {
    visit.error.None? && exists leaf :: leaf in visit.leaves && leaf.path == path
                                        && leaf.child.Element? && leaf.child.body == body
  }

  lemma {:induction false} WalkItemsAt(q: seq<Segment>, body: nat, path: seq<Segment>)
    requires q != []
    ensures MeetsElement(WalkItems(ItemsAt(q, body), path), path + q, body)
    decreases |q|
  {
    var items := ItemsAt(q, body);
    var n := |items| - 1;
    var inner, here := items[n], path + [q[0]];
    assert items[..n] == Nulls(n) && SegmentOf(inner, n) == q[0];
    WalkNulls(n, path);
    assert path + q == here + q[1..];
    if |q| == 1 {
      assert here == path + q;
      assert Leaf(inner, here) in Walk(inner, here).leaves;
    } else {
      WalkItemsAt(q[1..], body, here);
    }
    assert MeetsElement(Walk(inner, here), path + q, body);
    hide Walk, ItemsAt;
    MeetsLast(WalkItems(Nulls(n), path), Walk(inner, here), path + q, body);
  }

  lemma MeetsLast(before: Visit, last: Visit, path: seq<Segment>, body: nat)
    requires before.error.None? && MeetsElement(last, path, body)
    ensures MeetsElement(before.Then(last), path, body)
  {
    var leaf :| leaf in last.leaves && leaf.path == path && leaf.child.Element? && leaf.child.body == body;
    assert leaf in before.Then(last).leaves;
  }

  lemma {:induction false} ItemsAtDistinct(q: seq<Segment>, body: nat)
    requires q != []
    ensures SiblingKeysDistinct(List(None, ItemsAt(q, body)))
    decreases |q|
  {
    if |q| > 1 { ItemsAtDistinct(q[1..], body); }
  }

  lemma {:induction false} KeptElement(prefix: string, leaves: seq<Leaf>, leaf: Leaf)
    requires leaf in leaves && leaf.child.Element?
    ensures Element(leaf.child.body, Some(prefix + leaf.Name())) in KeepAll(prefix, leaves)
  {
    hide *;
    var n := |leaves| - 1;
    var init, last := leaves[..n], leaves[n];
    assert leaves == init + [last];
    KeepAllAppend(prefix, init, last);
    if leaf in init { KeptElement(prefix, init, leaf); } else { KeepsElement(prefix, last); }
  }

  lemma KeepsElement(prefix: string, leaf: Leaf)
    requires leaf.child.Element?
    ensures Keep(prefix, leaf) == [Element(leaf.child.body, Some(prefix + leaf.Name()))]
  {
  }

  lemma {:induction false} CollectedElement(leaves: seq<Leaf>, func: Callback, k: nat, item: Node)
    requires k < |leaves| && item in Emit("", leaves[k], func(leaves[k].child, k)).items
    requires forall i :: 0 <= i < |leaves| ==> Emit("", leaves[i], func(leaves[i].child, i)).error.None?
    ensures Collect("", leaves, func, 0).error.None? && item in Collect("", leaves, func, 0).items
  {
    var n := |leaves| - 1;
    var init := leaves[..n];
    CollectsWithoutError(init, func);
    if k < n { CollectedElement(init, func, k, item); }
  }

  lemma {:induction false} CollectsWithoutError(leaves: seq<Leaf>, func: Callback)
    requires forall i :: 0 <= i < |leaves| ==> Emit("", leaves[i], func(leaves[i].child, i)).error.None?
    ensures Collect("", leaves, func, 0).error.None?
  {
    if leaves != [] { CollectsWithoutError(leaves[..|leaves| - 1], func); }
  }

  // Answers for two chosen leaves; every other leaf gets an empty array.
  function TwoAnswers(i: nat, p: seq<Segment>, j: nat, q: seq<Segment>): Callback
    requires p != [] && q != []
  {
    (child: Node, index: nat) =>
      Value(List(None, if index == i then ItemsAt(p, 1) else if index == j then ItemsAt(q, 2) else []))
  }

  lemma TwoAnswersEmit(leaf: Leaf, index: nat, i: nat, p: seq<Segment>, j: nat, q: seq<Segment>)
    requires p != [] && q != [] && i != j
    ensures var answer := TwoAnswers(i, p, j, q)(leaf.child, index);
            && answer.Value? && answer.node.List? && SiblingKeysDistinct(answer.node)
            && Emit("", leaf, answer).error.None?
            && (index == i ==> Element(1, Some(NestedKey(leaf.Name(), PathName(p)))) in Emit("", leaf, answer).items)
            && (index == j ==> Element(2, Some(NestedKey(leaf.Name(), PathName(q)))) in Emit("", leaf, answer).items)
  {
    if index == i || index == j {
      var path, body := if index == i then p else q, if index == i then 1 else 2;
      WalkItemsAt(path, body, []);
      ItemsAtDistinct(path, body);
      assert [] + path == path;
      var answer := TwoAnswers(i, p, j, q)(leaf.child, index);
      var visit := Walk(answer.node, []);
      var inner :| inner in visit.leaves && inner.path == path && inner.child.Element? && inner.child.body == body;
      KeptElement(DoubleRuns(leaf.Name()) + "/", visit.leaves, inner);
    }
  }

  // If two outer names clash, some array answers without repeated explicit
  // sibling keys give two elements of the result the same key.
  lemma ClashIsReached(leaves: seq<Leaf>, i: nat, j: nat) returns (func: Callback)
    requires i < |leaves| && j < |leaves| && Clash(leaves[i].Name(), leaves[j].Name())
    ensures AnswersAreArrays(leaves, func)
    ensures !ElementKeysDistinct(Collect("", leaves, func, 0).items)
  {
    var o1, o2 := leaves[i].Name(), leaves[j].Name();
    ClashCollides(o1, o2);
    var i1, i2 :| IsLeafName(i1) && IsLeafName(i2) && NestedKey(o1, i1) == NestedKey(o2, i2);
    var p, q := DecodePath(i1).value, DecodePath(i2).value;
    DecodePathExact(i1, p);
    DecodePathExact(i2, q);
    assert i != j;
    func := TwoAnswers(i, p, j, q);
    forall k | 0 <= k < |leaves|
      ensures var answer := func(leaves[k].child, k);
              answer.Value? && answer.node.List? && SiblingKeysDistinct(answer.node)
              && Emit("", leaves[k], answer).error.None?
    {
      TwoAnswersEmit(leaves[k], k, i, p, j, q);
    }
    var x, y := Element(1, Some(NestedKey(o1, i1))), Element(2, Some(NestedKey(o2, i2)));
    TwoAnswersEmit(leaves[i], i, i, p, j, q);
    TwoAnswersEmit(leaves[j], j, i, p, j, q);
    CollectedElement(leaves, func, i, x);
    CollectedElement(leaves, func, j, y);
    TwoPositions(Collect("", leaves, func, 0).items, x, y);
  }

  lemma TwoPositions(items: seq<Node>, x: Node, y: Node)
    requires x in items && y in items && x != y
    requires x.Element? && y.Element? && x.elementKey == y.elementKey
    ensures !ElementKeysDistinct(items)
  {
    var a :| 0 <= a < |items| && items[a] == x;
    var b :| 0 <= b < |items| && items[b] == y;
  }

  // React.Children.map keeps element keys apart for all such answers exactly when
  // no two outer names clash.
  lemma MapKeysDistinctExactly(children: Node)
    requires SiblingKeysDistinct(children)
    ensures var leaves := Walk(children, []).leaves;
            NoClash(leaves) <==>
            forall func :: AnswersAreArrays(leaves, func) ==> ElementKeysDistinct(Collect("", leaves, func, 0).items)
  {
    var leaves := Walk(children, []).leaves;
    LeafPathsDistinct(children, []);
    WalkLeaves(children, []);
    if NoClash(leaves) {
      forall func | AnswersAreArrays(leaves, func) ensures ElementKeysDistinct(Collect("", leaves, func, 0).items) {
        MapArrayKeysDistinct(leaves, func);
      }
    } else {
      var i, j :| 0 <= i < |leaves| && 0 <= j < |leaves| && Clash(leaves[i].Name(), leaves[j].Name());
      var func := ClashIsReached(leaves, i, j);
    }
  }
}
