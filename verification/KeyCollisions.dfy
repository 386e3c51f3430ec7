// For which trees React.Children.map keeps element keys apart whatever the callback
// answers, by kind of answer.
module KeyCollisions {
  import opened Wrappers
  import opened Keys
  import opened Prefixes
  import opened Traversal
  import opened ChildrenKeys
  import opened AnswerKeys

  // ---------- names behind other names ----------

  predicate NoLoneSlash(s: string) {
    forall k :: 0 <= k < |s| && s[k] == '/' ==> BesideSlash(s, k)
  }

  predicate BesideSlash(s: string, k: nat)
    requires k < |s|
  {
    (k > 0 && s[k - 1] == '/') || (k + 1 < |s| && s[k + 1] == '/')
  }

  // `whole` ends in '/' and `inner`, and the slashes in front are all in runs.
  predicate Behind(inner: string, whole: string) {
    && |inner| < |whole|
    && var n := |whole| - |inner| - 1; whole[n..] == "/" + inner && NoLoneSlash(whole[..n])
  }

  lemma {:induction false} DoubledHasNoLoneSlash(s: string)
    ensures NoLoneSlash(DoubleRuns(s))
  {
    if s != "" {
      var t := s[1..];
      DoubledHasNoLoneSlash(t);
      if t != "" { DoubleRunsHead(t); }
      PrependRun(RunStep(s), DoubleRuns(t));
    }
  }

  lemma PrependRun(step: string, d: string)
    requires NoLoneSlash(d)
    requires step == "//" || (|step| == 1 && (step != "/" || (d != "" && d[0] == '/')))
    ensures NoLoneSlash(step + d)
  {
    var s := step + d;
    forall k | 0 <= k < |s| && s[k] == '/' ensures BesideSlash(s, k) {
      if k >= |step| {
        var i := k - |step|;
        assert s[k] == d[i] && BesideSlash(d, i);
        assert i > 0 ==> s[k - 1] == d[i - 1];
        assert i + 1 < |d| ==> s[k + 1] == d[i + 1];
      } else if |step| == 1 {
        assert s[1] == d[0];
      }
    }
  }

  function Undoubled(d: string): string {
    if d == "" then ""
    else if d[0] == '/' && |d| > 1 && (|d| == 2 || d[2] != '/') then "/" + Undoubled(d[2..])
    else [d[0]] + Undoubled(d[1..])
  }

  lemma {:induction false} UndoubledInverts(d: string)
    requires NoLoneSlash(d)
    ensures DoubleRuns(Undoubled(d)) == d
    ensures d == "" <==> Undoubled(d) == ""
    ensures d != "" ==> Undoubled(d)[0] == d[0]
    decreases |d|
  {
    if d != "" {
      assert d[0] == '/' ==> BesideSlash(d, 0);
      var ends := d[0] == '/' && |d| > 1 && (|d| == 2 || d[2] != '/');
      var rest := if ends then d[2..] else d[1..];
      SuffixHasNoLoneSlash(d, if ends then 2 else 1);
      UndoubledInverts(rest);
      var u := Undoubled(rest);
      if ends {
        assert ("/" + u)[1..] == u;
        assert d == "//" + rest;
      } else {
        assert ([d[0]] + u)[1..] == u;
        assert d == [d[0]] + rest;
        assert d[0] == '/' ==> d[1] == '/';
      }
    }
  }

  lemma SuffixHasNoLoneSlash(d: string, n: nat)
    requires NoLoneSlash(d) && n <= |d| && n > 0
    requires n == |d| || d[n] != '/' || d[n - 1] != '/' || (n + 1 < |d| && d[n + 1] == '/')
    ensures NoLoneSlash(d[n..])
  {
    var s := d[n..];
    forall k | 0 <= k < |s| && s[k] == '/' ensures BesideSlash(s, k) {
      assert d[n + k] == '/' && BesideSlash(d, n + k);
      assert k > 0 ==> s[k - 1] == d[n + k - 1];
      assert n + k + 1 < |d| ==> s[k + 1] == d[n + k + 1];
    }
  }

  // One name is behind another exactly when some key put in front of it gives the other.
  lemma BehindExactly(inner: string, whole: string)
    ensures Behind(inner, whole) <==> exists r :: NestedKey(r, inner) == whole
  {
    if Behind(inner, whole) {
      var n := |whole| - |inner| - 1;
      UndoubledInverts(whole[..n]);
      var r := Undoubled(whole[..n]);
      assert whole == whole[..n] + whole[n..];
      assert whole[..n] + ("/" + inner) == NestedKey(r, inner) by { hide DoubleRuns, Undoubled; }
    }
    if r :| NestedKey(r, inner) == whole {
      var d := DoubleRuns(r);
      DoubledHasNoLoneSlash(r);
      assert whole == d + ("/" + inner);
      assert whole[..|d|] == d && whole[|d|..] == "/" + inner;
    }
  }

  // ---------- two answers ----------

  function Two(i: nat, x: Node, j: nat, y: Node): Callback {
    (child: Node, index: nat) => Value(if index == i then x else if index == j then y else Null)
  }

  // Answers that fit, for two leaves whose elements overlap.
  lemma TwoCollide(leaves: seq<Leaf>, i: nat, x: Node, j: nat, y: Node, o: Origin, p: Origin)
    requires i < |leaves| && j < |leaves| && i != j && forall leaf :: leaf in leaves ==> leaf.path != []
    requires Fits(Value(x)) && Fits(Value(y))
    requires Pushes(leaves[i], Value(x), o) && Pushes(leaves[j], Value(y), p) && o.KeyText() == p.KeyText()
    ensures Answers(leaves, Two(i, x, j, y))
    ensures !ElementKeysDistinct(Collect("", leaves, Two(i, x, j, y), 0).items)
  {
    hide *;
    var func := Two(i, x, j, y);
    assert leaves[i] in leaves && leaves[j] in leaves;
    TwoFit(leaves, i, x, j, y);
    AnswerKeysDistinctExactly(leaves, func);
    SameKeyNotApart(leaves[i], Value(x), leaves[j], Value(y), o, p);
    SameKeyNotApart(leaves[j], Value(y), leaves[i], Value(x), p, o);
  }

  lemma TwoFit(leaves: seq<Leaf>, i: nat, x: Node, j: nat, y: Node)
    requires i < |leaves| && j < |leaves| && i != j && Fits(Value(x)) && Fits(Value(y))
    ensures Answers(leaves, Two(i, x, j, y))
    ensures forall child :: Two(i, x, j, y)(child, i) == Value(x) && Two(i, x, j, y)(child, j) == Value(y)
  {
    hide SiblingKeysDistinct, Walk;
  }

  lemma SameKeyNotApart(a: Leaf, x: Settled, b: Leaf, y: Settled, o: Origin, p: Origin)
    requires a.path != [] && b.path != []
    requires Pushes(a, x, o) && Pushes(b, y, p) && o.KeyText() == p.KeyText()
    ensures !Apart(a, x, b, y)
  {
    hide Pushes, Overlap;
    PushedIsProper(a, x, o);
    PushedIsProper(b, y, p);
    OverlapExactly(o, p);
  }

  // ---------- answers that are no arrays ----------

  // An element, or anything else but an array.
  predicate SingleAnswers(leaves: seq<Leaf>, func: Callback) {
    forall i :: 0 <= i < |leaves| ==> var answer := func(leaves[i].child, i); answer.Value? && !answer.node.List?
  }

  predicate NoneBehind(leaves: seq<Leaf>) {
    forall i, j :: 0 <= i < |leaves| && 0 <= j < |leaves| ==> !Behind(leaves[i].Name(), leaves[j].Name())
  }

  lemma SinglesApart(a: Leaf, x: Settled, b: Leaf, y: Settled)
    requires a.path != b.path && !Behind(a.Name(), b.Name()) && !Behind(b.Name(), a.Name())
    requires x.Value? && !x.node.List? && y.Value? && !y.node.List?
    ensures Apart(a, x, b, y)
  {
    forall o, p | Pushes(a, x, o) && Pushes(b, y, p) ensures !Overlap(o, p) {
      hide PathName, NestedKey;
      if a.Name() == b.Name() { PathNameInjective(a.path, b.path); }
      BehindExactly(a.Name(), b.Name());
      BehindExactly(b.Name(), a.Name());
    }
  }

  // A key that ends in a slash and differs from the leaf's own key, as does its
  // continuation by "/" and r from another's.
  function FreshKey(own: Option<string>, other: Option<string>, r: string): string {
    if Some("/") != own && Some("/" + "/" + r) != other then "/"
    else if Some("a/") != own && Some("a/" + "/" + r) != other then "a/"
    else "b/"
  }

  lemma FreshKeyIsFresh(own: Option<string>, other: Option<string>, r: string)
    ensures var k := FreshKey(own, other, r); EndsInSlash(k) && Some(k) != own && Some(k + "/" + r) != other
  {
    assert ("/" + "/" + r)[0] == '/' && ("a/" + "/" + r)[0] == 'a' && ("b/" + "/" + r)[0] == 'b';
  }

  lemma SinglesCollide(leaves: seq<Leaf>, i: nat, j: nat) returns (func: Callback)
    requires i < |leaves| && j < |leaves| && Behind(leaves[i].Name(), leaves[j].Name())
    requires forall leaf :: leaf in leaves ==> leaf.path != []
    ensures SingleAnswers(leaves, func) && !ElementKeysDistinct(Collect("", leaves, func, 0).items)
  {
    var a, b := leaves[i], leaves[j];
    assert a in leaves && b in leaves;
    BehindExactly(a.Name(), b.Name());
    var r :| NestedKey(r, a.Name()) == b.Name();
    LeafNames(a);
    LeafNames(b);
    NameBehind(b.Name(), r, a.Name());
    KeyedNodeShape(r);
    var k := FreshKey(ExplicitKey(b.child), ExplicitKey(a.child), r);
    FreshKeyIsFresh(ExplicitKey(b.child), ExplicitKey(a.child), r);
    ClashKeys(k, r, a.Name());
    hide *;
    ElementPushes(b, 1, k);
    ElementPushes(a, 2, k + "/" + r);
    SameKeys(k, b.Name(), k + "/" + r, a.Name());
    TwoAreSingle(leaves, j, Element(1, Some(k)), i, Element(2, Some(k + "/" + r)));
    func := Two(j, Element(1, Some(k)), i, Element(2, Some(k + "/" + r)));
    TwoCollide(leaves, j, Element(1, Some(k)), i, Element(2, Some(k + "/" + r)),
               Under(k, b.Name()), Under(k + "/" + r, a.Name()));
  }

  lemma ElementPushes(leaf: Leaf, body: nat, key: string)
    requires ExplicitKey(leaf.child) != Some(key)
    ensures Fits(Value(Element(body, Some(key)))) && Pushes(leaf, Value(Element(body, Some(key))), Under(key, leaf.Name()))
  {
  }

  lemma SameKeys(outer: string, inner: string, other: string, more: string)
    requires NestedKey(outer, inner) == NestedKey(other, more)
    ensures Under(outer, inner).KeyText() == Under(other, more).KeyText()
  {
  }

  lemma TwoAreSingle(leaves: seq<Leaf>, i: nat, x: Node, j: nat, y: Node)
    requires x.Element? && y.Element?
    ensures SingleAnswers(leaves, Two(i, x, j, y))
  {
  }

  // Elements and other single answers always get different keys exactly when no
  // leaf's name is behind another's.
  lemma SingleAnswersDistinctExactly(children: Node)
    requires SiblingKeysDistinct(children)
    ensures var leaves := Walk(children, []).leaves;
            NoneBehind(leaves) <==>
            forall func :: SingleAnswers(leaves, func) ==> ElementKeysDistinct(Collect("", leaves, func, 0).items)
  {
    var leaves := Walk(children, []).leaves;
    LeafPathsDistinct(children, []);
    WalkLeaves(children, []);
    if NoneBehind(leaves) {
      forall func | SingleAnswers(leaves, func) ensures ElementKeysDistinct(Collect("", leaves, func, 0).items) {
        SinglesDistinct(leaves, func);
      }
    } else {
      var i, j :| 0 <= i < |leaves| && 0 <= j < |leaves| && Behind(leaves[i].Name(), leaves[j].Name());
      var func := SinglesCollide(leaves, i, j);
    }
  }

  lemma SinglesDistinct(leaves: seq<Leaf>, func: Callback)
    requires PathsDistinct(leaves) && NoneBehind(leaves) && SingleAnswers(leaves, func)
    requires forall leaf :: leaf in leaves ==> leaf.path != []
    ensures ElementKeysDistinct(Collect("", leaves, func, 0).items)
  {
    hide Apart, Behind, PathName;
    assert Answers(leaves, func);
    AnswerKeysDistinctExactly(leaves, func);
    forall i, j | 0 <= i < j < |leaves|
      ensures Apart(leaves[i], func(leaves[i].child, i), leaves[j], func(leaves[j].child, j))
    {
      SinglesApart(leaves[i], func(leaves[i].child, i), leaves[j], func(leaves[j].child, j));
    }
  }

  // ---------- arrays and unchanged children ----------

  // An array that fits, or something that adds no key of its own.
  predicate KeepsOwnKey(leaf: Leaf, answer: Settled) {
    && Fits(answer)
    && (answer.node.Element? ==> answer.node.elementKey.None? || answer.node.elementKey == ExplicitKey(leaf.child))
  }

  predicate ArrayOrOwnAnswers(leaves: seq<Leaf>, func: Callback) {
    forall i :: 0 <= i < |leaves| ==> KeepsOwnKey(leaves[i], func(leaves[i].child, i))
  }

  // `whole` is the name of an element in an array that answers for the node `outer`.
  predicate Inside(outer: string, whole: string) {
    var prefix := DoubleRuns(outer) + "/"; prefix <= whole && IsLeafName(whole[|prefix|..])
  }

  predicate NoneInside(leaves: seq<Leaf>) {
    forall i, j :: 0 <= i < |leaves| && 0 <= j < |leaves| ==> !Inside(leaves[i].Name(), leaves[j].Name())
  }

  lemma InsideExactly(outer: string, inner: string, whole: string)
    requires IsLeafName(inner) && NestedKey(outer, inner) == whole
    ensures Inside(outer, whole)
  {
    var prefix := DoubleRuns(outer) + "/";
    assert whole[|prefix|..] == inner;
  }

  lemma ArraysApart(a: Leaf, x: Settled, b: Leaf, y: Settled)
    requires a.path != b.path && a.path != [] && b.path != [] && KeepsOwnKey(a, x) && KeepsOwnKey(b, y)
    requires !Clash(a.Name(), b.Name()) && !Clash(b.Name(), a.Name())
    requires !Inside(a.Name(), b.Name()) && !Inside(b.Name(), a.Name())
    ensures Apart(a, x, b, y)
  {
    forall o, p | Pushes(a, x, o) && Pushes(b, y, p) ensures !Overlap(o, p) {
      PushedIsProper(a, x, o);
      PushedIsProper(b, y, p);
      hide PathName, NestedKey, Inside, Clash, IsLeafName, NamesKeyedNode, Walk;
      if a.Name() == b.Name() { PathNameInjective(a.path, b.path); }
      if o.Own? && p.Under? && o.name == NestedKey(p.outer, p.inner) { InsideExactly(p.outer, p.inner, o.name); }
      if p.Own? && o.Under? && p.name == NestedKey(o.outer, o.inner) { InsideExactly(o.outer, o.inner, p.name); }
    }
  }

  // An array whose traversal meets an element at the given path.
  function ArrayAt(path: seq<Segment>): Node
    requires path != []
  {
    List(None, ItemsAt(path, 1))
  }

  lemma ArrayAtPushes(leaf: Leaf, path: seq<Segment>)
    requires path != []
    ensures ArrayAt(path).List? && Fits(Value(ArrayAt(path)))
    ensures Pushes(leaf, Value(ArrayAt(path)), Under(leaf.Name(), PathName(path)))
  {
    hide *;
    WalkArrayAt(path);
    ArrayAtFits(path);
    MetPushes(leaf, ArrayAt(path), path);
  }

  lemma ArrayAtFits(path: seq<Segment>)
    requires path != []
    ensures ArrayAt(path).List? && SiblingKeysDistinct(ArrayAt(path))
  {
    ItemsAtDistinct(path, 1);
  }

  lemma WalkArrayAt(path: seq<Segment>)
    requires path != []
    ensures MeetsElement(Walk(ArrayAt(path), []), path, 1)
  {
    WalkItemsAt(path, 1, []);
    assert [] + path == path;
    hide WalkItems, ItemsAt, MeetsElement;
    assert Walk(ArrayAt(path), []) == WalkItems(ItemsAt(path, 1), []);
  }

  lemma MetPushes(leaf: Leaf, array': Node, path: seq<Segment>)
    requires array'.List? && SiblingKeysDistinct(array') && MeetsElement(Walk(array', []), path, 1)
    ensures Fits(Value(array')) && Pushes(leaf, Value(array'), Under(leaf.Name(), PathName(path)))
  {
    hide Walk, PathName, SiblingKeysDistinct;
    var visit := Walk(array', []);
    var inner :| inner in visit.leaves && inner.path == path && inner.child.Element?;
    assert HasElementNamed(visit.leaves, inner.Name());
  }

  lemma InsideCollides(leaves: seq<Leaf>, i: nat, j: nat) returns (func: Callback)
    requires i < |leaves| && j < |leaves| && Inside(leaves[i].Name(), leaves[j].Name())
    requires forall leaf :: leaf in leaves ==> leaf.path != []
    ensures ArrayOrOwnAnswers(leaves, func) && !ElementKeysDistinct(Collect("", leaves, func, 0).items)
  {
    hide *;
    var a, b := leaves[i], leaves[j];
    InsideIsLonger(a.Name(), b.Name());
    var path := InsidePath(a.Name(), b.Name());
    ArrayAtPushes(a, path);
    OwnPushes(b, 2);
    SameAsOwn(a.Name(), PathName(path), b.Name());
    TwoKeepOwn(leaves, i, ArrayAt(path), j, Element(2, None));
    func := Two(i, ArrayAt(path), j, Element(2, None));
    TwoCollide(leaves, i, ArrayAt(path), j, Element(2, None), Under(a.Name(), PathName(path)), Own(b.Name()));
  }

  lemma InsidePath(outer: string, whole: string) returns (path: seq<Segment>)
    requires Inside(outer, whole)
    ensures path != [] && NestedKey(outer, PathName(path)) == whole
  {
    hide DoubleRuns, PathName, DecodePath;
    var prefix := DoubleRuns(outer) + "/";
    var inner := whole[|prefix|..];
    path := DecodePath(inner).value;
    DecodePathExact(inner, path);
    assert whole == prefix + inner;
  }

  lemma OwnPushes(leaf: Leaf, body: nat)
    ensures Fits(Value(Element(body, None))) && Pushes(leaf, Value(Element(body, None)), Own(leaf.Name()))
  {
  }

  lemma SameAsOwn(outer: string, inner: string, name: string)
    requires NestedKey(outer, inner) == name
    ensures Under(outer, inner).KeyText() == Own(name).KeyText()
  {
  }

  lemma TwoKeepOwn(leaves: seq<Leaf>, i: nat, x: Node, j: nat, y: Node)
    requires Fits(Value(x)) && Fits(Value(y))
    requires (x.List? || x == Element(2, None)) && (y.List? || y == Element(2, None))
    ensures ArrayOrOwnAnswers(leaves, Two(i, x, j, y))
  {
    hide SiblingKeysDistinct, Walk;
  }

  lemma {:induction false} DoubleRunsGrows(s: string)
    ensures |DoubleRuns(s)| >= |s|
  {
    if s != "" { DoubleRunsGrows(s[1..]); }
  }

  lemma InsideIsLonger(outer: string, whole: string)
    requires Inside(outer, whole)
    ensures |outer| < |whole|
  {
    DoubleRunsGrows(outer);
  }

  // Arrays mixed with unchanged children always give different keys exactly when no
  // two names clash and no name is inside another.
  lemma ArrayOrOwnAnswersDistinctExactly(children: Node)
    requires SiblingKeysDistinct(children)
    ensures var leaves := Walk(children, []).leaves;
            NoClash(leaves) && NoneInside(leaves) <==>
            forall func :: ArrayOrOwnAnswers(leaves, func) ==> ElementKeysDistinct(Collect("", leaves, func, 0).items)
  {
    var leaves := Walk(children, []).leaves;
    LeafPathsDistinct(children, []);
    WalkLeaves(children, []);
    if NoClash(leaves) && NoneInside(leaves) {
      forall func | ArrayOrOwnAnswers(leaves, func) ensures ElementKeysDistinct(Collect("", leaves, func, 0).items) {
        ArraysDistinct(leaves, func);
      }
    } else if !NoneInside(leaves) {
      var i, j :| 0 <= i < |leaves| && 0 <= j < |leaves| && Inside(leaves[i].Name(), leaves[j].Name());
      var func := InsideCollides(leaves, i, j);
    } else {
      var i, j :| 0 <= i < |leaves| && 0 <= j < |leaves| && Clash(leaves[i].Name(), leaves[j].Name());
      var func := ClashCollidesByArrays(leaves, i, j);
    }
  }

  lemma ClashCollidesByArrays(leaves: seq<Leaf>, i: nat, j: nat) returns (func: Callback)
    requires i < |leaves| && j < |leaves| && Clash(leaves[i].Name(), leaves[j].Name())
    requires forall leaf :: leaf in leaves ==> leaf.path != []
    ensures ArrayOrOwnAnswers(leaves, func) && !ElementKeysDistinct(Collect("", leaves, func, 0).items)
  {
    var o1, o2 := leaves[i].Name(), leaves[j].Name();
    ClashCollides(o1, o2);
    assert |o1| < |o2|;
    hide NestedKey, PathName, Clash, DecodePath;
    var i1, i2 :| IsLeafName(i1) && IsLeafName(i2) && NestedKey(o1, i1) == NestedKey(o2, i2);
    var p, q := DecodePath(i1).value, DecodePath(i2).value;
    assert p != [] && q != [];
    hide *;
    DecodePathExact(i1, p);
    DecodePathExact(i2, q);
    ArrayAtPushes(leaves[i], p);
    ArrayAtPushes(leaves[j], q);
    SameKeys(o1, i1, o2, i2);
    TwoKeepOwn(leaves, i, ArrayAt(p), j, ArrayAt(q));
    func := Two(i, ArrayAt(p), j, ArrayAt(q));
    TwoCollide(leaves, i, ArrayAt(p), j, ArrayAt(q), Under(o1, i1), Under(o2, i2));
  }

  lemma ArraysDistinct(leaves: seq<Leaf>, func: Callback)
    requires PathsDistinct(leaves) && NoClash(leaves) && NoneInside(leaves) && ArrayOrOwnAnswers(leaves, func)
    requires forall leaf :: leaf in leaves ==> leaf.path != []
    ensures ElementKeysDistinct(Collect("", leaves, func, 0).items)
  {
    hide Apart, Inside, Clash, PathName, Fits;
    assert Answers(leaves, func);
    AnswerKeysDistinctExactly(leaves, func);
    forall i, j | 0 <= i < j < |leaves|
      ensures Apart(leaves[i], func(leaves[i].child, i), leaves[j], func(leaves[j].child, j))
    {
      assert leaves[i] in leaves && leaves[j] in leaves;
      ArraysApart(leaves[i], func(leaves[i].child, i), leaves[j], func(leaves[j].child, j));
    }
  }

  // ---------- arrays and keyed elements ----------

  // Mixing arrays with elements that bring keys is never safe: of any two leaves, one
  // can be answered by an element keyed by the other's name, unless that is the key
  // the child already has.
  lemma MixedAnswersCollide(leaves: seq<Leaf>, i: nat, j: nat)
    requires i < |leaves| && j < |leaves| && i != j && forall leaf :: leaf in leaves ==> leaf.path != []
    requires ExplicitKey(leaves[j].child) != Some(leaves[i].Name())
    ensures var func := Two(i, ArrayAt(leaves[j].path), j, Element(2, Some(leaves[i].Name())));
            Answers(leaves, func) && !ElementKeysDistinct(Collect("", leaves, func, 0).items)
  {
    var a, b := leaves[i], leaves[j];
    ArrayAtPushes(a, b.path);
    ElementPushes(b, 2, a.Name());
    hide NestedKey, PathName, ArrayAt, Walk, Pushes, Fits, Two, Answers;
    TwoCollide(leaves, i, ArrayAt(b.path), j, Element(2, Some(a.Name())), Under(a.Name(), b.Name()), Under(a.Name(), b.Name()));
  }

  // ---------- two trees ----------

  lemma OneKey(key: string)
    ensures PathName([Key(key)]) == ".$" + EscapeChars(key)
  {
    assert [] + [Key(key)] == [Key(key)];
    PathNameAppend([], Key(key));
    assert "." + ("$" + EscapeChars(key)) == ".$" + EscapeChars(key);
  }

  lemma OneIndex()
    ensures PathName([Index(0)]) == ".0"
  {
    assert [] + [Index(0)] == [Index(0)];
    PathNameAppend([], Index(0));
  }

  // A list of two elements.
  lemma WalkPair(x: Node, y: Node)
    requires x.Element? && y.Element?
    ensures Walk(List(None, [x, y]), [])
            == Visit([Leaf(x, [SegmentOf(x, 0)]), Leaf(y, [SegmentOf(y, 1)])], None)
  {
    var items := [x, y];
    assert items[..1] == [x] && items[..1][..0] == [];
    assert [] + [SegmentOf(x, 0)] == [SegmentOf(x, 0)] && [] + [SegmentOf(y, 1)] == [SegmentOf(y, 1)];
    WalkNext(items, 0, []);
    WalkNext(items, 1, []);
    assert items[..2] == items;
    assert WalkItems(items[..0], []) == Visit([], None);
  }

  lemma CollectPair(a: Leaf, b: Leaf, func: Callback)
    requires Emit("", a, func(a.child, 0)).error.None?
    ensures Collect("", [a, b], func, 0) == Emit("", a, func(a.child, 0)).Then(Emit("", b, func(b.child, 1)))
  {
    hide Emit;
    var leaves := [a, b];
    assert leaves[..1] == [a] && [a][..0] == [];
    assert Collect("", [], func, 0) == Outcome([], None);
    assert Collect("", [a], func, 0) == Outcome([], None).Then(Emit("", a, func(a.child, 0)));
  }

  lemma EmitOneInArray(leaf: Leaf, body: nat, key: Option<string>)
    ensures var segment := if key.Some? then Key(key.value) else Index(0);
            Emit("", leaf, Value(List(None, [Element(body, key)])))
            == Outcome([Element(body, Some(NestedKey(leaf.Name(), PathName([segment]))))], None)
  {
    var x := Element(body, key);
    var path := [SegmentOf(x, 0)];
    WalkOne(x);
    hide Walk, PathName, DoubleRuns;
    KeepOne(DoubleRuns(leaf.Name()) + "/", Leaf(x, path));
  }

  lemma WalkOne(x: Node)
    requires x.Element?
    ensures Walk(List(None, [x]), []) == Visit([Leaf(x, [SegmentOf(x, 0)])], None)
  {
    var items, path := [x], [SegmentOf(x, 0)];
    assert items[..0] == [] && items[..1] == items && [] + path == path;
    WalkNext(items, 0, []);
    assert WalkItems(items[..0], []) == Visit([], None);
    assert Walk(x, path) == Visit([Leaf(x, path)], None);
  }

  lemma KeepOne(prefix: string, leaf: Leaf)
    ensures KeepAll(prefix, [leaf]) == Keep(prefix, leaf)
  {
    assert [leaf][..0] == [];
    assert KeepAll(prefix, []) == [];
  }

  lemma {:induction false} NothingToEscape(s: string)
    requires '=' !in s && ':' !in s
    ensures EscapeChars(s) == s
  {
    if s != "" { NothingToEscape(s[1..]); }
  }

  const CLASHING := List(None, [Element(1, Some("a/")), Element(2, Some("a//.$x"))])
  const CLASHING_ANSWERS := Two(0, List(None, [Element(3, Some("x/.0"))]), 1, List(None, [Element(4, None)]))

  lemma ClashingTexts()
    ensures PathName([Key("a/")]) == ".$a/" && PathName([Key("a//.$x")]) == ".$a//.$x"
    ensures PathName([Key("x/.0")]) == ".$x/.0"
    ensures NestedKey(".$a/", ".$x/.0") == NestedKey(".$a//.$x", ".0") == ".$a///.$x/.0"
  {
    hide *;
    OneKey("a/");
    OneKey("a//.$x");
    OneKey("x/.0");
    NothingToEscape("a/");
    NothingToEscape("a//.$x");
    NothingToEscape("x/.0");
    assert ".$" + "a/" == ".$a/" && ".$" + "a//.$x" == ".$a//.$x" && ".$" + "x/.0" == ".$x/.0";
    ClashingKeys();
  }

  lemma ClashingKeys()
    ensures NestedKey(".$a/", ".$x/.0") == NestedKey(".$a//.$x", ".0") == ".$a///.$x/.0"
  {
    hide DoubleRuns;
    ClashingRuns();
    assert ".$a//" + "/" + ".$x/.0" == ".$a///.$x/.0" && ".$a///.$x" + "/" + ".0" == ".$a///.$x/.0";
  }

  lemma ClashingRuns()
    ensures DoubleRuns(".$a") == ".$a" && DoubleRuns(".$a/") == ".$a//" && DoubleRuns(".$a//.$x") == ".$a///.$x"
  {
    NoSlashUnchanged(".$a");
    NoSlashUnchanged(".$x");
    OneSlash();
    hide DoubleRuns;
    DoubleRunsConcat(".$a", "/");
    assert ".$a" + "/" == ".$a/" && ".$a" + "//" == ".$a//";
    DoubleTrailingSlash(".$a/");
    assert ".$a/" + "/" == ".$a//" && ".$a//" + "/" == ".$a///";
    DoubleRunsConcat(".$a//", ".$x");
    assert ".$a//" + ".$x" == ".$a//.$x" && ".$a///" + ".$x" == ".$a///.$x";
  }

  lemma OneSlash()
    ensures DoubleRuns("/") == "//"
  {
    assert "/"[1..] == "";
  }

  // Array answers: the siblings' keys differ, and so do those in each answer, and
  // both elements of the result get one key.
  lemma ClashingTree()
    ensures SiblingKeysDistinct(CLASHING) && !NoClash(Walk(CLASHING, []).leaves)
    ensures AnswersAreArrays(Walk(CLASHING, []).leaves, CLASHING_ANSWERS)
    ensures MapOf(CLASHING, CLASHING_ANSWERS)
            == Items([Element(3, Some(".$a///.$x/.0")), Element(4, Some(".$a///.$x/.0"))])
  {
    hide Walk, PathName, DoubleRuns, Emit, Collect, Clash, NestedKey;
    ClashingLeaves();
    ClashingTexts();
    OneIndex();
    var a, b := Leaf(CLASHING.items[0], [Key("a/")]), Leaf(CLASHING.items[1], [Key("a//.$x")]);
    EmitOneInArray(a, 3, Some("x/.0"));
    EmitOneInArray(b, 4, None);
    CollectPair(a, b, CLASHING_ANSWERS);
  }

  lemma ClashingLeaves()
    ensures var a, b := Leaf(CLASHING.items[0], [Key("a/")]), Leaf(CLASHING.items[1], [Key("a//.$x")]);
            Walk(CLASHING, []) == Visit([a, b], None)
    ensures !NoClash(Walk(CLASHING, []).leaves)
  {
    hide Walk, PathName, Clash;
    WalkPair(CLASHING.items[0], CLASHING.items[1]);
    ClashingTexts();
    ClashingPair(".$a/", ".$a//.$x");
    var leaves := Walk(CLASHING, []).leaves;
    assert leaves[0].Name() == ".$a/" && leaves[1].Name() == ".$a//.$x";
  }

  lemma ClashingPair(a: string, b: string)
    requires a == ".$a/" && b == ".$a//.$x"
    ensures Clash(a, b)
  {
    hide NamesKeyedNode;
    KeyedX();
    assert b[|a| + 1..] == ".$x";
  }

  lemma KeyedX()
    ensures NamesKeyedNode(".$x")
  {
    OneKey("x");
    NothingToEscape("x");
    DecodePathName([Key("x")]);
  }

  const BEHIND := List(None, [Element(1, None), Element(2, Some("a/.0"))])
  const BEHIND_ANSWERS := Two(0, Element(3, Some(".$a")), 1, Element(2, Some("a/.0")))

  // Element answers, with no name that ends in a slash.
  lemma BehindTree()
    ensures SiblingKeysDistinct(BEHIND) && NoClash(Walk(BEHIND, []).leaves) && !NoneBehind(Walk(BEHIND, []).leaves)
    ensures SingleAnswers(Walk(BEHIND, []).leaves, BEHIND_ANSWERS)
    ensures MapOf(BEHIND, BEHIND_ANSWERS) == Items([Element(3, Some(".$a/.0")), Element(2, Some(".$a/.0"))])
  {
    hide Walk, PathName, Emit, Collect, NestedKey, Behind, Clash;
    var x, y := BEHIND.items[0], BEHIND.items[1];
    var a, b := Leaf(x, [Index(0)]), Leaf(y, [Key("a/.0")]);
    WalkPair(x, y);
    BehindTexts();
    EmitSingle(a, 3, Some(".$a"));
    EmitSingle(b, 2, Some("a/.0"));
    CollectPair(a, b, BEHIND_ANSWERS);
    var leaves := Walk(BEHIND, []).leaves;
    assert leaves[0] == a && leaves[1] == b;
    assert Behind(leaves[0].Name(), leaves[1].Name());
    NoTrailingSlash(a.Name(), b.Name());
  }

  lemma BehindTexts()
    ensures PathName([Index(0)]) == ".0" && PathName([Key("a/.0")]) == ".$a/.0"
    ensures NestedKey(".$a", ".0") == ".$a/.0" && Behind(".0", ".$a/.0")
  {
    hide PathName, EscapeChars, DoubleRuns;
    OneIndex();
    OneKey("a/.0");
    NothingToEscape("a/.0");
    ClashingRuns();
    assert ".$a" + "/" + ".0" == ".$a/.0";
    BehindExactly(".0", ".$a/.0");
  }

  lemma EmitSingle(leaf: Leaf, body: nat, key: Option<string>)
    ensures Emit("", leaf, Value(Element(body, key)))
            == Outcome([Element(body, Some(if key.None? || ExplicitKey(leaf.child) == key then leaf.Name()
                                           else NestedKey(key.value, leaf.Name())))], None)
  {
    hide PathName, DoubleRuns;
    NoPrefix(leaf.Name());
    if key.Some? { NoPrefix(DoubleRuns(key.value) + "/"); }
  }

  lemma NoTrailingSlash(a: string, b: string)
    requires a == ".0" && b == ".$a/.0"
    ensures !Clash(a, a) && !Clash(a, b) && !Clash(b, a) && !Clash(b, b)
  {
  }
}
