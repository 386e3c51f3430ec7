// What React.Children.map and toArray return, keys aside
// (packages/react/children-helper.js:1023-1051, 1106-1156).
module Contents {
  import opened Wrappers
  import opened Keys
  import opened Prefixes
  import opened Traversal
  import opened ChildrenKeys
  import opened AnswerKeys

  // A value without the key of an element.
  function Keyless(v: Node): Node {
    if v.Element? then Element(v.body, None) else v
  }

  function AllKeyless(items: seq<Node>): seq<Node> {
    seq(|items|, i requires 0 <= i < |items| => Keyless(items[i]))
  }

  function NonNull(items: seq<Node>): seq<Node> {
    if items == [] then []
    else NonNull(items[..|items| - 1]) + (if items[|items| - 1].Null? then [] else [items[|items| - 1]])
  }

  lemma KeylessConcat(a: seq<Node>, b: seq<Node>)
    ensures AllKeyless(a + b) == AllKeyless(a) + AllKeyless(b)
  {
  }

  // ---------- toArray ----------

  // Keeping leaves keeps every child that is not null, in order.
  lemma {:induction false} KeptContents(prefix: string, leaves: seq<Leaf>)
    requires forall leaf :: leaf in leaves ==> IsLeafValue(leaf.child)
    ensures AllKeyless(KeepAll(prefix, leaves)) == AllKeyless(NonNull(Children(leaves)))
  {
    if leaves != [] {
      var n := |leaves| - 1;
      var init, last := leaves[..n], leaves[n];
      KeptContents(prefix, init);
      ChildrenAppend(init, last);
      assert leaves == init + [last] && last in leaves;
      var children := Children(leaves);
      assert children[..n] == Children(init) && children[n] == last.child;
      KeylessConcat(KeepAll(prefix, init), Keep(prefix, last));
      var rest := if last.child.Null? then [] else [last.child];
      KeylessConcat(NonNull(Children(init)), rest);
      assert AllKeyless(Keep(prefix, last)) == AllKeyless(rest);
    }
  }

  lemma ToArrayContents(children: Node)
    requires ToArrayOf(children).Items?
    ensures AllKeyless(ToArrayOf(children).items) == AllKeyless(NonNull(Children(Walk(children, []).leaves)))
  {
    WalkLeaves(children, []);
    KeptContents("", Walk(children, []).leaves);
  }

  // ---------- map ----------

  // What an answer contributes: an array its non-null children at any depth,
  // null and undefined nothing, any other value itself.
  function Contribution(answer: Node): seq<Node> {
    if answer.List? then NonNull(Children(Walk(answer, []).leaves))
    else if answer.Null? || answer.Undefined? then []
    else [answer]
  }

  lemma EmittedContents(leaf: Leaf, answer: Settled)
    requires answer.Value?
    ensures AllKeyless(Emit("", leaf, answer).items) == AllKeyless(Contribution(answer.node))
  {
    hide PathName, DoubleRuns, Walk, Children;
    if answer.node.List? {
      WalkLeaves(answer.node, []);
      KeptContents(DoubleRuns(leaf.Name()) + "/", Walk(answer.node, []).leaves);
    }
  }

  // The contributions of the answers for the first n leaves, each callback call
  // given the leaf's child and its number.
  function Contributions(leaves: seq<Leaf>, func: Callback): seq<Node> {
    if leaves == [] then []
    else
      var n := |leaves| - 1;
      var answer := func(leaves[n].child, n);
      Contributions(leaves[..n], func) + (if answer.Value? then Contribution(answer.node) else [])
  }

  lemma {:induction false} CollectedContents(leaves: seq<Leaf>, func: Callback)
    requires NoErrors(leaves, func)
    ensures AllKeyless(Collect("", leaves, func, 0).items) == AllKeyless(Contributions(leaves, func))
  {
    if leaves != [] {
      hide Emit, Collect, Contribution;
      var n := |leaves| - 1;
      var init, answer := leaves[..n], func(leaves[n].child, n);
      CollectLast(leaves, func);
      CollectedContents(init, func);
      assert answer.Value? by { PushedValue(leaves, func, n); }
      EmittedContents(leaves[n], answer);
      KeylessConcat(Collect("", init, func, 0).items, Pushed(leaves, func, n).items);
      KeylessConcat(Contributions(init, func), Contribution(answer.node));
    }
  }

  lemma PushedValue(leaves: seq<Leaf>, func: Callback, i: nat)
    requires i < |leaves| && NoErrors(leaves, func)
    ensures func(leaves[i].child, i).Value?
  {
    assert Pushed(leaves, func, i).error.None?;
  }

  // map returns the contributions of its callback's answers in order, with only the
  // keys of elements changed.
  lemma MapContents(children: Node, func: Callback)
    requires !children.Null? && !children.Undefined? && Walk(children, []).error.None?
    requires NoErrors(Walk(children, []).leaves, func)
    ensures MapOf(children, func).Items?
    ensures AllKeyless(MapOf(children, func).items) == AllKeyless(Contributions(Walk(children, []).leaves, func))
  {
    var leaves := Walk(children, []).leaves;
    CollectedContents(leaves, func);
    forall i | 0 <= i < |leaves| ensures Emit("", leaves[i], func(leaves[i].child, i)).error.None? {
      assert Pushed(leaves, func, i).error.None?;
    }
    CollectsWithoutError(leaves, func);
  }

  // Null and undefined children come back unchanged and call nothing.
  lemma MapOfNothing(func: Callback)
    ensures MapOf(Null, func) == Same(Null) && MapOf(Undefined, func) == Same(Undefined)
    ensures ToArrayOf(Null) == Items([]) && ToArrayOf(Undefined) == Items([])
  {
    var leaf := Leaf(Null, [Index(0)]);
    assert Walk(Null, []).leaves == [leaf] && Walk(Undefined, []).leaves == [leaf];
    assert [leaf][..0] == [];
    assert KeepAll("", []) == [];
    assert KeepAll("", [leaf]) == KeepAll("", []) + Keep("", leaf);
  }

  // The first answer that throws, or that is an array in whose traversal something
  // throws, ends map with that error.
  lemma {:induction false} CollectThrows(leaves: seq<Leaf>, func: Callback, n: nat, error: Thrown)
    requires n < |leaves| && forall i :: 0 <= i < n ==> Pushed(leaves, func, i).error.None?
    requires var answer := func(leaves[n].child, n);
             answer == Throws(error)
             || (answer.Value? && answer.node.List? && Walk(answer.node, []).error == Some(error))
    ensures Collect("", leaves, func, 0).error == Some(error)
  {
    var m := |leaves| - 1;
    var init := leaves[..m];
    assert forall i :: 0 <= i < m ==> init[i] == leaves[i];
    CollectStep(leaves, func);
    forall i | 0 <= i < m ensures Pushed(init, func, i) == Pushed(leaves, func, i) { PushedInit(leaves, func, i); }
    hide Collect;
    if n < m {
      CollectThrows(init, func, n, error);
    } else {
      assert NoErrors(init, func);
      forall i | 0 <= i < m ensures Emit("", init[i], func(init[i].child, i)).error.None? {
        assert Pushed(init, func, i).error.None?;
      }
      CollectsWithoutError(init, func);
    }
  }

  lemma MapThrows(children: Node, func: Callback, n: nat, error: Thrown)
    requires !children.Null? && !children.Undefined?
    requires var leaves := Walk(children, []).leaves;
             && n < |leaves| && (forall i :: 0 <= i < n ==> Pushed(leaves, func, i).error.None?)
             && func(leaves[n].child, n) == Throws(error)
    ensures MapOf(children, func) == MapResult.Threw(error)
  {
    CollectThrows(Walk(children, []).leaves, func, n, error);
  }

  // If no answer throws, the error is that of the traversal.
  lemma MapSuspends(children: Node, func: Callback)
    requires !children.Null? && !children.Undefined? && Walk(children, []).error.Some?
    requires NoErrors(Walk(children, []).leaves, func)
    ensures MapOf(children, func) == MapResult.Threw(Walk(children, []).error.value)
  {
    var leaves := Walk(children, []).leaves;
    forall i | 0 <= i < |leaves| ensures Emit("", leaves[i], func(leaves[i].child, i)).error.None? {
      assert Pushed(leaves, func, i).error.None?;
    }
    CollectsWithoutError(leaves, func);
  }

  // ---------- keys ----------

  // Every kind of object can carry a key, and it is the key that counts; other
  // values never have one.
  lemma KeysAreRead(k: string, i: nat, body: nat, items: seq<Node>, outcome: Settled)
    ensures forall v :: v in {Element(body, Some(k)), Portal(i, Some(k)), List(Some(k), items), Iterable(Some(k), items),
                              Lazy(Some(k), outcome), Thenable(Some(k), outcome), Plain(Some(k))} ==>
              SegmentOf(v, i) == Key(k)
    ensures forall v :: v in {Element(body, None), Portal(i, None), List(None, items), Iterable(None, items),
                              Lazy(None, outcome), Thenable(None, outcome), Plain(None),
                              Null, Undefined, Boolean(true), Boolean(false), Primitive(k), Callable(i)} ==>
              SegmentOf(v, i) == Index(i)
  {
  }

  // The texts themselves, on one example of each form.
  lemma KeyTexts()
    ensures EscapeKey("a=b:c/d") == "$a=0b=2c/d"
    ensures Base36(9) == "9" && Base36(35) == "z" && Base36(46) == "1a"
    ensures PathName([Key("a"), Index(10)]) == ".$a:a"
    ensures DoubleRuns("a/b//c") == "a//b///c"
  {
    assert "a=b:c/d" == "a" + ("=" + ("b" + (":" + "c/d")));
    Escaped("a=b:c/d");
    assert 46 / 36 == 1 && 46 % 36 == 10;
    TwoSegments();
    Doubled();
  }

  lemma Escaped(s: string)
    requires s == "a=b:c/d"
    ensures EscapeKey(s) == "$a=0b=2c/d"
  {
    var t6, t5, t4 := "d", "/d", "c/d";
    var t3, t2, t1 := ":c/d", "b:c/d", "=b:c/d";
    assert s[1..] == t1 && t1[1..] == t2 && t2[1..] == t3 && t3[1..] == t4 && t4[1..] == t5 && t5[1..] == t6 && t6[1..] == "";
    assert EscapeChars(t6) == "d" && EscapeChars(t5) == "/d" && EscapeChars(t4) == "c/d";
    assert EscapeChars(t3) == "=2c/d" && EscapeChars(t2) == "b=2c/d";
    assert EscapeChars(t1) == "=0b=2c/d";
  }

  lemma TwoSegments()
    ensures PathName([Key("a"), Index(10)]) == ".$a:a"
  {
    var path: seq<Segment> := [Key("a")];
    assert [] + path == path && path + [Index(10)] == [Key("a"), Index(10)];
    PathNameAppend([], Key("a"));
    PathNameAppend(path, Index(10));
    assert EscapeChars("a") == "a" by { assert "a"[1..] == ""; }
    hide PathName, EscapeChars;
    assert NamePrefix([]) == "." by { EmptyPrefix(); }
    assert PathName(path) == ".$a";
    assert path != [];
    assert NamePrefix(path) == ".$a:";
  }

  lemma EmptyPrefix()
    ensures NamePrefix([]) == "."
  {
  }

  lemma Doubled()
    ensures DoubleRuns("a/b//c") == "a//b///c"
  {
    assert "c"[1..] == "" && "/c"[1..] == "c" && "//c"[1..] == "/c" && "b//c"[1..] == "//c"
        && "/b//c"[1..] == "b//c" && "a/b//c"[1..] == "/b//c";
    assert DoubleRuns("c") == "c" && DoubleRuns("/c") == "//c" && DoubleRuns("//c") == "///c";
    assert DoubleRuns("b//c") == "b///c";
    assert DoubleRuns("/b//c") == "//b///c";
  }
}
