// The binary heaps of the mock scheduler
// (packages/scheduler/cjs/scheduler-unstable_mock.production.js:70-131), and the
// sorted snapshots taken of the same tasks.
//
// A heap node is represented by the two fields `compare` reads.  The second one
// is the task id in the scheduler's own queues, and the schedule order in the
// wrapper's snapshots.
module TaskHeap {
  import opened Wrappers

  datatype Entry = Entry(sortIndex: real, order: int)

  // compare, whose sign is all that is used
  function Compare(a: Entry, b: Entry): real {
    var diff := a.sortIndex - b.sortIndex;
    if diff != 0.0 then diff else (a.order - b.order) as real
  }

  predicate Leq(a: Entry, b: Entry) {
    Compare(a, b) <= 0.0
  }

  lemma LeqTotalOrder(a: Entry, b: Entry, c: Entry)
    ensures Leq(a, b) || Leq(b, a)
    ensures Leq(a, b) && Leq(b, c) ==> Leq(a, c)
    ensures Leq(a, b) && Leq(b, a) ==> a == b
  {
  }

  lemma CompareFlips(a: Entry, b: Entry)
    ensures Compare(a, b) == -Compare(b, a)
  {
  }

  lemma LeastOfThree(left: Entry, right: Entry, parent: Entry)
    ensures Compare(left, parent) < 0.0 && Compare(right, left) < 0.0 ==> Compare(right, parent) < 0.0
    ensures Compare(left, parent) >= 0.0 && Compare(right, parent) < 0.0 ==> Compare(right, left) <= 0.0
  {
  }

  // The order in numbers: by sort index, and the smaller order first among equals.
  lemma LeqExactly(a: Entry, b: Entry)
    ensures Leq(a, b) <==> a.sortIndex < b.sortIndex || (a.sortIndex == b.sortIndex && a.order <= b.order)
  {
  }

  // ---------- sorted snapshots ----------

  predicate IsSorted(s: seq<Entry>) {
    forall i, j :: 0 <= i < j < |s| ==> Leq(s[i], s[j])
  }

  function Insert(e: Entry, s: seq<Entry>): seq<Entry> {
    if s == [] then [e] else if Leq(e, s[0]) then [e] + s else [s[0]] + Insert(e, s[1..])
  }

  // entries.sort(compare)
  function Sorted(s: seq<Entry>): seq<Entry> {
    if s == [] then [] else Insert(s[|s| - 1], Sorted(s[..|s| - 1]))
  }

  lemma {:induction false} InsertMembers(e: Entry, s: seq<Entry>)
    ensures multiset(Insert(e, s)) == multiset(s) + multiset{e}
  {
    if s != [] {
      assert s == [s[0]] + s[1..];
      InsertMembers(e, s[1..]);
    }
  }

  lemma {:induction false} InsertSorts(e: Entry, s: seq<Entry>)
    requires IsSorted(s)
    ensures IsSorted(Insert(e, s))
  {
    if s != [] {
      if Leq(e, s[0]) {
        forall i | 0 <= i < |s| ensures Leq(e, s[i]) { LeqTotalOrder(e, s[0], s[i]); }
      } else {
        InsertSorts(e, s[1..]);
        var rest := Insert(e, s[1..]);
        InsertMembers(e, s[1..]);
        forall x | x in rest ensures Leq(s[0], x) {
          assert x in multiset(rest);
        }
        hide Insert, Compare;
        PrependSorted(s[0], rest);
      }
    }
  }

  lemma PrependSorted(e: Entry, s: seq<Entry>)
    requires IsSorted(s) && forall x :: x in s ==> Leq(e, x)
    ensures IsSorted([e] + s)
  {
  }

  lemma {:induction false} SortedSorts(s: seq<Entry>)
    ensures IsSorted(Sorted(s)) && multiset(Sorted(s)) == multiset(s)
  {
    if s != [] {
      var n := |s| - 1;
      SortedSorts(s[..n]);
      InsertSorts(s[n], Sorted(s[..n]));
      InsertMembers(s[n], Sorted(s[..n]));
      assert s == s[..n] + [s[n]];
    }
  }

  // There is only one sorted arrangement of given entries.
  lemma {:induction false} SortedIsUnique(s: seq<Entry>, t: seq<Entry>)
    requires IsSorted(s) && IsSorted(t) && multiset(s) == multiset(t)
    ensures s == t
    decreases |s|
  {
    assert |s| == |multiset(s)| == |multiset(t)| == |t|;
    if s != [] {
      SameHead(s, t);
      HeadAndTail(s);
      HeadAndTail(t);
      SortedIsUnique(s[1..], t[1..]);
    }
  }

  lemma HeadAndTail(s: seq<Entry>)
    requires s != []
    ensures s == [s[0]] + s[1..] && multiset(s[1..]) == multiset(s) - multiset{s[0]}
  {
    assert s == [s[0]] + s[1..];
  }

  lemma SameHead(s: seq<Entry>, t: seq<Entry>)
    requires s != [] && t != [] && IsSorted(s) && IsSorted(t) && multiset(s) == multiset(t)
    ensures s[0] == t[0]
  {
    assert s[0] in multiset(t) && t[0] in multiset(s);
    var i :| 0 <= i < |t| && t[i] == s[0];
    var j :| 0 <= j < |s| && s[j] == t[0];
    LeqTotalOrder(s[0], t[0], s[0]);
  }

  lemma SortedOfSame(s: seq<Entry>, t: seq<Entry>)
    requires multiset(s) == multiset(t)
    ensures Sorted(s) == Sorted(t)
  {
    SortedSorts(s);
    SortedSorts(t);
    SortedIsUnique(Sorted(s), Sorted(t));
  }

  // ---------- heap order ----------

  function Parent(i: nat): nat
    requires i > 0
  {
    (i - 1) / 2
  }

  // Heap order on all edges, except the one above `up` and those below `down`,
  // around which the parent of the hole is still above its children.
  predicate OrderedExcept(s: seq<Entry>, up: int, down: int) {
    && (forall i :: 1 <= i < |s| && i != up && Parent(i) != down ==> Leq(s[Parent(i)], s[i]))
    && (forall i :: 1 <= i < |s| && Parent(i) > 0 && (Parent(i) == up || Parent(i) == down) ==>
          Leq(s[Parent(Parent(i))], s[i]))
  }

  predicate Ordered(s: seq<Entry>) {
    forall i :: 1 <= i < |s| ==> Leq(s[Parent(i)], s[i])
  }

  function Swap(s: seq<Entry>, i: nat, j: nat): seq<Entry>
    requires i < |s| && j < |s|
  {
    s[i := s[j]][j := s[i]]
  }

  lemma SwapKeeps(s: seq<Entry>, i: nat, j: nat)
    requires i < |s| && j < |s|
    ensures multiset(Swap(s, i, j)) == multiset(s)
  {
  }

  lemma {:induction false} RootIsLeast(s: seq<Entry>, i: nat)
    requires Ordered(s) && i < |s|
    ensures Leq(s[0], s[i])
    decreases i
  {
    if i > 0 {
      RootIsLeast(s, Parent(i));
      LeqTotalOrder(s[0], s[Parent(i)], s[i]);
    }
  }

  lemma SiftUpStep(s: seq<Entry>, index: nat)
    requires 0 < index < |s| && OrderedExcept(s, index, -1) && Compare(s[Parent(index)], s[index]) > 0.0
    ensures OrderedExcept(Swap(s, Parent(index), index), Parent(index), -1)
  {
    var p := Parent(index);
    var t := Swap(s, p, index);
    forall i | 1 <= i < |t| && i != p ensures Leq(t[Parent(i)], t[i]) {
      if Parent(i) == p && i != index { LeqTotalOrder(s[index], s[p], s[i]); }
    }
    forall i | 1 <= i < |t| && Parent(i) == p && p > 0 ensures Leq(t[Parent(p)], t[i]) {
      LeqTotalOrder(s[Parent(p)], s[p], s[i]);
    }
  }

  // The child is one of the two below index, not above its sibling.
  predicate LeastChild(s: seq<Entry>, index: nat, child: nat) {
    && child < |s|
    && (child == 2 * index + 1 || child == 2 * index + 2)
    && (forall other :: 2 * index + 1 <= other <= 2 * index + 2 && other < |s| ==> Leq(s[child], s[other]))
  }

  lemma SiftDownStep(s: seq<Entry>, index: nat, child: nat)
    requires index < |s| && OrderedExcept(s, -1, index) && LeastChild(s, index, child)
    requires Leq(s[child], s[index])
    ensures OrderedExcept(Swap(s, index, child), -1, child)
  {
    var t := Swap(s, index, child);
    assert Parent(child) == index;
    forall i | 1 <= i < |t| && Parent(i) != child ensures Leq(t[Parent(i)], t[i]) {
      if i == index { assert Leq(s[Parent(index)], s[child]); }
      if Parent(i) == index { assert i == 2 * index + 1 || i == 2 * index + 2; }
    }
  }

  lemma SiftDownStops(s: seq<Entry>, index: nat)
    requires index < |s| && OrderedExcept(s, -1, index)
    requires forall child :: 2 * index + 1 <= child <= 2 * index + 2 && child < |s| ==> Compare(s[child], s[index]) >= 0.0
    ensures Ordered(s)
  {
    forall i | 1 <= i < |s| ensures Leq(s[Parent(i)], s[i]) {
      if Parent(i) == index {
        assert i == 2 * index + 1 || i == 2 * index + 2;
        CompareFlips(s[i], s[index]);
      }
    }
  }

  // Moving the last node to the root.
  lemma ReplaceRoot(before: seq<Entry>)
    requires |before| > 1 && Ordered(before)
    ensures var n := |before| - 1;
            var s := before[..n][0 := before[n]];
            OrderedExcept(s, -1, 0) && multiset(before) == multiset(s) + multiset{before[0]}
  {
    var n := |before| - 1;
    var first, middle, last := [before[0]], before[1..n], [before[n]];
    assert before == first + middle + last;
    assert before[..n][0 := before[n]] == last + middle;
  }

  class MinHeap {
    var nodes: seq<Entry>

    constructor ()
      ensures nodes == [] && Valid()
    {
      nodes := [];
    }

    ghost predicate Valid()
      reads this
    {
      Ordered(nodes)
    }

    method Push(node: Entry)
      requires Valid()
      modifies this
      ensures Valid()
      ensures multiset(nodes) == multiset(old(nodes)) + multiset{node}
      ensures Sorted(nodes) == Insert(node, Sorted(old(nodes)))
    {
      var index := |nodes|;
      nodes := nodes + [node];
      ghost var target := nodes;
      while index > 0
        invariant 0 <= index < |nodes| && nodes[index] == node
        invariant OrderedExcept(nodes, index, -1)
        invariant multiset(nodes) == multiset(target)
      {
        var parentIndex := (index - 1) / 2;
        var parent := nodes[parentIndex];
        if Compare(parent, node) > 0.0 {
          SiftUpStep(nodes, index);
          SwapKeeps(nodes, parentIndex, index);
          nodes := nodes[parentIndex := node][index := parent];
          index := parentIndex;
        } else {
          break;
        }
      }
      SortedOfSame(nodes, target);
      assert target[..|target| - 1] == old(nodes);
    }

    method Peek() returns (first: Option<Entry>)
      requires Valid()
      ensures first == if nodes == [] then None else Some(nodes[0])
      ensures first.Some? ==> forall i :: 0 <= i < |nodes| ==> Leq(first.value, nodes[i])
    {
      if nodes == [] { return None; }
      forall i | 0 <= i < |nodes| ensures Leq(nodes[0], nodes[i]) { RootIsLeast(nodes, i); }
      first := Some(nodes[0]);
    }

    // Popping takes the head of the sorted snapshot and leaves its tail.
    method Pop() returns (first: Option<Entry>)
      requires Valid()
      modifies this
      ensures Valid()
      ensures old(nodes) == [] ==> first == None && nodes == []
      ensures old(nodes) != [] ==>
                && first == Some(old(nodes)[0])
                && multiset(old(nodes)) == multiset(nodes) + multiset{old(nodes)[0]}
                && Sorted(old(nodes)) == [old(nodes)[0]] + Sorted(nodes)
                && |nodes| == |old(nodes)| - 1
    {
      if nodes == [] { return None; }
      ghost var before := nodes;
      first := Some(nodes[0]);
      var last := nodes[|nodes| - 1];
      nodes := nodes[..|nodes| - 1];
      // `last !== first`: the popped node was not the only one
      if nodes != [] {
        ReplaceRoot(before);
        nodes := nodes[0 := last];
        SiftDown(last);
      } else {
        assert before == [last];
      }
      PopTakesHead(before, nodes);
      assert |multiset(before)| == |before|;
    }

    method SiftDown(last: Entry)
      requires nodes != [] && nodes[0] == last && OrderedExcept(nodes, -1, 0)
      modifies this
      ensures Valid() && multiset(nodes) == multiset(old(nodes))
    {
      hide OrderedExcept, Ordered, Compare, Leq, LeastChild, Parent, Swap;
      var index := 0;
      var length := |nodes|;
      var halfLength := length / 2;
      while index < halfLength
        invariant 0 <= index < length == |nodes| && halfLength == length / 2
        invariant nodes[index] == last
        invariant OrderedExcept(nodes, -1, index)
        invariant multiset(nodes) == multiset(old(nodes))
      {
        var leftIndex := (index + 1) * 2 - 1;
        var left := nodes[leftIndex];
        var rightIndex := leftIndex + 1;
        ghost var s := nodes;
        CompareFlips(left, last);
        if rightIndex < length {
          CompareFlips(left, nodes[rightIndex]);
          LeastOfThree(left, nodes[rightIndex], last);
        }
        if Compare(left, last) < 0.0 {
          if rightIndex < length && Compare(nodes[rightIndex], left) < 0.0 {
            nodes := nodes[index := nodes[rightIndex]][rightIndex := last];
            Descend(s, index, rightIndex, leftIndex);
            index := rightIndex;
          } else {
            nodes := nodes[index := left][leftIndex := last];
            Descend(s, index, leftIndex, rightIndex);
            index := leftIndex;
          }
        } else if rightIndex < length && Compare(nodes[rightIndex], last) < 0.0 {
          nodes := nodes[index := nodes[rightIndex]][rightIndex := last];
          Descend(s, index, rightIndex, leftIndex);
          index := rightIndex;
        } else {
          SiftDownStops(nodes, index);
          return;
        }
      }
      SiftDownStops(nodes, index);
    }
  }

  // One round of siftDown: the lesser child takes the place of its parent.
  lemma Descend(s: seq<Entry>, index: nat, child: nat, sibling: nat)
    requires index < |s| && child < |s| && OrderedExcept(s, -1, index)
    requires {child, sibling} == {2 * index + 1, 2 * index + 2}
    requires Compare(s[child], s[index]) < 0.0 && (sibling < |s| ==> Compare(s[child], s[sibling]) <= 0.0)
    ensures var t := s[index := s[child]][child := s[index]];
            OrderedExcept(t, -1, child) && multiset(t) == multiset(s)
  {
    assert child in {child, sibling} && sibling in {child, sibling};
    assert LeastChild(s, index, child) by {
      forall other | 2 * index + 1 <= other <= 2 * index + 2 && other < |s| ensures Leq(s[child], s[other]) {
        assert other in {child, sibling};
        LeqTotalOrder(s[child], s[child], s[child]);
      }
    }
    SiftDownStep(s, index, child);
    SwapKeeps(s, index, child);
  }

  lemma PopTakesHead(before: seq<Entry>, after: seq<Entry>)
    requires before != [] && Ordered(before)
    requires multiset(before) == multiset(after) + multiset{before[0]}
    ensures Sorted(before) == [before[0]] + Sorted(after)
  {
    SortedSorts(before);
    SortedSorts(after);
    forall x | x in Sorted(after) ensures Leq(before[0], x) {
      assert x in multiset(Sorted(after));
      assert x in multiset(before);
      var k :| 0 <= k < |before| && before[k] == x;
      RootIsLeast(before, k);
    }
    hide Sorted, Ordered, Compare;
    PrependSorted(before[0], Sorted(after));
    SortedIsUnique(Sorted(before), [before[0]] + Sorted(after));
  }

  // So of two nodes, the one with the smaller sort index is popped first, and among
  // equal ones the one with the smaller order.
  lemma PopOrder(nodes: seq<Entry>, i: nat, j: nat)
    requires i < j < |nodes|
    ensures var s := Sorted(nodes);
            && |s| == |nodes|
            && (s[i].sortIndex < s[j].sortIndex || (s[i].sortIndex == s[j].sortIndex && s[i].order <= s[j].order))
  {
    SortedSorts(nodes);
    assert |multiset(nodes)| == |multiset(Sorted(nodes))|;
    LeqExactly(Sorted(nodes)[i], Sorted(nodes)[j]);
  }

  // A heap's root is the first entry of its sorted snapshot.
  lemma RootIsFirst(nodes: seq<Entry>)
    requires Ordered(nodes)
    ensures nodes == [] <==> Sorted(nodes) == []
    ensures nodes != [] ==> Sorted(nodes)[0] == nodes[0]
  {
    SortedSorts(nodes);
    assert |multiset(nodes)| == |nodes| == |Sorted(nodes)|;
    if nodes != [] {
      HeadAndTail(nodes);
      PopTakesHead(nodes, nodes[1..]);
    }
  }
}
