// Two depth-first searches over JavaScript object graphs, which may be cyclic.
//
//   findPrivatePostTaskBlockedTrueClaim
//     (packages/react/private-act-dispatcher-gate.js:1359-1393)
//   isDeepFrozenDataGraph
//     (packages/react/children-helper.js:1761-1792)
//
// Both share one mutable `seen` set across the recursion and answer early for an
// object that is still being visited.  The results below say that this loses
// nothing: the answers are those of plain reachability.
module GraphSearch {
  import opened Wrappers

  type ObjectId = nat

  // A property value: `true`, another value that is not an object, or an object.
  datatype Value = True | Other | Ref(target: ObjectId)

  // The WeakSet passed down the recursion.
  class Seen {
    var objects: set<ObjectId>

    constructor ()
      ensures objects == {}
    {
      objects := {};
    }
  }

  // ================= blocked claims =================

  // An own enumerable property, in Object.keys order.
  datatype Entry = Entry(key: string, value: Value)

  type Graph = map<ObjectId, seq<Entry>>

  // Property values point into the graph.
  ghost predicate Closed(g: Graph) {
    forall o, i :: o in g && 0 <= i < |g[o]| && g[o][i].value.Ref? ==> g[o][i].value.target in g
  }

  datatype Claim = Claim(claimName: string, claimPath: string)

  ghost predicate Claims(g: Graph, blocked: set<string>, o: ObjectId, key: string) {
    o in g && key in blocked && Entry(key, True) in g[o]
  }

  datatype Step = Step(key: string, to: ObjectId)

  // Following the keys of `steps` from `from` leads to `to`.
  ghost predicate Leads(g: Graph, from: ObjectId, steps: seq<Step>, to: ObjectId)
    decreases |steps|
  {
    if steps == [] then from == to
    else
      && from in g && Entry(steps[0].key, Ref(steps[0].to)) in g[from]
      && Leads(g, steps[0].to, steps[1..], to)
  }

  // The property path spelled out from `path`.
  ghost function PathThrough(path: string, steps: seq<Step>): string
    decreases |steps|
  {
    if steps == [] then path else PathThrough(path + "." + steps[0].key, steps[1..])
  }

  ghost predicate Reaches(g: Graph, from: ObjectId, to: ObjectId) {
    exists steps :: Leads(g, from, steps, to)
  }

  // `o` holds no blocked claim and everything it points at has been seen.
  ghost predicate Settled(g: Graph, blocked: set<string>, o: ObjectId, seen: set<ObjectId>) {
    o in g && forall i :: 0 <= i < |g[o]| ==> EntrySettled(g[o][i], blocked, seen)
  }

  ghost predicate EntrySettled(entry: Entry, blocked: set<string>, seen: set<ObjectId>) {
    !(entry.key in blocked && entry.value == True) && (entry.value.Ref? ==> entry.value.target in seen)
  }

  // A property still to be looked at, with the path that leads to it.
  datatype Pending = Pending(key: string, value: Value, path: string)

  function PendingOf(entries: seq<Entry>, path: string): seq<Pending> {
    seq(|entries|, i requires 0 <= i < |entries| =>
      Pending(entries[i].key, entries[i].value, path + "." + entries[i].key))
  }

  // The reference order of the search, as a plain list of things to do: the first
  // claim among the pending properties, where an object met for the first time
  // puts its own properties in front.
  ghost function FirstClaim(g: Graph, blocked: set<string>, todo: seq<Pending>, seen: set<ObjectId>): Option<Claim>
    decreases |g.Keys - seen|, |todo|
  {
    if todo == [] then None
    else
      var Pending(key, value, path) := todo[0];
      if key in blocked && value == True then Some(Claim(key, path))
      else if value.Ref? && value.target in g && value.target !in seen then
        Fewer(g.Keys, seen, value.target);
        FirstClaim(g, blocked, PendingOf(g[value.target], path) + todo[1..], seen + {value.target})
      else FirstClaim(g, blocked, todo[1..], seen)
  }

  lemma Fewer(all: set<ObjectId>, seen: set<ObjectId>, o: ObjectId)
    requires o in all && o !in seen
    ensures |all - (seen + {o})| < |all - seen|
  {
    Smaller(all - (seen + {o}), all - seen - {o});
    assert |all - seen - {o}| == |all - seen| - 1;
  }

  // What searching a value answers, and what it leaves for the properties after it.
  ghost predicate Answers(g: Graph, blocked: set<string>, value: Value, path: string, seen: set<ObjectId>,
                          claim: Option<Claim>, after: set<ObjectId>) {
    forall rest: seq<Pending> ::
      FirstClaim(g, blocked, Opened(g, value, path, seen) + rest, if value.Ref? && value.target in g then seen + {value.target} else seen)
      == if claim.Some? then claim else FirstClaim(g, blocked, rest, after)
  }

  ghost function Opened(g: Graph, value: Value, path: string, seen: set<ObjectId>): seq<Pending> {
    if value.Ref? && value.target in g && value.target !in seen then PendingOf(g[value.target], path) else []
  }

  method FindFrom(g: Graph, blocked: set<string>, value: Value, path: string, seen: Seen)
    returns (claim: Option<Claim>, ghost steps: seq<Step>, ghost holder: ObjectId)
    requires Closed(g) && (value.Ref? ==> value.target in g)
    modifies seen
    ensures old(seen.objects) <= seen.objects <= old(seen.objects) + g.Keys
    ensures claim.None? ==>
              && (value.Ref? ==> value.target in seen.objects)
              && forall o :: o in seen.objects - old(seen.objects) ==> Settled(g, blocked, o, seen.objects)
    ensures claim.Some? ==>
              && value.Ref? && Leads(g, value.target, steps, holder)
              && Claims(g, blocked, holder, claim.value.claimName)
              && claim.value.claimPath == PathThrough(path, steps) + "." + claim.value.claimName
    ensures Answers(g, blocked, value, path, old(seen.objects), claim, seen.objects)
    decreases |g.Keys - seen.objects|
  {
    claim, steps, holder := None, [], 0;
    if !value.Ref? || value.target in seen.objects {
      NothingOpened(g, blocked, value, path, seen.objects);
      return;
    }
    var node := value.target;
    ghost var unseen := g.Keys - seen.objects;
    seen.objects := seen.objects + {node};
    assert g.Keys - seen.objects == unseen - {node};

    var entries := g[node];
    var index := 0;
    assert entries[0..] == entries;
    while index < |entries|
      invariant 0 <= index <= |entries| && claim == None
      invariant LeftTo(g, blocked, entries, path, old(seen.objects) + {node}, index, seen.objects)
      invariant old(seen.objects) + {node} <= seen.objects <= old(seen.objects) + g.Keys
      invariant forall o :: o in seen.objects - old(seen.objects) - {node} ==> Settled(g, blocked, o, seen.objects)
      invariant forall i :: 0 <= i < index ==> EntrySettled(entries[i], blocked, seen.objects)
    {
      var Entry(key, next) := entries[index];
      var nextPath := path + "." + key;
      if key in blocked && next == True {
        claim, steps, holder := Some(Claim(key, nextPath)), [], node;
        ClaimHere(g, blocked, value, path, old(seen.objects), index, seen.objects);
        return;
      }
      ghost var before := seen.objects;
      assert |g.Keys - before| <= |unseen - {node}| < |unseen| by {
        Smaller(g.Keys - before, unseen - {node});
      }
      claim, steps, holder := FindFrom(g, blocked, next, nextPath, seen);
      EntryAnswered(g, blocked, value, path, old(seen.objects), index, before, claim, seen.objects);
      if claim.Some? {
        steps := [Step(key, next.target)] + steps;
        assert entries[index] in g[node];
        return;
      }
      StaySettled(g, blocked, before - old(seen.objects) - {node}, before, seen.objects);
      index := index + 1;
    }
    AllAnswered(g, blocked, value, path, old(seen.objects), seen.objects);
  }

  // Of an object's properties those from `index` on are left to do.
  ghost predicate LeftTo(g: Graph, blocked: set<string>, entries: seq<Entry>, path: string, start: set<ObjectId>,
                         index: nat, now: set<ObjectId>)
    requires index <= |entries|
  {
    forall rest: seq<Pending> ::
      FirstClaim(g, blocked, PendingOf(entries, path) + rest, start)
      == FirstClaim(g, blocked, PendingOf(entries[index..], path) + rest, now)
  }

  lemma NothingOpened(g: Graph, blocked: set<string>, value: Value, path: string, seen: set<ObjectId>)
    requires !value.Ref? || value.target in seen
    ensures Answers(g, blocked, value, path, seen, None, seen)
  {
    assert value.Ref? ==> seen + {value.target} == seen;
    forall rest: seq<Pending> ensures [] + rest == rest {}
  }

  // Looking at one property: a claim, or what searching its value answers.
  lemma NextPending(g: Graph, blocked: set<string>, entries: seq<Entry>, path: string, index: nat, rest: seq<Pending>,
                    now: set<ObjectId>)
    requires index < |entries|
    ensures var e, more := entries[index], PendingOf(entries[index + 1..], path) + rest;
            FirstClaim(g, blocked, PendingOf(entries[index..], path) + rest, now)
            == if e.key in blocked && e.value == True then Some(Claim(e.key, path + "." + e.key))
               else FirstClaim(g, blocked, Opened(g, e.value, path + "." + e.key, now) + more,
                               if e.value.Ref? && e.value.target in g then now + {e.value.target} else now)
  {
    var e, more := entries[index], PendingOf(entries[index + 1..], path) + rest;
    var todo := PendingOf(entries[index..], path) + rest;
    assert todo[0] == Pending(e.key, e.value, path + "." + e.key);
    assert todo[1..] == more;
    assert [] + more == more;
    if e.value.Ref? && e.value.target in now { assert now + {e.value.target} == now; }
  }

  lemma ClaimHere(g: Graph, blocked: set<string>, value: Value, path: string, start: set<ObjectId>,
                  index: nat, now: set<ObjectId>)
    requires value.Ref? && value.target in g && value.target !in start && index < |g[value.target]|
    requires LeftTo(g, blocked, g[value.target], path, start + {value.target}, index, now)
    requires var e := g[value.target][index]; e.key in blocked && e.value == True
    ensures var e := g[value.target][index];
            Answers(g, blocked, value, path, start, Some(Claim(e.key, path + "." + e.key)), now)
  {
    forall rest: seq<Pending> {
      NextPending(g, blocked, g[value.target], path, index, rest, now);
    }
  }

  lemma EntryAnswered(g: Graph, blocked: set<string>, value: Value, path: string, start: set<ObjectId>,
                      index: nat, now: set<ObjectId>, claim: Option<Claim>, after: set<ObjectId>)
    requires value.Ref? && value.target in g && value.target !in start && index < |g[value.target]|
    requires LeftTo(g, blocked, g[value.target], path, start + {value.target}, index, now)
    requires var e := g[value.target][index];
             && !(e.key in blocked && e.value == True)
             && Answers(g, blocked, e.value, path + "." + e.key, now, claim, after)
    ensures claim.Some? ==> Answers(g, blocked, value, path, start, claim, after)
    ensures claim.None? ==> LeftTo(g, blocked, g[value.target], path, start + {value.target}, index + 1, after)
  {
    var entries := g[value.target];
    forall rest: seq<Pending>
      ensures FirstClaim(g, blocked, PendingOf(entries, path) + rest, start + {value.target})
              == if claim.Some? then claim
                 else FirstClaim(g, blocked, PendingOf(entries[index + 1..], path) + rest, after)
    {
      NextPending(g, blocked, entries, path, index, rest, now);
    }
  }

  lemma AllAnswered(g: Graph, blocked: set<string>, value: Value, path: string, start: set<ObjectId>, now: set<ObjectId>)
    requires value.Ref? && value.target in g && value.target !in start
    requires LeftTo(g, blocked, g[value.target], path, start + {value.target}, |g[value.target]|, now)
    ensures Answers(g, blocked, value, path, start, None, now)
  {
    forall rest: seq<Pending> ensures PendingOf([], path) + rest == rest {}
  }

  lemma Smaller<T>(a: set<T>, b: set<T>)
    requires a <= b
    ensures |a| <= |b|
  {
    assert b == a + (b - a);
  }

  lemma StaySettled(g: Graph, blocked: set<string>, objects: set<ObjectId>, before: set<ObjectId>, after: set<ObjectId>)
    requires before <= after && forall o :: o in objects ==> Settled(g, blocked, o, before)
    ensures forall o :: o in objects ==> Settled(g, blocked, o, after)
  {
  }

  // A settled set that contains the start contains everything reachable, so
  // nothing reachable holds a claim.
  lemma {:induction false} NothingReachable(g: Graph, blocked: set<string>, seen: set<ObjectId>,
                                            from: ObjectId, steps: seq<Step>, to: ObjectId)
    requires forall o :: o in seen ==> Settled(g, blocked, o, seen)
    requires from in seen && Leads(g, from, steps, to)
    ensures to in seen && forall key :: !Claims(g, blocked, to, key)
    decreases |steps|
  {
    if steps != [] {
      NothingReachable(g, blocked, seen, steps[0].to, steps[1..], to);
    }
  }

  // On any finite graph the search ends; it returns null exactly when no object
  // reachable from the root holds a listed key that is true, and otherwise the
  // path of the first such key in depth-first order.
  method FindBlockedTrueClaim(g: Graph, blocked: set<string>, root: Value, path: string)
    returns (claim: Option<Claim>)
    requires Closed(g) && (root.Ref? ==> root.target in g)
    ensures claim.None? <==>
              (root.Ref? ==> forall o, key :: Reaches(g, root.target, o) ==> !Claims(g, blocked, o, key))
    ensures claim.Some? ==>
              root.Ref?
              && exists steps, o ::
                   && Leads(g, root.target, steps, o)
                   && Claims(g, blocked, o, claim.value.claimName)
                   && claim.value.claimPath == PathThrough(path, steps) + "." + claim.value.claimName
    ensures claim == if root.Ref? then FirstClaim(g, blocked, PendingOf(g[root.target], path), {root.target}) else None
  {
    var seen := new Seen();
    ghost var steps, holder;
    claim, steps, holder := FindFrom(g, blocked, root, path, seen);
    OnlyTheRoot(g, blocked, root, path, claim, seen.objects);
    if claim.None? && root.Ref? {
      forall o, key | Reaches(g, root.target, o) ensures !Claims(g, blocked, o, key) {
        var trail :| Leads(g, root.target, trail, o);
        NothingReachable(g, blocked, seen.objects, root.target, trail, o);
      }
    }
    if claim.Some? {
      assert Reaches(g, root.target, holder);
    }
  }

  lemma OnlyTheRoot(g: Graph, blocked: set<string>, root: Value, path: string, claim: Option<Claim>, after: set<ObjectId>)
    requires (root.Ref? ==> root.target in g) && Answers(g, blocked, root, path, {}, claim, after)
    ensures claim == if root.Ref? then FirstClaim(g, blocked, PendingOf(g[root.target], path), {root.target}) else None
  {
    var entered := Opened(g, root, path, {});
    assert entered + [] == entered;
    assert root.Ref? ==> {} + {root.target} == {root.target};
    assert FirstClaim(g, blocked, [], after) == None;
  }

  // ================= deep frozen data =================

  // What Object.getOwnPropertyDescriptor gives for an own key.
  datatype Slot = Data(value: Value) | Accessor | NoDescriptor

  // `slots` is None when listing the own keys throws.
  datatype Record = Record(frozen: bool, slots: Option<seq<Slot>>)

  type RecordGraph = map<ObjectId, Record>

  ghost predicate RecordsClosed(g: RecordGraph) {
    forall o, to :: PointsAt(g, o, to) ==> to in g
  }

  ghost predicate PointsAt(g: RecordGraph, o: ObjectId, to: ObjectId) {
    o in g && g[o].slots.Some? && Data(Ref(to)) in g[o].slots.value
  }

  // A frozen object that has only data properties.
  ghost predicate FrozenData(g: RecordGraph, o: ObjectId) {
    o in g && g[o].frozen && g[o].slots.Some? && forall slot :: slot in g[o].slots.value ==> slot.Data?
  }

  ghost predicate Walks(g: RecordGraph, from: ObjectId, via: seq<ObjectId>, to: ObjectId)
    decreases |via|
  {
    if via == [] then from == to else PointsAt(g, from, via[0]) && Walks(g, via[0], via[1..], to)
  }

  ghost predicate ReachesRecord(g: RecordGraph, from: ObjectId, to: ObjectId) {
    exists via :: Walks(g, from, via, to)
  }

  // Frozen data whose values have all been seen.
  ghost predicate FrozenSettled(g: RecordGraph, o: ObjectId, seen: set<ObjectId>) {
    FrozenData(g, o) && forall to :: PointsAt(g, o, to) ==> to in seen
  }

  method DeepFrozenFrom(g: RecordGraph, value: Value, seen: Seen)
    returns (frozen: bool, ghost via: seq<ObjectId>, ghost culprit: ObjectId)
    requires RecordsClosed(g) && (value.Ref? ==> value.target in g)
    modifies seen
    ensures old(seen.objects) <= seen.objects <= old(seen.objects) + g.Keys
    ensures frozen ==>
              && (value.Ref? ==> value.target in seen.objects)
              && forall o :: o in seen.objects - old(seen.objects) ==> FrozenSettled(g, o, seen.objects)
    ensures !frozen ==> value.Ref? && Walks(g, value.target, via, culprit) && !FrozenData(g, culprit)
    decreases |g.Keys - seen.objects|
  {
    frozen, via, culprit := true, [], 0;
    if !value.Ref? { return; }
    var node := value.target;
    if node in seen.objects { return; }
    ghost var unseen := g.Keys - seen.objects;
    seen.objects := seen.objects + {node};
    assert g.Keys - seen.objects == unseen - {node};
    frozen, culprit := false, node;
    if !g[node].frozen { return; }
    if g[node].slots.None? { return; }

    var slots := g[node].slots.value;
    var index := 0;
    while index < |slots|
      invariant 0 <= index <= |slots| && culprit == node && via == []
      invariant old(seen.objects) + {node} <= seen.objects <= old(seen.objects) + g.Keys
      invariant forall o :: o in seen.objects - old(seen.objects) - {node} ==> FrozenSettled(g, o, seen.objects)
      invariant forall i :: 0 <= i < index ==>
                  slots[i].Data? && (slots[i].value.Ref? ==> slots[i].value.target in seen.objects)
    {
      var slot := slots[index];
      assert slot in g[node].slots.value;
      if !slot.Data? { return; }
      ghost var before := seen.objects;
      assert |g.Keys - before| <= |unseen - {node}| < |unseen| by {
        Smaller(g.Keys - before, unseen - {node});
      }
      assert slot.value.Ref? ==> PointsAt(g, node, slot.value.target);
      var inner;
      ghost var trail, at;
      inner, trail, at := DeepFrozenFrom(g, slot.value, seen);
      if !inner {
        via, culprit := [slot.value.target] + trail, at;
        return;
      }
      StayFrozen(g, before - old(seen.objects) - {node}, before, seen.objects);
      index := index + 1;
    }
    frozen := true;
  }

  lemma StayFrozen(g: RecordGraph, objects: set<ObjectId>, before: set<ObjectId>, after: set<ObjectId>)
    requires before <= after && forall o :: o in objects ==> FrozenSettled(g, o, before)
    ensures forall o :: o in objects ==> FrozenSettled(g, o, after)
  {
  }

  lemma {:induction false} AllReachableFrozen(g: RecordGraph, seen: set<ObjectId>,
                                              from: ObjectId, via: seq<ObjectId>, to: ObjectId)
    requires forall o :: o in seen ==> FrozenSettled(g, o, seen)
    requires from in seen && Walks(g, from, via, to)
    ensures to in seen && FrozenData(g, to)
    decreases |via|
  {
    if via != [] { AllReachableFrozen(g, seen, via[0], via[1..], to); }
  }

  // True exactly when every object reachable from the value, itself included, is
  // frozen and has only data properties.
  method IsDeepFrozenDataGraph(g: RecordGraph, value: Value) returns (frozen: bool)
    requires RecordsClosed(g) && (value.Ref? ==> value.target in g)
    ensures frozen <==>
              (value.Ref? ==> forall o :: ReachesRecord(g, value.target, o) ==> FrozenData(g, o))
  {
    var seen := new Seen();
    ghost var via, culprit;
    frozen, via, culprit := DeepFrozenFrom(g, value, seen);
    if frozen && value.Ref? {
      forall o | ReachesRecord(g, value.target, o) ensures FrozenData(g, o) {
        var trail :| Walks(g, value.target, trail, o);
        AllReachableFrozen(g, seen.objects, value.target, trail, o);
      }
    }
    if !frozen {
      assert ReachesRecord(g, value.target, culprit);
    }
  }
}
