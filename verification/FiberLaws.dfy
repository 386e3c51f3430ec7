// What every run of arena operations keeps, and what one call promises.
module FiberLaws {
  import opened Wrappers
  import opened FiberArena

  // ---------- single operations keep the invariant ----------

  lemma PlaceKeeps(a: Arena, node: FiberNode)
    requires Stored(a) && node.id == NextId(a)
    ensures var b := Place(a, node);
            && Stored(b) && Live(b, node.id) && Get(b, node.id) == node && !Live(a, node.id)
            && forall id :: id != node.id ==> (Live(b, id) <==> Live(a, id)) && (Live(a, id) ==> Get(b, id) == Get(a, id))
  {
    if a.vacant != [] {
      var n := |a.vacant| - 1;
      assert a.vacant[n] < |a.slots| && a.slots[a.vacant[n]].node.None?;
    }
  }

  lemma PutKeeps(a: Arena, node: FiberNode)
    requires Stored(a) && Live(a, node.id)
    ensures var b := Put(a, node);
            && Stored(b) && Live(b, node.id) && Get(b, node.id) == node
            && forall id :: id != node.id ==> (Live(b, id) <==> Live(a, id)) && (Live(a, id) ==> Get(b, id) == Get(a, id))
  {
  }

  lemma GetId(a: Arena, id: FiberId)
    requires Stored(a) && Live(a, id)
    ensures Get(a, id).id == id
  {
  }

  lemma CreateKeeps(a: Arena, tag: nat, key: Option<string>, props: nat, mode: nat)
    requires Inv(a)
    ensures Inv(Create(a, tag, key, props, mode))
  {
    var node := NewNode(NextId(a), tag, key, props, mode);
    var b := Place(a, node);
    PlaceKeeps(a, node);
    forall id ensures Paired(b, id) {
      if id != node.id && Live(a, id) && Get(a, id).alternate.Some? {
        assert Paired(a, id);
      }
    }
  }

  lemma ReclaimKeeps(a: Arena, fiber: FiberId)
    requires Inv(a)
    ensures Inv(Reclaim(a, fiber))
  {
    var b := Reclaim(a, fiber);
    if ReclaimError(a, fiber).None? {
      GetId(a, fiber);
      forall id ensures Paired(b, id) {
        if Live(b, id) && Get(a, id).alternate.Some? {
          assert Paired(a, id) && Paired(a, fiber);
          assert Get(a, id).alternate.value != fiber;
        }
      }
    }
  }

  lemma EditKeeps(a: Arena, fiber: FiberId, node: FiberNode)
    requires Inv(a)
    ensures Inv(Edit(a, fiber, node))
  {
    if Live(a, fiber) {
      var old' := Get(a, fiber);
      var edited := node.(id := fiber, tag := old'.tag, key := old'.key, alternate := old'.alternate);
      PutKeeps(a, edited);
      forall id ensures Paired(Edit(a, fiber, node), id) {
        assert Paired(a, id);
      }
    }
  }

  // Under the invariant the call never fails on a live fiber.
  lemma WipNeverFails(a: Arena, current: FiberId)
    requires Inv(a)
    ensures WipResult(a, current).Ok? <==> Live(a, current)
  {
    assert Paired(a, current);
  }

  // The whole effect of a successful call: the partner is a clone that points
  // back, current points at the partner, and no other fiber changes.
  lemma WipEffect(a: Arena, current: FiberId, props: nat)
    requires Inv(a) && Live(a, current)
    ensures WipResult(a, current).Ok?
    ensures var b, wip := Wip(a, current, props), WipResult(a, current).value;
            && wip != current && Live(b, current) && Live(b, wip) && Stored(b)
            && Get(b, wip) == CloneForAlternate(Get(a, current), wip, props)
            && Get(b, wip).alternate == Some(current)
            && Get(b, current) == Get(a, current).(alternate := Some(wip))
            && (Live(a, wip) <==> Get(a, current).alternate.Some?)
            && (Live(a, wip) ==> Get(a, wip).alternate == Some(current))
            && forall id :: id != wip && id != current ==>
                 (Live(b, id) <==> Live(a, id)) && (Live(a, id) ==> Get(b, id) == Get(a, id))
  {
    WipNeverFails(a, current);
    GetId(a, current);
    assert Paired(a, current);
    var wip := WipResult(a, current).value;
    var clone := CloneForAlternate(Get(a, current), wip, props);
    if Get(a, current).alternate.Some? {
      PutKeeps(a, clone);
    } else {
      PlaceKeeps(a, clone);
      var placed := Place(a, clone);
      PutKeeps(placed, Get(placed, current).(id := current, alternate := Some(wip)));
    }
  }

  lemma WipKeeps(a: Arena, current: FiberId, props: nat)
    requires Inv(a)
    ensures Inv(Wip(a, current, props))
  {
    if Live(a, current) {
      WipEffect(a, current, props);
      var b, wip := Wip(a, current, props), WipResult(a, current).value;
      forall id ensures Paired(b, id) {
        if id != current && id != wip && Live(a, id) {
          assert Paired(a, id) && Paired(a, current) && Paired(a, wip);
        }
      }
    } else {
      WipNeverFails(a, current);
    }
  }

  // The partner's fields one by one: the props are the new ones; identity, mode,
  // position and everything remembered are current's; it has no neighbours, no
  // effects and no deletions of its own.
  lemma WipFields(a: Arena, current: FiberId, props: nat)
    requires Inv(a) && Live(a, current)
    ensures WipResult(a, current).Ok?
    ensures var b, wip := Wip(a, current, props), WipResult(a, current).value;
            && Live(b, wip)
            && var node, source := Get(b, wip), Get(a, current);
               && node.id == wip && node.alternate == Some(current) && node.pendingProps == props
               && node.tag == source.tag && node.key == source.key && node.mode == source.mode
               && node.memo == source.memo
               && node.links.return_ == None && node.links.child == None && node.links.sibling == None
               && node.links.index == source.links.index
               && node.flags == 0 && node.subtreeFlags == 0 && node.deletions == None
  {
    WipEffect(a, current, props);
    GetId(a, current);
  }

  // ---------- other operations ----------

  // A new fiber takes the slot vacated last, at the generation it was left with, or
  // else a slot at the end; it starts out unlinked.  No other fiber changes.
  lemma CreateEffect(a: Arena, tag: nat, key: Option<string>, props: nat, mode: nat)
    requires Stored(a)
    ensures var b, id := Create(a, tag, key, props, mode), NextId(a);
            && id.arena == a.id
            && (a.vacant == [] ==> id.slot == |a.slots| && id.generation == 0 && |b.slots| == |a.slots| + 1)
            && (a.vacant != [] ==> && id.slot == a.vacant[|a.vacant| - 1] < |a.slots| == |b.slots|
                                   && id.generation == a.slots[id.slot].generation
                                   && b.vacant == a.vacant[..|a.vacant| - 1])
            && !Live(a, id) && Live(b, id)
            && var node := Get(b, id);
               && node.id == id && node.tag == tag && node.key == key && node.pendingProps == props && node.mode == mode
               && node.links == Links(None, None, None, 0) && node.alternate == None
               && node.flags == 0 && node.subtreeFlags == 0 && node.deletions == None
    ensures var b, id := Create(a, tag, key, props, mode), NextId(a);
            forall other :: other != id ==>
              (Live(b, other) <==> Live(a, other)) && (Live(a, other) ==> Get(b, other) == Get(a, other))
  {
    PlaceKeeps(a, NewNode(NextId(a), tag, key, props, mode));
    if a.vacant != [] {
      assert a.vacant[|a.vacant| - 1] < |a.slots|;
    }
  }

  // Which fibers can be reclaimed: live ones that nothing is linked to any more, and
  // whose slot has generations left.
  lemma ReclaimSucceedsExactly(a: Arena, fiber: FiberId)
    ensures ReclaimError(a, fiber).None? <==>
            && Live(a, fiber)
            && var node := Get(a, fiber);
               && node.links.return_.None? && node.links.child.None? && node.links.sibling.None?
               && node.alternate.None? && node.deletions.None?
               && (forall i :: 0 <= i < |a.deletionLists| ==> fiber !in a.deletionLists[i])
               && fiber.generation < 0xFFFF_FFFF_FFFF_FFFF
  {
  }

  // Its slot is vacated, is the next one to be used, and its id is stale.
  lemma ReclaimEffect(a: Arena, fiber: FiberId)
    requires Stored(a) && ReclaimError(a, fiber).None?
    ensures var b := Reclaim(a, fiber);
            && IdError(b, fiber) == Some(StaleGeneration)
            && NextId(b) == FiberId(a.id, fiber.slot, fiber.generation + 1)
            && forall other :: other != fiber ==>
                 (Live(b, other) <==> Live(a, other)) && (Live(a, other) ==> Get(b, other) == Get(a, other))
  {
    var b := Reclaim(a, fiber);
    forall other | other != fiber
      ensures (Live(b, other) <==> Live(a, other)) && (Live(a, other) ==> Get(b, other) == Get(a, other))
    {
      if other.slot == fiber.slot && other.arena == a.id { assert other.generation != fiber.generation; }
    }
  }

  // ---------- link_alternates ----------

  // Which fibers can be linked: two different live ones with equal tag and key.
  lemma LinkSucceedsExactly(a: Arena, x: FiberId, y: FiberId)
    ensures LinkError(a, x, y).None? <==>
            Live(a, x) && Live(a, y) && x != y && Get(a, x).tag == Get(a, y).tag && Get(a, x).key == Get(a, y).key
  {
  }

  // An id is live exactly if it names an occupied slot of this arena at the slot's
  // generation.
  lemma LiveExactly(a: Arena, id: FiberId)
    ensures Live(a, id) <==>
            && id.arena == a.id && id.slot < |a.slots| && a.slots[id.slot].generation == id.generation
            && a.slots[id.slot].node.Some?
  {
  }

  // The endpoint has no partner yet, or already has the other endpoint.
  predicate FreeFor(a: Arena, x: FiberId, y: FiberId)
    requires Live(a, x)
  {
    Get(a, x).alternate == None || Get(a, x).alternate == Some(y)
  }

  lemma LinkEffect(a: Arena, x: FiberId, y: FiberId)
    requires Stored(a) && LinkError(a, x, y).None?
    ensures var b := Link(a, x, y);
            && Stored(b) && Live(b, x) && Live(b, y)
            && Get(b, x) == Get(a, x).(alternate := Some(y)) && Get(b, y) == Get(a, y).(alternate := Some(x))
            && forall id :: id != x && id != y ==>
                 (Live(b, id) <==> Live(a, id)) && (Live(a, id) ==> Get(b, id) == Get(a, id))
  {
    GetId(a, x);
    GetId(a, y);
    PutKeeps(a, Get(a, x).(alternate := Some(y)));
    var c := WithAlternate(a, x, y);
    PutKeeps(c, Get(c, y).(alternate := Some(x)));
  }

  // link_alternates does not unlink a third partner: it keeps the invariant
  // exactly when it is rejected or both endpoints are free for each other.
  lemma LinkKeepsExactly(a: Arena, x: FiberId, y: FiberId)
    requires Inv(a)
    ensures Inv(Link(a, x, y)) <==> LinkError(a, x, y).Some? || (FreeFor(a, x, y) && FreeFor(a, y, x))
  {
    if LinkError(a, x, y).None? {
      LinkEffect(a, x, y);
      var b := Link(a, x, y);
      if FreeFor(a, x, y) && FreeFor(a, y, x) {
        forall id ensures Paired(b, id) {
          assert Paired(a, id) && Paired(a, x) && Paired(a, y);
        }
      } else {
        var end, other := if FreeFor(a, x, y) then y else x, if FreeFor(a, x, y) then x else y;
        var third := Get(a, end).alternate.value;
        assert Paired(a, end) && Paired(a, third);
        assert !Paired(b, third);
      }
    }
  }

  // ---------- runs ----------

  datatype Op =
    | CreateOp(tag: nat, key: Option<string>, props: nat, mode: nat)
    | WipOp(current: FiberId, props: nat)
    | LinkOp(first: FiberId, second: FiberId)
    | ReclaimOp(fiber: FiberId)
    | EditOp(fiber: FiberId, node: FiberNode)

  function Apply(a: Arena, op: Op): Arena {
    match op
    case CreateOp(tag, key, props, mode) => Create(a, tag, key, props, mode)
    case WipOp(current, props) => Wip(a, current, props)
    case LinkOp(x, y) => Link(a, x, y)
    case ReclaimOp(fiber) => Reclaim(a, fiber)
    case EditOp(fiber, node) => Edit(a, fiber, node)
  }

  // The caller's side of link_alternates; nothing is asked for the other calls.
  predicate Respects(a: Arena, op: Op) {
    op.LinkOp? && LinkError(a, op.first, op.second).None? ==>
      FreeFor(a, op.first, op.second) && FreeFor(a, op.second, op.first)
  }

  function Run(a: Arena, ops: seq<Op>): Arena
    decreases |ops|
  {
    if ops == [] then a else Run(Apply(a, ops[0]), ops[1..])
  }

  predicate AllRespect(a: Arena, ops: seq<Op>)
    decreases |ops|
  {
    ops == [] || (Respects(a, ops[0]) && AllRespect(Apply(a, ops[0]), ops[1..]))
  }

  lemma ApplyKeeps(a: Arena, op: Op)
    requires Inv(a) && Respects(a, op)
    ensures Inv(Apply(a, op))
  {
    match op
    case CreateOp(tag, key, props, mode) => CreateKeeps(a, tag, key, props, mode);
    case WipOp(current, props) => WipKeeps(a, current, props);
    case LinkOp(x, y) => LinkKeepsExactly(a, x, y);
    case ReclaimOp(fiber) => ReclaimKeeps(a, fiber);
    case EditOp(fiber, node) => EditKeeps(a, fiber, node);
  }

  lemma {:induction false} RunKeeps(a: Arena, ops: seq<Op>)
    requires Inv(a) && AllRespect(a, ops)
    ensures Inv(Run(a, ops))
    decreases |ops|
  {
    if ops != [] {
      ApplyKeeps(a, ops[0]);
      RunKeeps(Apply(a, ops[0]), ops[1..]);
    }
  }

  // Three fibers alike, the first linked with the second and then with the third.
  const FIRST := FiberId(0, 0, 0)
  const SECOND := FiberId(0, 1, 0)
  const THIRD := FiberId(0, 2, 0)
  const CREATIONS: seq<Op> := [CreateOp(5, None, 0, 0), CreateOp(5, None, 0, 0), CreateOp(5, None, 0, 0)]
  const RELINK_RUN: seq<Op> := CREATIONS + [LinkOp(FIRST, SECOND), LinkOp(FIRST, THIRD)]

  function Alike(id: FiberId, alternate: Option<FiberId>): SlotEntry {
    SlotEntry(0, Some(NewNode(id, 5, None, 0, 0).(alternate := alternate)))
  }

  lemma Creations()
    ensures Run(Arena(0, [], [], []), CREATIONS)
            == Arena(0, [Alike(FIRST, None), Alike(SECOND, None), Alike(THIRD, None)], [], [])
  {
    assert CREATIONS[1..][1..][1..] == [];
    var op := CreateOp(5, None, 0, 0);
    assert Apply(Arena(0, [], [], []), op) == Arena(0, [Alike(FIRST, None)], [], []);
  }

  lemma {:induction false} RunConcat(a: Arena, ops: seq<Op>, more: seq<Op>)
    ensures Run(a, ops + more) == Run(Run(a, ops), more)
    decreases |ops|
  {
    if ops == [] {
      assert ops + more == more;
    } else {
      assert (ops + more)[1..] == ops[1..] + more;
      RunConcat(Apply(a, ops[0]), ops[1..], more);
    }
  }

  // The second still points at the first, which has moved on; a
  // create_work_in_progress on the second then fails although it is live.
  lemma RelinkingBreaksPairs()
    ensures var a := Run(Arena(0, [], [], []), RELINK_RUN);
            !Involution(a) && Live(a, SECOND) && WipResult(a, SECOND) == Err(NonReciprocal(FIRST, SECOND))
  {
    var links := [LinkOp(FIRST, SECOND), LinkOp(FIRST, THIRD)];
    Creations();
    RunConcat(Arena(0, [], [], []), CREATIONS, links);
    var a := Run(Arena(0, [], [], []), CREATIONS);
    var b := Apply(a, links[0]);
    var c := Apply(b, links[1]);
    assert links[1..][1..] == [];
    assert Run(b, links[1..]) == c;
    assert b.slots == [Alike(FIRST, Some(SECOND)), Alike(SECOND, Some(FIRST)), Alike(THIRD, None)];
    assert c.slots == [Alike(FIRST, Some(THIRD)), Alike(SECOND, Some(FIRST)), Alike(THIRD, Some(FIRST))];
    assert !Paired(c, SECOND);
  }

  // From an empty arena, after any run in which link_alternates is only used on
  // endpoints that are free for each other: alternates pair live fibers off with
  // equal tag and key, no fiber is its own alternate, and
  // create_work_in_progress fails on no live fiber.
  lemma EveryRunIsPaired(arena: nat, ops: seq<Op>)
    requires AllRespect(Arena(arena, [], [], []), ops)
    ensures var a := Run(Arena(arena, [], [], []), ops);
            && (forall x :: Live(a, x) ==> WipResult(a, x).Ok?)
            && forall x :: Live(a, x) && Get(a, x).alternate.Some? ==>
                 var y := Get(a, x).alternate.value;
                 && y != x && Live(a, y) && Get(a, y).alternate == Some(x)
                 && Get(a, y).tag == Get(a, x).tag && Get(a, y).key == Get(a, x).key
  {
    var start := Arena(arena, [], [], []);
    assert Inv(start);
    RunKeeps(start, ops);
    var a := Run(start, ops);
    forall x | Live(a, x) ensures Paired(a, x) && WipResult(a, x).Ok? {
      WipNeverFails(a, x);
      assert Paired(a, x);
    }
  }

  // ---------- double buffering ----------

  // Repeated calls on a fiber return the same partner, a call on the partner
  // returns the fiber, whatever calls on the two come in between.
  lemma PingPong(a: Arena, current: FiberId, p1: nat, p2: nat)
    requires Inv(a) && Live(a, current)
    ensures WipResult(a, current).Ok?
    ensures var b, wip := Wip(a, current, p1), WipResult(a, current).value;
            && WipResult(b, current) == Ok(wip)
            && WipResult(b, wip) == Ok(current)
            && WipResult(Wip(b, current, p2), wip) == Ok(current)
            && WipResult(Wip(b, wip, p2), current) == Ok(wip)
            && |Wip(b, current, p2).slots| == |Wip(b, wip, p2).slots| == |b.slots|
  {
    WipEffect(a, current, p1);
    var b, wip := Wip(a, current, p1), WipResult(a, current).value;
    WipKeeps(a, current, p1);
    assert Paired(b, current) && Paired(b, wip);
    WipEffect(b, current, p2);
    WipEffect(b, wip, p2);
    WipKeeps(b, current, p2);
    WipKeeps(b, wip, p2);
    assert Paired(Wip(b, current, p2), wip) && Paired(Wip(b, wip, p2), current);
  }

  lemma {:induction false} CountUpdate(slots: seq<SlotEntry>, i: nat, entry: SlotEntry)
    requires i < |slots|
    ensures LiveCount(slots[i := entry]) + (if slots[i].node.Some? then 1 else 0)
            == LiveCount(slots) + (if entry.node.Some? then 1 else 0)
  {
    var n := |slots| - 1;
    assert slots[i := entry][..n] == if i < n then slots[..n][i := entry] else slots[..n];
    if i < n { CountUpdate(slots[..n], i, entry); }
  }

  lemma CountAppend(slots: seq<SlotEntry>, entry: SlotEntry)
    ensures LiveCount(slots + [entry]) == LiveCount(slots) + (if entry.node.Some? then 1 else 0)
  {
    assert (slots + [entry])[..|slots|] == slots;
  }

  // The arena gains one fiber on the first call for an unpaired fiber, and none
  // on any other call.
  lemma WipGrowth(a: Arena, current: FiberId, props: nat)
    requires Inv(a) && Live(a, current)
    ensures LiveCount(Wip(a, current, props).slots)
            == LiveCount(a.slots) + (if Get(a, current).alternate.None? then 1 else 0)
  {
    WipEffect(a, current, props);
    assert Paired(a, current);
    var wip := WipResult(a, current).value;
    var clone := CloneForAlternate(Get(a, current), wip, props);
    if Get(a, current).alternate.Some? {
      CountUpdate(a.slots, wip.slot, SlotEntry(wip.generation, Some(clone)));
    } else {
      PlaceKeeps(a, clone);
      var placed := Place(a, clone);
      if a.vacant == [] {
        CountAppend(a.slots, SlotEntry(wip.generation, Some(clone)));
      } else {
        CountUpdate(a.slots, wip.slot, SlotEntry(wip.generation, Some(clone)));
      }
      var node := Get(placed, current).(id := current, alternate := Some(wip));
      CountUpdate(placed.slots, current.slot, SlotEntry(current.generation, Some(node)));
    }
  }

  // ---------- stale handles ----------

  // An id that was once handed out and is no longer live.
  predicate Stale(a: Arena, id: FiberId) {
    id.arena == a.id && id.slot < |a.slots| && id.generation < a.slots[id.slot].generation
  }

  lemma ApplyKeepsStale(a: Arena, op: Op, id: FiberId)
    requires Inv(a) && Respects(a, op) && Stale(a, id)
    ensures Stale(Apply(a, op), id)
  {
    match op {
      case WipOp(current, props) =>
        WipNeverFails(a, current);
        if Live(a, current) {
          WipEffect(a, current, props);
          assert Paired(a, current);
        }
      case LinkOp(x, y) =>
        if LinkError(a, x, y).None? { LinkEffect(a, x, y); GetId(a, x); GetId(a, y); }
      case _ =>
    }
  }

  lemma {:induction false} RunKeepsStale(a: Arena, ops: seq<Op>, id: FiberId)
    requires Inv(a) && AllRespect(a, ops) && Stale(a, id)
    ensures Stale(Run(a, ops), id)
    decreases |ops|
  {
    if ops != [] {
      ApplyKeeps(a, ops[0]);
      ApplyKeepsStale(a, ops[0], id);
      RunKeepsStale(Apply(a, ops[0]), ops[1..], id);
    }
  }

  // A reclaimed fiber's id is dead for good: later runs may reuse its slot, but
  // the old id is never live again and is no fiber's alternate.
  lemma ReclaimedIsGone(a: Arena, fiber: FiberId, ops: seq<Op>)
    requires Inv(a) && ReclaimError(a, fiber).None? && AllRespect(Reclaim(a, fiber), ops)
    ensures var b := Run(Reclaim(a, fiber), ops);
            IdError(b, fiber) == Some(StaleGeneration) && !Live(b, fiber) && forall x :: Live(b, x) ==> Get(b, x).alternate != Some(fiber)
  {
    ReclaimKeeps(a, fiber);
    var c := Reclaim(a, fiber);
    RunKeepsStale(c, ops, fiber);
    RunKeeps(c, ops);
    var b := Run(c, ops);
    forall x | Live(b, x) ensures Get(b, x).alternate != Some(fiber) {
      assert Paired(b, x);
    }
  }
}
